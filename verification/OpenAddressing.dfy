/** Linear probing on values: what the slots of hash_table (container.h:33-137) mean as a finite map, and why a probe
    that meets a free slot has missed nothing. */
module OpenAddressing {
  datatype Cell<K, V> = Free | Used(key: K, val: V)

  function Home<K>(kh: K -> nat, key: K, n: nat): (h: nat)
    requires n > 0
    ensures h < n
  {
    kh(key) % n
  }

  // The slot d places after slot h in a table of n slots, going round.
  function At(n: nat, h: nat, d: nat): (j: nat)
    requires h < n && d < n
    ensures j < n
  {
    if h + d < n then h + d else h + d - n
  }

  function Distance(n: nat, h: nat, j: nat): (d: nat)
    requires h < n && j < n
    ensures d < n && At(n, h, d) == j
  {
    if j >= h then j - h else j + n - h
  }

  // The first d slots probed from slot h are all used.
  ghost predicate Full<K, V>(cells: seq<Cell<K, V>>, h: nat, d: nat)
    requires h < |cells| && d <= |cells|
  {
    forall e: nat {:trigger At(|cells|, h, e)} :: e < d ==> cells[At(|cells|, h, e)].Used?
  }

  // The entry in slot j belongs to the map and is reached from its home slot over used slots only.
  ghost predicate Entry<K(!new), V>(cells: seq<Cell<K, V>>, kh: K -> nat, m: map<K, V>, j: nat)
    requires j < |cells|
  {
    cells[j].Used? ==>
      && cells[j].key in m && m[cells[j].key] == cells[j].val
      && Full(cells, Home(kh, cells[j].key, |cells|), Distance(|cells|, Home(kh, cells[j].key, |cells|), j))
  }

  ghost predicate Stored<K, V>(cells: seq<Cell<K, V>>, key: K) {
    exists j :: 0 <= j < |cells| && cells[j].Used? && cells[j].key == key
  }

  ghost predicate OnceEach<K, V>(cells: seq<Cell<K, V>>) {
    forall i, j :: 0 <= i < j < |cells| && cells[i].Used? && cells[j].Used? ==> cells[i].key != cells[j].key
  }

  // The slots hold exactly the entries of m, each once and where a probe finds it.
  ghost predicate Fits<K(!new), V>(cells: seq<Cell<K, V>>, kh: K -> nat, m: map<K, V>) {
    && |cells| > 0 && OnceEach(cells)
    && (forall j: nat {:trigger Entry(cells, kh, m, j)} :: j < |cells| ==> Entry(cells, kh, m, j))
    && (forall key :: key in m ==> Stored(cells, key))
  }

  // A probe for key has passed d used slots with other keys.
  ghost predicate Passed<K, V>(cells: seq<Cell<K, V>>, kh: K -> nat, key: K, d: nat)
    requires |cells| > 0 && d <= |cells|
  {
    forall e: nat {:trigger At(|cells|, Home(kh, key, |cells|), e)} :: e < d ==>
      var c := cells[At(|cells|, Home(kh, key, |cells|), e)]; c.Used? && c.key != key
  }

  // Where a probe for key ends: after d such slots it meets the key or a free slot.
  ghost predicate Ends<K, V>(cells: seq<Cell<K, V>>, kh: K -> nat, key: K, d: nat)
    requires |cells| > 0 && d < |cells|
  {
    && Passed(cells, kh, key, d)
    && var c := cells[At(|cells|, Home(kh, key, |cells|), d)]; c.Used? ==> c.key == key
  }

  function Count<K, V>(cells: seq<Cell<K, V>>): nat {
    if cells == [] then 0 else Count(cells[..|cells| - 1]) + if cells[|cells| - 1].Used? then 1 else 0
  }

  // ------------------------------------------------------------------ counting

  lemma {:induction false} CountNone<K, V>(cells: seq<Cell<K, V>>)
    requires forall j :: 0 <= j < |cells| ==> cells[j].Free?
    ensures Count(cells) == 0
  {
    if cells != [] { CountNone(cells[..|cells| - 1]); }
  }

  lemma {:induction false} CountUpdate<K, V>(cells: seq<Cell<K, V>>, j: nat, c: Cell<K, V>)
    requires j < |cells|
    ensures Count(cells[j := c]) == Count(cells) - (if cells[j].Used? then 1 else 0) + if c.Used? then 1 else 0
  {
    var n := |cells| - 1;
    if j < n {
      CountUpdate(cells[..n], j, c);
      assert cells[j := c][..n] == cells[..n][j := c];
    } else {
      assert cells[j := c][..n] == cells[..n];
    }
  }

  // A table that is not full has a slot at which every probe stops.
  lemma FreeSlot<K, V>(cells: seq<Cell<K, V>>) returns (j: nat)
    requires Count(cells) < |cells|
    ensures j < |cells| && cells[j].Free?
  {
    FullCount(cells);
    j :| 0 <= j < |cells| && cells[j].Free?;
  }

  lemma {:induction false} FullCount<K, V>(cells: seq<Cell<K, V>>)
    ensures (forall j :: 0 <= j < |cells| ==> cells[j].Used?) ==> Count(cells) == |cells|
  {
    if cells != [] { FullCount(cells[..|cells| - 1]); }
  }

  // ------------------------------------------------------------------ probing

  // A probe does not pass a free slot.
  lemma Within<K, V>(cells: seq<Cell<K, V>>, kh: K -> nat, key: K, d: nat, j: nat)
    requires |cells| > 0 && d <= |cells| && Passed(cells, kh, key, d) && j < |cells| && cells[j].Free?
    ensures d <= Distance(|cells|, Home(kh, key, |cells|), j)
  {
    var e := Distance(|cells|, Home(kh, key, |cells|), j);
    assert At(|cells|, Home(kh, key, |cells|), e) == j;
  }

  // A probe that ends at a free slot proves that the key is not in the map; one that ends at a used slot has found it.
  lemma Found<K(!new), V>(cells: seq<Cell<K, V>>, kh: K -> nat, m: map<K, V>, key: K, d: nat)
    requires Fits(cells, kh, m) && d < |cells| && Ends(cells, kh, key, d)
    ensures var c := cells[At(|cells|, Home(kh, key, |cells|), d)];
            (key in m <==> c.Used?) && (c.Used? ==> c.key == key && c.val == m[key])
  {
    var n, h := |cells|, Home(kh, key, |cells|);
    var j := At(n, h, d);
    assert Entry(cells, kh, m, j);
    if key in m && cells[j].Free? {
      assert Stored(cells, key);
      var x :| 0 <= x < n && cells[x].Used? && cells[x].key == key;
      assert Entry(cells, kh, m, x);
      Missed(cells, kh, key, d, x);
    }
  }

  lemma Missed<K, V>(cells: seq<Cell<K, V>>, kh: K -> nat, key: K, d: nat, x: nat)
    requires d < |cells| && x < |cells| && Passed(cells, kh, key, d)
    requires cells[x].Used? && cells[x].key == key
    requires Full(cells, Home(kh, key, |cells|), Distance(|cells|, Home(kh, key, |cells|), x))
    ensures cells[At(|cells|, Home(kh, key, |cells|), d)].Used?
  {
  }

  // ------------------------------------------------------------------ updating

  // Filling the slot at which the probe for key ended adds or replaces the key's entry.
  lemma Filled<K(!new), V>(cells: seq<Cell<K, V>>, kh: K -> nat, m: map<K, V>, key: K, d: nat, val: V)
    requires Fits(cells, kh, m) && d < |cells| && Ends(cells, kh, key, d)
    ensures Fits(cells[At(|cells|, Home(kh, key, |cells|), d) := Used(key, val)], kh, m[key := val])
  {
    var n, h := |cells|, Home(kh, key, |cells|);
    var j := At(n, h, d);
    var cells' := cells[j := Used(key, val)];
    Found(cells, kh, m, key, d);
    FilledOnce(cells, kh, m, key, j, val);
    forall i: nat {:trigger Entry(cells', kh, m[key := val], i)} | i < n
      ensures Entry(cells', kh, m[key := val], i)
    {
      FilledEntry(cells, kh, m, key, d, val, i);
    }
    forall k | k in m[key := val]
      ensures Stored(cells', k)
    {
      FilledStored(cells, kh, m, key, j, val, k);
    }
  }

  lemma FilledOnce<K(!new), V>(cells: seq<Cell<K, V>>, kh: K -> nat, m: map<K, V>, key: K, j: nat, val: V)
    requires Fits(cells, kh, m) && j < |cells|
    requires (key in m <==> cells[j].Used?) && (cells[j].Used? ==> cells[j].key == key)
    ensures OnceEach(cells[j := Used(key, val)])
  {
    forall i | 0 <= i < |cells| && i != j && cells[i].Used?
      ensures cells[i].key != key
    {
      assert Entry(cells, kh, m, i);
    }
  }

  lemma FilledStored<K(!new), V>(cells: seq<Cell<K, V>>, kh: K -> nat, m: map<K, V>, key: K, j: nat, val: V, k: K)
    requires Fits(cells, kh, m) && j < |cells| && k in m[key := val]
    requires cells[j].Used? ==> cells[j].key == key
    ensures Stored(cells[j := Used(key, val)], k)
  {
    var cells' := cells[j := Used(key, val)];
    if k == key {
      assert cells'[j].Used? && cells'[j].key == k;
    } else {
      assert Stored(cells, k);
      var x :| 0 <= x < |cells| && cells[x].Used? && cells[x].key == k;
      assert cells'[x].Used? && cells'[x].key == k;
    }
  }

  lemma FilledEntry<K(!new), V>(cells: seq<Cell<K, V>>, kh: K -> nat, m: map<K, V>, key: K, d: nat, val: V, i: nat)
    requires Fits(cells, kh, m) && d < |cells| && Ends(cells, kh, key, d) && i < |cells|
    ensures Entry(cells[At(|cells|, Home(kh, key, |cells|), d) := Used(key, val)], kh, m[key := val], i)
  {
    var n, h := |cells|, Home(kh, key, |cells|);
    var j := At(n, h, d);
    Found(cells, kh, m, key, d);
    assert Entry(cells, kh, m, i);
    if i == j {
      assert Full(cells, h, d);
      assert Distance(n, h, j) == d;
    } else if cells[i].Used? {
      var hi := Home(kh, cells[i].key, n);
      assert cells[i].key != key;
    }
  }

}
