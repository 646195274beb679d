/** hash_table of container.h:33-137: an open-addressing table with linear probing that doubles before it is half
    full. */
module HashTable {
  import opened BitMask
  import opened OpenAddressing

  // The two vectors hold what `cells` says.
  ghost predicate Stores<K, V>(table: array<(K, V)>, occupied: array<bool>, cells: seq<Cell<K, V>>)
    reads table, occupied
  {
    && table.Length == |cells| && occupied.Length == |cells|
    && forall j :: 0 <= j < |cells| ==>
         (occupied[j] <==> cells[j].Used?) && (cells[j].Used? ==> table[j] == (cells[j].key, cells[j].val))
  }

  // `part` holds exactly the entries of the first i slots.
  ghost predicate Collected<K(!new), V>(cells: seq<Cell<K, V>>, i: nat, part: map<K, V>) {
    && i <= |cells|
    && (forall j :: 0 <= j < i && cells[j].Used? ==> cells[j].key in part && part[cells[j].key] == cells[j].val)
    && (forall key :: key in part ==> Stored(cells[..i], key))
  }

  lemma Skipped<K(!new), V>(cells: seq<Cell<K, V>>, i: nat, part: map<K, V>)
    requires Collected(cells, i, part) && i < |cells| && cells[i].Free?
    ensures Collected(cells, i + 1, part) && Count(cells[..i + 1]) == Count(cells[..i])
  {
    assert cells[..i + 1][..i] == cells[..i];
    forall key | key in part
      ensures Stored(cells[..i + 1], key)
    {
      StoredMore(cells, i, key);
    }
  }

  lemma StoredMore<K, V>(cells: seq<Cell<K, V>>, i: nat, key: K)
    requires i < |cells| && Stored(cells[..i], key)
    ensures Stored(cells[..i + 1], key)
  {
    var j :| 0 <= j < i && cells[..i][j].Used? && cells[..i][j].key == key;
    assert cells[..i + 1][j] == cells[..i][j];
  }

  lemma Added<K(!new), V>(cells: seq<Cell<K, V>>, i: nat, part: map<K, V>)
    requires Collected(cells, i, part) && i < |cells| && cells[i].Used? && OnceEach(cells)
    ensures Collected(cells, i + 1, part[cells[i].key := cells[i].val])
    ensures Count(cells[..i + 1]) == Count(cells[..i]) + 1
  {
    assert cells[..i + 1][..i] == cells[..i];
    var part' := part[cells[i].key := cells[i].val];
    forall key | key in part'
      ensures Stored(cells[..i + 1], key)
    {
      if key == cells[i].key { assert cells[..i + 1][i] == cells[i]; } else { StoredMore(cells, i, key); }
    }
  }

  lemma NotYet<K(!new), V>(cells: seq<Cell<K, V>>, i: nat, part: map<K, V>)
    requires Collected(cells, i, part) && i < |cells| && cells[i].Used? && OnceEach(cells)
    ensures cells[i].key !in part
  {
  }

  lemma OtherKey<K(!new), V>(cells: seq<Cell<K, V>>, kh: K -> nat, m: map<K, V>, key: K, j: nat)
    requires Fits(cells, kh, m) && key !in m && j < |cells| && cells[j].Used?
    ensures cells[j].key != key
  {
    assert Entry(cells, kh, m, j);
  }

  lemma AllCollected<K(!new), V>(cells: seq<Cell<K, V>>, kh: K -> nat, part: map<K, V>, m: map<K, V>)
    requires Collected(cells, |cells|, part) && if |cells| == 0 then m == map[] else Fits(cells, kh, m)
    ensures part == m && cells[..|cells|] == cells
  {
    assert cells[..|cells|] == cells;
    forall j: nat | j < |cells|
      ensures Entry(cells, kh, m, j)
    {
    }
    forall key | key in m
      ensures key in part && part[key] == m[key]
    {
      assert Stored(cells, key);
      var j :| 0 <= j < |cells| && cells[j].Used? && cells[j].key == key;
      assert Entry(cells, kh, m, j);
    }
    forall key | key in part
      ensures key in m
    {
      var j :| 0 <= j < |cells| && cells[..|cells|][j].Used? && cells[..|cells|][j].key == key;
      assert Entry(cells, kh, m, j);
    }
  }

  lemma {:induction false} CountPrefix<K, V>(cells: seq<Cell<K, V>>, i: nat)
    requires i <= |cells|
    ensures Count(cells[..i]) <= Count(cells)
    decreases |cells|
  {
    if i < |cells| {
      CountPrefix(cells[..|cells| - 1], i);
      assert cells[..|cells| - 1][..i] == cells[..i];
    } else {
      assert cells[..i] == cells;
    }
  }

  lemma NothingCollected<K(!new), V>(cells: seq<Cell<K, V>>)
    ensures Collected(cells, 0, map[]) && Count(cells[..0]) == 0
  {
  }

  lemma PowerDouble(size: nat)
    requires Power(size)
    ensures Power(2 * size) && (size > 1 ==> size % 2 == 0)
  {
  }

  // Every entry is where the probe for its key ends.
  lemma ProbeEnd<K(!new), V>(cells: seq<Cell<K, V>>, kh: K -> nat, m: map<K, V>, j: nat) returns (d: nat)
    requires Fits(cells, kh, m) && j < |cells| && cells[j].Used?
    ensures d < |cells| && Ends(cells, kh, cells[j].key, d) && At(|cells|, Home(kh, cells[j].key, |cells|), d) == j
    ensures cells[j].key in m && m[cells[j].key] == cells[j].val
  {
    var key := cells[j].key;
    var n, h := |cells|, Home(kh, key, |cells|);
    d := Distance(n, h, j);
    assert Entry(cells, kh, m, j);
    forall e: nat {:trigger At(n, h, e)} | e < d
      ensures cells[At(n, h, e)].Used? && cells[At(n, h, e)].key != key
    {
      assert At(n, h, e) != j;
    }
  }

  // The scan of operator[]: the slot of key in a table that is not full, or the free slot where it would go.
  method Probe<K(==), V>(kh: K -> nat, table: array<(K, V)>, occupied: array<bool>, size: nat, key: K,
                         ghost cells: seq<Cell<K, V>>) returns (index: nat, ghost d: nat)
    requires Power(size) && |cells| == size && Stores(table, occupied, cells) && Count(cells) < size
    ensures d < size && Ends(cells, kh, key, d) && index == At(size, Home(kh, key, size), d)
  {
    hide And, Power, Count;
    MaskIsMod(kh(key), size);
    index := And(kh(key), size - 1);
    d := 0;
    ghost var h := Home(kh, key, size);
    ghost var free := FreeSlot(cells);
    while occupied[index] && table[index].0 != key
      invariant d < size && index == At(size, h, d) && Passed(cells, kh, key, d)
      invariant d <= Distance(size, h, free)
      decreases Distance(size, h, free) - d
    {
      MaskNext(index, size);
      index := And(index + 1, size - 1);
      d := d + 1;
      Within(cells, kh, key, d, free);
    }
  }

  // The scan of rehash: the first free slot from the home of a key that is not in the table.
  method FirstFree<K(!new), V>(kh: K -> nat, table: array<(K, V)>, occupied: array<bool>, size: nat, key: K,
                               ghost cells: seq<Cell<K, V>>, ghost m: map<K, V>)
    returns (index: nat, ghost d: nat)
    requires Power(size) && |cells| == size && Stores(table, occupied, cells) && Count(cells) < size
    requires Fits(cells, kh, m) && key !in m
    ensures d < size && Ends(cells, kh, key, d) && index == At(size, Home(kh, key, size), d) && cells[index].Free?
  {
    hide And, Power, Count, Fits;
    MaskIsMod(kh(key), size);
    index := And(kh(key), size - 1);
    d := 0;
    ghost var h := Home(kh, key, size);
    ghost var free := FreeSlot(cells);
    while occupied[index]
      invariant d < size && index == At(size, h, d) && Passed(cells, kh, key, d)
      invariant d <= Distance(size, h, free)
      decreases Distance(size, h, free) - d
    {
      OtherKey(cells, kh, m, key, index);
      MaskNext(index, size);
      index := And(index + 1, size - 1);
      d := d + 1;
      Within(cells, kh, key, d, free);
    }
  }

  // One entry whose key is not in the table yet goes into it.
  method Place<K(!new), V>(kh: K -> nat, table: array<(K, V)>, occupied: array<bool>, size: nat, key: K, val: V,
                           ghost cells: seq<Cell<K, V>>, ghost m: map<K, V>)
    returns (ghost cells': seq<Cell<K, V>>)
    requires Power(size) && |cells| == size && Stores(table, occupied, cells) && Count(cells) < size
    requires Fits(cells, kh, m) && key !in m
    modifies table, occupied
    ensures Stores(table, occupied, cells') && |cells'| == size && Fits(cells', kh, m[key := val])
    ensures Count(cells') == Count(cells) + 1
  {
    hide And, Power, Count, Fits, Ends, At;
    ghost var d;
    var index;
    index, d := FirstFree(kh, table, occupied, size, key, cells, m);
    Filled(cells, kh, m, key, d, val);
    CountUpdate(cells, index, Used(key, val));
    cells' := cells[index := Used(key, val)];
    table[index] := (key, val);
    occupied[index] := true;
  }

  class HashTable<K(==, !new), V> {
    const kh: K -> nat    // the hash function
    const blankKey: K     // K()
    const blank: V        // V()
    var table: array<(K, V)>
    var occupied: array<bool>
    var size: nat
    var load: nat
    ghost var cells: seq<Cell<K, V>>
    ghost var m: map<K, V>

    ghost predicate Valid()
      reads this, table, occupied
    {
      && size >= 256 && Power(size) && |cells| == size && Stores(table, occupied, cells)
      && Fits(cells, kh, m) && load == Count(cells) == |m| && load < size / 2
      && (size == 256 || size <= 4 * load)
    }

    // What rehash needs: the slots, if there are any yet, hold the entries of m.
    ghost predicate Holds()
      reads this, table, occupied
    {
      size == |cells| && Stores(table, occupied, cells) && if size == 0 then m == map[] else Fits(cells, kh, m)
    }

    constructor (kh: K -> nat, blankKey: K, blank: V)
      ensures Valid() && m == map[] && this.kh == kh && this.blank == blank
      ensures fresh(table) && fresh(occupied)
    {
      this.kh, this.blankKey, this.blank := kh, blankKey, blank;
      table, occupied := new (K, V)[0], new bool[0];
      size, load, cells, m := 0, 0, [], map[];
      new;
      Rehash(256);
    }

    method Rehash(newsize: nat)
      requires Holds() && Power(newsize) && Count(cells) < newsize
      modifies this`table, this`occupied, this`size, this`cells
      ensures size == newsize == |cells| && Stores(table, occupied, cells) && Fits(cells, kh, m)
      ensures Count(cells) == old(Count(cells))
      ensures fresh(table) && fresh(occupied)
    {
      var newtable := new (K, V)[newsize](_ => (blankKey, blank));
      var newoccupied := new bool[newsize](_ => false);
      ghost var moved: map<K, V> := map[];
      ghost var newcells := seq(newsize, _ => Free);
      CountNone(newcells);
      hide Power, Fits, Count, Collected, OnceEach;
      NothingCollected(cells);
      var i := 0;
      while i < size
        invariant i <= size && unchanged(this) && unchanged(table) && unchanged(occupied)
        invariant Stores(newtable, newoccupied, newcells)
        invariant |newcells| == newsize && Fits(newcells, kh, moved)
        invariant Collected(cells, i, moved) && Count(newcells) == Count(cells[..i])
      {
        if occupied[i] {
          NotYet(cells, i, moved);
          CountPrefix(cells, i);
          Added(cells, i, moved);
          newcells := Place(kh, newtable, newoccupied, newsize, table[i].0, table[i].1, newcells, moved);
          moved := moved[table[i].0 := table[i].1];
        } else {
          Skipped(cells, i, moved);
        }
        i := i + 1;
      }
      AllCollected(cells, kh, moved, m);
      table, occupied := newtable, newoccupied;
      size, cells := newsize, newcells;
    }

    // operator[]: the slot of key's entry, which is made with the blank value if the key is new. The table doubles
    // exactly when a new entry would fill half of it.
    method Index(key: K) returns (index: nat)
      requires Valid()
      modifies this, table, occupied
      ensures Valid() && ((fresh(table) && fresh(occupied)) || (table == old(table) && occupied == old(occupied)))
      ensures m == if key in old(m) then old(m) else old(m)[key := blank]
      ensures index < size && occupied[index] && table[index] == (key, m[key])
      ensures size == if key !in old(m) && old(|m|) + 1 >= old(size) / 2 then 2 * old(size) else old(size)
    {
      hide Power, Count, Fits, Ends, At, Home;
      ghost var d;
      index, d := Probe(kh, table, occupied, size, key, cells);
      Found(cells, kh, m, key, d);
      if !occupied[index] {
        load := load + 1;
        if load >= size / 2 {
          PowerDouble(size);
          Rehash(2 * size);
          index, d := Probe(kh, table, occupied, size, key, cells);
          Found(cells, kh, m, key, d);
        }
        Filled(cells, kh, m, key, d, blank);
        CountUpdate(cells, index, Used(key, blank));
        table[index] := (key, blank);
        occupied[index] := true;
        cells := cells[index := Used(key, blank)];
        m := m[key := blank];
      }
    }

    // A write through the reference that operator[] returned.
    method Assign(key: K, index: nat, val: V)
      requires Valid() && key in m && index < size && occupied[index] && table[index].0 == key
      modifies this`m, this`cells, table
      ensures Valid() && m == old(m)[key := val]
    {
      hide Power, Count, Fits;
      ghost var d := ProbeEnd(cells, kh, m, index);
      Filled(cells, kh, m, key, d, val);
      CountUpdate(cells, index, Used(key, val));
      table[index] := (key, val);
      cells := cells[index := Used(key, val)];
      m := m[key := val];
    }
  }

  // ------------------------------------------------------------------ iteration

  // The entries in slots i, i + 1, ..., in that order.
  function Entries<K, V>(cells: seq<Cell<K, V>>, i: nat): seq<(K, V)>
    decreases |cells| - i
  {
    if i >= |cells| then []
    else (if cells[i].Used? then [(cells[i].key, cells[i].val)] else []) + Entries(cells, i + 1)
  }

  lemma {:induction false} EntriesAt<K, V>(cells: seq<Cell<K, V>>, i: nat, j: nat)
    requires i <= j < |cells| && cells[j].Used?
    ensures (cells[j].key, cells[j].val) in Entries(cells, i)
    decreases j - i
  {
    if i < j { EntriesAt(cells, i + 1, j); }
  }

  lemma {:induction false} EntryFrom<K, V>(cells: seq<Cell<K, V>>, i: nat, e: (K, V)) returns (j: nat)
    requires e in Entries(cells, i)
    ensures i <= j < |cells| && cells[j] == Used(e.0, e.1)
    decreases |cells| - i
  {
    if cells[i].Used? && e == (cells[i].key, cells[i].val) {
      j := i;
    } else {
      j := EntryFrom(cells, i + 1, e);
    }
  }

  lemma {:induction false} EntriesCount<K, V>(cells: seq<Cell<K, V>>, i: nat)
    requires i <= |cells|
    ensures |Entries(cells, i)| == Count(cells) - Count(cells[..i])
    decreases |cells| - i
  {
    if i < |cells| {
      EntriesCount(cells, i + 1);
      assert cells[..i + 1][..i] == cells[..i];
    } else {
      assert cells[..i] == cells;
    }
  }

  lemma {:induction false} EntriesDistinct<K, V>(cells: seq<Cell<K, V>>, i: nat)
    requires OnceEach(cells)
    ensures forall a, b :: 0 <= a < b < |Entries(cells, i)| ==> Entries(cells, i)[a].0 != Entries(cells, i)[b].0
    decreases |cells| - i
  {
    if i < |cells| {
      EntriesDistinct(cells, i + 1);
      if cells[i].Used? {
        var rest := Entries(cells, i + 1);
        forall b | 0 <= b < |rest|
          ensures rest[b].0 != cells[i].key
        {
          var j := EntryFrom(cells, i + 1, rest[b]);
        }
      }
    }
  }

  // Iteration over a table yields each entry of its map exactly once and nothing else.
  lemma IterationYieldsMap<K(!new), V>(cells: seq<Cell<K, V>>, kh: K -> nat, m: map<K, V>)
    requires Fits(cells, kh, m)
    ensures |Entries(cells, 0)| == Count(cells)
    ensures forall a, b :: 0 <= a < b < |Entries(cells, 0)| ==> Entries(cells, 0)[a].0 != Entries(cells, 0)[b].0
    ensures forall key :: key in m ==> (key, m[key]) in Entries(cells, 0)
    ensures forall e :: e in Entries(cells, 0) ==> e.0 in m && m[e.0] == e.1
  {
    EntriesCount(cells, 0);
    EntriesDistinct(cells, 0);
    forall key | key in m
      ensures (key, m[key]) in Entries(cells, 0)
    {
      assert Stored(cells, key);
      var j :| 0 <= j < |cells| && cells[j].Used? && cells[j].key == key;
      assert Entry(cells, kh, m, j);
      EntriesAt(cells, 0, j);
    }
    forall e | e in Entries(cells, 0)
      ensures e.0 in m && m[e.0] == e.1
    {
      var j := EntryFrom(cells, 0, e);
      assert Entry(cells, kh, m, j);
    }
  }

  // The conversions between uint64_t and the int that the constructor of const_iterator takes.
  function ToInt(word: nat): int {
    if word % 0x1_0000_0000 < 0x8000_0000 then word % 0x1_0000_0000 else word % 0x1_0000_0000 - 0x1_0000_0000
  }

  function ToWord(i: int): nat {
    i % 0x1_0000_0000_0000_0000
  }

  // end() is the position one past the last slot exactly for tables of fewer than 2^31 slots.
  lemma EndIsSize(size: nat)
    requires size < 0x8000_0000_0000_0000
    ensures ToWord(ToInt(size)) == size <==> size < 0x8000_0000
  {
  }

  // A power of two that does not fit the int becomes 0, but for 2^31, which becomes a position behind any table.
  lemma EndOfBigTable(size: nat)
    requires Power(size) && size >= 0x8000_0000
    ensures size == 0x8000_0000 || size % 0x1_0000_0000 == 0
    ensures ToWord(ToInt(size)) == if size == 0x8000_0000 then 0xFFFF_FFFF_8000_0000 else 0
  {
    TwoToWord();
    PowerAbove(size, 31);
    hide Power, TwoTo;
    BigToInt(size);
  }

  // Where end() is: at the end, behind any table, or at the start.
  lemma EndPosition(size: nat)
    requires Power(size)
    ensures size < 0x8000_0000 ==> ToWord(ToInt(size)) == size
    ensures size == 0x8000_0000 ==> ToWord(ToInt(size)) > size
    ensures size > 0x8000_0000 ==> ToWord(ToInt(size)) == 0
  {
    if size >= 0x8000_0000 { EndOfBigTable(size); }
  }

  lemma BigToInt(size: nat)
    requires size == 0x8000_0000 || size % 0x1_0000_0000 == 0
    ensures ToInt(size) == if size == 0x8000_0000 then -0x8000_0000 else 0
  {
  }

  class ConstIterator<K(==, !new), V> {
    const a: HashTable<K, V>
    var index: nat

    constructor (a: HashTable<K, V>, index: int)
      requires a.Valid()
      ensures this.a == a && ToWord(index) <= this.index
      ensures this.index < a.size ==> a.occupied[this.index]
      ensures forall k: nat :: ToWord(index) <= k < this.index && k < a.size ==> !a.occupied[k]
      ensures Entries(a.cells, this.index) == Entries(a.cells, ToWord(index))
      ensures if ToWord(index) >= a.size then this.index == ToWord(index) else this.index <= a.size
    {
      this.a := a;
      this.index := ToWord(index);
      new;
      hide Fits, Count, Power, ToWord;
      while this.index < a.size && !a.occupied[this.index]
        invariant ToWord(index) <= this.index
        invariant forall k: nat :: ToWord(index) <= k < this.index && k < a.size ==> !a.occupied[k]
        invariant if ToWord(index) >= a.size then this.index == ToWord(index) else this.index <= a.size
        invariant Entries(a.cells, this.index) == Entries(a.cells, ToWord(index))
        decreases a.size - this.index
      {
        this.index := this.index + 1;
      }
    }

    // operator++
    method Increment()
      requires a.Valid() && (index < a.size ==> a.occupied[index])
      modifies this`index
      ensures index < a.size ==> a.occupied[index]
      ensures if old(index) < a.size
        then index > old(index) && Entries(a.cells, old(index)) == [a.table[old(index)]] + Entries(a.cells, index)
        else index == old(index)
      ensures old(index) < a.size ==> index <= a.size
    {
      hide Fits, Count, Power;
      if index < a.size {
        index := index + 1;
        while index < a.size && !a.occupied[index]
          invariant old(index) < index <= a.size && Entries(a.cells, old(index) + 1) == Entries(a.cells, index)
          decreases a.size - index
        {
          index := index + 1;
        }
      }
    }
  }
}
