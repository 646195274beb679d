/** Per-thread intermediate output: a sorted array of keys, each with a chain of value chunks. */
module KeyvalsArray {
  import opened Collections
  import opened KeyValue

  const DEFAULT_KEYVAL_ARR_LEN := 10
  const DEFAULT_VALS_ARR_LEN := 10

  // ---------- Specification ----------

  /** A key with its chunks, newest chunk first, each chunk in insertion order. */
  datatype Entry = Entry(key: Key, chunks: seq<seq<Word>>)

  /** Size of the newest chunk in a chain of n chunks: sizes double from DEFAULT_VALS_ARR_LEN. */
  function Capacity(n: nat): (c: nat)
    requires n > 0
    ensures c >= 10 && (n == 1 ==> c == 10)
  {
    if n == 1 then DEFAULT_VALS_ARR_LEN else 2 * Capacity(n - 1)
  }

  ghost predicate WellFilled(chunks: seq<seq<Word>>) {
    && chunks != []
    && 1 <= |chunks[0]| <= Capacity(|chunks|)
    && forall i | 1 <= i < |chunks| :: |chunks[i]| == Capacity(|chunks| - i)
  }

  ghost predicate StrictlySorted(v: seq<Entry>) {
    forall i, j | 0 <= i < j < |v| :: v[i].key.rank < v[j].key.rank
  }

  ghost predicate WellFormed(v: seq<Entry>) {
    && StrictlySorted(v)
    && forall i | 0 <= i < |v| :: WellFilled(v[i].chunks)
  }

  /** Append to the newest chunk, or start a chunk of twice the size when it is full. */
  function AddValue(chunks: seq<seq<Word>>, x: Word): seq<seq<Word>> {
    if chunks == [] then [[x]]
    else if |chunks[0]| >= Capacity(|chunks|) then [[x]] + chunks
    else [chunks[0] + [x]] + chunks[1..]
  }

  /** The reference meaning of inserting (key, x): walk the keys in order. */
  function InsertEntry(v: seq<Entry>, key: Key, x: Word): seq<Entry> {
    if v == [] then [Entry(key, [[x]])]
    else if v[0].key.rank < key.rank then [v[0]] + InsertEntry(v[1..], key, x)
    else if v[0].key.rank == key.rank then [Entry(v[0].key, AddValue(v[0].chunks, x))] + v[1..]
    else [Entry(key, [[x]])] + v
  }

  /** All values held for keys comparing equal to `rank`. */
  function ValuesOf(v: seq<Entry>, rank: real): seq<Word> {
    if v == [] then []
    else (if v[0].key.rank == rank then Flatten(v[0].chunks) else []) + ValuesOf(v[1..], rank)
  }

  lemma {:induction false} InsertEntryAt(v: seq<Entry>, i: nat, key: Key, x: Word)
    requires i <= |v| && StrictlySorted(v)
    requires forall j | 0 <= j < i :: v[j].key.rank < key.rank
    requires i < |v| ==> v[i].key.rank >= key.rank
    ensures InsertEntry(v, key, x) ==
            if i < |v| && v[i].key.rank == key.rank
            then v[i := Entry(v[i].key, AddValue(v[i].chunks, x))]
            else v[..i] + [Entry(key, [[x]])] + v[i..]
  {
    hide AddValue;
    if v != [] {
      assert v == [v[0]] + v[1..];
      if i > 0 { InsertEntryAt(v[1..], i - 1, key, x); }
      if i < |v| { ConsUpdate(v, i, Entry(v[i].key, AddValue(v[i].chunks, x))); }
      ConsInsert(v, i, Entry(key, [[x]]));
    }
  }

  lemma ConsUpdate(v: seq<Entry>, i: nat, e: Entry)
    requires i < |v|
    ensures v[i := e] == if i == 0 then [e] + v[1..] else [v[0]] + v[1..][i - 1 := e]
  {
  }

  lemma ConsInsert(v: seq<Entry>, i: nat, e: Entry)
    requires v != [] && i <= |v|
    ensures v[..i] + [e] + v[i..] ==
            if i == 0 then [e] + v else [v[0]] + (v[1..][..i - 1] + [e] + v[1..][i - 1..])
  {
  }

  lemma AddValueContents(chunks: seq<seq<Word>>, x: Word)
    ensures multiset(Flatten(AddValue(chunks, x))) == multiset(Flatten(chunks)) + multiset{x}
    ensures |Flatten(AddValue(chunks, x))| == |Flatten(chunks)| + 1
  {
    var r := AddValue(chunks, x);
    if chunks == [] {
      assert Flatten([[x]]) == [x] + Flatten([[x]][1..]) == [x];
    } else {
      assert r[1..] == if |chunks[0]| >= Capacity(|chunks|) then chunks else chunks[1..];
    }
  }

  lemma AddValueWellFilled(chunks: seq<seq<Word>>, x: Word)
    requires chunks == [] || WellFilled(chunks)
    ensures WellFilled(AddValue(chunks, x))
  {
    var r := AddValue(chunks, x);
    if chunks != [] {
      forall i | 1 <= i < |r| ensures |r[i]| == Capacity(|r| - i) {
        assert r[i] == if |r| > |chunks| then chunks[i - 1] else chunks[i];
      }
    }
  }

  lemma {:induction false} InsertEntryAbove(v: seq<Entry>, key: Key, x: Word, low: real)
    requires low < key.rank && forall i | 0 <= i < |v| :: low < v[i].key.rank
    ensures forall i | 0 <= i < |InsertEntry(v, key, x)| :: low < InsertEntry(v, key, x)[i].key.rank
  {
    if v != [] && v[0].key.rank < key.rank {
      InsertEntryAbove(v[1..], key, x, low);
    }
  }

  /** Inserting keeps the array strictly sorted, with only the newest chunk of a key partly filled. */
  lemma {:induction false} InsertEntryWellFormed(v: seq<Entry>, key: Key, x: Word)
    requires WellFormed(v)
    ensures WellFormed(InsertEntry(v, key, x))
  {
    if v == [] || v[0].key.rank > key.rank {
      AddValueWellFilled([], x);
    } else if v[0].key.rank == key.rank {
      AddValueWellFilled(v[0].chunks, x);
    } else {
      InsertEntryWellFormed(v[1..], key, x);
      InsertEntryAbove(v[1..], key, x, v[0].key.rank);
    }
  }

  /** Inserting adds exactly one value to exactly the inserted key. */
  lemma {:induction false} InsertEntryValues(v: seq<Entry>, key: Key, x: Word, rank: real)
    ensures multiset(ValuesOf(InsertEntry(v, key, x), rank)) ==
            multiset(ValuesOf(v, rank)) + if rank == key.rank then multiset{x} else multiset{}
  {
    var r := InsertEntry(v, key, x);
    if v == [] || v[0].key.rank > key.rank {
      AddValueContents([], x);
      assert r[1..] == v;
    } else if v[0].key.rank == key.rank {
      AddValueContents(v[0].chunks, x);
    } else {
      InsertEntryValues(v[1..], key, x, rank);
      assert r[1..] == InsertEntry(v[1..], key, x);
    }
  }

  // ---------- Implementation ----------

  /** A val_t: a fixed-size block of values and the next (older, half as large) block.
      `owner` records the array and key the chunk was allocated for. */
  class ValChunk {
    const size: nat
    ghost const home: KeyvalsArr
    ghost const rank: real
    var nextInsertPos: nat
    var nextVal: ValChunk?
    var slots: seq<Word>

    constructor (size: nat, next: ValChunk?, ghost home: KeyvalsArr, ghost rank: real)
      ensures this.size == size && this.home == home && this.rank == rank
      ensures nextInsertPos == 0 && nextVal == next && |slots| == size
    {
      this.size, this.home, this.rank := size, home, rank;
      nextInsertPos, nextVal := 0, next;
      slots := seq(size, _ => 0);
    }

    ghost predicate Valid()
      reads this
    {
      nextInsertPos <= size == |slots|
    }

    function Filled(): seq<Word>
      requires Valid()
      reads this
    {
      slots[..nextInsertPos]
    }

    method Append(val: Word)
      requires Valid() && nextInsertPos < size
      modifies this
      ensures Valid() && nextVal == old(nextVal) && nextInsertPos == old(nextInsertPos) + 1
      ensures Filled() == old(Filled()) + [val]
    {
      slots := slots[nextInsertPos := val];
      nextInsertPos := nextInsertPos + 1;
    }
  }

  /** A keyvals_t, stored by value in the array. */
  datatype Keyvals = Keyvals(len: nat, key: Key, vals: ValChunk?)

  /** From c on, cs is a linked chain of chunks of doubling sizes, allocated for one key of `home`
      and holding the given contents. */
  ghost predicate ChainHolds(c: ValChunk?, cs: seq<ValChunk>, chunks: seq<seq<Word>>, home: KeyvalsArr, rank: real)
    reads cs
    decreases |cs|
  {
    if cs == [] then c == null && chunks == []
    else
      && c == cs[0] && chunks != []
      && c.Valid() && c.size == Capacity(|cs|) && c.home == home && c.rank == rank
      && c.Filled() == chunks[0]
      && ChainHolds(c.nextVal, cs[1..], chunks[1..], home, rank)
  }

  lemma {:induction false} ChainMembers(c: ValChunk?, cs: seq<ValChunk>, chunks: seq<seq<Word>>, home: KeyvalsArr,
                                        rank: real)
    requires ChainHolds(c, cs, chunks, home, rank)
    ensures |cs| == |chunks|
    ensures forall d | d in cs :: d.home == home && d.rank == rank && d.size <= Capacity(|cs|)
    decreases |cs|
  {
    if cs != [] {
      ChainMembers(c.nextVal, cs[1..], chunks[1..], home, rank);
    }
  }

  /** The search of insert_keyval_merged: compare with the last key, else bisect. */
  method FindSlot(arr: array<Keyvals>, len: nat, key: Key) returns (low: nat, cmp: int)
    requires len <= arr.Length
    requires forall i, j | 0 <= i < j < len :: arr[i].key.rank < arr[j].key.rank
    ensures low <= len
    ensures forall j | 0 <= j < low :: arr[j].key.rank < key.rank
    ensures low < len ==> arr[low].key.rank >= key.rank
    ensures (len > 0 && cmp == 0) <==> (low < len && arr[low].key.rank == key.rank)
  {
    var high: int, lo: int := len, -1;
    cmp := 1;
    if len > 0 {
      cmp := KeyCmp(arr[len - 1].key, key);
    }
    if cmp > 0 {
      while high - lo > 1
        invariant -1 <= lo < high <= len
        invariant forall j | 0 <= j <= lo :: arr[j].key.rank <= key.rank
        invariant forall j | high <= j < len :: arr[j].key.rank > key.rank
      {
        var next := (high + lo) / 2;
        if KeyCmp(arr[next].key, key) > 0 {
          high := next;
        } else {
          lo := next;
        }
      }
      if lo < 0 {
        lo := 0;
      }
      if len > 0 {
        cmp := KeyCmp(arr[lo].key, key);
        if cmp < 0 {
          lo := lo + 1;
        }
      }
      low := lo;
    } else if cmp < 0 {
      low := len;
    } else {
      low := len - 1;
    }
  }

  ghost predicate ArrHolds(a: KeyvalsArr)
    reads a`len, a`allocLen, a`arr, a`entries, a`chains, a`owned, a.arr, a.owned
  {
    && a.arr.Length == a.allocLen && a.len <= a.allocLen
    && |a.chains| == |a.entries| == a.len
    && forall i {:trigger a.SlotHolds(i)} | 0 <= i < a.len :: a.SlotHolds(i)
  }

  /** A keyvals_arr_t. */
  class KeyvalsArr {
    var len: nat
    var allocLen: nat
    var pos: nat
    var arr: array<Keyvals>
    ghost var entries: seq<Entry>
    ghost var chains: seq<seq<ValChunk>>
    ghost var owned: set<ValChunk>   // every chunk of every chain

    /** The heap holds the entries; nothing is said about their order. */
    ghost predicate Holds()
      reads this`len, this`allocLen, this`arr, this`entries, this`chains, this`owned, arr, owned
    {
      len == |entries| && ArrHolds(this)
    }

    /** Slot i of the array, its chain of chunks and its abstract entry agree. */
    ghost predicate SlotHolds(i: nat)
      requires i < arr.Length && i < |chains| && i < |entries|
      reads this`len, this`allocLen, this`arr, this`entries, this`chains, this`owned, arr, owned
    {
      && (forall c | c in chains[i] :: c in owned)
      && arr[i].key == entries[i].key
      && chains[i] != []
      && ChainHolds(arr[i].vals, chains[i], entries[i].chunks, this, arr[i].key.rank)
      && arr[i].len == |Flatten(entries[i].chunks)|
    }

    ghost predicate Valid()
      reads this`len, this`allocLen, this`arr, this`entries, this`chains, this`owned, arr, owned
    {
      Holds() && WellFormed(entries)
    }

    /** The zeroed array left by mem_calloc. */
    constructor ()
      ensures Valid() && fresh(arr) && owned == {} && entries == [] && pos == 0
    {
      len, allocLen, pos := 0, 0, 0;
      entries, chains := [], [];
      arr := new Keyvals[0];
      owned := {};
    }

    /** If the array is full, double it and copy over. */
    method EnsureRoom()
      requires Holds()
      modifies this
      ensures Holds() && fresh(owned - old(owned)) && entries == old(entries) && len < allocLen
      ensures len == old(len) && pos == old(pos) && chains == old(chains) && (arr == old(arr) || fresh(arr))
      ensures allocLen == if old(len) < old(allocLen) then old(allocLen)
                          else if old(allocLen) == 0 then 10 else 2 * old(allocLen)
      ensures old(len) < old(allocLen) ==> arr == old(arr)
      ensures forall i | 0 <= i < len :: arr[i] == old(arr[i])
    {
      if len == allocLen {
        var n := if allocLen == 0 then DEFAULT_KEYVAL_ARR_LEN else 2 * allocLen;
        var bigger := new Keyvals[n](i requires 0 <= i < n reads this, arr =>
          if i < len && i < arr.Length then arr[i] else Keyvals(0, Key(0.0, 0), null));
        allocLen := n;
        arr := bigger;
        forall i | 0 <= i < len ensures SlotHolds(i) {
          assert old(SlotHolds(i));
        }
      }
    }

    /** The memmove making room at slot low. */
    method MoveUp(low: nat)
      requires low <= len < arr.Length
      modifies arr
      ensures forall i | 0 <= i <= len && i != low :: arr[i] == old(arr[if i < low then i else i - 1])
    {
      forall i | low <= i < len {
        arr[i + 1] := arr[i];
      }
    }

    /** Open slot low for a key not present and give it its first chunk, holding val. */
    method NewEntry(low: nat, key: Key, val: Word)
      requires Holds() && len < allocLen && low <= len
      modifies this, arr
      ensures Holds() && fresh(owned - old(owned)) && arr == old(arr) && pos == old(pos)
      ensures entries == old(entries)[..low] + [Entry(key, [[val]])] + old(entries)[low..]
    {
      MoveUp(low);
      var newVals := new ValChunk(DEFAULT_VALS_ARR_LEN, null, this, key.rank);
      newVals.Append(val);
      arr[low] := Keyvals(1, key, newVals);
      len := len + 1;
      chains := chains[..low] + [[newVals]] + chains[low..];
      owned := owned + {newVals};
      entries := entries[..low] + [Entry(key, [[val]])] + entries[low..];
      AddValueContents([], val);
      forall i | 0 <= i < len
        ensures SlotHolds(i)
      {
        if i != low {
          ghost var i' := if i < low then i else i - 1;
          assert old(SlotHolds(i'));
          assert arr[i] == old(arr[i']) && chains[i] == old(chains[i']) && entries[i] == old(entries[i']);
        }
      }
    }

    /** Chunks of different keys are different objects. */
    lemma HeadsApart(low: nat)
      requires Holds() && low < len
      requires forall i | 0 <= i < len && i != low :: entries[i].key.rank != entries[low].key.rank
      ensures arr[low].vals != null && chains[low] != [] && arr[low].vals == chains[low][0]
      ensures forall i | 0 <= i < len && i != low :: arr[low].vals !in chains[i]
    {
      assert SlotHolds(low);
      ChainMembers(arr[low].vals, chains[low], entries[low].chunks, this, arr[low].key.rank);
      forall i | 0 <= i < len && i != low ensures arr[low].vals !in chains[i] {
        assert SlotHolds(i);
        ChainMembers(arr[i].vals, chains[i], entries[i].chunks, this, arr[i].key.rank);
      }
    }

    /** Add val to the key at slot low, in a new chunk twice the size if the newest one is full. */
    method AddToEntry(low: nat, val: Word)
      requires Holds() && low < len
      requires forall i | 0 <= i < len && i != low :: entries[i].key.rank != entries[low].key.rank
      modifies this, arr, owned
      ensures Holds() && fresh(owned - old(owned)) && arr == old(arr) && pos == old(pos)
      ensures entries == old(entries)[low := Entry(old(entries)[low].key, AddValue(old(entries)[low].chunks, val))]
    {
      hide Flatten, AddValue, ChainHolds;
      ghost var chunks := entries[low].chunks;
      var e := arr[low];
      HeadsApart(low);
      assert SlotHolds(low);
      var head, cs := GrowChain(e.vals, chains[low], chunks, e.key.rank, val);
      AddValueContents(chunks, val);
      arr[low] := Keyvals(e.len + 1, e.key, head);
      chains := chains[low := cs];
      owned := owned + {head};
      entries := entries[low := Entry(entries[low].key, AddValue(chunks, val))];
      forall i | 0 <= i < len && i != low ensures SlotHolds(i) {
        assert old(SlotHolds(i));
      }
    }

    /** Put val in the newest chunk, or in a new chunk twice the size if the newest one is full. */
    method GrowChain(vals: ValChunk, ghost cs: seq<ValChunk>, ghost chunks: seq<seq<Word>>, ghost rank: real, val: Word)
      returns (head: ValChunk, ghost cs': seq<ValChunk>)
      requires cs != [] && ChainHolds(vals, cs, chunks, this, rank)
      modifies vals
      ensures cs' == cs || (fresh(head) && cs' == [head] + cs && unchanged(vals))
      ensures ChainHolds(head, cs', AddValue(chunks, val), this, rank)
    {
      head, cs' := vals, cs;
      ChainMembers(vals, cs, chunks, this, rank);
      if vals.nextInsertPos >= vals.size {
        head := new ValChunk(vals.size * 2, vals, this, rank);
        cs' := [head] + cs;
        head.Append(val);
      } else {
        ChainMembers(vals.nextVal, cs[1..], chunks[1..], this, rank);
        head.Append(val);
      }
    }

    /** insert_keyval_merged. */
    method Insert(key: Key, val: Word)
      requires Valid()
      modifies this, arr, owned
      ensures Valid() && fresh(owned - old(owned)) && (arr == old(arr) || fresh(arr)) && pos == old(pos)
      ensures entries == InsertEntry(old(entries), key, val)
    {
      assert forall i | 0 <= i < len :: SlotHolds(i) && arr[i].key == entries[i].key;
      var low, cmp := FindSlot(arr, len, key);
      InsertEntryAt(entries, low, key, val);
      InsertEntryWellFormed(entries, key, val);
      if len == 0 || cmp != 0 {
        EnsureRoom();
        NewEntry(low, key, val);
      } else {
        AddToEntry(low, val);
      }
    }
  }
}
