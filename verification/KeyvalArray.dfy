/** Output of the reduce phase: per-thread arrays of pairs kept sorted by insertion. */
module KeyvalArray {
  import opened KeyValue

  const DEFAULT_KEYVAL_ARR_LEN := 10

  // ---------- Specification ----------

  /** Length of the longest prefix of a sorted s whose keys are all at most rank. */
  function AtMost(s: seq<Pair>, rank: real): (n: nat)
    ensures n <= |s|
    ensures n > 0 ==> s[n - 1].key.rank <= rank
    ensures forall i | n <= i < |s| :: s[i].key.rank > rank
  {
    if s == [] then 0
    else if s[|s| - 1].key.rank <= rank then |s|
    else AtMost(s[..|s| - 1], rank)
  }

  /** Where insert_keyval puts a key: at the end if it is not below the last key, otherwise before
      the last of the keys equal to it, or where it belongs if there is none. */
  function Slot(s: seq<Pair>, rank: real): (i: nat)
    ensures i <= |s|
  {
    var n := AtMost(s, rank);
    if 0 < n < |s| && s[n - 1].key.rank == rank then n - 1 else n
  }

  function InsertPair(s: seq<Pair>, p: Pair): seq<Pair> {
    var i := Slot(s, p.key.rank);
    s[..i] + [p] + s[i..]
  }

  /** Inserting keeps the array sorted and adds exactly the new pair. */
  lemma InsertPairMeaning(s: seq<Pair>, p: Pair)
    requires SortedPairs(s)
    ensures SortedPairs(InsertPair(s, p))
    ensures multiset(InsertPair(s, p)) == multiset(s) + multiset{p}
  {
    SlotBounds(s, p.key.rank);
    hide AtMost, Slot, SortedPairs;
    SpliceMeaning(s, Slot(s, p.key.rank), p);
  }

  /** The place among equal keys: behind all of them if there is nothing larger, and otherwise directly before the last
      of them. */
  lemma InsertPlace(s: seq<Pair>, p: Pair) returns (i: nat)
    requires SortedPairs(s)
    ensures i <= |s| && InsertPair(s, p) == s[..i] + [p] + s[i..]
    ensures i == |s| <==> s == [] || s[|s| - 1].key.rank <= p.key.rank
    ensures i < |s| && s[i].key.rank == p.key.rank ==> i + 1 < |s| && s[i + 1].key.rank > p.key.rank
    ensures i < |s| && s[i].key.rank != p.key.rank ==>
              s[i].key.rank > p.key.rank && (i > 0 ==> s[i - 1].key.rank < p.key.rank)
  {
    i := Slot(s, p.key.rank);
    var n := AtMost(s, p.key.rank);
    assert n > 0 ==> s[n - 1].key.rank <= p.key.rank;
    assert n < |s| ==> s[n].key.rank > p.key.rank;
    assert n < |s| ==> s[n].key.rank <= s[|s| - 1].key.rank;
  }

  lemma SpliceMeaning(s: seq<Pair>, i: nat, p: Pair)
    requires i <= |s| && SortedPairs(s)
    requires forall j | 0 <= j < i :: s[j].key.rank <= p.key.rank
    requires forall j | i <= j < |s| :: s[j].key.rank >= p.key.rank
    ensures SortedPairs(s[..i] + [p] + s[i..])
    ensures multiset(s[..i] + [p] + s[i..]) == multiset(s) + multiset{p}
  {
    SpliceContents(s, i, p);
    var r := s[..i] + [p] + s[i..];
    forall j, k | 0 <= j < k < |r| ensures r[j].key.rank <= r[k].key.rank {
      assert r[j] == if j < i then s[j] else if j == i then p else s[j - 1];
      assert r[k] == if k < i then s[k] else if k == i then p else s[k - 1];
    }
  }

  lemma SpliceContents(s: seq<Pair>, i: nat, p: Pair)
    requires i <= |s|
    ensures multiset(s[..i] + [p] + s[i..]) == multiset(s) + multiset{p}
  {
    assert s == s[..i] + s[i..];
  }

  lemma SlotBounds(s: seq<Pair>, rank: real)
    requires SortedPairs(s)
    ensures forall j | 0 <= j < Slot(s, rank) :: s[j].key.rank <= rank
    ensures forall j | Slot(s, rank) <= j < |s| :: s[j].key.rank >= rank
  {
    var n := AtMost(s, rank);
    if n > 0 {
      assert forall j | 0 <= j < n - 1 :: s[j].key.rank <= s[n - 1].key.rank;
    }
  }

  lemma {:induction false} AtMostIs(s: seq<Pair>, rank: real, n: nat)
    requires n <= |s| && (n > 0 ==> s[n - 1].key.rank <= rank)
    requires forall i | n <= i < |s| :: s[i].key.rank > rank
    ensures AtMost(s, rank) == n
  {
    if n < |s| {
      AtMostIs(s[..|s| - 1], rank, n);
    }
  }

  // ---------- Implementation ----------

  /** A keyval_arr_t. */
  class KeyvalArr {
    var len: nat
    var allocLen: nat
    var pos: nat
    var arr: array<Pair>

    ghost predicate Valid()
      reads this
    {
      arr.Length == allocLen && pos <= len <= allocLen
    }

    ghost function Contents(): seq<Pair>
      requires Valid()
      reads this, arr
    {
      arr[..len]
    }

    /** The zeroed array left by mem_calloc. */
    constructor ()
      ensures Valid() && fresh(arr) && Contents() == [] && pos == 0
    {
      len, allocLen, pos := 0, 0, 0;
      arr := new Pair[0];
    }

    /** A completely filled array, as merge_results sets up its output. */
    constructor Filled(a: array<Pair>)
      ensures Valid() && arr == a && Contents() == a[..] && pos == 0
    {
      len, allocLen, pos, arr := a.Length, a.Length, 0, a;
    }

    /** If the array is full, double it and copy over. */
    method EnsureRoom()
      requires Valid()
      modifies this
      ensures Valid() && len < allocLen && (arr == old(arr) || fresh(arr))
      ensures len == old(len) && pos == old(pos) && Contents() == old(Contents())
      ensures allocLen == if old(len) < old(allocLen) then old(allocLen)
                          else if old(allocLen) == 0 then 10 else 2 * old(allocLen)
    {
      if len == allocLen {
        var n := if allocLen == 0 then DEFAULT_KEYVAL_ARR_LEN else 2 * allocLen;
        var bigger := new Pair[n](i requires 0 <= i < n reads this, arr =>
          if i < len && i < arr.Length then arr[i] else Pair(Key(0.0, 0), 0));
        allocLen := n;
        arr := bigger;
      }
    }

    /** The search of insert_keyval. */
    method FindSlot(key: Key) returns (low: nat)
      requires Valid() && SortedPairs(Contents())
      ensures low == Slot(Contents(), key.rank)
    {
      hide AtMost;
      var high: int, lo: int := len, -1;
      var cmp := 1;
      if len > 0 {
        cmp := KeyCmp(arr[len - 1].key, key);
      }
      if cmp > 0 {
        while high - lo > 1
          invariant -1 <= lo < high <= len
          invariant lo >= 0 ==> arr[lo].key.rank <= key.rank
          invariant forall j | high <= j < len :: arr[j].key.rank > key.rank
        {
          var next := (high + lo) / 2;
          if KeyCmp(arr[next].key, key) > 0 {
            high := next;
          } else {
            lo := next;
          }
        }
        AtMostIs(Contents(), key.rank, high);
        if lo < 0 {
          lo := 0;
        }
        if len > 0 && KeyCmp(arr[lo].key, key) < 0 {
          lo := lo + 1;
        }
        low := lo;
      } else {
        AtMostIs(Contents(), key.rank, len);
        low := len;
      }
    }

    /** insert_keyval. With one output queue per reduce task pairs are only appended. */
    method Insert(key: Key, val: Word, oneOutputQueuePerReduceTask: bool)
      requires Valid() && (!oneOutputQueuePerReduceTask ==> SortedPairs(Contents()))
      modifies this, arr
      ensures Valid() && (arr == old(arr) || fresh(arr)) && pos == old(pos)
      ensures Contents() == if oneOutputQueuePerReduceTask then old(Contents()) + [Pair(key, val)]
                            else InsertPair(old(Contents()), Pair(key, val))
    {
      EnsureRoom();
      if !oneOutputQueuePerReduceTask {
        var low := FindSlot(key);
        Place(low, Pair(key, val));
      } else {
        Place(len, Pair(key, val));
      }
    }

    /** Move up what comes after slot low, and store p there. */
    method Place(low: nat, p: Pair)
      requires Valid() && low <= len < allocLen
      modifies this`len, arr
      ensures Valid() && Contents() == old(Contents())[..low] + [p] + old(Contents())[low..]
    {
      forall i | low <= i < len {
        arr[i + 1] := arr[i];
      }
      arr[low] := p;
      len := len + 1;
      IsSplice(old(Contents()), low, p, Contents());
    }
  }

  lemma IsSplice(was: seq<Pair>, low: nat, p: Pair, now: seq<Pair>)
    requires low <= |was| && |now| == |was| + 1
    requires (forall i | 0 <= i < low :: now[i] == was[i]) && now[low] == p
    requires forall i | low <= i < |was| :: now[i + 1] == was[i]
    ensures now == was[..low] + [p] + was[low..]
  {
    var r := was[..low] + [p] + was[low..];
    forall i | 0 <= i < |now| ensures now[i] == r[i] {
      if i > low {
        var j := i - 1;
        assert now[j + 1] == was[j];
      }
    }
  }
}
