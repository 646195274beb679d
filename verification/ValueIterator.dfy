/** The iterator handed to reduce: a cursor over several chains of value chunks. */
module ValueIterator {
  import opened Collections
  import opened KeyValue
  import opened KeyvalsArray

  /** A list given to the iterator, with the chain it heads and that chain's contents. */
  datatype List = List(e: Keyvals, chain: seq<ValChunk>, chunks: seq<seq<Word>>, home: KeyvalsArr) {
    ghost predicate Holds(footprint: set<ValChunk>)
      reads footprint
    {
      && chain != [] && e.vals != null
      && (forall c | c in chain :: c in footprint)
      && WellFilled(chunks)
      && ChainHolds(e.vals, chain, chunks, home, e.key.rank)
      && e.len == |Flatten(chunks)|
    }
  }

  /** The values of the lists, in list order. */
  ghost function Values(lists: seq<List>): seq<Word> {
    if lists == [] then [] else Flatten(lists[0].chunks) + Values(lists[1..])
  }

  lemma {:induction false} ValuesAppend(lists: seq<List>, l: List)
    ensures Values(lists + [l]) == Values(lists) + Flatten(l.chunks)
  {
    if lists == [] {
      assert Values([l]) == Flatten(l.chunks) + Values([l][1..]) == Flatten(l.chunks);
      assert lists + [l] == [l];
    } else {
      assert (lists + [l])[1..] == lists[1..] + [l];
      ValuesAppend(lists[1..], l);
    }
  }

  lemma WellFilledNonempty(chunks: seq<seq<Word>>)
    requires WellFilled(chunks)
    ensures chunks != [] && NoneEmpty(chunks)
  {
    forall i | 0 <= i < |chunks| ensures chunks[i] != [] {
      if i > 0 {
        var c := Capacity(|chunks| - i);
      }
    }
  }

  ghost predicate NoneEmpty(chunks: seq<seq<Word>>) {
    forall i | 0 <= i < |chunks| :: chunks[i] != []
  }

  /** What reading one chunk of a chain relies on. */
  lemma ChainStep(c: ValChunk?, cs: seq<ValChunk>, chunks: seq<seq<Word>>, home: KeyvalsArr, rank: real)
    requires cs != [] && ChainHolds(c, cs, chunks, home, rank)
    ensures c != null && c.Valid() && chunks != [] && c.Filled() == chunks[0]
    ensures if |chunks| == 1 then c.nextVal == null else c.nextVal != null && cs[1..] != []
    ensures ChainHolds(c.nextVal, cs[1..], chunks[1..], home, rank)
  {
  }

  /** What is left of a list from chunk `tailChunks[0]`, index `index` on, followed by other lists. */
  ghost function Rest(tailChunks: seq<seq<Word>>, index: nat, later: seq<List>): seq<Word>
    requires tailChunks != [] && index <= |tailChunks[0]|
  {
    tailChunks[0][index..] + Flatten(tailChunks[1..]) + Values(later)
  }

  lemma RestAtStart(lists: seq<List>)
    requires lists != [] && lists[0].chunks != []
    ensures Rest(lists[0].chunks, 0, lists[1..]) == Values(lists)
  {
  }

  lemma RestStep(tailChunks: seq<seq<Word>>, index: nat, later: seq<List>)
    requires tailChunks != [] && index < |tailChunks[0]|
    ensures Rest(tailChunks, index, later) == [tailChunks[0][index]] + Rest(tailChunks, index + 1, later)
  {
  }

  lemma RestAppend(tailChunks: seq<seq<Word>>, index: nat, later: seq<List>, l: List)
    requires tailChunks != [] && index <= |tailChunks[0]|
    ensures Rest(tailChunks, index, later + [l]) == Rest(tailChunks, index, later) + Flatten(l.chunks)
  {
    ValuesAppend(later, l);
  }

  lemma RestNextChunk(tailChunks: seq<seq<Word>>, later: seq<List>)
    requires |tailChunks| > 1
    ensures Rest(tailChunks, |tailChunks[0]|, later) == Rest(tailChunks[1..], 0, later)
  {
  }

  lemma RestNextList(tailChunks: seq<seq<Word>>, later: seq<List>)
    requires |tailChunks| == 1
    ensures Rest(tailChunks, |tailChunks[0]|, []) == []
    ensures later != [] && later[0].chunks != [] ==>
              Rest(tailChunks, |tailChunks[0]|, later) == Rest(later[0].chunks, 0, later[1..])
  {
    assert tailChunks[1..] == [];
  }

  ghost predicate ListsStored(itr: Iterator)
    reads itr, itr.listArray
  {
    && |itr.lists| == itr.nextInsertPos <= itr.listArray.Length
    && itr.size == |Values(itr.lists)|
    && (forall i | 0 <= i < |itr.lists| :: itr.listArray[i] == itr.lists[i].e)
    && (itr.lists == [] ==> itr.currentList == itr.currentIndex == 0)
  }

  ghost predicate CursorReads(itr: Iterator, footprint: set<ValChunk>)
    requires itr.Valid()
    reads itr, itr.listArray, footprint
  {
    && (forall i {:trigger itr.lists[i].Holds(footprint)} | 0 <= i < |itr.lists| :: itr.lists[i].Holds(footprint))
    && (itr.lists != [] ==>
          && itr.val != null && itr.tail != []
          && (forall c | c in itr.tail :: c in footprint)
          && NoneEmpty(itr.tailChunks)
          && ChainHolds(itr.val, itr.tail, itr.tailChunks, itr.lists[itr.currentList].home,
                        itr.lists[itr.currentList].e.key.rank))
  }

  /** An iterator_t. */
  class Iterator {
    const listArray: array<Keyvals>
    const maxList: nat
    var nextInsertPos: nat
    var currentList: nat
    var currentIndex: nat
    var val: ValChunk?
    var size: nat
    ghost var lists: seq<List>           // what was added
    ghost var tail: seq<ValChunk>        // the chain from `val` on
    ghost var tailChunks: seq<seq<Word>>

    ghost predicate Valid()
      reads this, listArray
    {
      && listArray.Length == maxList > 0
      && |lists| == nextInsertPos <= maxList
      && (lists != [] ==> currentList < |lists| && tailChunks != [] && currentIndex <= |tailChunks[0]|)
      && ListsStored(this)
    }

    /** What Next has still to yield. */
    ghost function Remaining(): seq<Word>
      requires Valid()
      reads this, listArray
    {
      if lists == [] then [] else Rest(tailChunks, currentIndex, lists[currentList + 1..])
    }

    /** The chunks under the cursor and in the lists still to come, which the iterator only reads. */
    ghost predicate Readable(footprint: set<ValChunk>)
      requires Valid()
      reads this, listArray, footprint
    {
      CursorReads(this, footprint)
    }

    /** iter_init. */
    constructor (numLists: nat)
      requires numLists > 0
      ensures Valid() && fresh(listArray) && maxList == numLists && lists == []
    {
      listArray := new Keyvals[numLists](_ => Keyvals(0, Key(0.0, 0), null));
      maxList := numLists;
      nextInsertPos, currentList, currentIndex, val, size := 0, 0, 0, null, 0;
      lists, tail, tailChunks := [], [], [];
    }

    /** iter_reset. */
    method Reset()
      requires listArray.Length == maxList > 0
      modifies this
      ensures Valid() && lists == []
    {
      nextInsertPos, currentList, currentIndex, val, size := 0, 0, 0, null, 0;
      lists, tail, tailChunks := [], [], [];
    }

    /** iter_rewind: everything is to be yielded again. */
    method Rewind(ghost footprint: set<ValChunk>)
      requires Valid() && lists != [] && Readable(footprint)
      modifies this
      ensures Valid() && Readable(footprint) && lists == old(lists)
      ensures Remaining() == Values(lists)
    {
      hide Flatten, Values, Capacity, WellFilled, ChainHolds, Rest;
      assert lists[0].Holds(footprint);
      WellFilledNonempty(lists[0].chunks);
      RestAtStart(lists);
      EnterList(0, footprint);
    }

    /** iter_add: fails exactly when the iterator is full. */
    method Add(list: Keyvals, ghost l: List, ghost footprint: set<ValChunk>) returns (ret: int)
      requires Valid() && Readable(footprint)
      requires l.e == list && l.Holds(footprint)
      requires list.len > 0
      requires Remaining() == Values(lists)
      modifies this, listArray
      ensures Valid() && Readable(footprint)
      ensures ret == if |old(lists)| >= maxList then -1 else 0
      ensures lists == old(lists) + if ret == 0 then [l] else []
      ensures Remaining() == Values(lists)
    {
      hide Flatten, Values, Capacity, WellFilled, ChainHolds, Rest;
      if nextInsertPos >= maxList {
        return -1;
      }
      listArray[nextInsertPos] := list;
      if nextInsertPos == 0 {
        val := list.vals;
        tail, tailChunks := l.chain, l.chunks;
        WellFilledNonempty(l.chunks);
      }
      nextInsertPos := nextInsertPos + 1;
      size := size + list.len;
      ValuesAppend(lists, l);
      if lists == [] {
        RestAtStart([l]);
        assert lists + [l] == [l];
      } else {
        RestAppend(tailChunks, currentIndex, lists[currentList + 1..], l);
        assert (lists + [l])[currentList + 1..] == lists[currentList + 1..] + [l];
      }
      lists := lists + [l];
      return 0;
    }

    /** Put the cursor on the first chunk of a list. */
    method EnterList(i: nat, ghost footprint: set<ValChunk>)
      requires Valid() && i < |lists| && Readable(footprint)
      modifies this
      ensures Valid() && Readable(footprint) && lists == old(lists) && nextInsertPos == old(nextInsertPos)
      ensures lists[i].chunks != [] && Remaining() == Rest(lists[i].chunks, 0, lists[i + 1..])
      ensures currentIndex < val.nextInsertPos
    {
      hide Flatten, Values, Capacity, WellFilled, ChainHolds, Rest;
      assert lists[i].Holds(footprint);
      currentList, currentIndex := i, 0;
      val := listArray[i].vals;
      WellFilledNonempty(lists[i].chunks);
      tail, tailChunks := lists[i].chain, lists[i].chunks;
      ChainStep(val, tail, tailChunks, lists[i].home, lists[i].e.key.rank);
    }

    /** The first half of iter_next: move off an exhausted chunk. */
    method Hop(ghost footprint: set<ValChunk>) returns (more: bool)
      requires Valid() && lists != [] && Readable(footprint)
      requires currentIndex >= val.nextInsertPos
      modifies this
      ensures Valid() && Readable(footprint) && lists == old(lists)
      ensures Remaining() == old(Remaining())
      ensures more ==> currentIndex < val.nextInsertPos
      ensures !more ==> Remaining() == []
    {
      hide Flatten, Values, Capacity, WellFilled, ChainHolds, Rest;
      ChainStep(val, tail, tailChunks, lists[currentList].home, lists[currentList].e.key.rank);
      if val.nextVal != null {
        // Hop to the next chunk on the same list.
        RestNextChunk(tailChunks, lists[currentList + 1..]);
        val := val.nextVal;
        currentIndex := 0;
        tail, tailChunks := tail[1..], tailChunks[1..];
        ChainStep(val, tail, tailChunks, lists[currentList].home, lists[currentList].e.key.rank);
        more := true;
      } else if currentList + 1 < nextInsertPos {
        // Hop to the first chunk of the next list.
        ghost var later := lists[currentList + 1..];
        RestNextList(tailChunks, later);
        assert later[1..] == lists[currentList + 2..] && later[0] == lists[currentList + 1];
        EnterList(currentList + 1, footprint);
        more := true;
      } else {
        RestNextList(tailChunks, lists[currentList + 1..]);
        more := false;
      }
    }

    /** iter_next: yield the next value, or report the end. */
    method Next(ghost footprint: set<ValChunk>) returns (more: bool, addr: Word)
      requires Valid() && lists != [] && Readable(footprint)
      modifies this
      ensures Valid() && Readable(footprint) && lists == old(lists)
      ensures more <==> old(Remaining()) != []
      ensures more ==> addr == old(Remaining())[0] && Remaining() == old(Remaining())[1..]
      ensures !more ==> addr == 0 && Remaining() == []
    {
      hide Flatten, Values, Capacity, WellFilled, ChainHolds, Rest;
      ChainStep(val, tail, tailChunks, lists[currentList].home, lists[currentList].e.key.rank);
      if currentIndex >= val.nextInsertPos {
        var hopped := Hop(footprint);
        if !hopped {
          return false, 0;
        }
        ChainStep(val, tail, tailChunks, lists[currentList].home, lists[currentList].e.key.rank);
      }
      RestStep(tailChunks, currentIndex, lists[currentList + 1..]);
      addr := val.slots[currentIndex];
      currentIndex := currentIndex + 1;
      more := true;
    }

    /** iter_size. */
    method Size() returns (n: nat)
      requires Valid()
      ensures n == |Values(lists)|
    {
      n := size;
    }
  }
}
