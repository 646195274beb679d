/** The circular doubly linked list with a dummy node of list.h:36-146, which the task queues are made of. */
module LinkedList {
  // An entry of the task queue, with the task it carries.
  class Entry {
    const task: nat
    var next: Entry?
    var prev: Entry?

    // list_ent_init.
    constructor (task: nat)
      ensures next == null && prev == null && this.task == task
    {
      this.task := task;
      next, prev := null, null;
    }
  }

  // The entry at position i of a ring, going round; position |ring| is the dummy again.
  function Nth(ring: seq<Entry>, i: int): Entry
    requires ring != []
  {
    if i < 0 then ring[|ring| - 1] else if i < |ring| then ring[i] else ring[0]
  }

  ghost predicate Linked(ring: seq<Entry>, i: nat)
    requires i < |ring|
    reads ring
  {
    ring[i].next == Nth(ring, i + 1) && ring[i].prev == Nth(ring, i - 1)
  }

  ghost predicate Distinct(ring: seq<Entry>) {
    forall i, j :: 0 <= i < j < |ring| ==> ring[i] != ring[j]
  }

  // The pointers spell out the ring, the dummy first.
  ghost predicate Ring(ring: seq<Entry>)
    reads ring
  {
    ring != [] && Distinct(ring) && forall i: nat {:trigger Linked(ring, i)} :: i < |ring| ==> Linked(ring, i)
  }

  // A ring with one more entry behind position k.
  function Inserted(ring: seq<Entry>, k: nat, x: Entry): seq<Entry>
    requires k < |ring|
  {
    ring[..k + 1] + [x] + ring[k + 1..]
  }

  function Removed(ring: seq<Entry>, k: nat): seq<Entry>
    requires k < |ring|
  {
    ring[..k] + ring[k + 1..]
  }

  // list_insert_after.
  method InsertAfter(chain: Entry, toadd: Entry, ghost ring: seq<Entry>, ghost k: nat)
    requires Ring(ring) && k < |ring| && ring[k] == chain && toadd !in ring
    modifies ring, toadd
    ensures Ring(Inserted(ring, k, toadd))
  {
    ghost var ring' := Inserted(ring, k, toadd);
    assert Linked(ring, k);
    toadd.prev := chain;
    toadd.next := chain.next;
    chain.next.prev := toadd;
    chain.next := toadd;
    forall i: nat {:trigger Linked(ring', i)} | i < |ring'|
      ensures Linked(ring', i)
    {
      if i <= k { assert old(Linked(ring, i)); } else if i > k + 1 { assert old(Linked(ring, i - 1)); }
    }
  }

  // list_insert_before, also of the dummy itself.
  method InsertInFront(chain: Entry, toadd: Entry, ghost ring: seq<Entry>, ghost k: nat)
    requires Ring(ring) && k < |ring| && Nth(ring, k + 1) == chain && toadd !in ring
    modifies ring, toadd
    ensures Ring(Inserted(ring, k, toadd))
  {
    ghost var ring' := Inserted(ring, k, toadd);
    assert Linked(ring, k) && Linked(ring, if k + 1 < |ring| then k + 1 else 0);
    toadd.next := chain;
    toadd.prev := chain.prev;
    chain.prev.next := toadd;
    chain.prev := toadd;
    forall i: nat {:trigger Linked(ring', i)} | i < |ring'|
      ensures Linked(ring', i)
    {
      if i <= k { assert old(Linked(ring, i)); } else if i > k + 1 { assert old(Linked(ring, i - 1)); }
    }
  }

  // list_remove.
  method Remove(elem: Entry, ghost ring: seq<Entry>, ghost k: nat)
    requires Ring(ring) && 0 < k < |ring| && ring[k] == elem
    modifies ring
    ensures Ring(Removed(ring, k)) && elem.next == null && elem.prev == null
  {
    ghost var ring' := Removed(ring, k);
    assert Linked(ring, k);
    elem.next.prev := elem.prev;
    elem.prev.next := elem.next;
    elem.prev := null;
    elem.next := null;
    forall i: nat {:trigger Linked(ring', i)} | i < |ring'|
      ensures Linked(ring', i)
    {
      if i < k { assert old(Linked(ring, i)); } else { assert old(Linked(ring, i + 1)); }
    }
  }

  // ------------------------------------------------------------------ the list

  class List {
    const dummy: Entry
    ghost var entries: seq<Entry>

    ghost predicate Valid()
      reads this, dummy, entries
    {
      Ring([dummy] + entries)
    }

    // list_init.
    constructor ()
      ensures Valid() && entries == [] && fresh(dummy)
    {
      dummy := new Entry(0);
      entries := [];
      new;
      dummy.next, dummy.prev := dummy, dummy;
      assert Linked([dummy] + entries, 0);
    }

    // list_is_empty, list_peek_head and list_peek_tail.
    method Peek() returns (empty: bool, head: Entry?, tail: Entry?)
      requires Valid()
      ensures empty <==> entries == []
      ensures head == if entries == [] then null else entries[0]
      ensures tail == if entries == [] then null else entries[|entries| - 1]
    {
      assert Linked([dummy] + entries, 0);
      NotDummy();
      empty := dummy.next == dummy;
      head := if dummy.next != dummy then dummy.next else null;
      tail := if dummy.prev != dummy then dummy.prev else null;
    }

    lemma NotDummy()
      requires Valid()
      ensures forall i :: 0 <= i < |entries| ==> entries[i] != dummy
    {
      ghost var ring := [dummy] + entries;
      assert ring[0] == dummy;
      assert forall i :: 0 <= i < |entries| ==> entries[i] == ring[i + 1];
    }

    // list_add_head.
    method AddHead(toadd: Entry)
      requires Valid() && toadd != dummy && toadd !in entries
      modifies this`entries, dummy, entries, toadd
      ensures Valid() && entries == [toadd] + old(entries)
    {
      ghost var ring := [dummy] + entries;
      ghost var ring' := Inserted(ring, 0, toadd);
      assert Linked(ring, 0);
      entries := [toadd] + entries;
      toadd.prev := dummy;
      toadd.next := dummy.next;
      dummy.next.prev := toadd;
      dummy.next := toadd;
      forall i: nat {:trigger Linked(ring', i)} | i < |ring'|
        ensures Linked(ring', i)
      {
        if i == 0 { assert old(Linked(ring, 0)); } else if i > 1 { assert old(Linked(ring, i - 1)); }
      }
      assert [dummy] + entries == ring';
    }

    // list_add_tail.
    method AddTail(toadd: Entry)
      requires Valid() && toadd != dummy && toadd !in entries
      modifies this`entries, dummy, entries, toadd
      ensures Valid() && entries == old(entries) + [toadd]
    {
      ghost var ring := [dummy] + entries;
      ghost var ring' := Inserted(ring, |entries|, toadd);
      assert Linked(ring, 0) && Linked(ring, |entries|);
      entries := entries + [toadd];
      toadd.next := dummy;
      toadd.prev := dummy.prev;
      dummy.prev.next := toadd;
      dummy.prev := toadd;
      forall i: nat {:trigger Linked(ring', i)} | i < |ring'|
        ensures Linked(ring', i)
      {
        if i < |ring| { assert old(Linked(ring, i)); }
      }
      assert [dummy] + entries == ring';
    }

    // list_insert_before, for the entry at position k.
    method InsertBefore(chain: Entry, toadd: Entry, ghost k: nat)
      requires Valid() && k < |entries| && entries[k] == chain && toadd != dummy && toadd !in entries
      modifies this`entries, dummy, entries, toadd
      ensures Valid() && entries == old(entries[..k] + [toadd] + entries[k..])
    {
      ghost var ring := [dummy] + entries;
      InsertInFront(chain, toadd, ring, k);
      assert Inserted(ring, k, toadd) == [dummy] + (entries[..k] + [toadd] + entries[k..]);
      entries := entries[..k] + [toadd] + entries[k..];
    }

    // list_remove, for the entry at position k.
    method RemoveEntry(elem: Entry, ghost k: nat)
      requires Valid() && k < |entries| && entries[k] == elem
      modifies this`entries, dummy, entries
      ensures Valid() && entries == old(entries[..k] + entries[k + 1..]) && elem.next == null && elem.prev == null
    {
      Remove(elem, [dummy] + entries, k + 1);
      assert Removed([dummy] + entries, k + 1) == [dummy] + (entries[..k] + entries[k + 1..]);
      entries := entries[..k] + entries[k + 1..];
    }

    // list_remove_head.
    method RemoveHead() returns (head: Entry?)
      requires Valid()
      modifies this`entries, dummy, entries
      ensures Valid() && (head == null <==> old(entries) == [])
      ensures head != null ==> head == old(entries)[0] && entries == old(entries)[1..]
      ensures head == null ==> entries == []
    {
      assert Linked([dummy] + entries, 0);
      NotDummy();
      head := null;
      if dummy.next != dummy {
        head := dummy.next;
        RemoveEntry(head, 0);
      }
    }

    // list_remove_tail.
    method RemoveTail() returns (tail: Entry?)
      requires Valid()
      modifies this`entries, dummy, entries
      ensures Valid() && (tail == null <==> old(entries) == [])
      ensures tail != null ==> tail == old(entries)[|old(entries)| - 1] && entries == old(entries)[..|old(entries)| - 1]
      ensures tail == null ==> entries == []
    {
      assert Linked([dummy] + entries, 0);
      NotDummy();
      tail := null;
      if dummy.prev != dummy {
        tail := dummy.prev;
        RemoveEntry(tail, |entries| - 1);
      }
    }
  }

  // Two lists share nothing.
  ghost predicate Apart(a: List, b: List)
    reads a, b
  {
    a != b && a.dummy != b.dummy && a.dummy !in b.entries && b.dummy !in a.entries
    && forall i, j :: 0 <= i < |a.entries| && 0 <= j < |b.entries| ==> a.entries[i] != b.entries[j]
  }

  // tq_elem_into_free_seq: the first entry of the queue goes to the end of the free queue, if there is one.
  method ElemIntoFree(queue: List, free: List) returns (entry: Entry?)
    requires queue.Valid() && free.Valid() && Apart(queue, free)
    modifies queue`entries, queue.dummy, queue.entries, free`entries, free.dummy, free.entries
    ensures queue.Valid() && free.Valid() && Apart(queue, free)
    ensures entry == null <==> old(queue.entries) == []
    ensures entry == null ==> queue.entries == [] && free.entries == old(free.entries)
    ensures entry != null ==> entry == old(queue.entries)[0] && queue.entries == old(queue.entries)[1..]
                              && free.entries == old(free.entries) + [entry]
  {
    queue.NotDummy();
    entry := queue.RemoveHead();
    if entry != null {
      assert queue.entries == old(queue.entries)[1..];
      HeadGone(entry, old(queue.entries), queue.dummy);
      free.AddTail(entry);
    }
  }

  lemma HeadGone(entry: Entry, entries: seq<Entry>, dummy: Entry)
    requires entries != [] && entry == entries[0] && Distinct([dummy] + entries)
    ensures entry !in entries[1..] && entry != dummy
  {
    var ring := [dummy] + entries;
    assert ring[0] == dummy && ring[1] == entry;
    assert forall i :: 0 <= i < |entries[1..]| ==> entries[1..][i] == ring[i + 2];
  }
}
