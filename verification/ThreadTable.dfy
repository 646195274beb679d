/** MTCP's record of its threads (mtcp.c:1121-1153, 1363-1414): the doubly linked list `threads`, and the tree of
    first-child and next-sibling pointers that `restarthread` walks to create the threads again (2949-3001). */
module ThreadTable {
  import opened ThreadTree

  class Thread {
    var next: Thread?
    var prev: Thread?
    var parent: Thread?
    var children: Thread?
    var siblings: Thread?

    // A descriptor as mtcp_prepare_for_clone leaves it.
    constructor (parent: Thread?)
      ensures this.parent == parent && children == null && next == null && prev == null && siblings == null
    {
      this.parent := parent;
      children, next, prev, siblings := null, null, null, null;
    }
  }

  function Nth(s: seq<Thread>, i: int): Thread? {
    if 0 <= i < |s| then s[i] else null
  }

  ghost predicate ListAt(list: seq<Thread>, i: nat)
    requires i < |list|
    reads list`next, list`prev
  {
    list[i].next == Nth(list, i + 1) && list[i].prev == Nth(list, i - 1)
  }

  ghost predicate ListOk(head: Thread?, list: seq<Thread>)
    reads list`next, list`prev
  {
    && Distinct(list) && head == Nth(list, 0)
    && forall i: nat {:trigger ListAt(list, i)} :: i < |list| ==> ListAt(list, i)
  }

  ghost predicate KidAt(kids: seq<Thread>, i: nat, p: Thread)
    requires i < |kids|
    reads kids`siblings, kids`parent
  {
    kids[i].siblings == Nth(kids, i + 1) && kids[i].parent == p
  }

  // The pointers of p and its children spell out `kids`.
  ghost predicate Family(kids: seq<Thread>, p: Thread)
    reads p`children, kids`siblings, kids`parent
  {
    && p.children == Nth(kids, 0)
    && forall i: nat {:trigger KidAt(kids, i, p)} :: i < |kids| ==> KidAt(kids, i, p)
  }

  ghost predicate TreeOk(tree: Tree<Thread>)
    reads tree.children.Keys`parent, tree.children.Keys`children, tree.children.Keys`siblings
  {
    && WellFormed(tree) && tree.root.parent == null
    && forall p :: p in tree.children ==> Family(tree.children[p], p)
  }

  // ------------------------------------------------------------------ the list

  lemma PushedList(list: seq<Thread>, t: Thread)
    requires Distinct(list) && t !in list
    ensures Distinct([t] + list)
  {
  }

  // setupthread, the list part: t becomes the head.
  method PushFront(head: Thread?, t: Thread, ghost list: seq<Thread>) returns (head': Thread)
    requires ListOk(head, list) && t !in list
    modifies t`next, t`prev, list`prev
    ensures ListOk(head', [t] + list)
  {
    PushedList(list, t);
    hide Distinct;
    t.next := head;
    if head != null { head.prev := t; }
    t.prev := null;
    head' := t;
    assert forall i: nat :: 0 < i < |list| ==> list[i] != list[0] by { DistinctFirst(list); }
    forall i: nat {:trigger ListAt([t] + list, i)} | i < |[t] + list|
      ensures ListAt([t] + list, i)
    {
      if i > 0 { assert old(ListAt(list, i - 1)); }
    }
  }

  lemma DistinctFirst(list: seq<Thread>)
    requires Distinct(list)
    ensures forall i: nat :: 0 < i < |list| ==> list[i] != list[0]
  {
  }

  lemma DistinctAt(list: seq<Thread>, k: nat)
    requires Distinct(list) && k < |list|
    ensures forall i: nat :: i < |list| && i != k ==> list[i] != list[k]
  {
  }

  // threadisdead, the list part: t, at position k, goes.
  method Unlink(head: Thread?, t: Thread, ghost list: seq<Thread>, ghost k: nat) returns (head': Thread?)
    requires ListOk(head, list) && k < |list| && list[k] == t
    modifies list`next, list`prev
    ensures ListOk(head', list[..k] + list[k + 1..])
  {
    ghost var rest := list[..k] + list[k + 1..];
    assert Distinct(rest);
    DistinctAt(list, k);
    if k > 0 { DistinctAt(list, k - 1); }
    if k + 1 < |list| { DistinctAt(list, k + 1); }
    hide Distinct;
    assert ListAt(list, k);
    if t.prev != null { t.prev.next := t.next; }
    if t.next != null { t.next.prev := t.prev; }
    head' := head;
    if t == head { head' := head.next; }
    forall i: nat {:trigger ListAt(rest, i)} | i < |rest|
      ensures ListAt(rest, i)
    {
      if i < k { assert old(ListAt(list, i)); } else { assert old(ListAt(list, i + 1)); }
    }
  }

  // ------------------------------------------------------------------ the tree

  // setupthread, the tree part: t becomes the first child of p.
  method PushChild(t: Thread, p: Thread, ghost kids: seq<Thread>)
    requires Family(kids, p) && t !in kids && t.parent == p
    modifies t`siblings, p`children
    ensures Family([t] + kids, p)
  {
    t.siblings := p.children;
    p.children := t;
    ghost var kids' := [t] + kids;
    forall i: nat {:trigger KidAt(kids', i, p)} | i < |kids'|
      ensures KidAt(kids', i, p)
    {
      if i > 0 { assert old(KidAt(kids, i - 1, p)); }
    }
  }

  // threadisdead: t, at position k, is taken out of its parent's children.
  method RemoveChild(t: Thread, p: Thread, ghost kids: seq<Thread>, ghost k: nat)
    requires Family(kids, p) && Distinct(kids) && k < |kids| && kids[k] == t
    modifies p`children, kids`siblings
    ensures Family(kids[..k] + kids[k + 1..], p)
  {
    ghost var rest := kids[..k] + kids[k + 1..];
    assert KidAt(kids, k, p);
    if p.children == t {
      p.children := t.siblings;
    } else {
      var xthread := p.children;
      ghost var i := 0;
      assert k > 0;
      assert KidAt(kids, 0, p);
      while xthread.siblings != t
        invariant i < k && xthread == kids[i] && KidAt(kids, i, p)
        decreases k - i
      {
        if i + 1 == k { assert false; }
        i := i + 1;
        xthread := xthread.siblings;
        assert KidAt(kids, i, p);
      }
      xthread.siblings := t.siblings;
    }
    forall i: nat {:trigger KidAt(rest, i, p)} | i < |rest|
      ensures KidAt(rest, i, p)
    {
      if i < k { assert old(KidAt(kids, i, p)); } else { assert old(KidAt(kids, i + 1, p)); }
    }
  }

  // The siblings from position i on are chained.
  ghost predicate Rest(mine: seq<Thread>, i: nat)
    reads mine`siblings
  {
    forall j: nat {:trigger mine[j]} :: i <= j < |mine| ==> mine[j].siblings == Nth(mine, j + 1)
  }

  lemma ReverseOneMore(mine: seq<Thread>, i: nat)
    requires i < |mine|
    ensures Reverse(mine[..i + 1]) == [mine[i]] + Reverse(mine[..i])
  {
    if i == 0 {
      assert mine[..1] == [mine[0]] && mine[..0] == [];
    } else {
      ReverseOneMore(mine[1..], i - 1);
      assert mine[..i + 1][1..] == mine[1..][..i] && mine[..i][1..] == mine[1..][..i - 1];
    }
  }

  lemma FamilyRest(mine: seq<Thread>, t: Thread)
    requires Family(mine, t)
    ensures t.children == Nth(mine, 0) && Rest(mine, 0)
  {
    forall j: nat {:trigger mine[j]} | j < |mine|
      ensures mine[j].siblings == Nth(mine, j + 1)
    {
      assert KidAt(mine, j, t);
    }
  }

  // The siblings from position i on are not among `done`.
  ghost predicate Left(mine: seq<Thread>, i: nat, done: seq<Thread>) {
    forall j, l :: i <= j < |mine| && 0 <= l < |done| ==> mine[j] != done[l]
  }

  lemma LeftOn(mine: seq<Thread>, i: nat, done: seq<Thread>)
    requires Left(mine, i, done) && Distinct(mine) && i < |mine|
    ensures mine[i] !in done && Left(mine, i + 1, [mine[i]] + done)
  {
  }

  lemma RestFirst(mine: seq<Thread>, i: nat)
    requires Rest(mine, i) && i < |mine|
    ensures mine[i].siblings == Nth(mine, i + 1)
  {
  }

  lemma ReverseEnds(mine: seq<Thread>, others: seq<Thread>)
    ensures Reverse(mine[..0]) + others == others && mine[..|mine|] == mine
  {
  }

  // threadisdead: the children of t go to p, each in front of those that are there.
  method Adopt(t: Thread, p: Thread, ghost mine: seq<Thread>, ghost others: seq<Thread>)
    requires Family(mine, t) && Family(others, p) && t != p && Distinct(mine) && Left(mine, 0, others)
    modifies p`children, mine`siblings, mine`parent
    ensures Family(Reverse(mine) + others, p)
  {
    hide Family, Reverse, Distinct, Rest, Left;
    FamilyRest(mine, t);
    ReverseEnds(mine, others);
    var xthread := t.children;
    ghost var i := 0;
    ghost var done := others;
    while xthread != null
      invariant i <= |mine| && xthread == Nth(mine, i) && Rest(mine, i)
      invariant done == Reverse(mine[..i]) + others && Family(done, p) && Left(mine, i, done)
      decreases |mine| - i
    {
      RestFirst(mine, i);
      LeftOn(mine, i, done);
      ReverseOneMore(mine, i);
      var nextSibling := xthread.siblings;
      PushKid(xthread, p, done, mine, i);
      assert [mine[i]] + done == [mine[i]] + Reverse(mine[..i]) + others;
      done := [xthread] + done;
      i := i + 1;
      xthread := nextSibling;
    }
  }

  // One turn of that loop.
  method PushKid(x: Thread, p: Thread, ghost done: seq<Thread>, ghost mine: seq<Thread>, ghost i: nat)
    requires i < |mine| && mine[i] == x && Rest(mine, i) && Family(done, p) && x !in done && Distinct(mine)
    modifies p`children, x`siblings, x`parent
    ensures Family([x] + done, p) && Rest(mine, i + 1)
  {
    DistinctAt(mine, i);
    x.parent := p;
    PushChild(x, p, done);
  }

  lemma NoKid(tree: Tree<Thread>, q: Thread, t: Thread)
    requires WellFormed(tree) && q in tree.children && t !in tree.children
    ensures t !in tree.children[q]
  {
    if t in tree.children[q] { ChildIs(tree, q, t); }
  }

  lemma FamilyOf(tree: Tree<Thread>, p: Thread)
    requires TreeOk(tree) && p in tree.children
    ensures Family(tree.children[p], p)
  {
  }

  ghost predicate AllFamilies(tree: Tree<Thread>, p: Thread)
    requires WellFormed(tree)
    reads tree.children.Keys`parent, tree.children.Keys`children, tree.children.Keys`siblings
  {
    forall q :: q in tree.children && q != p ==> Family(tree.children[q], q)
  }

  lemma AttachAssemble(tree: Tree<Thread>, p: Thread, t: Thread)
    requires WellFormed(tree) && p in tree.children && t !in tree.children
    requires Family([t] + tree.children[p], p) && t.children == null && AllFamilies(tree, p) && tree.root.parent == null
    ensures TreeOk(Attach(tree, p, t))
  {
    AttachKeeps(tree, p, t);
    NoFamily(t);
    hide WellFormed;
  }

  lemma AllNoKid(tree: Tree<Thread>, t: Thread)
    requires WellFormed(tree) && t !in tree.children
    ensures forall q :: q in tree.children ==> t !in tree.children[q]
  {
    forall q | q in tree.children
      ensures t !in tree.children[q]
    {
      NoKid(tree, q, t);
    }
  }

  // setupthread: a thread without children goes into the tree as the first child of its parent.
  method HangUnder(t: Thread, p: Thread, ghost tree: Tree<Thread>)
    requires TreeOk(tree) && t.parent == p && p in tree.children && t !in tree.children && t.children == null
    modifies t`siblings, p`children
    ensures p in tree.rank && TreeOk(Attach(tree, p, t))
  {
    AllNoKid(tree, t);
    AttachKeeps(tree, p, t);
    hide Family, WellFormed;
    PushChild(t, p, tree.children[p]);
    AttachAssemble(tree, p, t);
  }

  lemma NoFamily(t: Thread)
    requires t.children == null
    ensures Family([], t)
  {
  }

  lemma KidsApart(tree: Tree<Thread>, p: Thread, q: Thread)
    requires WellFormed(tree) && p in tree.children && q in tree.children && p != q
    ensures forall i, j :: 0 <= i < |tree.children[p]| && 0 <= j < |tree.children[q]| ==>
              tree.children[p][i] != tree.children[q][j]
  {
    forall i, j | 0 <= i < |tree.children[p]| && 0 <= j < |tree.children[q]|
      ensures tree.children[p][i] != tree.children[q][j]
    {
      ChildIs(tree, p, tree.children[p][i]);
      ChildIs(tree, q, tree.children[q][j]);
    }
  }

  lemma {:induction false} WithoutAt(kids: seq<Thread>, t: Thread) returns (k: nat)
    requires t in kids
    ensures k < |kids| && kids[k] == t && Without(kids, t) == kids[..k] + kids[k + 1..]
  {
    if kids[0] == t {
      k := 0;
    } else {
      k := WithoutAt(kids[1..], t);
      k := k + 1;
      assert [kids[0]] + (kids[1..][..k - 1] + kids[1..][k..]) == kids[..k] + kids[k + 1..];
    }
  }

  lemma RootNoKid(tree: Tree<Thread>, p: Thread)
    requires WellFormed(tree) && p in tree.children
    ensures forall i :: 0 <= i < |tree.children[p]| ==> tree.children[p][i] != tree.root
  {
    forall i | 0 <= i < |tree.children[p]|
      ensures tree.children[p][i] != tree.root
    {
      ChildIs(tree, p, tree.children[p][i]);
    }
  }

  lemma LeftApart(tree: Tree<Thread>, t: Thread, p: Thread)
    requires WellFormed(tree) && t in tree.children && p in tree.children && t != p
    ensures Distinct(tree.children[t]) && Distinct(tree.children[p])
    ensures Left(tree.children[t], 0, Without(tree.children[p], t))
  {
    KidsApart(tree, t, p);
    WithoutMembers(tree.children[p], t);
  }

  // All families but that of p, and possibly one more, are as the tree says.
  ghost predicate Others(tree: Tree<Thread>, p: Thread, t: Thread)
    requires WellFormed(tree)
    reads tree.children.Keys`parent, tree.children.Keys`children, tree.children.Keys`siblings
  {
    forall q :: q in tree.children && q != p && q != t ==> Family(tree.children[q], q)
  }

  lemma AwayFrom(tree: Tree<Thread>, p: Thread)
    requires WellFormed(tree) && p in tree.children
    ensures forall q, x :: q in tree.children && q != p && x in tree.children[q] ==> x !in tree.children[p]
  {
    forall q, x | q in tree.children && q != p && x in tree.children[q]
      ensures x !in tree.children[p]
    {
      ChildIs(tree, q, x);
      if x in tree.children[p] { ChildIs(tree, p, x); }
    }
  }

  method LeaveParent(t: Thread, p: Thread, ghost tree: Tree<Thread>)
    requires TreeOk(tree) && t in tree.parent && tree.parent[t] == p && p in tree.children && t in tree.children[p]
    modifies p`children, tree.children[p]`siblings
    ensures Family(Without(tree.children[p], t), p) && Others(tree, p, p)
  {
    ghost var kids := tree.children[p];
    ghost var k := WithoutAt(kids, t);
    AwayFrom(tree, p);
    assert Distinct(kids);
    hide Family, WellFormed, Distinct, Without;
    FamilyOf(tree, p);
    RemoveChild(t, p, kids, k);
  }

  method GiveChildren(t: Thread, p: Thread, ghost tree: Tree<Thread>)
    requires WellFormed(tree) && tree.root.parent == null && t in tree.children && p in tree.children && t != p
    requires Family(Without(tree.children[p], t), p) && Others(tree, p, p)
    modifies p`children, tree.children[t]`siblings, tree.children[t]`parent
    ensures Family(Reverse(tree.children[t]) + Without(tree.children[p], t), p) && Others(tree, p, t)
    ensures tree.root.parent == null
  {
    ghost var mine := tree.children[t];
    AwayFrom(tree, t);
    RootNoKid(tree, t);
    LeftApart(tree, t, p);
    assert Family(mine, t);
    hide Family, WellFormed, Distinct, Without, Left, Reverse;
    Adopt(t, p, mine, Without(tree.children[p], t));
  }

  lemma Assemble(tree: Tree<Thread>, t: Thread, p: Thread)
    requires WellFormed(tree) && t in tree.parent && tree.parent[t] == p && p in tree.children && t in tree.children
    requires Family(Reverse(tree.children[t]) + Without(tree.children[p], t), p) && Others(tree, p, t)
    requires tree.root.parent == null && t != p
    ensures TreeOk(Detach(tree, t))
  {
    DetachKeeps(tree, t);
    ghost var tree' := Detach(tree, t);
    hide WellFormed, Reverse, Without;
    forall q | q in tree'.children
      ensures Family(tree'.children[q], q)
    {
      if q != p { assert tree'.children[q] == tree.children[q]; }
    }
  }

  // threadisdead: t leaves the tree, and its children go to its parent.
  method TakeOut(t: Thread, p: Thread, ghost tree: Tree<Thread>)
    requires TreeOk(tree) && t in tree.parent && t in tree.children && tree.parent[t] == p && p in tree.children
    modifies p`children, tree.children[p]`siblings, tree.children[t]`siblings, tree.children[t]`parent
    ensures TreeOk(Detach(tree, t))
  {
    DetachKeeps(tree, t);
    assert HasParent(tree, t);
    assert WellFormed(tree) && tree.root.parent == null;
    hide TreeOk, Family, WellFormed, Others;
    LeaveParent(t, p, tree);
    GiveChildren(t, p, tree);
    Assemble(tree, t, p);
  }

  // The tree of the first thread.
  function Single(t: Thread): Tree<Thread> {
    var children: map<Thread, seq<Thread>> := map[t := []];
    var rank: map<Thread, nat> := map[t := 0];
    Tree<Thread>.Tree(t, children, map[], rank)
  }

  lemma SingleOk(t: Thread)
    requires t.parent == null && t.children == null
    ensures TreeOk(Single(t)) && Threads(Single(t)) == {t}
  {
    assert Family([], t);
  }

  ghost function AttachTo(tree: Tree<Thread>, t: Thread): Tree<Thread>
    reads t`parent
  {
    if t.parent != null && t.parent in tree.children && t.parent in tree.rank
    then Attach<Thread>(tree, t.parent, t) else tree
  }

  lemma ListedInTree(list: seq<Thread>, tree: Tree<Thread>, t: Thread)
    requires multiset(list) == multiset(Threads(tree))
    ensures t in list <==> t in tree.children
  {
    assert t in list <==> t in multiset(list);
    assert t in multiset(Threads(tree)) <==> t in Threads(tree);
  }

  lemma CanHang(list: seq<Thread>, tree: Tree<Thread>, t: Thread)
    requires WellFormed(tree) && multiset(list) == multiset(Threads(tree))
    requires t !in list && t.parent != null && t.parent in list
    ensures t.parent in tree.children && t.parent in tree.rank && t !in tree.children
    ensures Threads(Attach<Thread>(tree, t.parent, t)) == Threads(tree) + {t}
  {
    ListedInTree(list, tree, t);
    ListedInTree(list, tree, t.parent);
    AttachKeeps(tree, t.parent, t);
  }

  lemma OneMore(list: seq<Thread>, threads: set<Thread>, t: Thread)
    requires multiset(list) == multiset(threads) && t !in list
    ensures multiset([t] + list) == multiset(threads + {t})
  {
  }

  method JoinTree(t: Thread, mother: Thread, ghost list: seq<Thread>, ghost tree: Tree<Thread>)
    returns (ghost tree': Tree<Thread>)
    requires multiset(list) == multiset(Threads(tree)) && (list != [] ==> TreeOk(tree)) && tree.root == mother
    requires t !in list && t.children == null
    requires if list == [] then t == mother && t.parent == null else t.parent != null && t.parent in list
    modifies t`siblings, list`children
    ensures TreeOk(tree') && multiset([t] + list) == multiset(Threads(tree')) && tree'.root == mother
    ensures tree' == if list == [] then Single(t) else AttachTo(tree, t)
  {
    OneMore(list, Threads(tree), t);
    if t.parent != null {
      CanHang(list, tree, t);
      hide TreeOk, WellFormed;
      HangUnder(t, t.parent, tree);
      tree' := Attach<Thread>(tree, t.parent, t);
    } else {
      SingleOk(t);
      tree' := Single(t);
    }
  }

  ghost function DetachFrom(tree: Tree<Thread>, t: Thread): Tree<Thread> {
    if t in tree.parent && t in tree.children && tree.parent[t] in tree.children then Detach<Thread>(tree, t) else tree
  }

  // The parent pointer of a listed thread says what the tree says.
  lemma ParentIs(tree: Tree<Thread>, t: Thread)
    requires TreeOk(tree) && t in tree.children
    ensures if t == tree.root then t.parent == null
            else t in tree.parent && t.parent == tree.parent[t] && tree.parent[t] in tree.children
  {
    if t != tree.root {
      assert HasParent(tree, t);
      var p := tree.parent[t];
      FamilyOf(tree, p);
      var i :| 0 <= i < |tree.children[p]| && tree.children[p][i] == t;
      assert KidAt(tree.children[p], i, p);
    }
  }

  lemma OneLess(list: seq<Thread>, threads: set<Thread>, t: Thread)
    requires multiset(list) == multiset(threads) && t in list
    ensures multiset(Without(list, t)) == multiset(threads - {t})
  {
    WithoutCount(list, t);
  }

  lemma {:induction false} WithoutCount(list: seq<Thread>, t: Thread)
    requires t in list
    ensures multiset(Without(list, t)) == multiset(list) - multiset{t}
  {
    assert list == [list[0]] + list[1..];
    if list[0] != t { WithoutCount(list[1..], t); }
  }

  method LeaveTree(t: Thread, ghost list: seq<Thread>, ghost tree: Tree<Thread>)
    returns (ok: bool, ghost tree': Tree<Thread>)
    requires multiset(list) == multiset(Threads(tree)) && TreeOk(tree) && t in list
    modifies list`children, list`siblings, list`parent
    ensures ok <==> t != tree.root
    ensures tree' == (if ok then DetachFrom(tree, t) else tree) && tree'.root == tree.root
    ensures ok ==> TreeOk(tree') && multiset(Without(list, t)) == multiset(Threads(tree'))
  {
    ListedInTree(list, tree, t);
    ParentIs(tree, t);
    OneLess(list, Threads(tree), t);
    ok, tree' := t.parent != null, tree;
    if ok {
      DetachKeeps(tree, t);
      MembersListed(list, tree, t);
      MembersListed(list, tree, t.parent);
      ListedInTree(list, tree, t.parent);
      hide TreeOk, WellFormed;
      TakeOut(t, t.parent, tree);
      tree' := Detach<Thread>(tree, t);
    }
  }

  lemma MembersListed(list: seq<Thread>, tree: Tree<Thread>, p: Thread)
    requires multiset(list) == multiset(Threads(tree)) && WellFormed(tree) && p in tree.children
    ensures forall x :: x in tree.children[p] ==> x in list
  {
    forall x | x in tree.children[p]
      ensures x in list
    {
      ChildIs(tree, p, x);
      ListedInTree(list, tree, x);
    }
  }

  // restarthread: a thread creates its children one after the other, and each of them does the same.
  method Walk(t: Thread, ghost tree: Tree<Thread>) returns (order: seq<Thread>)
    requires TreeOk(tree) && t in tree.children
    ensures order == Visit(tree, t)
    decreases |Higher(tree, t)|
  {
    assert WellFormed(tree);
    hide WellFormed, VisitAll, TreeOk, Family, Higher;
    order := [t];
    ghost var kids := tree.children[t];
    var child := t.children;
    ghost var i := 0;
    while child != null
      invariant i <= |kids| && child == Nth(kids, i)
      invariant order + VisitAll(tree, t, i) == Visit(tree, t)
      decreases |kids| - i
    {
      FamilyNext(tree, t, i);
      LowerRank(tree, t, kids[i]);
      VisitOne(tree, t, i, order);
      var below := Walk(child, tree);
      order := order + below;
      i := i + 1;
      child := child.siblings;
    }
    VisitNone(tree, t);
  }

  lemma FamilyNext(tree: Tree<Thread>, t: Thread, i: nat)
    requires TreeOk(tree) && t in tree.children && i < |tree.children[t]|
    ensures tree.children[t][i].siblings == Nth(tree.children[t], i + 1)
  {
    FamilyOf(tree, t);
    assert KidAt(tree.children[t], i, t);
  }

  lemma VisitOne(tree: Tree<Thread>, t: Thread, i: nat, order: seq<Thread>)
    requires WellFormed(tree) && t in tree.children && i < |tree.children[t]|
    ensures tree.children[t][i] in tree.children
    ensures order + VisitAll(tree, t, i) == (order + Visit(tree, tree.children[t][i])) + VisitAll(tree, t, i + 1)
  {
    LowerRank(tree, t, tree.children[t][i]);
  }

  lemma VisitNone(tree: Tree<Thread>, t: Thread)
    requires WellFormed(tree) && t in tree.children
    ensures VisitAll(tree, t, |tree.children[t]|) == []
  {
  }

  lemma RootListed(tree: Tree<Thread>)
    requires WellFormed(tree)
    ensures tree.root in tree.children
  {
  }

  class Table {
    const motherofall: Thread
    var threads: Thread?
    ghost var list: seq<Thread>
    ghost var tree: Tree<Thread>

    ghost predicate Valid()
      reads this, list, tree.children.Keys
    {
      && ListOk(threads, list) && multiset(list) == multiset(Threads(tree))
      && (list != [] ==> TreeOk(tree)) && tree.root == motherofall
    }

    constructor (mother: Thread)
      ensures Valid() && list == [] && motherofall == mother
    {
      motherofall := mother;
      threads, list := null, [];
      tree := Tree(mother, map[], map[], map[]);
    }

    // setupthread. The first thread has no parent; every other one was created by a listed thread.
    method Setup(t: Thread)
      requires Valid() && t !in list && t.children == null
      requires if list == [] then t == motherofall && t.parent == null else t.parent != null && t.parent in list
      modifies this`threads, this`list, this`tree, t`next, t`prev, t`siblings, list`prev, list`children
      ensures Valid() && list == [t] + old(list)
      ensures tree == if old(list) == [] then Single(t) else AttachTo(old(tree), t)
    {
      hide ListOk, TreeOk, WellFormed, AttachTo;
      threads := PushFront(threads, t, list);
      tree := JoinTree(t, motherofall, list, tree);
      list := [t] + list;
    }

    // threadisdead. The first thread has no parent to give its children to: the source aborts on it (not ok), after
    // it has left the list.
    method Dead(t: Thread) returns (ok: bool)
      requires Valid() && t in list
      modifies this`threads, this`list, this`tree, list`next, list`prev, list`children, list`siblings, list`parent
      ensures ok <==> t != motherofall
      ensures list == Without(old(list), t) && ListOk(threads, list)
      ensures ok ==> Valid() && tree == DetachFrom(old(tree), t)
    {
      hide ListOk, TreeOk, WellFormed, DetachFrom, Without;
      ghost var k := WithoutAt(list, t);
      threads := Unlink(threads, t, list, k);
      ok, tree := LeaveTree(t, list, tree);
      list := Without(list, t);
    }

    // The walk from motherofall at restart meets exactly the listed threads, each once.
    method RestartWalk() returns (order: seq<Thread>)
      requires Valid() && list != []
      ensures multiset(order) == multiset(list)
    {
      RootListed(tree);
      WalkIsComplete(tree);
      order := Walk(motherofall, tree);
    }
  }
}
