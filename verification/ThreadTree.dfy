/** The tree of threads that MTCP keeps in children, siblings and parent pointers (mtcp_internal.h), as a value. */
module ThreadTree {
  // `rank` grows from parent to child; it makes the parent pointers well founded.
  datatype Tree<T(==)> = Tree(root: T, children: map<T, seq<T>>, parent: map<T, T>, rank: map<T, nat>)

  function Threads<T>(tree: Tree<T>): set<T> {
    tree.children.Keys
  }

  ghost predicate Distinct<T>(s: seq<T>) {
    forall i, j :: 0 <= i < j < |s| ==> s[i] != s[j]
  }

  // A thread is a child of its parent and ranks above it.
  ghost predicate HasParent<T>(tree: Tree<T>, t: T)
    requires t in tree.parent
  {
    && t in tree.children && t in tree.rank && tree.parent[t] in tree.rank && tree.rank[t] > tree.rank[tree.parent[t]]
    && tree.parent[t] in tree.children && t in tree.children[tree.parent[t]]
  }

  // x is p's child, and nobody else's.
  ghost predicate IsChild<T>(tree: Tree<T>, p: T, x: T) {
    x in tree.children && x in tree.parent && tree.parent[x] == p
  }

  // Every thread but the root is a child of its parent, in exactly one place; the root is nobody's child.
  ghost predicate WellFormed<T>(tree: Tree<T>) {
    && tree.root in tree.children
    && tree.rank.Keys == tree.children.Keys && tree.parent.Keys == tree.children.Keys - {tree.root}
    && (forall t :: t in tree.parent ==> HasParent(tree, t))
    && (forall p, i {:trigger tree.children[p][i]} :: p in tree.children && 0 <= i < |tree.children[p]| ==>
          IsChild(tree, p, tree.children[p][i]))
    && (forall p :: p in tree.children ==> Distinct(tree.children[p]))
  }

  lemma ChildIs<T>(tree: Tree<T>, p: T, x: T)
    requires WellFormed(tree) && p in tree.children && x in tree.children[p]
    ensures IsChild(tree, p, x)
  {
    var i :| 0 <= i < |tree.children[p]| && tree.children[p][i] == x;
  }

  // What holds of the root and passes from a thread to its children holds of every thread.
  lemma {:induction false} Everywhere<T>(tree: Tree<T>, holds: set<T>, t: T)
    requires WellFormed(tree) && tree.root in holds && t in tree.children
    requires forall p, x :: p in tree.children && p in holds && x in tree.children[p] ==> x in holds
    ensures t in holds
    decreases tree.rank[t]
  {
    if t != tree.root { Everywhere(tree, holds, tree.parent[t]); }
  }

  // ------------------------------------------------------------------ the walk

  // x is t or below t.
  ghost predicate Above<T>(tree: Tree<T>, t: T, x: T)
    requires WellFormed(tree) && x in tree.children
    decreases tree.rank[x]
  {
    x == t || (x != tree.root && Above(tree, t, tree.parent[x]))
  }

  lemma {:induction false} AboveRank<T>(tree: Tree<T>, t: T, x: T)
    requires WellFormed(tree) && t in tree.children && x in tree.children && Above(tree, t, x)
    ensures x == t || tree.rank[t] < tree.rank[x]
    decreases tree.rank[x]
  {
    if x != t { AboveRank(tree, t, tree.parent[x]); }
  }

  // Two threads above the same one are above each other.
  lemma {:induction false} AboveChain<T>(tree: Tree<T>, t: T, u: T, x: T)
    requires WellFormed(tree) && t in tree.children && u in tree.children && x in tree.children
    requires Above(tree, t, x) && Above(tree, u, x)
    ensures Above(tree, t, u) || Above(tree, u, t)
    decreases tree.rank[x]
  {
    if x != t && x != u { AboveChain(tree, t, u, tree.parent[x]); }
  }

  lemma OneChildAbove<T>(tree: Tree<T>, p: T, t: T, u: T, x: T)
    requires WellFormed(tree) && p in tree.children && t in tree.children[p] && u in tree.children[p]
    requires x in tree.children
    requires Above(tree, t, x) && Above(tree, u, x)
    ensures t == u
  {
    AboveChain(tree, t, u, x);
    if t != u {
      if Above(tree, t, u) { AboveRank(tree, t, p); } else { AboveRank(tree, u, p); }
    }
  }

  // Below t there are t itself and what is below its children.
  lemma {:induction false} ChildAbove<T>(tree: Tree<T>, t: T, x: T) returns (c: T)
    requires WellFormed(tree) && t in tree.children && x in tree.children && x != t && Above(tree, t, x)
    ensures c in tree.children[t] && c in tree.children && Above(tree, c, x)
    decreases tree.rank[x]
  {
    if tree.parent[x] == t {
      c := x;
    } else {
      c := ChildAbove(tree, t, tree.parent[x]);
    }
  }

  lemma {:induction false} AboveTrans<T>(tree: Tree<T>, t: T, c: T, x: T)
    requires WellFormed(tree) && t in tree.children && c in tree.children && x in tree.children
    requires Above(tree, t, c) && Above(tree, c, x)
    ensures Above(tree, t, x)
    decreases tree.rank[x]
  {
    if x != c { AboveTrans(tree, t, c, tree.parent[x]); }
  }

  lemma {:induction false} RootAbove<T>(tree: Tree<T>, x: T)
    requires WellFormed(tree) && x in tree.children
    ensures Above(tree, tree.root, x)
    decreases tree.rank[x]
  {
    if x != tree.root { RootAbove(tree, tree.parent[x]); }
  }

  // The threads of a higher rank than t.
  function Higher<T>(tree: Tree<T>, t: T): set<T>
    requires t in tree.rank
  {
    set x | x in tree.rank && tree.rank[x] > tree.rank[t]
  }

  // The order in which the walk over children and siblings, a thread before its children, meets the threads below t.
  ghost function Visit<T>(tree: Tree<T>, t: T): seq<T>
    requires WellFormed(tree) && t in tree.children
    decreases |Higher(tree, t)|, 0
  {
    [t] + VisitAll(tree, t, 0)
  }

  // The same for the children of t from position i on.
  ghost function VisitAll<T>(tree: Tree<T>, t: T, i: nat): seq<T>
    requires WellFormed(tree) && t in tree.children && i <= |tree.children[t]|
    decreases |Higher(tree, t)|, 0, |tree.children[t]| - i
  {
    if i == |tree.children[t]| then []
    else
      var c := tree.children[t][i];
      LowerRank(tree, t, c);
      Visit(tree, c) + VisitAll(tree, t, i + 1)
  }

  lemma LowerRank<T>(tree: Tree<T>, t: T, c: T)
    requires WellFormed(tree) && t in tree.children && c in tree.children[t]
    ensures c in tree.children && |Higher(tree, c)| < |Higher(tree, t)|
  {
    assert c in tree.rank && tree.rank[c] > tree.rank[t];
    var lower, upper := Higher(tree, c), Higher(tree, t);
    assert c in upper && c !in lower && lower <= upper;
    Subset(lower, upper);
  }

  lemma {:induction false} Subset<T>(a: set<T>, b: set<T>)
    requires a < b
    ensures |a| < |b|
  {
    var x :| x in b && x !in a;
    if a == {} { assert x in b; }
    else {
      var y :| y in a;
      Subset(a - {y}, b - {y});
    }
  }

  ghost predicate BelowFrom<T>(tree: Tree<T>, t: T, i: nat, x: T)
    requires WellFormed(tree) && t in tree.children && x in tree.children
  {
    exists j {:trigger tree.children[t][j]} :: i <= j < |tree.children[t]| && Above(tree, tree.children[t][j], x)
  }

  lemma BelowChildren<T>(tree: Tree<T>, t: T, x: T)
    requires WellFormed(tree) && t in tree.children && x in tree.children
    ensures Above(tree, t, x) <==> x == t || BelowFrom(tree, t, 0, x)
    ensures BelowFrom(tree, t, 0, x) ==> x != t
  {
    if Above(tree, t, x) && x != t {
      var c := ChildAbove(tree, t, x);
      var j :| 0 <= j < |tree.children[t]| && tree.children[t][j] == c;
    }
    if BelowFrom(tree, t, 0, x) {
      var j :| 0 <= j < |tree.children[t]| && Above(tree, tree.children[t][j], x);
      var c := tree.children[t][j];
      ChildIs(tree, t, c);
      AboveTrans(tree, t, c, x);
      AboveRank(tree, c, x);
    }
  }

  // The walk from t meets every thread below t exactly once, and no other.
  lemma {:induction false} VisitCount<T>(tree: Tree<T>, t: T, x: T)
    requires WellFormed(tree) && t in tree.children && x in tree.children
    ensures multiset(Visit(tree, t))[x] == if Above(tree, t, x) then 1 else 0
    decreases |Higher(tree, t)|, 0
  {
    VisitAllCount(tree, t, 0, x);
    BelowChildren(tree, t, x);
    hide WellFormed, BelowFrom, Above;
    assert multiset([t] + VisitAll(tree, t, 0)) == multiset{t} + multiset(VisitAll(tree, t, 0));
  }

  lemma {:induction false} VisitAllCount<T>(tree: Tree<T>, t: T, i: nat, x: T)
    requires WellFormed(tree) && t in tree.children && x in tree.children && i <= |tree.children[t]|
    ensures multiset(VisitAll(tree, t, i))[x] == if BelowFrom(tree, t, i, x) then 1 else 0
    decreases |Higher(tree, t)|, 0, |tree.children[t]| - i
  {
    if i < |tree.children[t]| {
      var c := tree.children[t][i];
      LowerRank(tree, t, c);
      VisitCount(tree, c, x);
      VisitAllCount(tree, t, i + 1, x);
      Share(tree, t, i, x);
      hide WellFormed, BelowFrom, Above;
      assert multiset(Visit(tree, c) + VisitAll(tree, t, i + 1))
          == multiset(Visit(tree, c)) + multiset(VisitAll(tree, t, i + 1));
    }
  }

  lemma Share<T>(tree: Tree<T>, t: T, i: nat, x: T)
    requires WellFormed(tree) && t in tree.children && x in tree.children && i < |tree.children[t]|
    ensures tree.children[t][i] in tree.children
    ensures BelowFrom(tree, t, i, x) <==> Above(tree, tree.children[t][i], x) || BelowFrom(tree, t, i + 1, x)
    ensures !(Above(tree, tree.children[t][i], x) && BelowFrom(tree, t, i + 1, x))
  {
    ChildIs(tree, t, tree.children[t][i]);
    if Above(tree, tree.children[t][i], x) && BelowFrom(tree, t, i + 1, x) {
      var j :| i + 1 <= j < |tree.children[t]| && Above(tree, tree.children[t][j], x);
      OneChildAbove(tree, t, tree.children[t][i], tree.children[t][j], x);
    }
  }

  lemma {:induction false} VisitInTree<T>(tree: Tree<T>, t: T)
    requires WellFormed(tree) && t in tree.children
    ensures forall x :: x in Visit(tree, t) ==> x in tree.children
    decreases |Higher(tree, t)|, 0
  {
    VisitAllInTree(tree, t, 0);
  }

  lemma {:induction false} VisitAllInTree<T>(tree: Tree<T>, t: T, i: nat)
    requires WellFormed(tree) && t in tree.children && i <= |tree.children[t]|
    ensures forall x :: x in VisitAll(tree, t, i) ==> x in tree.children
    decreases |Higher(tree, t)|, 0, |tree.children[t]| - i
  {
    if i < |tree.children[t]| {
      LowerRank(tree, t, tree.children[t][i]);
      VisitInTree(tree, tree.children[t][i]);
      VisitAllInTree(tree, t, i + 1);
    }
  }

  // The walk from the root meets exactly the threads of the tree, each once.
  lemma WalkIsComplete<T>(tree: Tree<T>)
    requires WellFormed(tree)
    ensures multiset(Visit(tree, tree.root)) == multiset(Threads(tree))
  {
    var walk := Visit(tree, tree.root);
    VisitInTree(tree, tree.root);
    forall x
      ensures multiset(walk)[x] == multiset(Threads(tree))[x]
    {
      if x in tree.children {
        VisitCount(tree, tree.root, x);
        RootAbove(tree, x);
      } else {
        assert x !in walk;
      }
    }
  }

  // ------------------------------------------------------------------ adding and removing a thread

  function Reverse<T>(s: seq<T>): seq<T> {
    if s == [] then [] else Reverse(s[1..]) + [s[0]]
  }

  function Without<T(==)>(s: seq<T>, x: T): seq<T> {
    if s == [] then [] else if s[0] == x then s[1..] else [s[0]] + Without(s[1..], x)
  }

  lemma DistinctConcat<T>(a: seq<T>, b: seq<T>)
    requires Distinct(a) && Distinct(b) && forall i, j :: 0 <= i < |a| && 0 <= j < |b| ==> a[i] != b[j]
    ensures Distinct(a + b)
  {
    var s := a + b;
    forall i, j | 0 <= i < j < |s|
      ensures s[i] != s[j]
    {
      if i < |a| <= j { assert s[i] == a[i] && s[j] == b[j - |a|]; }
      if |a| <= i { assert s[i] == b[i - |a|] && s[j] == b[j - |a|]; }
    }
  }

  ghost predicate SameMembers<T>(a: seq<T>, b: seq<T>) {
    (forall i :: 0 <= i < |a| ==> a[i] in b) && (forall i :: 0 <= i < |b| ==> b[i] in a)
  }

  lemma {:induction false} ReverseMembers<T>(s: seq<T>)
    requires Distinct(s)
    ensures Distinct(Reverse(s)) && SameMembers(Reverse(s), s)
  {
    if s != [] {
      ReverseMembers(s[1..]);
      var r := Reverse(s[1..]);
      forall i | 0 <= i < |r|
        ensures r[i] in s[1..] && r[i] != s[0]
      {
      }
      DistinctConcat(r, [s[0]]);
      forall i | 0 <= i < |s|
        ensures s[i] in Reverse(s)
      {
        if i == 0 { assert Reverse(s)[|r|] == s[0]; } else { assert s[i] == s[1..][i - 1]; }
      }
    }
  }

  lemma {:induction false} WithoutMembers<T>(s: seq<T>, x: T)
    requires Distinct(s)
    ensures Distinct(Without(s, x))
    ensures forall i :: 0 <= i < |Without(s, x)| ==> Without(s, x)[i] in s && Without(s, x)[i] != x
    ensures forall i :: 0 <= i < |s| && s[i] != x ==> s[i] in Without(s, x)
  {
    if s != [] {
      WithoutMembers(s[1..], x);
      var r := Without(s[1..], x);
      if s[0] != x {
        DistinctConcat([s[0]], r);
        forall i | 0 <= i < |s| && s[i] != x
          ensures s[i] in Without(s, x)
        {
          if i == 0 { assert Without(s, x)[0] == s[0]; } else { assert s[i] == s[1..][i - 1]; }
        }
      } else {
        forall i | 0 <= i < |s| && s[i] != x
          ensures s[i] in s[1..]
        {
          assert s[i] == s[1..][i - 1];
        }
      }
    }
  }

  // setupthread: t becomes the first child of p.
  function Attach<T(==)>(tree: Tree<T>, p: T, t: T): Tree<T>
    requires p in tree.children && p in tree.rank
  {
    Tree(tree.root, tree.children[t := []][p := [t] + tree.children[p]], tree.parent[t := p],
         tree.rank[t := tree.rank[p] + 1])
  }

  lemma AttachParent<T>(tree: Tree<T>, p: T, t: T, x: T)
    requires WellFormed(tree) && p in tree.children && t !in tree.children && x in Attach(tree, p, t).parent
    ensures HasParent(Attach(tree, p, t), x)
  {
    if x != t { assert HasParent(tree, x); }
  }

  lemma AttachChild<T>(tree: Tree<T>, p: T, t: T, q: T, x: T)
    requires WellFormed(tree) && p in tree.children && t !in tree.children
    requires q in Attach(tree, p, t).children && x in Attach(tree, p, t).children[q]
    ensures IsChild(Attach(tree, p, t), q, x)
  {
    if q in tree.children && x in tree.children[q] { ChildIs(tree, q, x); }
  }

  lemma AttachDistinct<T>(tree: Tree<T>, p: T, t: T, q: T)
    requires WellFormed(tree) && p in tree.children && t !in tree.children && q in Attach(tree, p, t).children
    ensures Distinct(Attach(tree, p, t).children[q])
  {
    if q == p {
      if t in tree.children[p] { ChildIs(tree, p, t); }
      DistinctConcat([t], tree.children[p]);
    }
  }

  lemma AttachKeeps<T>(tree: Tree<T>, p: T, t: T)
    requires WellFormed(tree) && p in tree.children && t !in tree.children
    ensures WellFormed(Attach(tree, p, t)) && Threads(Attach(tree, p, t)) == Threads(tree) + {t}
  {
    hide HasParent, IsChild, Distinct;
    var tree' := Attach(tree, p, t);
    forall x | x in tree'.parent
      ensures HasParent(tree', x)
    {
      AttachParent(tree, p, t, x);
    }
    forall q, i {:trigger tree'.children[q][i]} | q in tree'.children && 0 <= i < |tree'.children[q]|
      ensures IsChild(tree', q, tree'.children[q][i])
    {
      AttachChild(tree, p, t, q, tree'.children[q][i]);
    }
    forall q | q in tree'.children
      ensures Distinct(tree'.children[q])
    {
      AttachDistinct(tree, p, t, q);
    }
  }

  // threadisdead: t goes, and its children become children of its parent, in reverse order and before the others.
  function Detach<T(==)>(tree: Tree<T>, t: T): Tree<T>
    requires t in tree.parent && t in tree.children && tree.parent[t] in tree.children
  {
    var p := tree.parent[t];
    Tree(tree.root, (tree.children - {t})[p := Reverse(tree.children[t]) + Without(tree.children[p], t)],
         map x | x in tree.parent && x != t :: if tree.parent[x] == t then p else tree.parent[x],
         tree.rank - {t})
  }

  lemma DetachedChildren<T>(tree: Tree<T>, t: T)
    requires WellFormed(tree) && t in tree.parent
    ensures HasParent(tree, t) && t in tree.children
    ensures var p := tree.parent[t];
            && p != t && Distinct(Detach(tree, t).children[p])
            && SameMembers(Detach(tree, t).children[p], tree.children[t] + Without(tree.children[p], t))
            && (forall i :: 0 <= i < |Without(tree.children[p], t)| ==>
                  Without(tree.children[p], t)[i] in tree.children[p] && Without(tree.children[p], t)[i] != t)
            && (forall i :: 0 <= i < |tree.children[p]| && tree.children[p][i] != t ==>
                  tree.children[p][i] in Without(tree.children[p], t))
  {
    assert HasParent(tree, t);
    var p := tree.parent[t];
    var mine, others := tree.children[t], tree.children[p];
    ReverseMembers(mine);
    WithoutMembers(others, t);
    var mine', others' := Reverse(mine), Without(others, t);
    forall i, j | 0 <= i < |mine'| && 0 <= j < |others'|
      ensures mine'[i] != others'[j]
    {
      ChildIs(tree, t, mine'[i]);
      ChildIs(tree, p, others'[j]);
    }
    DistinctConcat(mine', others');
  }

  lemma DetachParent<T>(tree: Tree<T>, t: T, x: T)
    requires WellFormed(tree) && t in tree.parent && t in tree.children && tree.parent[t] in tree.children
    requires x in Detach(tree, t).parent
    ensures HasParent(Detach(tree, t), x)
  {
    DetachedChildren(tree, t);
    assert HasParent(tree, x);
    var p := tree.parent[t];
    var mine, others := tree.children[t], Without(tree.children[p], t);
    if tree.parent[x] == t {
      var i :| 0 <= i < |mine| && mine[i] == x;
      assert (mine + others)[i] == x;
    } else if tree.parent[x] == p {
      var i :| 0 <= i < |tree.children[p]| && tree.children[p][i] == x;
      var j :| 0 <= j < |others| && others[j] == x;
      assert (mine + others)[|mine| + j] == x;
    }
  }

  lemma DetachChild<T>(tree: Tree<T>, t: T, q: T, x: T)
    requires WellFormed(tree) && t in tree.parent && t in tree.children && tree.parent[t] in tree.children
    requires q in Detach(tree, t).children && x in Detach(tree, t).children[q]
    ensures IsChild(Detach(tree, t), q, x)
  {
    DetachedChildren(tree, t);
    if x in tree.children[t] { ChildIs(tree, t, x); } else { ChildIs(tree, q, x); }
  }

  lemma DetachKeeps<T>(tree: Tree<T>, t: T)
    requires WellFormed(tree) && t in tree.parent
    ensures t in tree.children && tree.parent[t] in tree.children && tree.parent[t] != t
    ensures WellFormed(Detach(tree, t)) && Threads(Detach(tree, t)) == Threads(tree) - {t}
  {
    DetachedChildren(tree, t);
    hide IsChild, Distinct, Reverse, Without;
    var tree' := Detach(tree, t);
    forall x | x in tree'.parent
      ensures HasParent(tree', x)
    {
      DetachParent(tree, t, x);
    }
    forall q, i {:trigger tree'.children[q][i]} | q in tree'.children && 0 <= i < |tree'.children[q]|
      ensures IsChild(tree', q, tree'.children[q][i])
    {
      DetachChild(tree, t, q, tree'.children[q][i]);
    }
  }
}
