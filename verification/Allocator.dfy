/** The allocator of jalloc.cpp:114-231 and jalloc.h:37-49: four stacks of equal chunks, larger blocks straight from
    mmap, and a size header in front of every block. Memory is a store of 8-byte words at addresses divisible by 8; the
    word at a free chunk is its link to the next one, and 0 is the null pointer. */
module Allocator {
  const HEADER := 8
  const PAGE := 4096

  // The chunk size of each stack.
  function ChunkSize(level: nat): nat
    requires level < 4
  {
    if level == 0 then 64 else if level == 1 then 256 else if level == 2 then 1024 else 2048
  }

  // What each stack asks for when it is empty.
  function BlockSize(level: nat): nat
    requires level < 4
  {
    if level <= 1 then 16 * 1024 else 32 * 1024
  }

  // Which stack serves a request, 4 meaning that none does.
  function LevelOf(n: nat): (level: nat)
    ensures level <= 4 && (level < 4 ==> n <= ChunkSize(level)) && (level > 0 ==> n > ChunkSize(level - 1))
  {
    if n <= 64 then 0 else if n <= 256 then 1 else if n <= 1024 then 2 else if n <= 2048 then 3 else 4
  }

  // mmap maps whole pages.
  function Pages(n: nat): (r: nat)
    ensures n <= r < n + 4096 && r % 4096 == 0
  {
    (n + PAGE - 1) / PAGE * PAGE
  }

  // A carved chunk of a stack, or a block of its own.
  datatype Block = Chunk(level: nat) | Raw(n: nat)

  predicate WellSized(b: Block) {
    match b
    case Chunk(level) => level < 4
    case Raw(n) => n > 0
  }

  function Extent(b: Block): nat
    requires WellSized(b)
  {
    match b
    case Chunk(level) => ChunkSize(level)
    case Raw(n) => Pages(n)
  }

  ghost predicate Sized(blocks: map<nat, Block>) {
    forall a :: a in blocks ==> WellSized(blocks[a]) && a > 0 && a % 8 == 0
  }

  // No two blocks overlap.
  ghost predicate Disjoint(blocks: map<nat, Block>)
    requires Sized(blocks)
  {
    forall a, b :: a in blocks && b in blocks && a < b ==> a + Extent(blocks[a]) <= b
  }

  // The kernel's answer to mmap: an address range that overlaps none of the blocks.
  ghost predicate Unmapped(blocks: map<nat, Block>, base: nat, length: nat)
    requires Sized(blocks)
  {
    && base > 0 && base % PAGE == 0
    && forall a :: a in blocks ==> a + Extent(blocks[a]) <= base || base + length <= a
  }

  ghost predicate Distinct(list: seq<nat>) {
    forall i, j :: 0 <= i < j < |list| ==> list[i] != list[j]
  }

  // The links in memory spell out the list and end with null.
  ghost predicate Chain(mem: map<nat, nat>, root: nat, list: seq<nat>)
    decreases |list|
  {
    if list == [] then root == 0
    else root == list[0] != 0 && root in mem && Chain(mem, mem[root], list[1..])
  }

  // The links of all four stacks spell out their lists.
  ghost predicate Chains(mem: map<nat, nat>, roots: seq<nat>, lists: seq<seq<nat>>) {
    && |roots| == 4 && |lists| == 4
    && forall l: nat {:trigger lists[l]} :: l < 4 ==> Chain(mem, roots[l], lists[l])
  }

  ghost predicate AllDistinct(lists: seq<seq<nat>>) {
    |lists| == 4 && forall l: nat {:trigger lists[l]} :: l < 4 ==> Distinct(lists[l])
  }

  // A chunk is in the list of its stack or handed out, a block of its own is handed out; `live` has the size asked for.
  ghost predicate Accounted(blocks: map<nat, Block>, lists: seq<seq<nat>>, live: map<nat, nat>)
    requires |lists| == 4
  {
    && (forall l, i {:trigger lists[l][i]} :: 0 <= l < 4 && 0 <= i < |lists[l]| ==>
          lists[l][i] in blocks && blocks[lists[l][i]] == Chunk(l) && lists[l][i] !in live)
    && (forall a :: a in blocks && a !in live ==>
          WellSized(blocks[a]) && blocks[a].Chunk? && a in lists[blocks[a].level])
    && (forall a :: a in live ==>
          a in blocks && blocks[a] == if LevelOf(live[a]) < 4 then Chunk(LevelOf(live[a])) else Raw(live[a]))
  }

  // ------------------------------------------------------------------ links

  // A write elsewhere leaves a list alone.
  lemma {:induction false} ChainFrame(mem: map<nat, nat>, root: nat, list: seq<nat>, a: nat, v: nat)
    requires Chain(mem, root, list) && a !in list
    ensures Chain(mem[a := v], root, list)
    decreases |list|
  {
    if list != [] { ChainFrame(mem, mem[root], list[1..], a, v); }
  }

  function Addr(base: nat, n: nat, i: nat): nat {
    base + i * n
  }

  lemma AddrNext(base: nat, n: nat, i: nat)
    ensures Addr(base, n, i + 1) == Addr(base, n, i) + n && Addr(base, n, 0) == base
  {
  }

  lemma {:induction false} AddrOrder(base: nat, n: nat, i: nat, j: nat)
    requires i < j
    ensures Addr(base, n, i) + n <= Addr(base, n, j)
    decreases j
  {
    hide Addr;
    AddrNext(base, n, j - 1);
    if i < j - 1 { AddrOrder(base, n, i, j - 1); }
  }

  // The chunks from number i on.
  function Chunks(base: nat, n: nat, i: nat, count: nat): (list: seq<nat>)
    requires i <= count
    ensures |list| == count - i
    decreases count - i
  {
    if i == count then [] else [Addr(base, n, i)] + Chunks(base, n, i + 1, count)
  }

  lemma {:induction false} ChunkAt(base: nat, n: nat, i: nat, count: nat, k: nat)
    requires i <= count && k < count - i
    ensures Chunks(base, n, i, count)[k] == Addr(base, n, i + k)
    decreases count - i
  {
    hide Addr;
    if k > 0 { ChunkAt(base, n, i + 1, count, k - 1); }
  }

  predicate LinkAt(mem: map<nat, nat>, base: nat, n: nat, k: nat) {
    Addr(base, n, k) in mem && mem[Addr(base, n, k)] == Addr(base, n, k + 1)
  }

  // The links that expand has written.
  ghost predicate LinkedUp(mem: map<nat, nat>, base: nat, n: nat, i: nat) {
    forall k: nat {:trigger LinkAt(mem, base, n, k)} :: k < i ==> LinkAt(mem, base, n, k)
  }

  lemma LinkOneMore(mem: map<nat, nat>, base: nat, n: nat, i: nat)
    requires n > 0 && LinkedUp(mem, base, n, i)
    ensures LinkedUp(mem[Addr(base, n, i) := Addr(base, n, i + 1)], base, n, i + 1)
  {
    var mem' := mem[Addr(base, n, i) := Addr(base, n, i + 1)];
    forall k: nat {:trigger LinkAt(mem', base, n, k)} | k < i + 1
      ensures LinkAt(mem', base, n, k)
    {
      if k < i {
        assert LinkAt(mem, base, n, k);
        AddrOrder(base, n, k, i);
      }
    }
  }

  lemma LinkLast(mem: map<nat, nat>, base: nat, n: nat, i: nat)
    requires n > 0 && LinkedUp(mem, base, n, i)
    ensures LinkedUp(mem[Addr(base, n, i) := 0], base, n, i)
  {
    var mem' := mem[Addr(base, n, i) := 0];
    forall k: nat {:trigger LinkAt(mem', base, n, k)} | k < i
      ensures LinkAt(mem', base, n, k)
    {
      assert LinkAt(mem, base, n, k);
      AddrOrder(base, n, k, i);
    }
  }

  lemma {:induction false} ChainBuilt(mem: map<nat, nat>, base: nat, n: nat, i: nat, count: nat)
    requires i < count && base > 0 && LinkedUp(mem, base, n, count - 1)
    requires Addr(base, n, count - 1) in mem && mem[Addr(base, n, count - 1)] == 0
    ensures Chain(mem, Addr(base, n, i), Chunks(base, n, i, count))
    decreases count - i
  {
    AddrPositive(base, n, i);
    hide Addr;
    if i + 1 < count {
      ChainBuilt(mem, base, n, i + 1, count);
      assert LinkAt(mem, base, n, i);
    }
  }

  lemma AddrPositive(base: nat, n: nat, i: nat)
    requires base > 0
    ensures Addr(base, n, i) > 0
  {
  }

  lemma ChunksDistinct(base: nat, n: nat, count: nat)
    requires n > 0
    ensures Distinct(Chunks(base, n, 0, count))
  {
    hide Addr;
    var list := Chunks(base, n, 0, count);
    forall i, j | 0 <= i < j < |list|
      ensures list[i] != list[j]
    {
      ChunkAt(base, n, 0, count, i);
      ChunkAt(base, n, 0, count, j);
      AddrOrder(base, n, i, j);
    }
  }

  // expand writes the links of a new block: bufs[i].next = bufs + i + 1, and the old root, which is null, at the end.
  method LinkChunks(mem0: map<nat, nat>, base: nat, n: nat, count: nat, root: nat) returns (mem: map<nat, nat>)
    requires base > 0 && n > 0 && count > 0 && root == 0
    ensures Chain(mem, base, Chunks(base, n, 0, count))
    ensures forall a :: a in mem0 && a !in Chunks(base, n, 0, count) ==> a in mem && mem[a] == mem0[a]
  {
    mem := mem0;
    ghost var list := Chunks(base, n, 0, count);
    AddrNext(base, n, 0);
    hide Addr, Chain, LinkedUp, LinkAt, Chunks;
    NoLinks(mem, base, n);
    var i := 0;
    while i < count - 1
      invariant i <= count - 1 && LinkedUp(mem, base, n, i)
      invariant forall a :: a in mem0 && a !in list ==> a in mem && mem[a] == mem0[a]
    {
      ChunkAt(base, n, 0, count, i);
      LinkOneMore(mem, base, n, i);
      mem := mem[Addr(base, n, i) := Addr(base, n, i + 1)];
      i := i + 1;
    }
    ChunkAt(base, n, 0, count, count - 1);
    LinkLast(mem, base, n, count - 1);
    mem := mem[Addr(base, n, count - 1) := root];
    ChainBuilt(mem, base, n, 0, count);
  }

  lemma NoLinks(mem: map<nat, nat>, base: nat, n: nat)
    ensures LinkedUp(mem, base, n, 0)
  {
  }

  lemma {:induction false} ChainAgree(mem: map<nat, nat>, mem': map<nat, nat>, root: nat, list: seq<nat>)
    requires Chain(mem, root, list) && forall a :: a in list ==> a in mem ==> a in mem' && mem'[a] == mem[a]
    ensures Chain(mem', root, list)
    decreases |list|
  {
    if list != [] {
      assert list[0] in list;
      ChainAgree(mem, mem', mem[root], list[1..]);
    }
  }

  // ------------------------------------------------------------------ carving a block into chunks

  function Carve(blocks: map<nat, Block>, list: seq<nat>, level: nat): map<nat, Block> {
    blocks + map a | a in list :: Chunk(level)
  }

  function Count(level: nat): (count: nat)
    requires level < 4
    ensures count == if level == 0 then 256 else if level == 1 then 64 else if level == 2 then 32 else 16
  {
    BlockSize(level) / ChunkSize(level)
  }

  function Carved(level: nat, base: nat): seq<nat>
    requires level < 4
  {
    Chunks(base, ChunkSize(level), 0, Count(level))
  }

  lemma {:induction false} AddrAligned(base: nat, n: nat, i: nat)
    requires base % 8 == 0 && n % 8 == 0
    ensures Addr(base, n, i) % 8 == 0
  {
    hide Addr;
    AddrNext(base, n, if i > 0 then i - 1 else 0);
    if i > 0 {
      AddrAligned(base, n, i - 1);
      SumAligned(Addr(base, n, i - 1), n);
    }
  }

  lemma SumAligned(a: nat, b: nat)
    requires a % 8 == 0 && b % 8 == 0
    ensures (a + b) % 8 == 0
  {
    EightDivides(a / 8 + b / 8);
  }

  lemma WholeChunks(level: nat, base: nat)
    requires level < 4
    ensures Addr(base, ChunkSize(level), Count(level)) == base + BlockSize(level)
  {
  }

  lemma Alignment(level: nat, base: nat)
    requires level < 4 && base % PAGE == 0
    ensures base % 8 == 0 && ChunkSize(level) % 8 == 0 && ChunkSize(level) > 0
  {
    PageAligned(base);
    assert ChunkSize(level) == 64 || ChunkSize(level) == 256 || ChunkSize(level) == 1024 || ChunkSize(level) == 2048;
  }

  lemma PageAligned(base: nat)
    requires base % PAGE == 0
    ensures base % 8 == 0
  {
    var k := base / PAGE;
    assert base == PAGE * k;
    EightDivides(512 * k);
  }

  lemma EightDivides(k: nat)
    ensures 8 * k % 8 == 0
  {
  }

  // Each chunk lies in the mapped range.
  lemma CarvedAt(level: nat, base: nat, a: nat) returns (i: nat)
    requires level < 4 && base > 0 && base % PAGE == 0 && a in Carved(level, base)
    ensures i < Count(level) && a == Addr(base, ChunkSize(level), i) && a > 0 && a % 8 == 0
    ensures base <= a && a + ChunkSize(level) <= base + BlockSize(level)
  {
    var k :| 0 <= k < |Carved(level, base)| && Carved(level, base)[k] == a;
    Alignment(level, base);
    WholeChunks(level, base);
    hide Addr, ChunkSize, BlockSize, Count, Chunks;
    var n, count := ChunkSize(level), Count(level);
    i := k;
    ChunkAt(base, n, 0, count, k);
    AddrIn(base, n, k, count);
  }

  lemma AddrIn(base: nat, n: nat, k: nat, count: nat)
    requires k < count && base > 0 && base % 8 == 0 && n % 8 == 0
    ensures Addr(base, n, k) % 8 == 0 && base <= Addr(base, n, k) && Addr(base, n, k) + n <= Addr(base, n, count)
  {
    AddrAligned(base, n, k);
    AddrNext(base, n, 0);
    hide Addr;
    AddrOrder(base, n, k, count);
    if k > 0 { AddrOrder(base, n, 0, k); }
  }

  lemma CarvedApart(level: nat, base: nat, a: nat, b: nat)
    requires level < 4 && base > 0 && base % PAGE == 0 && a in Carved(level, base) && b in Carved(level, base) && a < b
    ensures a + ChunkSize(level) <= b
  {
    var i := CarvedAt(level, base, a);
    var j := CarvedAt(level, base, b);
    hide Addr, Carved, ChunkSize;
    if j < i { AddrOrder(base, ChunkSize(level), j, i); }
    if i < j { AddrOrder(base, ChunkSize(level), i, j); }
  }

  lemma CarveSized(blocks: map<nat, Block>, level: nat, base: nat)
    requires Sized(blocks) && level < 4 && base > 0 && base % PAGE == 0
    ensures Sized(Carve(blocks, Carved(level, base), level))
  {
    forall a | a in Carved(level, base)
      ensures a > 0 && a % 8 == 0
    {
      var i := CarvedAt(level, base, a);
    }
    hide Carved;
  }

  lemma CarvePair(blocks: map<nat, Block>, level: nat, base: nat, a: nat, b: nat)
    requires Sized(blocks) && Disjoint(blocks) && level < 4 && Unmapped(blocks, base, BlockSize(level)) && a < b
    requires (a in Carved(level, base) || a in blocks) && (b in Carved(level, base) || b in blocks)
    ensures a + (if a in Carved(level, base) then ChunkSize(level) else Extent(blocks[a])) <= b
  {
    hide Carved, ChunkSize, BlockSize, Extent;
    if a in Carved(level, base) && b in Carved(level, base) {
      CarvedApart(level, base, a, b);
    } else if a in Carved(level, base) {
      var i := CarvedAt(level, base, a);
    } else if b in Carved(level, base) {
      var i := CarvedAt(level, base, b);
    }
  }

  lemma CarvedNew(blocks: map<nat, Block>, level: nat, base: nat, a: nat)
    requires Sized(blocks) && level < 4 && Unmapped(blocks, base, BlockSize(level)) && a in Carved(level, base)
    ensures a !in blocks
  {
    hide Carved, BlockSize;
    var i := CarvedAt(level, base, a);
    Alignment(level, base);
    if a in blocks { ExtentPositive(blocks[a]); }
  }

  lemma ExtentPositive(b: Block)
    requires WellSized(b)
    ensures Extent(b) > 0
  {
  }

  // The new chunks overlap neither the old blocks nor each other, and are none of them.
  lemma CarveDisjoint(blocks: map<nat, Block>, level: nat, base: nat)
    requires Sized(blocks) && Disjoint(blocks) && level < 4 && Unmapped(blocks, base, BlockSize(level))
    ensures Sized(Carve(blocks, Carved(level, base), level)) && Disjoint(Carve(blocks, Carved(level, base), level))
    ensures forall a :: a in Carved(level, base) ==> a !in blocks
  {
    CarveSized(blocks, level, base);
    var list := Carved(level, base);
    var blocks' := Carve(blocks, list, level);
    hide Carved, ChunkSize, BlockSize, Unmapped;
    forall a, b | a in blocks' && b in blocks' && a < b
      ensures a + Extent(blocks'[a]) <= b
    {
      CarvePair(blocks, level, base, a, b);
    }
    forall a | a in list
      ensures a !in blocks
    {
      CarvedNew(blocks, level, base, a);
    }
  }

  lemma RootOf(mem: map<nat, nat>, roots: seq<nat>, lists: seq<seq<nat>>, level: nat)
    requires Chains(mem, roots, lists) && level < 4
    ensures |roots| == 4 && |lists| == 4 && (lists[level] == [] <==> roots[level] == 0)
  {
  }

  lemma EmptyRoot(mem: map<nat, nat>, root: nat, list: seq<nat>)
    requires Chain(mem, root, list)
    ensures list == [] <==> root == 0
    ensures list != [] ==> root == list[0] && root in mem && Chain(mem, mem[root], list[1..])
  {
  }

  method LinkCarved(mem: map<nat, nat>, level: nat, base: nat, root: nat) returns (mem': map<nat, nat>)
    requires level < 4 && base > 0 && base % PAGE == 0 && root == 0
    ensures Chain(mem', base, Carved(level, base)) && Distinct(Carved(level, base))
    ensures forall a :: a in mem && a !in Carved(level, base) ==> a in mem' && mem'[a] == mem[a]
  {
    Alignment(level, base);
    ChunksDistinct(base, ChunkSize(level), Count(level));
    hide ChunkSize, Chunks, Chain, Distinct, Count;
    mem' := LinkChunks(mem, base, ChunkSize(level), Count(level), root);
  }

  // Writes to addresses that are no blocks leave all lists alone.
  lemma ListsStay(mem: map<nat, nat>, mem': map<nat, nat>, roots: seq<nat>, lists: seq<seq<nat>>,
                  blocks: map<nat, Block>, live: map<nat, nat>, list: seq<nat>)
    requires Chains(mem, roots, lists) && Accounted(blocks, lists, live)
    requires forall a :: a in list ==> a !in blocks
    requires forall a :: a in mem && a !in list ==> a in mem' && mem'[a] == mem[a]
    ensures Chains(mem', roots, lists)
  {
    hide Chain;
    forall l: nat {:trigger lists[l]} | l < 4
      ensures Chain(mem', roots[l], lists[l])
    {
      forall a | a in lists[l]
        ensures a in blocks
      {
        var i :| 0 <= i < |lists[l]| && lists[l][i] == a;
      }
      ChainAgree(mem, mem', roots[l], lists[l]);
    }
  }

  lemma OneChain(mem: map<nat, nat>, roots: seq<nat>, lists: seq<seq<nat>>, level: nat, root: nat, list: seq<nat>)
    requires Chains(mem, roots, lists) && AllDistinct(lists) && level < 4 && Chain(mem, root, list) && Distinct(list)
    ensures Chains(mem, roots[level := root], lists[level := list]) && AllDistinct(lists[level := list])
  {
    hide Chain, Distinct;
  }

  lemma CarveAccounted(blocks: map<nat, Block>, lists: seq<seq<nat>>, live: map<nat, nat>, level: nat, list: seq<nat>)
    requires |lists| == 4 && level < 4 && lists[level] == [] && Accounted(blocks, lists, live)
    requires forall a :: a in list ==> a !in blocks
    ensures Accounted(Carve(blocks, list, level), lists[level := list], live)
  {
    var blocks', lists' := Carve(blocks, list, level), lists[level := list];
    forall l, i {:trigger lists'[l][i]} | 0 <= l < 4 && 0 <= i < |lists'[l]|
      ensures lists'[l][i] in blocks' && blocks'[lists'[l][i]] == Chunk(l) && lists'[l][i] !in live
    {
      if l != level { assert lists'[l][i] == lists[l][i]; } else { assert list[i] in list; }
    }
    hide LevelOf;
  }

  // What mmap would be asked for.
  function Needed(n: nat): nat {
    if LevelOf(n) < 4 then BlockSize(LevelOf(n)) else Pages(n)
  }

  // A block of its own: it overlaps nothing.
  lemma RawOk(blocks: map<nat, Block>, lists: seq<seq<nat>>, live: map<nat, nat>, n: nat, base: nat)
    requires |lists| == 4 && Sized(blocks) && Disjoint(blocks) && Accounted(blocks, lists, live)
    requires n > 0 && LevelOf(n) == 4 && Unmapped(blocks, base, Pages(n))
    ensures base !in blocks && base !in live && base % 8 == 0
    ensures Sized(blocks[base := Raw(n)]) && Disjoint(blocks[base := Raw(n)])
    ensures Accounted(blocks[base := Raw(n)], lists, live[base := n])
  {
    Alignment(0, base);
    if base in blocks { ExtentPositive(blocks[base]); }
    hide LevelOf, Pages;
  }

  // Taking the first chunk off a stack.
  lemma PopAccounted(blocks: map<nat, Block>, lists: seq<seq<nat>>, live: map<nat, nat>, level: nat, n: nat)
    requires |lists| == 4 && level < 4 && lists[level] != [] && LevelOf(n) == level && Accounted(blocks, lists, live)
    requires Distinct(lists[level])
    ensures var item := lists[level][0];
            && item in blocks && item !in live
            && Accounted(blocks, lists[level := lists[level][1..]], live[item := n])
    ensures Distinct(lists[level][1..])
  {
    var item := lists[level][0];
    var lists' := lists[level := lists[level][1..]];
    var live' := live[item := n];
    assert blocks[item] == Chunk(level);
    hide LevelOf;
    forall l, i {:trigger lists'[l][i]} | 0 <= l < 4 && 0 <= i < |lists'[l]|
      ensures lists'[l][i] in blocks && blocks[lists'[l][i]] == Chunk(l) && lists'[l][i] !in live'
    {
      if l == level { assert lists'[l][i] == lists[l][i + 1]; } else { assert lists'[l][i] == lists[l][i]; }
    }
  }

  // A write to an address that is in no list leaves all lists alone.
  lemma ChainsFrame(mem: map<nat, nat>, roots: seq<nat>, lists: seq<seq<nat>>, a: nat, v: nat)
    requires Chains(mem, roots, lists) && forall l: nat {:trigger lists[l]} :: l < 4 ==> a !in lists[l]
    ensures Chains(mem[a := v], roots, lists)
  {
    hide Chain;
    forall l: nat {:trigger lists[l]} | l < 4
      ensures Chain(mem[a := v], roots[l], lists[l])
    {
      ChainFrame(mem, roots[l], lists[l], a, v);
    }
  }

  // A chunk is in no list of another stack.
  lemma InOwnList(blocks: map<nat, Block>, lists: seq<seq<nat>>, live: map<nat, nat>, a: nat, l: nat)
    requires |lists| == 4 && Accounted(blocks, lists, live) && l < 4 && a in lists[l]
    ensures a in blocks && blocks[a] == Chunk(l) && a !in live
  {
    var i :| 0 <= i < |lists[l]| && lists[l][i] == a;
  }

  lemma InNoOther(blocks: map<nat, Block>, lists: seq<seq<nat>>, live: map<nat, nat>, a: nat, level: nat, l: nat)
    requires |lists| == 4 && Accounted(blocks, lists, live) && level < 4 && l < 4
    requires a in blocks && blocks[a] == Chunk(level) && l != level
    ensures a !in lists[l]
  {
    if a in lists[l] { InOwnList(blocks, lists, live, a, l); }
  }

  // Taking the first chunk off a stack leaves proper lists, even when its link is cleared.
  lemma PopChains(mem: map<nat, nat>, roots: seq<nat>, lists: seq<seq<nat>>, blocks: map<nat, Block>,
                  live: map<nat, nat>, level: nat)
    requires Chains(mem, roots, lists) && AllDistinct(lists) && Accounted(blocks, lists, live)
    requires level < 4 && lists[level] != []
    ensures var item := roots[level];
            && item in mem && item == lists[level][0]
            && Chains(mem[item := 0], roots[level := mem[item]], lists[level := lists[level][1..]])
            && AllDistinct(lists[level := lists[level][1..]])
  {
    EmptyRoot(mem, roots[level], lists[level]);
    var item, rest := roots[level], lists[level][1..];
    assert Distinct(lists[level]) && Distinct(rest) && item !in rest;
    InOwnList(blocks, lists, live, item, level);
    OneChain(mem, roots, lists, level, mem[item], rest);
    var lists' := lists[level := rest];
    forall l: nat {:trigger lists'[l]} | l < 4
      ensures item !in lists'[l]
    {
      if l != level { InNoOther(blocks, lists, live, item, level, l); }
    }
    hide Chain, Accounted, Distinct;
    ChainsFrame(mem, roots[level := mem[item]], lists', item, 0);
  }

  // ------------------------------------------------------------------ what live blocks hold

  predicate Inside(blocks: map<nat, Block>, p: nat, w: nat) {
    p in blocks && WellSized(blocks[p]) && p <= w < p + Extent(blocks[p])
  }

  // Every word in a live block is as before.
  ghost predicate Spared(mem: map<nat, nat>, mem': map<nat, nat>, blocks: map<nat, Block>, live: map<nat, nat>) {
    forall p, w {:trigger Inside(blocks, p, w)} :: p in live && Inside(blocks, p, w) && w in mem ==>
      w in mem' && mem'[w] == mem[w]
  }

  // The start of another block is not inside a block.
  lemma NotInside(blocks: map<nat, Block>, p: nat, a: nat)
    requires Sized(blocks) && Disjoint(blocks) && p in blocks && a in blocks && a != p
    ensures !Inside(blocks, p, a)
  {
    hide Extent;
  }

  lemma SparedByWrite(mem: map<nat, nat>, blocks: map<nat, Block>, live: map<nat, nat>, a: nat, v: nat)
    requires Sized(blocks) && Disjoint(blocks) && a in blocks && a !in live && forall p :: p in live ==> p in blocks
    ensures Spared(mem, mem[a := v], blocks, live)
  {
    forall p, w {:trigger Inside(blocks, p, w)} | p in live && Inside(blocks, p, w) && w in mem
      ensures w in mem[a := v] && mem[a := v][w] == mem[w]
    {
      NotInside(blocks, p, a);
    }
  }

  lemma SparedByCarving(mem: map<nat, nat>, mem': map<nat, nat>, blocks: map<nat, Block>, live: map<nat, nat>,
                        level: nat, base: nat)
    requires Sized(blocks) && level < 4 && Unmapped(blocks, base, BlockSize(level))
    requires forall a :: a in mem && a !in Carved(level, base) ==> a in mem' && mem'[a] == mem[a]
    ensures Spared(mem, mem', blocks, live)
  {
    forall p, w {:trigger Inside(blocks, p, w)} | p in live && Inside(blocks, p, w) && w in mem
      ensures w in mem' && mem'[w] == mem[w]
    {
      if w in Carved(level, base) { var i := CarvedAt(level, base, w); }
    }
  }

  lemma SparedTrans(a: map<nat, nat>, b: map<nat, nat>, c: map<nat, nat>, blocks: map<nat, Block>, live: map<nat, nat>)
    requires Spared(a, b, blocks, live) && Spared(b, c, blocks, live)
    ensures Spared(a, c, blocks, live)
  {
    hide Inside;
  }

  lemma SparedMore(a: map<nat, nat>, b: map<nat, nat>, blocks: map<nat, Block>, blocks': map<nat, Block>,
                   live: map<nat, nat>)
    requires Spared(a, b, blocks', live)
    requires forall p :: p in live ==> p in blocks && p in blocks' && blocks'[p] == blocks[p]
    ensures Spared(a, b, blocks, live)
  {
    forall p, w {:trigger Inside(blocks, p, w)} | p in live && Inside(blocks, p, w) && w in a
      ensures w in b && b[w] == a[w]
    {
      assert Inside(blocks', p, w);
    }
  }

  lemma LiveAreBlocks(blocks: map<nat, Block>, lists: seq<seq<nat>>, live: map<nat, nat>)
    requires |lists| == 4 && Accounted(blocks, lists, live)
    ensures forall p :: p in live ==> p in blocks
  {
  }

  lemma SparedSame(mem: map<nat, nat>, blocks: map<nat, Block>, live: map<nat, nat>)
    ensures Spared(mem, mem, blocks, live)
  {
  }

  lemma CarveKeeps(blocks: map<nat, Block>, level: nat, base: nat)
    requires Sized(blocks) && level < 4 && Unmapped(blocks, base, BlockSize(level))
    ensures Carved(level, base) != []
    ensures var blocks' := Carve(blocks, Carved(level, base), level);
            forall a :: a in blocks ==> a in blocks' && blocks'[a] == blocks[a]
  {
    forall a | a in blocks
      ensures a !in Carved(level, base)
    {
      if a in Carved(level, base) { CarvedNew(blocks, level, base, a); }
    }
  }

  // ------------------------------------------------------------------ giving a block back

  lemma PushAccounted(blocks: map<nat, Block>, lists: seq<seq<nat>>, live: map<nat, nat>, p: nat, level: nat)
    requires |lists| == 4 && Accounted(blocks, lists, live) && p in live && level == LevelOf(live[p]) < 4
    ensures p in blocks && blocks[p] == Chunk(level)
    ensures Accounted(blocks, lists[level := [p] + lists[level]], live - {p})
  {
    var lists' := lists[level := [p] + lists[level]];
    assert blocks[p] == Chunk(level);
    hide LevelOf;
    forall l, i {:trigger lists'[l][i]} | 0 <= l < 4 && 0 <= i < |lists'[l]|
      ensures lists'[l][i] in blocks && blocks[lists'[l][i]] == Chunk(l) && lists'[l][i] !in live - {p}
    {
      if l != level { assert lists'[l][i] == lists[l][i]; } else if i > 0 { assert lists'[l][i] == lists[l][i - 1]; }
    }
  }

  lemma NotListed(blocks: map<nat, Block>, lists: seq<seq<nat>>, live: map<nat, nat>, p: nat)
    requires |lists| == 4 && Accounted(blocks, lists, live) && (p in live || p !in blocks)
    ensures forall l: nat {:trigger lists[l]} :: l < 4 ==> p !in lists[l]
  {
    forall l: nat {:trigger lists[l]} | l < 4
      ensures p !in lists[l]
    {
      if p in lists[l] { InOwnList(blocks, lists, live, p, l); }
    }
  }

  lemma PushChains(mem: map<nat, nat>, roots: seq<nat>, lists: seq<seq<nat>>, p: nat, level: nat)
    requires Chains(mem, roots, lists) && AllDistinct(lists) && level < 4 && p > 0
    requires forall l: nat {:trigger lists[l]} :: l < 4 ==> p !in lists[l]
    ensures Chains(mem[p := roots[level]], roots[level := p], lists[level := [p] + lists[level]])
    ensures AllDistinct(lists[level := [p] + lists[level]])
  {
    ChainsFrame(mem, roots, lists, p, roots[level]);
    var mem' := mem[p := roots[level]];
    assert Chain(mem', roots[level], lists[level]) && Distinct(lists[level]);
    assert Chain(mem', p, [p] + lists[level]) by { assert ([p] + lists[level])[1..] == lists[level]; }
    assert Distinct([p] + lists[level]);
    OneChain(mem', roots, lists, level, p, [p] + lists[level]);
  }

  lemma RawGone(blocks: map<nat, Block>, lists: seq<seq<nat>>, live: map<nat, nat>, p: nat)
    requires |lists| == 4 && Sized(blocks) && Disjoint(blocks) && Accounted(blocks, lists, live)
    requires p in live && LevelOf(live[p]) == 4
    ensures Sized(blocks - {p}) && Disjoint(blocks - {p}) && Accounted(blocks - {p}, lists, live - {p})
  {
    assert blocks[p].Raw?;
    hide LevelOf, Extent;
  }

  // ------------------------------------------------------------------ size headers

  // In front of every block that malloc has returned stands the size that was asked for, and the block was allocated
  // with that size.
  ghost predicate Headers(mem: map<nat, nat>, live: map<nat, nat>, mallocs: map<nat, nat>) {
    forall q :: q in mallocs ==>
      && q >= HEADER && q - HEADER in live && live[q - HEADER] == mallocs[q] + HEADER
      && q - HEADER in mem && mem[q - HEADER] == mallocs[q]
  }

  // Spared blocks keep their headers.
  lemma HeadersStay(mem: map<nat, nat>, mem': map<nat, nat>, blocks: map<nat, Block>, live: map<nat, nat>,
                    live': map<nat, nat>,
                    mallocs: map<nat, nat>)
    requires Headers(mem, live, mallocs) && Sized(blocks) && Spared(mem, mem', blocks, live)
    requires forall p :: p in live ==> p in blocks && p in live' && live'[p] == live[p]
    ensures Headers(mem', live', mallocs)
  {
    forall q | q in mallocs
      ensures q - HEADER in mem' && mem'[q - HEADER] == mallocs[q]
    {
      ExtentPositive(blocks[q - HEADER]);
      assert Inside(blocks, q - HEADER, q - HEADER);
    }
  }

  // The payloads of two malloc'ed blocks do not overlap, nor does one reach into the header of the other.
  lemma PayloadsApart(blocks: map<nat, Block>, lists: seq<seq<nat>>, live: map<nat, nat>, mem: map<nat, nat>,
                      mallocs: map<nat, nat>, q: nat, r: nat)
    requires |lists| == 4 && Sized(blocks) && Disjoint(blocks) && Accounted(blocks, lists, live)
    requires Headers(mem, live, mallocs)
    requires q in mallocs && r in mallocs && q < r
    ensures q + mallocs[q] <= r - HEADER
  {
    Fits(blocks, lists, live, q - HEADER);
    hide LevelOf, Extent;
  }

  // A block is large enough for what was asked for.
  lemma Fits(blocks: map<nat, Block>, lists: seq<seq<nat>>, live: map<nat, nat>, p: nat)
    requires |lists| == 4 && Accounted(blocks, lists, live) && Sized(blocks) && p in live
    ensures p in blocks && live[p] <= Extent(blocks[p])
  {
  }

  lemma SparedHeader(mem: map<nat, nat>, blocks: map<nat, Block>, live: map<nat, nat>, p: nat, v: nat)
    requires Sized(blocks) && Disjoint(blocks) && p in blocks && p !in live
    requires forall a :: a in live ==> a in blocks
    ensures Spared(mem, mem[p := v], blocks, live)
  {
    SparedByWrite(mem, blocks, live, p, v);
  }

  lemma HeadersLess(mem: map<nat, nat>, live: map<nat, nat>, mallocs: map<nat, nat>, q: nat)
    requires Headers(mem, live, mallocs) && q in mallocs
    ensures q >= HEADER && q - HEADER in live && q - HEADER in mem
    ensures live[q - HEADER] == mem[q - HEADER] + HEADER && mem[q - HEADER] == mallocs[q]
    ensures Headers(mem, live - {q - HEADER}, mallocs - {q})
  {
  }

  // A word of a payload is neither the start of a block nor a header.
  lemma WordIsNoBlock(blocks: map<nat, Block>, lists: seq<seq<nat>>, live: map<nat, nat>, mem: map<nat, nat>,
                      mallocs: map<nat, nat>, q: nat, w: nat)
    requires |lists| == 4 && Sized(blocks) && Disjoint(blocks) && Accounted(blocks, lists, live)
    requires Headers(mem, live, mallocs)
    requires q in mallocs && q <= w < q + mallocs[q]
    ensures w !in blocks && w !in live
  {
    var p := q - HEADER;
    Fits(blocks, lists, live, p);
    LiveAreBlocks(blocks, lists, live);
    hide LevelOf, Extent, Accounted;
  }

  lemma HeadersKept(mem: map<nat, nat>, mem': map<nat, nat>, blocks: map<nat, Block>, live: map<nat, nat>,
                    mallocs: map<nat, nat>)
    requires Headers(mem, live, mallocs) && Sized(blocks) && Spared(mem, mem', blocks, live)
    requires forall p :: p in live ==> p in blocks
    ensures Headers(mem', live, mallocs)
  {
    HeadersStay(mem, mem', blocks, live, live, mallocs);
  }

  lemma LiveStill(blocks: map<nat, Block>, live: map<nat, nat>, p: nat)
    requires forall a :: a in live ==> a in blocks
    ensures forall a :: a in live - {p} ==> a in blocks
  {
  }

  lemma HeaderAdded(mem: map<nat, nat>, live: map<nat, nat>, mallocs: map<nat, nat>, p: nat, nbytes: nat)
    requires Headers(mem, live, mallocs) && p in live && live[p] == nbytes + HEADER && p + HEADER !in mallocs
    ensures Headers(mem[p := nbytes], live, mallocs[p + HEADER := nbytes])
  {
  }

  lemma NewPointer(mem: map<nat, nat>, wasLive: map<nat, nat>, mallocs: map<nat, nat>, p: nat)
    requires Headers(mem, wasLive, mallocs) && p !in wasLive
    ensures p + HEADER !in mallocs
  {
  }

  // A block that was allocated with size n returns to the head of the list that serves this size, or is unmapped.
  ghost predicate GoesBack(was: seq<seq<nat>>, wasBlocks: map<nat, Block>, lists: seq<seq<nat>>,
                           blocks: map<nat, Block>, p: nat, n: nat)
    requires |was| == 4
  {
    if LevelOf(n) < 4 then lists == was[LevelOf(n) := [p] + was[LevelOf(n)]] && blocks == wasBlocks
    else lists == was && blocks == wasBlocks - {p}
  }

  class Dispatcher {
    var mem: map<nat, nat>
    var roots: seq<nat>
    ghost var blocks: map<nat, Block>
    ghost var lists: seq<seq<nat>>
    ghost var live: map<nat, nat>
    ghost var mallocs: map<nat, nat>

    ghost predicate Valid()
      reads this
    {
      && |roots| == 4 && |lists| == 4 && Chains(mem, roots, lists) && AllDistinct(lists)
      && Sized(blocks) && Disjoint(blocks) && Accounted(blocks, lists, live)
    }

    ghost predicate ValidHeap()
      reads this
    {
      Valid() && Headers(mem, live, mallocs)
    }

    constructor ()
      ensures Valid() && blocks == map[] && live == map[] && lists == [[], [], [], []]
      ensures ValidHeap() && mallocs == map[]
    {
      mem, roots := map[], [0, 0, 0, 0];
      blocks, lists, live, mallocs := map[], [[], [], [], []], map[], map[];
    }

    // expand, called when the stack is empty; `base` is what mmap returns.
    method Expand(level: nat, base: nat)
      requires Valid() && level < 4 && lists[level] == [] && Unmapped(blocks, base, BlockSize(level))
      modifies this`mem, this`roots, this`lists, this`blocks
      ensures Valid() && lists == old(lists)[level := Carved(level, base)]
      ensures blocks == Carve(old(blocks), Carved(level, base), level)
      ensures roots[level] == base && Spared(old(mem), mem, old(blocks), live)
    {
      hide Disjoint, Sized, Accounted, Chunks, Carved, Distinct, Chain, Chains, AllDistinct, Carve, ChunkSize;
      hide BlockSize, Count, Spared;
      ghost var list := Carved(level, base);
      CarveDisjoint(blocks, level, base);
      RootOf(mem, roots, lists, level);
      var mem' := LinkCarved(mem, level, base, roots[level]);
      ListsStay(mem, mem', roots, lists, blocks, live, list);
      CarveAccounted(blocks, lists, live, level, list);
      OneChain(mem', roots, lists, level, base, list);
      SparedByCarving(mem, mem', blocks, live, level, base);
      mem := mem';
      roots := roots[level := base];
      lists := lists[level := list];
      blocks := Carve(blocks, list, level);
    }

    // JFixedAllocStack::allocate on a stack that is not empty.
    method Pop(level: nat, n: nat) returns (item: nat)
      requires Valid() && level < 4 && lists[level] != [] && LevelOf(n) == level
      modifies this`mem, this`roots, this`lists, this`live
      ensures Valid() && item == old(lists)[level][0] && lists == old(lists)[level := old(lists)[level][1..]]
      ensures live == old(live)[item := n] && item in blocks && item > 0 && item % 8 == 0 && item !in old(live)
      ensures Spared(old(mem), mem, blocks, old(live))
    {
      hide Disjoint, Accounted, Distinct, Chain, LevelOf, Spared;
      LiveAreBlocks(blocks, lists, live);
      PopAccounted(blocks, lists, live, level, n);
      PopChains(mem, roots, lists, blocks, live, level);
      item := roots[level];
      SparedByWrite(mem, blocks, live, item, 0);
      roots := roots[level := mem[item]];
      mem := mem[item := 0];
      lists := lists[level := lists[level][1..]];
      live := live[item := n];
    }

    // allocate: from the stack of the first fitting chunk size, expanded if it is empty, or from mmap. `base` is what
    // mmap returns if it is called. No word of a live block changes.
    method Allocate(n: nat, base: nat) returns (p: nat)
      requires Valid() && n > 0 && Unmapped(blocks, base, Needed(n))
      modifies this`mem, this`roots, this`lists, this`blocks, this`live
      ensures Valid() && p > 0 && p % 8 == 0 && p !in old(live) && live == old(live)[p := n]
      ensures forall a :: a in old(blocks) ==> a in blocks && blocks[a] == old(blocks)[a]
      ensures Spared(old(mem), mem, old(blocks), old(live))
    {
      var level := LevelOf(n);
      if level < 4 {
        p := AllocateChunk(level, n, base);
      } else {
        p := base;
        RawOk(blocks, lists, live, n, base);
        hide Disjoint, Sized, Accounted, Distinct, Chain, Unmapped, LevelOf;
        blocks := blocks[base := Raw(n)];
        live := live[base := n];
      }
    }

    method AllocateChunk(level: nat, n: nat, base: nat) returns (p: nat)
      requires Valid() && level < 4 && LevelOf(n) == level && Unmapped(blocks, base, BlockSize(level))
      modifies this`mem, this`roots, this`lists, this`blocks, this`live
      ensures Valid() && p > 0 && p % 8 == 0 && p !in old(live) && live == old(live)[p := n]
      ensures forall a :: a in old(blocks) ==> a in blocks && blocks[a] == old(blocks)[a]
      ensures Spared(old(mem), mem, old(blocks), old(live))
    {
      hide Disjoint, Sized, Accounted, Distinct, Chain, LevelOf, Unmapped, Carve, Carved, Spared;
      EmptyRoot(mem, roots[level], lists[level]);
      LiveAreBlocks(blocks, lists, live);
      ghost var was := blocks;
      if roots[level] == 0 {
        Expand(level, base);
        CarveKeeps(was, level, base);
      }
      label Expanded:
      p := Pop(level, n);
      SparedMore(old@Expanded(mem), mem, was, blocks, old(live));
      SparedSame(old(mem), was, old(live));
      SparedTrans(old(mem), old@Expanded(mem), mem, was, old(live));
    }

    // JFixedAllocStack::deallocate.
    method Push(level: nat, p: nat)
      requires Valid() && p in live && level == LevelOf(live[p]) < 4
      modifies this`mem, this`roots, this`lists, this`live
      ensures Valid() && live == old(live) - {p} && lists == old(lists)[level := [p] + old(lists)[level]]
      ensures Spared(old(mem), mem, blocks, live)
    {
      PushAccounted(blocks, lists, live, p, level);
      assert p > 0;
      LiveAreBlocks(blocks, lists, live);
      NotListed(blocks, lists, live, p);
      PushChains(mem, roots, lists, p, level);
      SparedByWrite(mem, blocks, live - {p}, p, roots[level]);
      hide Disjoint, Accounted, Sized, Distinct, Chain, Chains, AllDistinct, LevelOf, Spared;
      mem := mem[p := roots[level]];
      roots := roots[level := p];
      lists := lists[level := [p] + lists[level]];
      live := live - {p};
    }

    // deallocate, with the size that the block was allocated with: it goes back to the stack that served it, or is
    // unmapped.
    method Deallocate(p: nat, n: nat)
      requires Valid() && p in live && live[p] == n
      modifies this`mem, this`roots, this`lists, this`live, this`blocks
      ensures Valid() && live == old(live) - {p} && Spared(old(mem), mem, old(blocks), live)
      ensures GoesBack(old(lists), old(blocks), lists, blocks, p, n)
    {
      var level := LevelOf(n);
      if level < 4 {
        Push(level, p);
      } else {
        RawGone(blocks, lists, live, p);
        SparedSame(mem, blocks, live - {p});
        hide Disjoint, Accounted, Sized, Distinct, Chain, Chains, AllDistinct, LevelOf, Spared;
        blocks := blocks - {p};
        live := live - {p};
      }
    }

    // malloc: the size goes in front of what is returned.
    method Malloc(nbytes: nat, base: nat) returns (q: nat)
      requires ValidHeap() && Unmapped(blocks, base, Needed(nbytes + HEADER))
      modifies this
      ensures ValidHeap() && q !in old(mallocs) && mallocs == old(mallocs)[q := nbytes]
      ensures Spared(old(mem), mem, old(blocks), old(live))
    {
      hide Headers, Disjoint, Accounted, Sized, Distinct, Chain, Chains, AllDistinct, LevelOf, Spared, Unmapped, Needed;
      LiveAreBlocks(blocks, lists, live);
      ghost var was, wasLive, wasMem := blocks, live, mem;
      var p := Allocate(nbytes + HEADER, base);
      NewPointer(wasMem, wasLive, mallocs, p);
      ghost var mid := mem;
      HeadersStay(wasMem, mid, was, wasLive, live, mallocs);
      WriteHeader(p, nbytes, wasLive);
      SparedMore(mid, mem, was, blocks, wasLive);
      SparedTrans(wasMem, mid, mem, was, wasLive);
      q := p + HEADER;
      HeaderAdded(mid, live, mallocs, p, nbytes);
      mallocs := mallocs[q := nbytes];
    }

    // *p = nbytes.
    method WriteHeader(p: nat, nbytes: nat, ghost wasLive: map<nat, nat>)
      requires Valid() && p in live && p !in wasLive && forall a :: a in wasLive ==> a in blocks
      modifies this`mem
      ensures Valid() && mem == old(mem)[p := nbytes] && Spared(old(mem), mem, blocks, wasLive)
    {
      hide Disjoint, Accounted, Sized, Distinct, Chain, Chains, AllDistinct, LevelOf, Spared;
      NotListed(blocks, lists, live, p);
      LiveAreBlocks(blocks, lists, live);
      ChainsFrame(mem, roots, lists, p, nbytes);
      SparedHeader(mem, blocks, wasLive, p, nbytes);
      mem := mem[p := nbytes];
    }

    // free: the header says with which size the block goes back.
    method Free(q: nat)
      requires ValidHeap() && q in mallocs
      modifies this
      ensures ValidHeap() && mallocs == old(mallocs) - {q} && Spared(old(mem), mem, old(blocks), live)
      ensures live == old(live) - {q - HEADER}
      ensures GoesBack(old(lists), old(blocks), lists, blocks, q - HEADER, old(mallocs)[q] + HEADER)
    {
      hide Headers, Disjoint, Accounted, Sized, Distinct, Chain, Chains, AllDistinct, LevelOf, Spared, GoesBack;
      LiveAreBlocks(blocks, lists, live);
      HeadersLess(mem, live, mallocs, q);
      var p := q - HEADER;
      var nbytes := mem[p];
      ghost var was, wasMem, left := blocks, mem, mallocs - {q};
      LiveStill(blocks, live, p);
      Deallocate(p, nbytes + HEADER);
      HeadersKept(wasMem, mem, was, live, left);
      mallocs := left;
    }

    // The user writes a word of a block that malloc has returned.
    method UserWrite(q: nat, w: nat, v: nat)
      requires ValidHeap() && q in mallocs && q <= w < q + mallocs[q] && w % 8 == 0
      modifies this`mem
      ensures ValidHeap() && mem == old(mem)[w := v]
    {
      WordIsNoBlock(blocks, lists, live, mem, mallocs, q, w);
      NotListed(blocks, lists, live, w);
      ChainsFrame(mem, roots, lists, w, v);
      mem := mem[w := v];
    }
  }
}
