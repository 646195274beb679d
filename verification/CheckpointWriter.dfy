/** Writing the memory areas of a process into an MTCP checkpoint image (mtcp_writeckpt.c:590-815, 933-1138). */
module CheckpointWriter {
  import opened ImageFormat

  // ------------------------------------------------------------------ all-zero pages

  // Bit-wise or of two words.
  function Or(x: nat, y: nat): nat
    decreases x + y
  {
    if x == 0 then y else if y == 0 then x
    else 2 * Or(x / 2, y / 2) + if x % 2 == 1 || y % 2 == 1 then 1 else 0
  }

  lemma {:induction false} OrZero(x: nat, y: nat)
    ensures Or(x, y) == 0 <==> x == 0 && y == 0
    decreases x + y
  {
    if x > 0 && y > 0 { OrZero(x / 2, y / 2); }
  }

  // The little-endian word of n bytes at address p.
  function Word(m: Memory, p: nat, n: nat): nat
    decreases n
  {
    if n == 0 then 0 else m(p) + 256 * Word(m, p + 1, n - 1)
  }

  lemma {:induction false} WordZero(m: Memory, p: nat, n: nat)
    ensures Word(m, p, n) == 0 <==> AllZero(m, p, p + n)
    decreases n
  {
    if n > 0 { WordZero(m, p + 1, n - 1); }
  }

  // The or of the k words from p on.
  function OrOfWords(m: Memory, p: nat, k: nat): nat {
    if k == 0 then 0 else Or(OrOfWords(m, p, k - 1), Word(m, p + 8 * (k - 1), 8))
  }

  lemma ZeroOn(m: Memory, a: nat, b: nat, c: nat)
    requires a <= b <= c
    ensures AllZero(m, a, b) && AllZero(m, b, c) <==> AllZero(m, a, c)
  {
  }

  lemma ZeroEmpty(m: Memory, a: nat)
    ensures AllZero(m, a, a)
  {
  }

  lemma {:induction false} OrOfWordsZero(m: Memory, p: nat, k: nat)
    ensures OrOfWords(m, p, k) == 0 <==> AllZero(m, p, p + 8 * k)
    decreases k
  {
    hide Or, Word, AllZero;
    if k == 0 {
      ZeroEmpty(m, p);
    } else {
      OrOfWordsZero(m, p, k - 1);
      var last := p + 8 * (k - 1);
      WordZero(m, last, 8);
      OrZero(OrOfWords(m, p, k - 1), Word(m, last, 8));
      ZeroOn(m, p, last, last + 8);
    }
  }

  // mtcp_are_zero_pages: eight words at a time.
  method AreZeroPages(m: Memory, addr: nat, pages: nat) returns (zero: bool)
    ensures zero <==> AllZero(m, addr, addr + pages * PAGE)
  {
    hide Or, Word, OrOfWords, AllZero;
    var end := pages * PAGE / 8;
    WordsOfPages(pages);
    ZeroEmpty(m, addr);
    var i, res := 0, 0;
    ghost var k := 0;
    while i + 7 < end
      invariant i == 8 * k <= end && res == 0 && AllZero(m, addr, addr + 8 * i)
      decreases end - i
    {
      OrOfWordsZero(m, addr + 8 * i, 8);
      ZeroOn(m, addr, addr + 8 * i, addr + 8 * (i + 8));
      ZeroOn(m, addr, addr + 8 * (i + 8), addr + 8 * end);
      res := OrOfWords(m, addr + 8 * i, 8);
      if res != 0 { break; }
      i := i + 8;
      k := k + 1;
    }
    zero := res == 0;
  }

  lemma WordsOfPages(pages: nat)
    ensures pages * PAGE / 8 == 8 * (64 * pages) && 8 * (8 * (64 * pages)) == pages * PAGE
  {
  }

  predicate WholePages(size: nat) {
    size % PAGE == 0
  }

  // Whether a range of whole pages is all zero.
  method ZeroBlock(m: Memory, addr: nat, size: nat) returns (zero: bool)
    requires WholePages(size)
    ensures zero <==> AllZero(m, addr, addr + size)
  {
    hide AllZero;
    assert size / PAGE * PAGE == size;
    zero := AreZeroPages(m, addr, size / PAGE);
  }

  predicate WholeBlocks(size: nat) {
    size % MEGABYTE == 0
  }

  // mtcp_get_next_page_range: the leading run of megabyte blocks that are all zero, or of blocks none of which is.
  method NextPageRange(m: Memory, area: Area) returns (size: nat, isZero: bool)
    requires area.size > 0 && WholePages(area.size)
    ensures 0 < size <= area.size && WholePages(size)
    ensures isZero ==> AllZero(m, area.addr, area.addr + size)
    ensures forall x :: area.addr <= x < area.addr + size ==> (isZero <==> InZeros(m, area.addr, AreaEnd(area), x))
    ensures size < area.size ==> RunEnds(m, area.addr, area.addr + size, AreaEnd(area))
    ensures size < area.size ==>
              (isZero <==> !AllZero(m, area.addr + size, Min(area.addr + size + MEGABYTE, AreaEnd(area))))
  {
    assert WholePages(MEGABYTE) && WholeBlocks(MEGABYTE);
    hide NoZeroBlock, AllZero, WholePages, WholeBlocks, Alike, InZeros, RunEnds;
    if area.size < MEGABYTE {
      NoneInZeros(m, area.addr, AreaEnd(area));
      return area.size, false;
    }
    size := MEGABYTE;
    isZero := ZeroBlock(m, area.addr, MEGABYTE);
    AlikeFirst(m, area.addr, isZero);
    var pg := area.addr + MEGABYTE;
    while pg < AreaEnd(area)
      invariant size == Min(pg, AreaEnd(area)) - area.addr && WholeBlocks(pg - area.addr)
      invariant area.addr < pg && MEGABYTE <= size && WholePages(size)
      invariant Alike(m, area.addr, area.addr + size, isZero)
    {
      var minSize := Min(MEGABYTE, AreaEnd(area) - pg);
      BlockOfPages(area.size, pg - area.addr);
      var z := ZeroBlock(m, pg, minSize);
      if isZero != z { break; }
      AlikeOn(m, area.addr, pg, pg + minSize, z);
      size := size + minSize;
      pg := pg + MEGABYTE;
    }
    AlikeMeans(m, area.addr, area.addr + size, AreaEnd(area), isZero);
  }

  // Whether address x is left out of the image when [lo, hi) is written as runs: it lies in a megabyte block that is
  // all zero. A shorter last block goes with the block before it, and a range of less than a megabyte is always
  // written.
  ghost predicate InZeros(m: Memory, lo: nat, hi: nat, x: nat)
    requires lo <= x < hi
  {
    && lo + MEGABYTE <= hi
    && var start := x - (x - lo) % MEGABYTE;
       if start + MEGABYTE <= hi then AllZero(m, start, start + MEGABYTE) else AllZero(m, start - MEGABYTE, hi)
  }

  lemma NoneInZeros(m: Memory, lo: nat, hi: nat)
    requires hi < lo + MEGABYTE
    ensures forall x :: lo <= x < hi ==> !InZeros(m, lo, hi, x)
  {
  }

  lemma {:induction false} NoZeroBlockAt(m: Memory, lo: nat, hi: nat, start: nat)
    requires lo <= start < hi && WholeBlocks(start - lo) && NoZeroBlock(m, lo, hi)
    ensures !AllZero(m, start, Min(start + MEGABYTE, hi))
    decreases start - lo
  {
    if lo < start { NoZeroBlockAt(m, lo + MEGABYTE, hi, start); }
  }

  lemma BlockOf(lo: nat, x: nat)
    requires lo <= x
    ensures lo <= x - (x - lo) % MEGABYTE <= x < x - (x - lo) % MEGABYTE + MEGABYTE
    ensures WholeBlocks(x - (x - lo) % MEGABYTE - lo)
    ensures x - (x - lo) % MEGABYTE == lo || x - (x - lo) % MEGABYTE >= lo + MEGABYTE
  {
  }

  lemma BlocksBetween(a: nat, b: nat)
    requires WholeBlocks(a) && WholeBlocks(b) && a < b
    ensures a + MEGABYTE <= b
  {
  }

  // A run of blocks alike tells of each address in it whether it is left out.
  lemma AlikeInZeros(m: Memory, lo: nat, mid: nat, hi: nat, isZero: bool, x: nat)
    requires Alike(m, lo, mid, isZero) && lo + MEGABYTE <= mid <= hi && lo <= x < mid
    requires mid == hi || WholeBlocks(mid - lo)
    ensures isZero <==> InZeros(m, lo, hi, x)
  {
    var start := x - (x - lo) % MEGABYTE;
    BlockOf(lo, x);
    if mid < hi { BlocksBetween(start - lo, mid - lo); }
    if isZero {
    } else {
      NoZeroBlockAt(m, lo, mid, start);
    }
  }

  // No block of zeros reaches from before `at` to the end behind it: what starts there can be looked at on its own.
  ghost predicate RunEnds(m: Memory, lo: nat, at: nat, hi: nat) {
    lo + MEGABYTE <= at < hi && WholeBlocks(at - lo) && !AllZero(m, at - MEGABYTE, hi)
  }

  lemma AlikeEnds(m: Memory, lo: nat, at: nat, hi: nat, isZero: bool)
    requires Alike(m, lo, at, isZero) && lo + MEGABYTE <= at < hi && WholeBlocks(at - lo)
    requires isZero <==> !AllZero(m, at, Min(at + MEGABYTE, hi))
    ensures RunEnds(m, lo, at, hi)
  {
    if !isZero {
      assert WholeBlocks(at - MEGABYTE - lo);
      NoZeroBlockAt(m, lo, at, at - MEGABYTE);
    }
  }

  lemma InZerosBehind(m: Memory, lo: nat, at: nat, hi: nat, x: nat)
    requires at == lo || RunEnds(m, lo, at, hi)
    requires at <= x < hi
    ensures InZeros(m, at, hi, x) <==> InZeros(m, lo, hi, x)
  {
    BlockOf(lo, x);
    BlockOf(at, x);
    SameRest(lo, at, x);
    hide AllZero;
  }

  lemma SameRest(lo: nat, at: nat, x: nat)
    requires lo <= at <= x && WholeBlocks(at - lo)
    ensures (x - lo) % MEGABYTE == (x - at) % MEGABYTE
  {
  }

  lemma RunEndsBehind(m: Memory, lo: nat, at: nat, next: nat, hi: nat)
    requires at == lo || RunEnds(m, lo, at, hi)
    requires RunEnds(m, at, next, hi)
    ensures RunEnds(m, lo, next, hi)
  {
    hide AllZero;
  }

  // The blocks from lo up to hi are all zero, or none of them is.
  ghost predicate Alike(m: Memory, lo: nat, hi: nat, isZero: bool) {
    if isZero then AllZero(m, lo, hi) else NoZeroBlock(m, lo, hi)
  }

  lemma AlikeFirst(m: Memory, lo: nat, isZero: bool)
    requires isZero <==> AllZero(m, lo, lo + MEGABYTE)
    ensures Alike(m, lo, lo + MEGABYTE, isZero)
  {
    if !isZero { FirstBlock(m, lo); }
  }

  lemma AlikeOn(m: Memory, lo: nat, pg: nat, hi: nat, isZero: bool)
    requires lo <= pg && WholeBlocks(pg - lo) && Alike(m, lo, pg, isZero)
    requires pg < hi <= pg + MEGABYTE && (isZero <==> AllZero(m, pg, hi))
    ensures Alike(m, lo, hi, isZero)
  {
    if isZero { ZeroOn(m, lo, pg, hi); } else { OneMoreBlock(m, lo, pg, hi); }
  }

  lemma AlikeMeans(m: Memory, lo: nat, mid: nat, hi: nat, isZero: bool)
    requires Alike(m, lo, mid, isZero) && lo + MEGABYTE <= mid <= hi && (mid == hi || WholeBlocks(mid - lo))
    requires mid < hi ==> (isZero <==> !AllZero(m, mid, Min(mid + MEGABYTE, hi)))
    ensures isZero ==> AllZero(m, lo, mid)
    ensures forall x :: lo <= x < mid ==> (isZero <==> InZeros(m, lo, hi, x))
    ensures mid < hi ==> RunEnds(m, lo, mid, hi)
  {
    hide AllZero, NoZeroBlock, WholeBlocks, InZeros, RunEnds;
    forall x | lo <= x < mid
      ensures isZero <==> InZeros(m, lo, hi, x)
    {
      AlikeInZeros(m, lo, mid, hi, isZero, x);
    }
    if mid < hi { AlikeEnds(m, lo, mid, hi, isZero); }
  }

  lemma BlockOfPages(total: nat, done: nat)
    requires WholePages(total) && WholeBlocks(done) && done < total
    ensures WholePages(Min(MEGABYTE, total - done)) && WholePages(done + Min(MEGABYTE, total - done))
    ensures WholePages(done)
    ensures WholeBlocks(done + MEGABYTE)
  {
  }

  lemma FirstBlock(m: Memory, lo: nat)
    requires !AllZero(m, lo, lo + MEGABYTE)
    ensures NoZeroBlock(m, lo, lo + MEGABYTE)
  {
  }

  function Min(x: nat, y: nat): nat {
    if x < y then x else y
  }

  // None of the megabyte blocks from lo up to hi, the last of which may be shorter, is all zero.
  ghost predicate NoZeroBlock(m: Memory, lo: nat, hi: nat)
    decreases hi - lo
  {
    lo < hi ==> !AllZero(m, lo, Min(lo + MEGABYTE, hi)) && NoZeroBlock(m, lo + MEGABYTE, hi)
  }

  lemma {:induction false} OneMoreBlock(m: Memory, lo: nat, pg: nat, hi: nat)
    requires lo <= pg && WholeBlocks(pg - lo) && NoZeroBlock(m, lo, pg)
    requires pg < hi <= pg + MEGABYTE && !AllZero(m, pg, hi)
    ensures NoZeroBlock(m, lo, hi)
    decreases pg - lo
  {
    if lo < pg { OneMoreBlock(m, lo + MEGABYTE, pg, hi); }
  }

  // ------------------------------------------------------------------ records that cover a range

  // The records follow each other without a gap from lo to hi.
  ghost predicate Tiles(recs: seq<Area>, m: Memory, prot: Prot, lo: nat, hi: nat) {
    if recs == [] then lo == hi
    else
      var r := recs[|recs| - 1];
      && lo <= r.addr < hi == AreaEnd(r) && r.prot == prot && Faithful(m, r)
      && Tiles(recs[..|recs| - 1], m, prot, lo, r.addr)
  }

  ghost predicate Hit(recs: seq<Area>, a: nat) {
    exists i :: 0 <= i < |recs| && Within(a, recs[i])
  }

  ghost predicate Ordered(recs: seq<Area>) {
    forall i, j :: 0 <= i < j < |recs| ==> AreaEnd(recs[i]) <= recs[j].addr
  }

  // A record within [lo, hi) with the protection of its area.
  ghost predicate Part(m: Memory, r: Area, prot: Prot, lo: nat, hi: nat) {
    lo <= r.addr && r.size > 0 && AreaEnd(r) <= hi && r.prot == prot && Faithful(m, r)
  }

  // The records are parts of [lo, hi) in ascending order, and no address is missing.
  ghost predicate Covers(recs: seq<Area>, m: Memory, prot: Prot, lo: nat, hi: nat) {
    && Ordered(recs)
    && (forall i {:trigger recs[i]} :: 0 <= i < |recs| ==> Part(m, recs[i], prot, lo, hi))
    && (forall a: nat {:trigger Hit(recs, a)} :: lo <= a < hi ==> Hit(recs, a))
  }

  lemma {:induction false} TilesCover(recs: seq<Area>, m: Memory, prot: Prot, lo: nat, hi: nat)
    requires Tiles(recs, m, prot, lo, hi)
    ensures lo <= hi && Covers(recs, m, prot, lo, hi)
  {
    hide Faithful;
    if recs != [] {
      var n := |recs| - 1;
      var front, r := recs[..n], recs[n];
      TilesCover(front, m, prot, lo, r.addr);
      forall a: nat {:trigger Hit(recs, a)} | lo <= a < hi
        ensures Hit(recs, a)
      {
        if a < r.addr { HitMore(front, recs, a); } else { assert Within(a, recs[n]); }
      }
      assert forall i {:trigger recs[i]} :: 0 <= i < n ==> recs[i] == front[i];
    }
  }

  lemma HitMore(front: seq<Area>, recs: seq<Area>, a: nat)
    requires front <= recs && Hit(front, a)
    ensures Hit(recs, a)
  {
    var i :| 0 <= i < |front| && Within(a, front[i]);
    assert Within(a, recs[i]);
  }

  // Exactly the records of zeros hold the addresses that are left out when [lo, hi) is written as runs, if it is.
  ghost predicate Marked(recs: seq<Area>, m: Memory, split: bool, lo: nat, hi: nat) {
    forall i, x: nat {:trigger Within(x, recs[i])} :: 0 <= i < |recs| && Within(x, recs[i]) ==>
      lo <= x < hi && (recs[i].zeroPage <==> split && InZeros(m, lo, hi, x))
  }

  lemma MarkedMore(recs: seq<Area>, m: Memory, r: Area, lo: nat, hi: nat)
    requires Marked(recs, m, true, lo, hi) && (r.addr == lo || RunEnds(m, lo, r.addr, hi)) && AreaEnd(r) <= hi
    requires forall x :: r.addr <= x < AreaEnd(r) ==> (r.zeroPage <==> InZeros(m, r.addr, hi, x))
    ensures Marked(recs + [r], m, true, lo, hi)
  {
    forall i, x: nat {:trigger Within(x, (recs + [r])[i])} | 0 <= i <= |recs| && Within(x, (recs + [r])[i])
      ensures lo <= x < hi && ((recs + [r])[i].zeroPage <==> InZeros(m, lo, hi, x))
    {
      if i == |recs| { InZerosBehind(m, lo, r.addr, hi, x); } else { assert Within(x, recs[i]); }
    }
  }

  lemma MarkedWhole(m: Memory, r: Area)
    requires !r.zeroPage
    ensures Marked([r], m, false, r.addr, AreaEnd(r))
  {
  }

  // ------------------------------------------------------------------ writing one area

  class ImageFile {
    var cells: seq<Cell>

    constructor ()
      ensures cells == []
    {
      cells := [];
    }

    method WriteHeader(rec: Area)
      modifies this
      ensures cells == old(cells) + [Header(rec)]
    {
      cells := cells + [Header(rec)];
    }

    method WriteEnd()
      modifies this
      ensures cells == old(cells) + [End]
    {
      cells := cells + [End];
    }

    // mtcp_writefile for memory: it goes on until everything is written.
    method WriteBytes(m: Memory, addr: nat, size: nat)
      modifies this
      ensures cells == old(cells) + Bytes(m, addr, size)
    {
      var i := 0;
      while i < size
        invariant i <= size && cells == old(cells) + Bytes(m, addr, i)
      {
        assert Bytes(m, addr, i + 1) == Bytes(m, addr, i) + [Byte(m(addr + i))];
        cells := cells + [Byte(m(addr + i))];
        i := i + 1;
      }
    }
  }

  lemma OneRecord(m: Memory, recs: seq<Area>, r: Area, lo: nat)
    requires Tiles(recs, m, r.prot, lo, r.addr) && r.size > 0 && lo <= r.addr && Faithful(m, r)
    ensures Tiles(recs + [r], m, r.prot, lo, AreaEnd(r))
    ensures Flat(m, recs + [r]) == Flat(m, recs) + Cells(m, r)
  {
    hide Cells, Faithful;
    assert (recs + [r])[..|recs + [r]| - 1] == recs;
  }

  // The records carry what the area says, except for where they are and whether they are of zeros.
  ghost predicate Like(recs: seq<Area>, area: Area) {
    forall i {:trigger recs[i]} :: 0 <= i < |recs| ==>
      recs[i] == area.(addr := recs[i].addr, size := recs[i].size, zeroPage := recs[i].zeroPage)
  }

  // mtcp_write_non_rwx_and_anonymous_pages: aborts (not ok) on an area with a name, and otherwise writes it as runs of
  // pages, those of zeros as a mere descriptor.
  method WriteNonRwxAndAnonymous(file: ImageFile, m: Memory, orig: Area) returns (ok: bool, ghost recs: seq<Area>)
    requires WholePages(orig.size) && orig.flags.anonymous && !orig.zeroPage
    modifies file
    ensures ok <==> orig.name == ""
    ensures !ok ==> recs == []
    ensures ok ==> Tiles(recs, m, orig.prot, orig.addr, AreaEnd(orig))
    ensures ok ==> Marked(recs, m, true, orig.addr, AreaEnd(orig)) && Like(recs, orig)
    ensures file.cells == old(file.cells) + Flat(m, recs)
  {
    hide AllZero, NoZeroBlock, Tiles, Flat, Bytes, WholePages, Marked, InZeros, RunEnds;
    NoRecords(m, orig);
    recs := [];
    ok := orig.name == "";
    if !ok { return; }
    var area := orig;
    while area.size > 0
      invariant area == orig.(addr := area.addr, size := area.size) && WholePages(area.size)
      invariant AreaEnd(area) == AreaEnd(orig) && orig.addr <= area.addr
      invariant Tiles(recs, m, orig.prot, orig.addr, area.addr) && Marked(recs, m, true, orig.addr, AreaEnd(orig))
      invariant area.size == 0 || area.addr == orig.addr || RunEnds(m, orig.addr, area.addr, AreaEnd(orig))
      invariant file.cells == old(file.cells) + Flat(m, recs) && Like(recs, orig)
      decreases area.size
    {
      var size, isZero := NextPageRange(m, area);
      var a := area.(zeroPage := isZero, size := size);
      file.WriteHeader(a);
      if !isZero { file.WriteBytes(m, a.addr, a.size); }
      OneRecord(m, recs, a, orig.addr);
      MarkedMore(recs, m, a, orig.addr, AreaEnd(orig));
      PagesLeft(area.size, size);
      if size < area.size { RunEndsBehind(m, orig.addr, area.addr, area.addr + size, AreaEnd(orig)); }
      recs := recs + [a];
      area := area.(addr := area.addr + size, size := area.size - size);
    }
  }

  lemma PagesLeft(total: nat, size: nat)
    requires size <= total && WholePages(size) && WholePages(total)
    ensures WholePages(total - size)
  {
  }

  lemma NoRecords(m: Memory, area: Area)
    ensures Tiles([], m, area.prot, area.addr, area.addr) && Flat(m, []) == []
    ensures forall lo: nat, hi: nat :: Marked([], m, true, lo, hi)
  {
  }

  predicate NoAccess(p: Prot) {
    !p.read && !p.write && !p.execute
  }

  // A piece with this name is written as runs of pages.
  predicate Split(p: Prot, name: string) {
    NoAccess(p) || name == ""
  }

  // The break lies in the area, or at its end.
  predicate HoldsBreak(a: Area, brk: nat) {
    a.addr < brk <= AreaEnd(a)
  }

  // writememoryarea, for an anonymous private area that is not one of the kernel's own. It names an unnamed area that
  // holds the break, for good; and an inaccessible area with a name makes it abort.
  method WriteMemoryArea(file: ImageFile, m: Memory, orig: Area, brk: nat)
    returns (ok: bool, area: Area, ghost recs: seq<Area>)
    requires orig.size > 0 && WholePages(orig.size) && orig.flags.anonymous && orig.flags.private && !orig.zeroPage
    modifies file
    ensures area == orig.(name := if orig.name == "" && HoldsBreak(orig, brk) then "[heap]" else orig.name)
    ensures ok <==> !NoAccess(orig.prot) || area.name == ""
    ensures ok ==> Tiles(recs, m, orig.prot, orig.addr, AreaEnd(orig))
    ensures ok ==> Marked(recs, m, Split(orig.prot, area.name), orig.addr, AreaEnd(orig)) && Like(recs, area)
    ensures file.cells == old(file.cells) + Flat(m, recs)
  {
    hide AllZero, Tiles, Flat, Bytes, WholePages, Marked;
    area := orig;
    if area.name == "" && area.addr < brk && brk <= AreaEnd(area) {
      area := area.(name := "[heap]");
    }
    if NoAccess(area.prot) || area.name == "" {
      ok, recs := WriteNonRwxAndAnonymous(file, m, area);
    } else {
      file.WriteHeader(area);
      file.WriteBytes(m, area.addr, area.size);
      NoRecords(m, orig);
      OneRecord(m, [], area, orig.addr);
      MarkedWhole(m, area);
      ok, recs := true, [] + [area];
      assert recs == [area];
    }
  }

  // ------------------------------------------------------------------ all areas

  function StartsWith(s: string, prefix: string): bool {
    prefix <= s
  }

  // Shared memory without a file behind it is saved as private anonymous memory, and so is every private area.
  function Settle(area: Area): Area {
    var a := if StartsWith(area.name, "/dev/zero (deleted)") || StartsWith(area.name, "/dev/null (deleted)")
                || StartsWith(area.name, "/SYSV")
             then area.(flags := Flags(false, true, true), name := "") else area;
    if a.flags.private then a.(flags := a.flags.(anonymous := true)) else a
  }

  // Named areas that can be neither read nor written are left out of the image.
  predicate Kept(area: Area) {
    area.prot.read || area.prot.write || area.name == ""
  }

  // What the list of mappings guarantees for the areas that this model covers.
  predicate Proper(area: Area) {
    area.size > 0 && WholePages(area.addr) && WholePages(area.size) && !area.zeroPage && Settle(area).flags.private
  }

  // The part of an area before and the part behind the restore image; either may be missing (of size 0).
  function Before(area: Area, begin: nat): Area {
    area.(size := if area.addr < begin then Min(AreaEnd(area), begin) - area.addr else 0)
  }

  function Behind(area: Area, end: nat): Area {
    var start := if area.addr < end then end else area.addr;
    area.(addr := start, size := if AreaEnd(area) > start then AreaEnd(area) - start else 0,
          offset := area.offset + (start - area.addr))
  }

  // The writer gives up on an inaccessible unnamed area of which a part that is to be written holds the break.
  predicate Refused(area: Area, begin: nat, end: nat, brk: nat) {
    var a := Settle(area);
    NoAccess(a.prot) && a.name == "" &&
    ((Before(a, begin).size > 0 && HoldsBreak(Before(a, begin), brk))
     || (Behind(a, end).size > 0 && HoldsBreak(Behind(a, end), brk)))
  }

  predicate Outside(a: nat, begin: nat, end: nat) {
    a < begin || a >= end
  }

  // The name of the part before, and that of the part behind, which inherits a name that the part before was given.
  function NameBefore(a: Area, begin: nat, brk: nat): string {
    if a.name == "" && HoldsBreak(Before(a, begin), brk) then "[heap]" else a.name
  }

  function NameBehind(a: Area, begin: nat, end: nat, brk: nat): string {
    var name := NameBefore(a, begin, brk);
    if name == "" && HoldsBreak(Behind(a, end), brk) then "[heap]" else name
  }

  // Whether address x of an area is left out of the image as one of a block of zeros.
  ghost predicate Elided(m: Memory, area: Area, begin: nat, end: nat, brk: nat, x: nat)
    requires Within(x, area) && Outside(x, begin, end)
  {
    var a := Settle(area);
    if x < begin
    then Split(a.prot, NameBefore(a, begin, brk)) && InZeros(m, area.addr, AreaEnd(Before(area, begin)), x)
    else Split(a.prot, NameBehind(a, begin, end, brk)) && InZeros(m, Behind(area, end).addr, AreaEnd(area), x)
  }

  // Exactly the records of zeros hold the addresses of the area that are left out.
  ghost predicate TrueMark(m: Memory, r: Area, area: Area, begin: nat, end: nat, brk: nat) {
    forall x: nat {:trigger Within(x, r)} :: Within(x, r) ==>
      Within(x, area) && Outside(x, begin, end) && (r.zeroPage <==> Elided(m, area, begin, end, brk, x))
  }

  // The record has the flags of the area as settled, the name of its part, and the offset of its part in the file.
  predicate Labelled(r: Area, area: Area, begin: nat, end: nat, brk: nat) {
    var a := Settle(area);
    && r.flags == a.flags
    && r.name == (if r.addr < begin then NameBefore(a, begin, brk) else NameBehind(a, begin, end, brk))
    && r.offset == area.offset + if area.addr < end <= r.addr then end - area.addr else 0
  }

  ghost predicate TrueMarks(recs: seq<Area>, m: Memory, area: Area, begin: nat, end: nat, brk: nat) {
    forall i {:trigger recs[i]} :: 0 <= i < |recs| ==>
      TrueMark(m, recs[i], area, begin, end, brk) && Labelled(recs[i], area, begin, end, brk)
  }

  lemma MarksBefore(recs: seq<Area>, m: Memory, piece: Area, area: Area, begin: nat, end: nat, brk: nat)
    requires Proper(area) && begin <= end && area.addr < begin
    requires Like(recs, piece) && piece.flags == Settle(area).flags && piece.offset == area.offset
    requires piece.name == NameBefore(Settle(area), begin, brk)
    requires Tiles(recs, m, area.prot, area.addr, AreaEnd(Before(area, begin)))
    requires Marked(recs, m, Split(area.prot, piece.name), area.addr, AreaEnd(Before(area, begin)))
    ensures TrueMarks(recs, m, area, begin, end, brk)
  {
    SettleKeeps(area);
    TilesCover(recs, m, area.prot, area.addr, AreaEnd(Before(area, begin)));
    hide InZeros, Settle, Split, NameBefore, NameBehind, Faithful, Hit, Tiles;
    forall i {:trigger recs[i]} | 0 <= i < |recs|
      ensures TrueMark(m, recs[i], area, begin, end, brk) && Labelled(recs[i], area, begin, end, brk)
    {
      assert Part(m, recs[i], area.prot, area.addr, AreaEnd(Before(area, begin)));
      forall x: nat {:trigger Within(x, recs[i])} | Within(x, recs[i])
        ensures Within(x, area) && Outside(x, begin, end) && (recs[i].zeroPage <==> Elided(m, area, begin, end, brk, x))
      {
      }
    }
  }

  lemma MarksBehind(recs: seq<Area>, m: Memory, piece: Area, area: Area, begin: nat, end: nat, brk: nat)
    requires Proper(area) && begin <= end && (area.addr < begin ==> begin <= end < AreaEnd(area)) && end < AreaEnd(area)
    requires Like(recs, piece) && piece.flags == Settle(area).flags && piece.offset == Behind(area, end).offset
    requires piece.name == NameBehind(Settle(area), begin, end, brk)
    requires Tiles(recs, m, area.prot, Behind(area, end).addr, AreaEnd(area))
    requires Marked(recs, m, Split(area.prot, piece.name), Behind(area, end).addr, AreaEnd(area))
    ensures TrueMarks(recs, m, area, begin, end, brk)
  {
    SettleKeeps(area);
    TilesCover(recs, m, area.prot, Behind(area, end).addr, AreaEnd(area));
    hide InZeros, Settle, Split, NameBefore, NameBehind, Faithful, Hit, Tiles;
    forall i {:trigger recs[i]} | 0 <= i < |recs|
      ensures TrueMark(m, recs[i], area, begin, end, brk) && Labelled(recs[i], area, begin, end, brk)
    {
      assert Part(m, recs[i], area.prot, Behind(area, end).addr, AreaEnd(area));
      forall x: nat {:trigger Within(x, recs[i])} | Within(x, recs[i])
        ensures Within(x, area) && Outside(x, begin, end) && (recs[i].zeroPage <==> Elided(m, area, begin, end, brk, x))
      {
      }
    }
  }

  // The records hold exactly the addresses of the area outside the restore image, in ascending order.
  ghost predicate Written(recs: seq<Area>, m: Memory, area: Area, begin: nat, end: nat, brk: nat) {
    && TrueMarks(recs, m, area, begin, end, brk)
    && Ordered(recs)
    && (forall i {:trigger recs[i]} :: 0 <= i < |recs| ==>
          && Part(m, recs[i], area.prot, area.addr, AreaEnd(area)) && Labelled(recs[i], area, begin, end, brk)
          && (AreaEnd(recs[i]) <= begin || recs[i].addr >= end))
    && (forall a: nat {:trigger Hit(recs, a)} ::
          area.addr <= a < AreaEnd(area) && Outside(a, begin, end) ==> Hit(recs, a))
  }

  lemma SettleKeeps(area: Area)
    requires Proper(area)
    ensures var a := Settle(area);
            && a.addr == area.addr && a.size == area.size && a.prot == area.prot && !a.zeroPage
            && a.flags.private && a.flags.anonymous && a.offset == area.offset
    ensures Settle(area).name ==
            if "/dev/zero (deleted)" <= area.name || "/dev/null (deleted)" <= area.name || "/SYSV" <= area.name then ""
            else area.name
  {
  }

  lemma OnePart(recs: seq<Area>, m: Memory, area: Area, lo: nat, hi: nat, begin: nat, end: nat, brk: nat)
    requires Tiles(recs, m, area.prot, lo, hi) && TrueMarks(recs, m, area, begin, end, brk)
    requires area.addr <= lo && hi <= AreaEnd(area) && (hi <= begin || lo >= end)
    requires lo == area.addr || (begin <= area.addr && lo == end)
    requires hi == AreaEnd(area) || (hi == begin && AreaEnd(area) <= end)
    ensures Written(recs, m, area, begin, end, brk)
  {
    hide Faithful, Tiles, Hit, TrueMark, Labelled;
    TilesCover(recs, m, area.prot, lo, hi);
    forall i {:trigger recs[i]} | 0 <= i < |recs|
      ensures Part(m, recs[i], area.prot, area.addr, AreaEnd(area))
      ensures AreaEnd(recs[i]) <= begin || recs[i].addr >= end
    {
      assert Part(m, recs[i], area.prot, lo, hi);
    }
  }

  lemma TwoParts(first: seq<Area>, second: seq<Area>, m: Memory, area: Area, begin: nat, end: nat, brk: nat)
    requires TrueMarks(first, m, area, begin, end, brk) && TrueMarks(second, m, area, begin, end, brk)
    requires Tiles(first, m, area.prot, area.addr, begin) && Tiles(second, m, area.prot, end, AreaEnd(area))
    requires area.addr < begin <= end < AreaEnd(area)
    ensures Written(first + second, m, area, begin, end, brk)
  {
    hide Faithful, Tiles, Hit, TrueMark, Labelled;
    TilesCover(first, m, area.prot, area.addr, begin);
    TilesCover(second, m, area.prot, end, AreaEnd(area));
    var recs := first + second;
    forall i {:trigger recs[i]} | 0 <= i < |recs|
      ensures Part(m, recs[i], area.prot, area.addr, AreaEnd(area))
      ensures AreaEnd(recs[i]) <= begin || recs[i].addr >= end
    {
      if i < |first| { assert Part(m, first[i], area.prot, area.addr, begin); }
      else { assert Part(m, second[i - |first|], area.prot, end, AreaEnd(area)); }
    }
    forall a: nat {:trigger Hit(recs, a)} | area.addr <= a < AreaEnd(area) && Outside(a, begin, end)
      ensures Hit(recs, a)
    {
      if a < begin { HitMore(first, recs, a); } else { HitLater(first, second, a); }
    }
  }

  lemma HitLater(first: seq<Area>, second: seq<Area>, a: nat)
    requires Hit(second, a)
    ensures Hit(first + second, a)
  {
    var i :| 0 <= i < |second| && Within(a, second[i]);
    assert Within(a, (first + second)[|first| + i]);
  }

  lemma NoPart(m: Memory, area: Area, begin: nat, end: nat, brk: nat)
    requires begin <= area.addr && AreaEnd(area) <= end
    ensures Written([], m, area, begin, end, brk) && Flat(m, []) == []
  {
  }

  lemma RefusedCases(area: Area, begin: nat, end: nat, brk: nat)
    requires Proper(area) && Kept(area) && begin <= end
    ensures NoAccess(area.prot) ==> Settle(area).name == ""
    ensures Refused(area, begin, end, brk) <==>
              (&& NoAccess(area.prot)
               && if area.addr < begin then
                    if AreaEnd(area) <= begin then area.addr < brk <= AreaEnd(area)
                    else area.addr < brk <= begin || end < brk <= AreaEnd(area)
                  else if area.addr < end then end < brk <= AreaEnd(area)
                  else area.addr < brk <= AreaEnd(area))
  {
    SettleKeeps(area);
    hide Settle;
  }

  lemma PieceCases(area: Area, begin: nat, end: nat, brk: nat)
    requires Proper(area) && begin <= end
    ensures var a := Settle(area);
            var before := a.addr < begin && a.addr < brk <= Min(AreaEnd(a), begin);
            var start := if a.addr < end then end else a.addr;
            var behind := start < brk <= AreaEnd(a);
            && AreaEnd(Before(area, begin)) == (if a.addr < begin then Min(AreaEnd(a), begin) else a.addr)
            && Behind(area, end).addr == start && Behind(area, end).offset == area.offset + (start - area.addr)
            && NameBefore(a, begin, brk) == (if a.name == "" && before then "[heap]" else a.name)
            && NameBehind(a, begin, end, brk) == (if a.name == "" && (before || behind) then "[heap]" else a.name)
  {
    SettleKeeps(area);
    hide Settle;
  }

  lemma WholePagesLeft(area: Area, begin: nat, end: nat)
    requires Proper(area) && WholePages(begin) && WholePages(end)
    ensures WholePages(area.size) && area.size > 0
    ensures area.addr < begin ==> WholePages(begin - area.addr)
    ensures end < AreaEnd(area) ==> WholePages(AreaEnd(area) - end)
  {
  }

  // One turn of the loop over the mappings, behind the test for areas to leave out (mtcp_writeckpt.c:750-782).
  method WriteArea(file: ImageFile, m: Memory, orig: Area, begin: nat, end: nat, brk: nat)
    returns (ok: bool, ghost recs: seq<Area>)
    requires Proper(orig) && Kept(orig) && begin <= end && WholePages(begin) && WholePages(end)
    modifies file
    ensures ok <==> !Refused(orig, begin, end, brk)
    ensures ok ==> Written(recs, m, orig, begin, end, brk) && file.cells == old(file.cells) + Flat(m, recs)
  {
    hide Tiles, Flat, StartsWith, Written, Settle, Refused, Proper, NoAccess, WholePages;
    hide Split, NameBefore, NameBehind, Before, Behind, TrueMarks, Marked;
    SettleKeeps(orig);
    RefusedCases(orig, begin, end, brk);
    PieceCases(orig, begin, end, brk);
    WholePagesLeft(orig, begin, end);
    var area := Settle(orig);
    var areaBegin, areaEnd := area.addr, AreaEnd(area);
    if areaBegin < begin {
      if areaEnd <= begin {
        ok, area, recs := WriteMemoryArea(file, m, area, brk);
        if ok {
          MarksBefore(recs, m, area, orig, begin, end, brk);
          OnePart(recs, m, orig, orig.addr, AreaEnd(orig), begin, end, brk);
        }
      } else if areaEnd <= end {
        area := area.(size := begin - areaBegin);
        ok, area, recs := WriteMemoryArea(file, m, area, brk);
        if ok {
          MarksBefore(recs, m, area, orig, begin, end, brk);
          OnePart(recs, m, orig, orig.addr, begin, begin, end, brk);
        }
      } else {
        area := area.(size := begin - areaBegin);
        ok, area, recs := WriteMemoryArea(file, m, area, brk);
        if !ok { return; }
        MarksBefore(recs, m, area, orig, begin, end, brk);
        area := area.(offset := area.offset + (end - areaBegin), size := areaEnd - end, addr := end);
        ghost var more;
        ok, area, more := WriteMemoryArea(file, m, area, brk);
        if ok {
          MarksBehind(more, m, area, orig, begin, end, brk);
          TwoParts(recs, more, m, orig, begin, end, brk);
          FlatConcat(m, recs, more);
          recs := recs + more;
        }
      }
    } else if areaBegin < end {
      if areaEnd > end {
        area := area.(offset := area.offset + (end - areaBegin), size := areaEnd - end, addr := end);
        ok, area, recs := WriteMemoryArea(file, m, area, brk);
        if ok {
          MarksBehind(recs, m, area, orig, begin, end, brk);
          OnePart(recs, m, orig, end, AreaEnd(orig), begin, end, brk);
        }
      } else {
        ok, recs := true, [];
        NoPart(m, orig, begin, end, brk);
      }
    } else {
      ok, area, recs := WriteMemoryArea(file, m, area, brk);
      if ok {
        MarksBehind(recs, m, area, orig, begin, end, brk);
        OnePart(recs, m, orig, orig.addr, AreaEnd(orig), begin, end, brk);
      }
    }
  }

  // ------------------------------------------------------------------ the whole image

  // Mappings are listed in ascending order and do not overlap.
  ghost predicate Sorted(areas: seq<Area>) {
    forall i, j :: 0 <= i < j < |areas| ==> AreaEnd(areas[i]) <= areas[j].addr
  }

  // A record belongs to one of the first n areas and lies outside the restore image.
  ghost predicate Origin(m: Memory, r: Area, areas: seq<Area>, n: nat, begin: nat, end: nat, brk: nat)
    requires n <= |areas|
  {
    exists k :: 0 <= k < n && Kept(areas[k]) && Part(m, r, areas[k].prot, areas[k].addr, AreaEnd(areas[k]))
                && (AreaEnd(r) <= begin || r.addr >= end) && TrueMark(m, r, areas[k], begin, end, brk)
                && Labelled(r, areas[k], begin, end, brk)
  }

  // The records stand for the first n areas: they ascend, each belongs to an area that is kept, and together they hold
  // every address of the kept areas outside the restore image.
  ghost predicate ImageOf(recs: seq<Area>, m: Memory, areas: seq<Area>, n: nat, begin: nat, end: nat, brk: nat)
    requires n <= |areas|
  {
    && Ordered(recs)
    && (forall i {:trigger recs[i]} :: 0 <= i < |recs| ==> Origin(m, recs[i], areas, n, begin, end, brk))
    && (forall k, a: nat {:trigger Within(a, areas[k])} ::
          0 <= k < n && Kept(areas[k]) && Within(a, areas[k]) && Outside(a, begin, end) ==> Hit(recs, a))
  }

  lemma ImageMore(recs: seq<Area>, more: seq<Area>, m: Memory, areas: seq<Area>, n: nat, begin: nat, end: nat, brk: nat)
    requires n < |areas| && Sorted(areas) && ImageOf(recs, m, areas, n, begin, end, brk)
    requires if Kept(areas[n]) then Written(more, m, areas[n], begin, end, brk) else more == []
    ensures ImageOf(recs + more, m, areas, n + 1, begin, end, brk)
  {
    hide Faithful, Hit, Kept, Within, Labelled;
    var all := recs + more;
    forall i {:trigger all[i]} | 0 <= i < |all|
      ensures Origin(m, all[i], areas, n + 1, begin, end, brk)
    {
      if i < |recs| {
        OriginMore(m, recs[i], areas, n, begin, end, brk);
      } else {
        assert all[i] == more[i - |recs|];
        assert Part(m, all[i], areas[n].prot, areas[n].addr, AreaEnd(areas[n]));
      }
    }
    forall k, a: nat {:trigger Within(a, areas[k])} | 0 <= k <= n && Kept(areas[k]) && Within(a, areas[k])
        && Outside(a, begin, end)
      ensures Hit(all, a)
    {
      if k < n { HitMore(recs, all, a); } else { WithinMeans(a, areas[n]); HitLater(recs, more, a); }
    }
    OrderedOn(recs, more, m, areas, n, begin, end, brk);
  }

  lemma WithinMeans(a: nat, r: Area)
    ensures Within(a, r) <==> r.addr <= a < AreaEnd(r)
  {
  }

  lemma OriginMore(m: Memory, r: Area, areas: seq<Area>, n: nat, begin: nat, end: nat, brk: nat)
    requires n < |areas| && Origin(m, r, areas, n, begin, end, brk)
    ensures Origin(m, r, areas, n + 1, begin, end, brk)
  {
  }

  lemma OrderedOn(recs: seq<Area>, more: seq<Area>, m: Memory, areas: seq<Area>, n: nat, begin: nat, end: nat, brk: nat)
    requires n < |areas| && Sorted(areas) && ImageOf(recs, m, areas, n, begin, end, brk)
    requires if Kept(areas[n]) then Written(more, m, areas[n], begin, end, brk) else more == []
    ensures Ordered(recs + more)
  {
    hide Faithful, Hit, Kept, Within, Labelled;
    forall i, j | 0 <= i < |recs| && 0 <= j < |more|
      ensures AreaEnd(recs[i]) <= more[j].addr
    {
      assert Origin(m, recs[i], areas, n, begin, end, brk);
      assert Part(m, more[j], areas[n].prot, areas[n].addr, AreaEnd(areas[n]));
    }
  }

  // write_ckpt_to_file, from the first mapping to the End mark. It succeeds unless some area is refused.
  method WriteCheckpoint(file: ImageFile, m: Memory, areas: seq<Area>, begin: nat, end: nat, brk: nat)
    returns (ok: bool, ghost recs: seq<Area>)
    requires Sorted(areas) && (forall i {:trigger areas[i]} :: 0 <= i < |areas| ==> Proper(areas[i]))
    requires begin <= end && WholePages(begin) && WholePages(end)
    modifies file
    ensures ok <==>
              forall i {:trigger areas[i]} ::
                0 <= i < |areas| && Kept(areas[i]) ==> !Refused(areas[i], begin, end, brk)
    ensures ok ==> ImageOf(recs, m, areas, |areas|, begin, end, brk)
    ensures ok ==> file.cells == old(file.cells) + Flat(m, recs) + [End]
  {
    hide Flat, Proper, Kept, Refused, WholePages, Sorted, Written;
    recs := [];
    NothingYet(m, areas, begin, end, brk);
    hide ImageOf;
    var n := 0;
    while n < |areas|
      invariant n <= |areas| && ImageOf(recs, m, areas, n, begin, end, brk)
      invariant forall i {:trigger areas[i]} :: 0 <= i < n && Kept(areas[i]) ==> !Refused(areas[i], begin, end, brk)
      invariant file.cells == old(file.cells) + Flat(m, recs)
    {
      ghost var more := [];
      if Kept(areas[n]) {
        ok, more := WriteArea(file, m, areas[n], begin, end, brk);
        if !ok { return; }
        FlatConcat(m, recs, more);
      } else {
        assert recs + more == recs;
      }
      ImageMore(recs, more, m, areas, n, begin, end, brk);
      recs := recs + more;
      n := n + 1;
    }
    file.WriteEnd();
    ok := true;
  }

  lemma NothingYet(m: Memory, areas: seq<Area>, begin: nat, end: nat, brk: nat)
    ensures ImageOf([], m, areas, 0, begin, end, brk) && Flat(m, []) == []
  {
  }
}
