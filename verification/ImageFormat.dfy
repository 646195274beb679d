/** The memory part of an MTCP checkpoint image: the descriptors and bytes that mtcp_writeckpt.c writes, and what
    readmemoryareas of mtcp_restart_nolibc.c makes of them. */
module ImageFormat {
  import opened Collections

  const PAGE := 4096
  const MEGABYTE := 1048576

  // The contents of the address space, byte by byte.
  type Memory = nat -> nat

  datatype Prot = Prot(read: bool, write: bool, execute: bool)
  datatype Flags = Flags(shared: bool, private: bool, anonymous: bool)

  // union Area; `zeroPage` is the bit MTCP_PROT_ZERO_PAGE of its prot.
  datatype Area = Area(addr: nat, size: nat, prot: Prot, zeroPage: bool, flags: Flags, offset: nat, name: string)

  // A descriptor occupies one cell of the stream, every byte of memory another; End is the descriptor of size -1.
  datatype Cell = Header(area: Area) | End | Byte(value: nat)

  function AreaEnd(a: Area): nat {
    a.addr + a.size
  }

  ghost predicate AllZero(m: Memory, lo: nat, hi: nat) {
    forall a: nat :: lo <= a < hi ==> m(a) == 0
  }

  function Bytes(m: Memory, addr: nat, size: nat): (s: seq<Cell>)
    ensures |s| == size
  {
    seq(size, i requires 0 <= i => Byte(m(addr + i)))
  }

  // One record: the descriptor, and the bytes unless it stands for zero pages.
  function Cells(m: Memory, rec: Area): seq<Cell> {
    [Header(rec)] + if rec.zeroPage then [] else Bytes(m, rec.addr, rec.size)
  }

  function Flat(m: Memory, recs: seq<Area>): seq<Cell> {
    if recs == [] then [] else Flat(m, recs[..|recs| - 1]) + Cells(m, recs[|recs| - 1])
  }

  lemma {:induction false} FlatConcat(m: Memory, a: seq<Area>, b: seq<Area>)
    ensures Flat(m, a + b) == Flat(m, a) + Flat(m, b)
  {
    hide Cells;
    if b == [] {
      assert a + b == a;
    } else {
      var n := |b| - 1;
      FlatConcat(m, a, b[..n]);
      assert (a + b)[..|a + b| - 1] == a + b[..n];
      hide Flat;
      assert Flat(m, a + b) == Flat(m, a) + (Flat(m, b[..n]) + Cells(m, b[n]));
    }
  }

  lemma FlatFirst(m: Memory, recs: seq<Area>)
    requires recs != []
    ensures Flat(m, recs) == Cells(m, recs[0]) + Flat(m, recs[1..])
  {
    assert recs == [recs[0]] + recs[1..];
    FlatConcat(m, [recs[0]], recs[1..]);
    assert Flat(m, [recs[0]]) == Cells(m, recs[0]) by { assert [recs[0]][..0] == []; }
  }

  // ------------------------------------------------------------------ what reading an image means

  // A restored address space: the byte and the protection at every mapped address.
  datatype Space = Space(byteAt: nat -> Option<nat>, protAt: nat -> Option<Prot>)

  const NOTHING := Space(_ => None, _ => None)

  // Map `size` bytes at `addr`, filled with zeros.
  function Mapped(sp: Space, addr: nat, size: nat, prot: Prot): Space {
    Space((a: nat) => if addr <= a < addr + size then Some(0) else sp.byteAt(a),
          (a: nat) => if addr <= a < addr + size then Some(prot) else sp.protAt(a))
  }

  // Copy data to addr.
  function Filled(sp: Space, addr: nat, data: seq<Cell>): Space
    requires AllBytes(data)
  {
    sp.(byteAt := (a: nat) =>
          if addr <= a < addr + |data| && data[a - addr].Byte? then Some(data[a - addr].value) else sp.byteAt(a))
  }

  // What one descriptor restores. In a fast restart the image file is mapped writable and left so.
  function Restored(sp: Space, rec: Area, data: seq<Cell>, fast: bool): Space
    requires AllBytes(data)
  {
    if rec.zeroPage then Mapped(sp, rec.addr, rec.size, rec.prot)
    else Filled(Mapped(sp, rec.addr, rec.size, if fast then rec.prot.(write := true) else rec.prot), rec.addr, data)
  }

  predicate AllBytes(data: seq<Cell>) {
    forall i :: 0 <= i < |data| ==> data[i].Byte?
  }

  // Reads descriptors up to the End mark; a short or malformed stream makes the reader abort.
  function Load(cells: seq<Cell>, sp: Space, fast: bool): Option<Space>
    decreases |cells|
  {
    if cells == [] || cells[0].Byte? then None
    else if cells[0].End? then Some(sp)
    else
      var rec := cells[0].area;
      var n := if rec.zeroPage then 0 else rec.size;
      if (!rec.zeroPage && !rec.flags.anonymous) || |cells| < 1 + n || !AllBytes(cells[1..1 + n]) then None
      else Load(cells[1 + n..], Restored(sp, rec, cells[1..1 + n], fast), fast)
  }

  // ------------------------------------------------------------------ reading back what was written

  // A record that tells the truth about m.
  ghost predicate Faithful(m: Memory, rec: Area) {
    rec.flags.anonymous && (rec.zeroPage ==> AllZero(m, rec.addr, AreaEnd(rec)))
  }

  function Replay(m: Memory, recs: seq<Area>, sp: Space, fast: bool): Space {
    if recs == [] then sp
    else Replay(m, recs[1..], Restored(sp, recs[0], DataOf(m, recs[0]), fast), fast)
  }

  function DataOf(m: Memory, rec: Area): (data: seq<Cell>)
    ensures AllBytes(data)
  {
    if rec.zeroPage then [] else Bytes(m, rec.addr, rec.size)
  }

  lemma LoadOne(m: Memory, rec: Area, rest: seq<Cell>, sp: Space, fast: bool)
    requires Faithful(m, rec)
    ensures Load(Cells(m, rec) + rest, sp, fast) == Load(rest, Restored(sp, rec, DataOf(m, rec), fast), fast)
  {
    var cells := Cells(m, rec) + rest;
    var data := DataOf(m, rec);
    assert cells[0] == Header(rec);
    assert cells[1..1 + |data|] == data;
    assert cells[1 + |data|..] == rest;
    hide Restored, Bytes;
  }

  // The reader inverts the writer record by record and stops at the End mark.
  lemma {:induction false} LoadFlat(m: Memory, recs: seq<Area>, sp: Space, fast: bool)
    requires forall i :: 0 <= i < |recs| ==> Faithful(m, recs[i])
    ensures Load(Flat(m, recs) + [End], sp, fast) == Some(Replay(m, recs, sp, fast))
    decreases |recs|
  {
    hide Cells, Restored, Faithful, DataOf;
    if recs == [] {
      assert Flat(m, recs) + [End] == [End];
    } else {
      FlatFirst(m, recs);
      LoadFlat(m, recs[1..], Restored(sp, recs[0], DataOf(m, recs[0]), fast), fast);
      LoadOne(m, recs[0], Flat(m, recs[1..]) + [End], sp, fast);
      hide Flat, Load;
      assert Flat(m, recs) + [End] == Cells(m, recs[0]) + (Flat(m, recs[1..]) + [End]);
    }
  }

  predicate Within(a: nat, rec: Area) {
    rec.addr <= a < AreaEnd(rec)
  }

  // The protection that a record leaves: a fast restart leaves what it maps from the image file writable.
  function ProtLeft(rec: Area, fast: bool): Prot {
    if fast && !rec.zeroPage then rec.prot.(write := true) else rec.prot
  }

  lemma RestoredAt(m: Memory, rec: Area, sp: Space, fast: bool, a: nat)
    requires Faithful(m, rec)
    ensures var sp' := Restored(sp, rec, DataOf(m, rec), fast);
            if Within(a, rec) then sp'.byteAt(a) == Some(m(a)) && sp'.protAt(a) == Some(ProtLeft(rec, fast))
            else sp'.byteAt(a) == sp.byteAt(a) && sp'.protAt(a) == sp.protAt(a)
  {
  }

  ghost predicate Apart(recs: seq<Area>) {
    forall i, j :: 0 <= i < j < |recs| ==> AreaEnd(recs[i]) <= recs[j].addr || AreaEnd(recs[j]) <= recs[i].addr
  }

  lemma {:induction false} ReplayOutside(m: Memory, recs: seq<Area>, sp: Space, fast: bool, a: nat)
    requires forall i :: 0 <= i < |recs| ==> Faithful(m, recs[i]) && !Within(a, recs[i])
    ensures Replay(m, recs, sp, fast).byteAt(a) == sp.byteAt(a)
    ensures Replay(m, recs, sp, fast).protAt(a) == sp.protAt(a)
    decreases |recs|
  {
    hide Restored, DataOf, Faithful, Within;
    if recs != [] {
      RestoredAt(m, recs[0], sp, fast, a);
      ReplayOutside(m, recs[1..], Restored(sp, recs[0], DataOf(m, recs[0]), fast), fast, a);
    }
  }

  // Every address of a record comes back with its byte of m and with the protection of the record.
  lemma {:induction false} ReplayInside(m: Memory, recs: seq<Area>, sp: Space, fast: bool, a: nat, k: nat)
    requires forall i :: 0 <= i < |recs| ==> Faithful(m, recs[i])
    requires Apart(recs) && k < |recs| && Within(a, recs[k])
    ensures Replay(m, recs, sp, fast).byteAt(a) == Some(m(a))
    ensures Replay(m, recs, sp, fast).protAt(a) == Some(ProtLeft(recs[k], fast))
    decreases |recs|
  {
    hide Restored, DataOf, Faithful;
    RestoredAt(m, recs[0], sp, fast, a);
    var sp' := Restored(sp, recs[0], DataOf(m, recs[0]), fast);
    if k == 0 {
      ReplayOutside(m, recs[1..], sp', fast, a);
    } else {
      ReplayInside(m, recs[1..], sp', fast, a, k - 1);
    }
  }
}
