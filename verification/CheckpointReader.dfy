/** Restoring the memory areas of a process from an MTCP checkpoint image (readmemoryareas,
    mtcp_restart_nolibc.c:400-597). */
module CheckpointReader {
  import opened Collections
  import opened ImageFormat

  // The address space being rebuilt: the byte and the protection at every mapped address.
  class AddressSpace {
    var bytes: map<nat, nat>
    var prot: map<nat, Prot>

    constructor ()
      ensures Shows(this, NOTHING)
    {
      bytes, prot := map[], map[];
    }

    // mmap of zero-filled memory.
    method MapAnonymous(addr: nat, size: nat, p: Prot, ghost sp: Space)
      requires Shows(this, sp)
      modifies this
      ensures Shows(this, Mapped(sp, addr, size, p))
    {
      MapNone(sp, addr, p);
      hide Agrees, Mapped;
      var i := 0;
      while i < size
        invariant i <= size && Agrees(bytes, prot, Mapped(sp, addr, i, p))
      {
        MapOne(bytes, prot, sp, addr, i, p);
        bytes := bytes[addr + i := 0];
        prot := prot[addr + i := p];
        i := i + 1;
      }
    }

    // mmap of a file, as a private copy.
    method MapFile(addr: nat, size: nat, p: Prot, content: nat -> nat, ghost sp: Space)
      requires Shows(this, sp)
      modifies this
      ensures Shows(this, FileMapped(sp, addr, size, p, content))
    {
      hide Agrees, FileMapped;
      FileNone(bytes, prot, sp, addr, p, content);
      var i := 0;
      while i < size
        invariant i <= size && Agrees(bytes, prot, FileMapped(sp, addr, i, p, content))
      {
        FileOne(bytes, prot, sp, addr, i, p, content);
        bytes := bytes[addr + i := content(i)];
        prot := prot[addr + i := p];
        i := i + 1;
      }
    }

    // mtcp_readfile into memory.
    method Fill(addr: nat, data: seq<Cell>, ghost sp: Space)
      requires Shows(this, sp) && AllBytes(data)
      modifies this
      ensures Shows(this, Filled(sp, addr, data))
    {
      var i := 0;
      while i < |data|
        invariant i <= |data| && AllBytes(data[..i]) && Shows(this, Filled(sp, addr, data[..i]))
      {
        bytes := bytes[addr + i := data[i].value];
        i := i + 1;
      }
      assert data[..|data|] == data;
    }

    // mprotect.
    method Protect(addr: nat, size: nat, p: Prot, ghost sp: Space)
      requires Shows(this, sp)
      modifies this
      ensures Shows(this, Protected(sp, addr, size, p))
    {
      var i := 0;
      while i < size
        invariant i <= size && Shows(this, Protected(sp, addr, i, p))
      {
        prot := prot[addr + i := p];
        i := i + 1;
      }
    }
  }

  function Protected(sp: Space, addr: nat, size: nat, p: Prot): Space {
    sp.(protAt := (a: nat) => if addr <= a < addr + size then Some(p) else sp.protAt(a))
  }

  // The contents of a file, from some position on, with zeros behind its end.
  function FileMapped(sp: Space, addr: nat, size: nat, p: Prot, content: nat -> nat): Space {
    Space((a: nat) => if addr <= a < addr + size then Some(content(a - addr)) else sp.byteAt(a),
          (a: nat) => if addr <= a < addr + size then Some(p) else sp.protAt(a))
  }

  ghost predicate Shows(s: AddressSpace, sp: Space)
    reads s
  {
    Agrees(s.bytes, s.prot, sp)
  }

  ghost predicate Agrees(bytes: map<nat, nat>, prot: map<nat, Prot>, sp: Space) {
    && (forall a: nat {:trigger sp.byteAt(a)} {:trigger a in bytes} ::
          sp.byteAt(a) == if a in bytes then Some(bytes[a]) else None)
    && (forall a: nat {:trigger sp.protAt(a)} {:trigger a in prot} ::
          sp.protAt(a) == if a in prot then Some(prot[a]) else None)
  }

  lemma MapNone(sp: Space, addr: nat, p: Prot)
    ensures forall bytes, prot :: Agrees(bytes, prot, sp) ==> Agrees(bytes, prot, Mapped(sp, addr, 0, p))
  {
  }

  lemma MapOne(bytes: map<nat, nat>, prot: map<nat, Prot>, sp: Space, addr: nat, i: nat, p: Prot)
    requires Agrees(bytes, prot, Mapped(sp, addr, i, p))
    ensures Agrees(bytes[addr + i := 0], prot[addr + i := p], Mapped(sp, addr, i + 1, p))
  {
  }

  lemma FileNone(bytes: map<nat, nat>, prot: map<nat, Prot>, sp: Space, addr: nat, p: Prot, content: nat -> nat)
    requires Agrees(bytes, prot, sp)
    ensures Agrees(bytes, prot, FileMapped(sp, addr, 0, p, content))
  {
  }

  lemma FileOne(bytes: map<nat, nat>, prot: map<nat, Prot>, sp: Space, addr: nat, i: nat, p: Prot, content: nat -> nat)
    requires Agrees(bytes, prot, FileMapped(sp, addr, i, p, content))
    ensures Agrees(bytes[addr + i := content(i)], prot[addr + i := p], FileMapped(sp, addr, i + 1, p, content))
  {
  }

  // Whatever the file holds, the saved bytes replace it.
  lemma FilledOver(bytes: map<nat, nat>, prot: map<nat, Prot>, sp: Space, addr: nat, p: Prot, content: nat -> nat,
                   data: seq<Cell>)
    requires AllBytes(data) && Agrees(bytes, prot, Filled(FileMapped(sp, addr, |data|, p, content), addr, data))
    ensures Agrees(bytes, prot, Filled(Mapped(sp, addr, |data|, p), addr, data))
  {
    var x := Filled(FileMapped(sp, addr, |data|, p, content), addr, data);
    var y := Filled(Mapped(sp, addr, |data|, p), addr, data);
    forall a: nat
      ensures x.byteAt(a) == y.byteAt(a) && x.protAt(a) == y.protAt(a)
    {
    }
  }

  lemma LoadStep(cells: seq<Cell>, pos: nat, sp: Space, fast: bool, n: nat)
    requires pos < |cells| && cells[pos].Header? && n == if cells[pos].area.zeroPage then 0 else cells[pos].area.size
    ensures Load(cells[pos..], sp, fast) ==
            if (!cells[pos].area.zeroPage && !cells[pos].area.flags.anonymous)
               || pos + 1 + n > |cells| || !AllBytes(cells[pos + 1..pos + 1 + n]) then None
            else Load(cells[pos + 1 + n..], Restored(sp, cells[pos].area, cells[pos + 1..pos + 1 + n], fast), fast)
  {
    hide Restored, AllBytes;
    var rest := cells[pos..];
    if pos + 1 + n <= |cells| {
      assert rest[1..1 + n] == cells[pos + 1..pos + 1 + n];
      assert rest[1 + n..] == cells[pos + 1 + n..];
    }
  }

  lemma LoadEnds(cells: seq<Cell>, pos: nat, sp: Space, fast: bool)
    requires pos <= |cells|
    ensures pos == |cells| || cells[pos].Byte? ==> Load(cells[pos..], sp, fast) == None
    ensures pos < |cells| && cells[pos].End? ==> Load(cells[pos..], sp, fast) == Some(sp)
  {
  }

  // What opening a file by its name gives, if that succeeds: the contents, with zeros behind the end.
  type Files = string -> Option<nat -> nat>

  // One descriptor of the anonymous case: map it writable (as a copy of the file whose path is its name, if there is
  // one), read the bytes into it, take the write permission away. In a fast restart the image file is mapped instead.
  method RestoreArea(space: AddressSpace, rec: Area, data: seq<Cell>, fast: bool, files: Files, ghost sp: Space)
    requires Shows(space, sp) && AllBytes(data) && |data| == (if rec.zeroPage then 0 else rec.size)
    modifies space
    ensures Shows(space, Restored(sp, rec, data, fast))
  {
    var writable := rec.prot.(write := true);
    if rec.zeroPage {
      space.MapAnonymous(rec.addr, rec.size, rec.prot, sp);
    } else if fast {
      space.MapAnonymous(rec.addr, rec.size, writable, sp);
      space.Fill(rec.addr, data, Mapped(sp, rec.addr, rec.size, writable));
    } else {
      var file := if "/" <= rec.name then files(rec.name) else None;
      ghost var full := Filled(Mapped(sp, rec.addr, rec.size, writable), rec.addr, data);
      if file.Some? {
        var content := (i: nat) => file.value(rec.offset + i);
        space.MapFile(rec.addr, rec.size, writable, content, sp);
        space.Fill(rec.addr, data, FileMapped(sp, rec.addr, rec.size, writable, content));
        FilledOver(space.bytes, space.prot, sp, rec.addr, writable, content, data);
      } else {
        space.MapAnonymous(rec.addr, rec.size, writable, sp);
        space.Fill(rec.addr, data, Mapped(sp, rec.addr, rec.size, writable));
      }
      if !rec.prot.write {
        space.Protect(rec.addr, rec.size, rec.prot, full);
      }
    }
  }

  // readmemoryareas: it succeeds exactly on well-formed streams, and the address space is then what the stream means.
  // In a fast restart the bytes are mapped from the image file instead of read, and stay writable.
  method ReadMemoryAreas(space: AddressSpace, cells: seq<Cell>, fast: bool, files: Files, ghost sp0: Space)
    returns (ok: bool)
    requires Shows(space, sp0)
    modifies space
    ensures ok <==> Load(cells, sp0, fast).Some?
    ensures ok ==> Shows(space, Load(cells, sp0, fast).value)
  {
    hide Restored, Load, Shows;
    ghost var sp := sp0;
    var pos := 0;
    assert cells[0..] == cells;
    while true
      invariant pos <= |cells| && Shows(space, sp)
      invariant Load(cells, sp0, fast) == Load(cells[pos..], sp, fast)
      decreases |cells| - pos
    {
      LoadEnds(cells, pos, sp, fast);
      if pos == |cells| || cells[pos].Byte? { return false; }
      if cells[pos].End? { return true; }
      var rec := cells[pos].area;
      var n := if rec.zeroPage then 0 else rec.size;
      LoadStep(cells, pos, sp, fast, n);
      if !rec.zeroPage && !rec.flags.anonymous { return false; }
      if pos + 1 + n > |cells| { return false; }
      if !AllBytes(cells[pos + 1..pos + 1 + n]) { return false; }
      RestoreArea(space, rec, cells[pos + 1..pos + 1 + n], fast, files, sp);
      sp := Restored(sp, rec, cells[pos + 1..pos + 1 + n], fast);
      pos := pos + 1 + n;
    }
  }
}
