/** The image round trip: what readmemoryareas rebuilds from the image that write_ckpt_to_file made. */
module CheckpointImage {
  import opened Collections
  import opened ImageFormat
  import opened CheckpointReader
  import opened CheckpointWriter

  // The addresses that the image must hold: those of kept areas outside the restore image.
  ghost predicate Saved(areas: seq<Area>, a: nat, begin: nat, end: nat) {
    exists k :: 0 <= k < |areas| && Kept(areas[k]) && Within(a, areas[k]) && Outside(a, begin, end)
  }

  // Each saved address is in exactly one record, and no other address is in any.
  lemma WrittenOnce(recs: seq<Area>, m: Memory, areas: seq<Area>, begin: nat, end: nat, brk: nat, a: nat)
    requires ImageOf(recs, m, areas, |areas|, begin, end, brk)
    ensures Saved(areas, a, begin, end) <==> Hit(recs, a)
    ensures forall i, j :: 0 <= i < |recs| && 0 <= j < |recs| && Within(a, recs[i]) && Within(a, recs[j]) ==> i == j
  {
    hide Faithful, Kept;
    if Hit(recs, a) {
      var i :| 0 <= i < |recs| && Within(a, recs[i]);
      assert Origin(m, recs[i], areas, |areas|, begin, end, brk);
    }
  }

  lemma RecordsAreTrue(recs: seq<Area>, m: Memory, areas: seq<Area>, begin: nat, end: nat, brk: nat)
    requires ImageOf(recs, m, areas, |areas|, begin, end, brk)
    ensures Apart(recs) && forall i :: 0 <= i < |recs| ==> Faithful(m, recs[i])
  {
    hide Faithful, Kept;
    forall i | 0 <= i < |recs|
      ensures Faithful(m, recs[i])
    {
      assert Origin(m, recs[i], areas, |areas|, begin, end, brk);
    }
  }

  // The protection that a restart leaves at an address of an area: that of the area, unless it is a fast restart and
  // the address is not in a block of zeros that the writer leaves out, when the page becomes writable.
  ghost function ProtBack(m: Memory, area: Area, begin: nat, end: nat, brk: nat, fast: bool, a: nat): Prot
    requires Within(a, area) && Outside(a, begin, end)
  {
    if fast && !Elided(m, area, begin, end, brk, a) then area.prot.(write := true) else area.prot
  }

  lemma WhenKept(m: Memory, area: Area, begin: nat, end: nat, brk: nat, fast: bool, a: nat)
    requires Within(a, area) && Outside(a, begin, end)
    ensures ProtBack(m, area, begin, end, brk, fast, a) == area.prot <==>
              !fast || area.prot.write || Elided(m, area, begin, end, brk, a)
  {
  }

  lemma {:induction false} RestoredByte(recs: seq<Area>, m: Memory, areas: seq<Area>, begin: nat, end: nat, brk: nat,
                                        fast: bool, a: nat)
    requires ImageOf(recs, m, areas, |areas|, begin, end, brk)
    ensures Replay(m, recs, NOTHING, fast).byteAt(a) == if Saved(areas, a, begin, end) then Some(m(a)) else None
    ensures !Saved(areas, a, begin, end) ==> Replay(m, recs, NOTHING, fast).protAt(a) == None
  {
    WrittenOnce(recs, m, areas, begin, end, brk, a);
    RecordsAreTrue(recs, m, areas, begin, end, brk);
    hide Faithful, Replay, ImageOf;
    if Hit(recs, a) {
      var i :| 0 <= i < |recs| && Within(a, recs[i]);
      ReplayInside(m, recs, NOTHING, fast, a, i);
    } else {
      assert forall i :: 0 <= i < |recs| ==> !Within(a, recs[i]);
      ReplayOutside(m, recs, NOTHING, fast, a);
    }
  }

  // The record that holds address a of area k has the protection of that area, and is one of zeros if that is left out.
  lemma RecordOf(recs: seq<Area>, m: Memory, areas: seq<Area>, begin: nat, end: nat, brk: nat, a: nat, k: nat)
    returns (i: nat)
    requires ImageOf(recs, m, areas, |areas|, begin, end, brk) && Sorted(areas)
    requires k < |areas| && Kept(areas[k]) && Within(a, areas[k]) && Outside(a, begin, end)
    ensures i < |recs| && Within(a, recs[i]) && recs[i].prot == areas[k].prot
    ensures recs[i].zeroPage <==> Elided(m, areas[k], begin, end, brk, a)
  {
    hide Faithful, Kept, Elided;
    assert Hit(recs, a);
    i :| 0 <= i < |recs| && Within(a, recs[i]);
    assert Origin(m, recs[i], areas, |areas|, begin, end, brk);
  }

  lemma RestoredProt(recs: seq<Area>, m: Memory, areas: seq<Area>, begin: nat, end: nat, brk: nat, fast: bool, a: nat,
                     k: nat)
    requires ImageOf(recs, m, areas, |areas|, begin, end, brk) && Sorted(areas)
    requires k < |areas| && Kept(areas[k]) && Within(a, areas[k]) && Outside(a, begin, end)
    ensures Replay(m, recs, NOTHING, fast).protAt(a) == Some(ProtBack(m, areas[k], begin, end, brk, fast, a))
  {
    var i := RecordOf(recs, m, areas, begin, end, brk, a, k);
    RecordsAreTrue(recs, m, areas, begin, end, brk);
    WrittenOnce(recs, m, areas, begin, end, brk, a);
    hide Faithful, Replay, ImageOf, Elided;
    ReplayInside(m, recs, NOTHING, fast, a, i);
  }

  // Round trip: the reader accepts the image; the restored address space holds exactly the saved addresses, each with
  // its byte and with the protection that ProtBack says. So protections come back in every ordinary restart, and in a
  // fast one exactly for writable areas and for the blocks of zeros that are left out.
  lemma RoundTrip(recs: seq<Area>, m: Memory, areas: seq<Area>, begin: nat, end: nat, brk: nat, fast: bool)
    requires ImageOf(recs, m, areas, |areas|, begin, end, brk) && Sorted(areas)
    ensures Load(Flat(m, recs) + [End], NOTHING, fast).Some?
    ensures var sp := Load(Flat(m, recs) + [End], NOTHING, fast).value;
            && (forall a: nat :: sp.byteAt(a) == if Saved(areas, a, begin, end) then Some(m(a)) else None)
            && (forall a: nat :: !Saved(areas, a, begin, end) ==> sp.protAt(a) == None)
            && (forall k, a: nat {:trigger Within(a, areas[k])} ::
                  0 <= k < |areas| && Kept(areas[k]) && Within(a, areas[k]) && Outside(a, begin, end) ==>
                    && sp.protAt(a) == Some(ProtBack(m, areas[k], begin, end, brk, fast, a))
                    && (sp.protAt(a) == Some(areas[k].prot) <==>
                        !fast || areas[k].prot.write || Elided(m, areas[k], begin, end, brk, a)))
  {
    RecordsAreTrue(recs, m, areas, begin, end, brk);
    hide Faithful, Replay, ImageOf, Saved, ProtBack, Elided, Kept, Within, Outside, Flat, Load;
    LoadFlat(m, recs, NOTHING, fast);
    forall a: nat
      ensures Replay(m, recs, NOTHING, fast).byteAt(a) == if Saved(areas, a, begin, end) then Some(m(a)) else None
      ensures !Saved(areas, a, begin, end) ==> Replay(m, recs, NOTHING, fast).protAt(a) == None
    {
      RestoredByte(recs, m, areas, begin, end, brk, fast, a);
    }
    forall k, a: nat {:trigger Within(a, areas[k])} |
        0 <= k < |areas| && Kept(areas[k]) && Within(a, areas[k]) && Outside(a, begin, end)
      ensures Replay(m, recs, NOTHING, fast).protAt(a) == Some(ProtBack(m, areas[k], begin, end, brk, fast, a))
      ensures ProtBack(m, areas[k], begin, end, brk, fast, a) == areas[k].prot <==>
                !fast || areas[k].prot.write || Elided(m, areas[k], begin, end, brk, a)
    {
      WhenKept(m, areas[k], begin, end, brk, fast, a);
      RestoredProt(recs, m, areas, begin, end, brk, fast, a, k);
    }
  }

  // Writing an image and reading it back.
  method SaveAndRestore(m: Memory, areas: seq<Area>, begin: nat, end: nat, brk: nat, fast: bool, files: Files)
    returns (ok: bool, space: AddressSpace)
    requires Sorted(areas) && (forall i {:trigger areas[i]} :: 0 <= i < |areas| ==> Proper(areas[i]))
    requires begin <= end && WholePages(begin) && WholePages(end)
    ensures ok <==>
              forall i {:trigger areas[i]} ::
                0 <= i < |areas| && Kept(areas[i]) ==> !Refused(areas[i], begin, end, brk)
    ensures ok ==> forall a: nat :: a in space.bytes <==> Saved(areas, a, begin, end)
    ensures ok ==> forall a: nat :: a in space.bytes ==> space.bytes[a] == m(a)
    ensures ok ==>
              forall k, a: nat {:trigger Within(a, areas[k])} ::
                0 <= k < |areas| && Kept(areas[k]) && Within(a, areas[k]) && Outside(a, begin, end) ==>
                  a in space.prot && space.prot[a] == ProtBack(m, areas[k], begin, end, brk, fast, a)
  {
    hide Flat, Proper, Kept, Refused, WholePages, Saved, Load, ImageOf, Within, Outside, Sorted, ProtBack;
    var file := new ImageFile();
    space := new AddressSpace();
    ghost var recs;
    ok, recs := WriteCheckpoint(file, m, areas, begin, end, brk);
    if ok {
      assert file.cells == Flat(m, recs) + [End];
      RoundTrip(recs, m, areas, begin, end, brk, fast);
      ok := ReadMemoryAreas(space, file.cells, fast, files, NOTHING);
    }
  }

  // An area from which an address is saved, literally.
  lemma SavedIs(areas: seq<Area>, a: nat, begin: nat, end: nat)
    ensures Saved(areas, a, begin, end) <==>
              exists k {:trigger areas[k]} :: 0 <= k < |areas|
                && (areas[k].prot.read || areas[k].prot.write || areas[k].name == "")
                && areas[k].addr <= a < areas[k].addr + areas[k].size && (a < begin || a >= end)
  {
    if exists k {:trigger areas[k]} :: 0 <= k < |areas|
         && (areas[k].prot.read || areas[k].prot.write || areas[k].name == "")
         && areas[k].addr <= a < areas[k].addr + areas[k].size && (a < begin || a >= end)
    {
      var k :| 0 <= k < |areas| && areas[k].addr <= a < areas[k].addr + areas[k].size
               && (areas[k].prot.read || areas[k].prot.write || areas[k].name == "") && (a < begin || a >= end);
      assert Kept(areas[k]) && Within(a, areas[k]);
    }
  }

  lemma GivesUpIs(area: Area, begin: nat, end: nat, brk: nat)
    requires Proper(area) && begin <= end
    ensures Kept(area) && Refused(area, begin, end, brk) <==>
              var stop := area.addr + area.size;
              && !area.prot.read && !area.prot.write && !area.prot.execute && area.name == ""
              && ((area.addr < brk <= stop && brk <= begin)
                  || (area.addr < brk <= stop && area.addr >= end) || (area.addr < end < brk <= stop))
  {
    hide Settle, Refused;
    if Kept(area) { RefusedCases(area, begin, end, brk); }
  }

  lemma AllGiveUp(areas: seq<Area>, begin: nat, end: nat, brk: nat)
    requires begin <= end && forall i {:trigger areas[i]} :: 0 <= i < |areas| ==> Proper(areas[i])
    ensures (forall i {:trigger areas[i]} ::
               0 <= i < |areas| && Kept(areas[i]) ==> !Refused(areas[i], begin, end, brk)) <==>
            (forall i {:trigger areas[i]} :: 0 <= i < |areas| ==>
               var area, stop := areas[i], areas[i].addr + areas[i].size;
               !(&& !area.prot.read && !area.prot.write && !area.prot.execute && area.name == ""
                 && ((area.addr < brk <= stop && brk <= begin)
                     || (area.addr < brk <= stop && area.addr >= end) || (area.addr < end < brk <= stop))))
  {
    hide Kept, Refused, Proper;
    forall i {:trigger areas[i]} | 0 <= i < |areas|
      ensures Kept(areas[i]) && Refused(areas[i], begin, end, brk) <==>
                var area, stop := areas[i], areas[i].addr + areas[i].size;
                && !area.prot.read && !area.prot.write && !area.prot.execute && area.name == ""
                && ((area.addr < brk <= stop && brk <= begin)
                    || (area.addr < brk <= stop && area.addr >= end) || (area.addr < end < brk <= stop))
    {
      GivesUpIs(areas[i], begin, end, brk);
    }
  }

  // The area of an address outside the restore image, and the protection there after a restart.
  lemma AreaProt(m: Memory, areas: seq<Area>, begin: nat, end: nat, brk: nat, fast: bool, prot: map<nat, Prot>,
                 a: nat, k: nat)
    requires k < |areas| && areas[k].addr <= a < areas[k].addr + areas[k].size && Saved(areas, a, begin, end)
    requires Sorted(areas)
    requires forall i {:trigger Within(a, areas[i])} ::
               0 <= i < |areas| && Kept(areas[i]) && Within(a, areas[i]) && Outside(a, begin, end) ==>
                 a in prot && prot[a] == ProtBack(m, areas[i], begin, end, brk, fast, a)
    ensures a in prot && (prot[a] == areas[k].prot || (fast && prot[a] == areas[k].prot.(write := true)))
  {
    hide Elided, Kept;
    var i :| 0 <= i < |areas| && Kept(areas[i]) && Within(a, areas[i]) && Outside(a, begin, end);
    assert i == k;
  }

  // Writing an image and restarting from it. The writer gives up exactly if the break lies in, or at the end of, a part
  // before or behind the restore image of an unnamed area without any permission. Otherwise the address space holds
  // exactly the addresses outside the restore image that lie in an area which can be read or written or has no name,
  // each with its byte and with the protection of its area, but for a fast restart, which may add the permission to
  // write; it does so exactly where the area is not writable and the page is not left out as one of zeros.
  method CheckpointAndRestart(m: Memory, areas: seq<Area>, begin: nat, end: nat, brk: nat, fast: bool, files: Files)
    returns (ok: bool, space: AddressSpace)
    requires Sorted(areas) && (forall i {:trigger areas[i]} :: 0 <= i < |areas| ==> Proper(areas[i]))
    requires begin <= end && WholePages(begin) && WholePages(end)
    ensures ok <==>
              forall i {:trigger areas[i]} :: 0 <= i < |areas| ==>
                var area, stop := areas[i], areas[i].addr + areas[i].size;
                !(&& !area.prot.read && !area.prot.write && !area.prot.execute && area.name == ""
                  && ((area.addr < brk <= stop && brk <= begin)
                      || (area.addr < brk <= stop && area.addr >= end) || (area.addr < end < brk <= stop)))
    ensures ok ==>
              forall a: nat ::
                a in space.bytes <==>
                exists k {:trigger areas[k]} :: 0 <= k < |areas|
                  && (areas[k].prot.read || areas[k].prot.write || areas[k].name == "")
                  && areas[k].addr <= a < areas[k].addr + areas[k].size && (a < begin || a >= end)
    ensures ok ==> forall a: nat :: a in space.bytes ==> space.bytes[a] == m(a)
    ensures ok ==>
              forall k, a: nat {:trigger areas[k], a in space.bytes} ::
                0 <= k < |areas| && areas[k].addr <= a < areas[k].addr + areas[k].size && a in space.bytes ==>
                  && a in space.prot
                  && (space.prot[a] == areas[k].prot || (fast && space.prot[a] == areas[k].prot.(write := true)))
    ensures ok ==>
              forall k, a: nat {:trigger Within(a, areas[k])} ::
                0 <= k < |areas| && Kept(areas[k]) && Within(a, areas[k]) && Outside(a, begin, end) ==>
                  a in space.prot && space.prot[a] == ProtBack(m, areas[k], begin, end, brk, fast, a)
  {
    hide Proper, Kept, Refused, WholePages, Saved, Within, Outside, Sorted, ProtBack;
    ok, space := SaveAndRestore(m, areas, begin, end, brk, fast, files);
    AllGiveUp(areas, begin, end, brk);
    if ok {
      forall a: nat
        ensures a in space.bytes <==>
                exists k {:trigger areas[k]} :: 0 <= k < |areas|
                  && (areas[k].prot.read || areas[k].prot.write || areas[k].name == "")
                  && areas[k].addr <= a < areas[k].addr + areas[k].size && (a < begin || a >= end)
      {
        SavedIs(areas, a, begin, end);
      }
      forall k, a: nat {:trigger areas[k], a in space.bytes} |
          0 <= k < |areas| && areas[k].addr <= a < areas[k].addr + areas[k].size && a in space.bytes
        ensures a in space.prot
        ensures space.prot[a] == areas[k].prot || (fast && space.prot[a] == areas[k].prot.(write := true))
      {
        AreaProt(m, areas, begin, end, brk, fast, space.prot, a, k);
      }
    }
  }

  // A read-only page that is not zero, and its only record.
  const READ_ONLY := Area(0, PAGE, Prot(true, false, false), false, Flags(false, true, true), 0, "")

  // The promise that protections come back fails for it in a fast restart.
  lemma FastRestartLeavesWritable(m: Memory)
    ensures Sorted([READ_ONLY]) && Proper(READ_ONLY) && ImageOf([READ_ONLY], m, [READ_ONLY], 1, PAGE, PAGE, 0)
    ensures Replay(m, [READ_ONLY], NOTHING, true).protAt(0) == Some(Prot(true, true, false))
  {
    var recs := [READ_ONLY];
    assert Part(m, recs[0], READ_ONLY.prot, READ_ONLY.addr, AreaEnd(READ_ONLY));
    assert Origin(m, recs[0], recs, 1, PAGE, PAGE, 0);
    forall a: nat | Within(a, recs[0])
      ensures Hit(recs, a)
    {
    }
    hide ImageOf;
    assert Apart(recs) && Faithful(m, recs[0]);
    ReplayInside(m, recs, NOTHING, true, 0, 0);
  }

  // An inaccessible unnamed page that ends at the break makes the writer give up, although nothing forbids such a page.
  lemma InaccessibleHeapIsRefused()
    ensures var area := READ_ONLY.(prot := Prot(false, false, false));
            Proper(area) && Kept(area) && Refused(area, PAGE, PAGE, PAGE)
  {
    assert !StartsWith("", "/dev/zero (deleted)") && !StartsWith("", "/dev/null (deleted)") && !StartsWith("", "/SYSV");
  }
}
