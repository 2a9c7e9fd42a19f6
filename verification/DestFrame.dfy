/** What an operation on one destination does to the others that share the disk. */
module DestFrame {
  import opened Collections
  import opened DiskFiles
  import opened SequenceName
  import opened DestFile
  import opened DestRuns

  // ---------- The state of a destination, and what it puts on the disk, do not depend on the files ----------

  predicate SameButFiles(w: World, v: World) {
    w.dest == v.dest && w.io == v.io && w.disk.put == v.disk.put
  }

  lemma ClosePutsNothing(w: World, e: DestEntry, mv: MoveCall)
    ensures CloseDest(w, e, mv).disk.put == w.disk.put
  {
    match MoveTarget(e.move, w.dest.status.name)
    case None =>
    case Some(to) => MoveFileLoses(w.disk, w.dest.status.name, to, mv);
  }

  lemma WriteSame(w: World, v: World, e: DestEntry, r: Record, result: int, mv: MoveCall)
    requires SameButFiles(w, v)
    ensures SameButFiles(WriteRecord(w, e, r, result, mv), WriteRecord(v, e, r, result, mv))
  {
    var name, rs := w.dest.status.name, Written(r, result);
    ClosePutsNothing(w.(disk := Write(w.disk, name, rs)), e, mv);
    ClosePutsNothing(v.(disk := Write(v.disk, name, rs)), e, mv);
  }

  lemma HeadersSame(w: World, v: World, e: DestEntry, os: StoreResults)
    requires SameButFiles(w, v)
    ensures SameButFiles(WriteHeaders(w, e, os), WriteHeaders(v, e, os))
  {
    WriteSame(w, v, e, CfeHeader, os.header1, os.moveBad);
    WriteSame(WriteRecord(w, e, CfeHeader, os.header1, os.moveBad), WriteRecord(v, e, CfeHeader, os.header1, os.moveBad),
              e, DsHeader, os.header2, os.moveBad);
  }

  lemma CreateSame(w: World, v: World, e: DestEntry, timeText: string, os: StoreResults)
    requires SameButFiles(w, v) && w.dest.status.count <= MAX_SEQUENCE_COUNT && e.Verified()
    ensures SameButFiles(CreateDest(w, e, timeText, os), CreateDest(v, e, timeText, os))
  {
    var d := CreateName(w.dest, e, timeText);
    HeadersSame(OpenNew(w.(dest := d), d.status.name), OpenNew(v.(dest := d), d.status.name), e, os);
  }

  lemma NewFileSame(w: World, v: World, e: DestEntry, p: Record, timeText: string, os: StoreResults)
    requires SameButFiles(w, v) && p.Packet? && w.dest.status.count <= MAX_SEQUENCE_COUNT && e.Verified()
    ensures SameButFiles(StoreInNewFile(w, e, p, timeText, os), StoreInNewFile(v, e, p, timeText, os))
  {
    CreateSame(w, v, e, timeText, os);
    WriteSame(CreateDest(w, e, timeText, os), CreateDest(v, e, timeText, os), e, p, os.data, os.moveBad);
  }

  lemma StoreSame(w: World, v: World, e: DestEntry, p: Record, timeText: string, os: StoreResults)
    requires SameButFiles(w, v) && p.Packet? && w.dest.status.count <= MAX_SEQUENCE_COUNT && e.Verified()
    ensures SameButFiles(SetupWrite(w, e, p, timeText, os), SetupWrite(v, e, p, timeText, os))
  {
    if NeedsFile(w.dest, e, p) {
      ClosePutsNothing(w, e, os.moveFull);
      ClosePutsNothing(v, e, os.moveFull);
      var w1 := if w.dest.status.open then UpdateAndClose(w, e, os) else w;
      var v1 := if v.dest.status.open then UpdateAndClose(v, e, os) else v;
      NewFileSame(w1, v1, e, p, timeText, os);
    } else {
      WriteSame(w, v, e, p, os.data, os.moveBad);
    }
  }

  /** The same destination, alone with its open file on a disk on which all else was lost. */
  function Alone(w: World): World {
    w.(disk := Disk(if w.dest.status.open then [File(w.dest.status.name, w.dest.file)] else [], w.disk.put, w.disk.put, []))
  }

  lemma AloneGood(w: World)
    requires Accounted(w.dest)
    ensures Good(Alone(w), Alone(w).disk.files, false)
  {
    var disk := Alone(w).disk;
    forall m ensures Conserves(disk, disk.files, m) {
    }
    if w.dest.status.open {
      var f := File(w.dest.status.name, w.dest.file);
      assert disk.files == [] + [f];
      FrontIs([], f);
      assert Named([]);
    }
  }

  /** Storing a packet keeps a destination consistent and its count in range, and puts the packet on the
      disk, and leaves an enabled destination enabled, exactly if every call succeeded, whatever the disk
      holds.
   */
  lemma StoreConsistent(w: World, e: DestEntry, p: Record, timeText: string, os: StoreResults)
    requires Consistent(w.dest) && p.Packet? && e.Verified()
    ensures var v := SetupWrite(w, e, p, timeText, os);
            && Consistent(v.dest)
            && (v.dest.status.enabled <==> w.dest.status.enabled && Stored(w.dest, e, p, timeText, os))
            && PacketsIn(v.disk.put) == PacketsIn(w.disk.put) + if Stored(w.dest, e, p, timeText, os) then [p] else []
  {
    AloneGood(w);
    StoreSame(w, Alone(w), e, p, timeText, os);
    StoreOutcome(Alone(w), e, p, timeText, os, Alone(w).disk.files, false);
  }

  // ---------- Never more on the disk than was put there ----------

  ghost predicate Grows(w: World, v: World, start: seq<File>) {
    w.disk.lost <= v.disk.lost && (Bounded(w.disk, start) ==> Bounded(v.disk, start))
  }

  lemma CloseGrows(w: World, e: DestEntry, mv: MoveCall, start: seq<File>)
    ensures Grows(w, CloseDest(w, e, mv), start)
  {
    match MoveTarget(e.move, w.dest.status.name)
    case None =>
    case Some(to) =>
      MoveFileLoses(w.disk, w.dest.status.name, to, mv);
      if Bounded(w.disk, start) {
        MoveFileBounded(w.disk, w.dest.status.name, to, mv, start);
      }
  }

  lemma WriteGrows(w: World, e: DestEntry, r: Record, result: int, mv: MoveCall, start: seq<File>)
    ensures Grows(w, WriteRecord(w, e, r, result, mv), start)
  {
    var name, rs := w.dest.status.name, Written(r, result);
    if Bounded(w.disk, start) {
      WriteBounded(w.disk, name, rs, start);
    }
    CloseGrows(w.(disk := Write(w.disk, name, rs)), e, mv, start);
  }

  lemma HeadersGrow(w: World, e: DestEntry, os: StoreResults, start: seq<File>)
    ensures Grows(w, WriteHeaders(w, e, os), start)
  {
    WriteGrows(w, e, CfeHeader, os.header1, os.moveBad, start);
    WriteGrows(WriteRecord(w, e, CfeHeader, os.header1, os.moveBad), e, DsHeader, os.header2, os.moveBad, start);
  }

  lemma CreateGrows(w: World, e: DestEntry, timeText: string, os: StoreResults, start: seq<File>)
    requires w.dest.status.count <= MAX_SEQUENCE_COUNT && e.Verified()
    ensures Grows(w, CreateDest(w, e, timeText, os), start)
  {
    var d := CreateName(w.dest, e, timeText);
    var u := OpenNew(w.(dest := d), d.status.name);
    if Bounded(w.disk, start) {
      CreateBounded(w.disk, d.status.name, start);
    }
    HeadersGrow(u, e, os, start);
  }

  lemma StoreGrows(w: World, e: DestEntry, p: Record, timeText: string, os: StoreResults, start: seq<File>)
    requires p.Packet? && w.dest.status.count <= MAX_SEQUENCE_COUNT && e.Verified()
    ensures Grows(w, SetupWrite(w, e, p, timeText, os), start)
  {
    if !NeedsFile(w.dest, e, p) {
      WriteGrows(w, e, p, os.data, os.moveBad, start);
    } else {
      CloseGrows(w.(io := UpdateHeader(w.io, os.seek, os.update)), e, os.moveFull, start);
      var u := if w.dest.status.open then UpdateAndClose(w, e, os) else w;
      CreateGrows(u, e, timeText, os, start);
      WriteGrows(CreateDest(u, e, timeText, os), e, p, os.data, os.moveBad, start);
    }
  }

  lemma AgeGrows(w: World, e: DestEntry, elapsed: nat, os: StoreResults, start: seq<File>)
    ensures Grows(w, TestAge(w, e, elapsed, os), start)
    ensures Consistent(w.dest) ==> Consistent(TestAge(w, e, elapsed, os).dest)
    ensures TestAge(w, e, elapsed, os).disk.put == w.disk.put
  {
    ClosePutsNothing(w, e, os.moveFull);
    CloseGrows(w, e, os.moveFull, start);
  }

  lemma CloseIfOpenGrows(w: World, e: DestEntry, os: StoreResults, start: seq<File>)
    ensures Grows(w, CloseIfOpen(w, e, os), start)
    ensures Consistent(w.dest) ==> Consistent(CloseIfOpen(w, e, os).dest)
    ensures CloseIfOpen(w, e, os).disk.put == w.disk.put
  {
    ClosePutsNothing(w, e, os.moveFull);
    CloseGrows(w, e, os.moveFull, start);
  }

  // ---------- Files of other destinations ----------

  /** File `n` is one with packets that this destination does not have open. */
  ghost predicate Foreign(w: World, n: string) {
    PacketsIn(Holds(w.disk.files, n)) != [] && (w.dest.status.open ==> w.dest.status.name != n)
  }

  /** It stays as it was, and not opened, if no packet was lost. */
  ghost predicate Leaves(w: World, v: World, n: string) {
    Foreign(w, n) && SameLost(w, v) ==> Foreign(v, n) && Spared(w.disk, v.disk, n)
  }

  lemma LeavesChain(w: World, u: World, v: World, n: string)
    requires Leaves(w, u, n) && Leaves(u, v, n) && w.disk.lost <= u.disk.lost <= v.disk.lost
    ensures Leaves(w, v, n)
  {
    LossesChain(w, u, v);
  }

  lemma CloseLeaves(w: World, e: DestEntry, mv: MoveCall, n: string)
    requires OnDisk(w) && w.dest.status.open
    ensures Leaves(w, CloseDest(w, e, mv), n)
  {
    if Foreign(w, n) {
      HoldsHas(w.disk.files, n);
      if SameLost(w, CloseDest(w, e, mv)) {
        match MoveTarget(e.move, w.dest.status.name)
        case None =>
        case Some(to) => MoveFileSpares(w.disk, w.dest.status.name, to, mv, n);
      }
    }
  }

  lemma WriteLeaves(w: World, e: DestEntry, r: Record, result: int, mv: MoveCall, n: string)
    requires OnDisk(w) && w.dest.status.open
    ensures Leaves(w, WriteRecord(w, e, r, result, mv), n)
  {
    if Foreign(w, n) {
      var name, rs := w.dest.status.name, Written(r, result);
      WriteSpares(w.disk, name, rs, n);
      ExtendedHolds(w.disk.files, name, rs, name);
      if result != r.Bytes() && SameLost(w, WriteRecord(w, e, r, result, mv)) {
        match MoveTarget(e.move, name)
        case None =>
        case Some(to) => MoveFileSpares(Write(w.disk, name, rs), name, to, mv, n);
      }
    }
  }

  lemma HeadersLeave(w: World, e: DestEntry, os: StoreResults, start: seq<File>, n: string)
    requires Good(w, start, false) && w.dest.status.open && w.dest.file == []
    ensures Leaves(w, WriteHeaders(w, e, os), n)
  {
    WriteLeaves(w, e, CfeHeader, os.header1, os.moveBad, n);
    if os.header1 == CFE_HEADER_BYTES {
      FirstHeader(w, e, os.moveBad, start, false);
      var u := WriteRecord(w, e, CfeHeader, os.header1, os.moveBad);
      WriteLeaves(u, e, DsHeader, os.header2, os.moveBad, n);
      WriteGrows(u, e, DsHeader, os.header2, os.moveBad, start);
      LeavesChain(w, u, WriteHeaders(w, e, os), n);
    }
  }

  lemma CreateLeaves(w: World, e: DestEntry, timeText: string, os: StoreResults, start: seq<File>, n: string)
    requires Good(w, start, false) && Consistent(w.dest) && !w.dest.status.open && e.Verified()
    ensures Leaves(w, CreateDest(w, e, timeText, os), n)
  {
    if Opened(w.dest, e, timeText, os) {
      var d := CreateName(w.dest, e, timeText);
      var u := OpenNew(w.(dest := d), d.status.name);
      OpenGood(w.(dest := d), d.status.name, start, false);
      if Foreign(w, n) && SameLost(w, u) {
        CreateSpares(w.disk, d.status.name, n);
      }
      assert Leaves(w, u, n);
      HeadersLeave(u, e, os, start, n);
      HeadersGrow(u, e, os, start);
      LeavesChain(w, u, WriteHeaders(u, e, os), n);
    } else if Foreign(w, n) {
      HoldsHas(w.disk.files, n);
    }
  }

  lemma NewFileLeaves(w: World, e: DestEntry, p: Record, timeText: string, os: StoreResults, start: seq<File>, n: string)
    requires Good(w, start, false) && Consistent(w.dest) && !w.dest.status.open && p.Packet? && e.Verified()
    ensures Leaves(w, StoreInNewFile(w, e, p, timeText, os), n)
  {
    CreateLeaves(w, e, timeText, os, start, n);
    CreateOutcome(w, e, timeText, os, start, false);
    var u := CreateDest(w, e, timeText, os);
    if u.dest.status.open {
      WriteLeaves(u, e, p, os.data, os.moveBad, n);
      WriteGrows(u, e, p, os.data, os.moveBad, start);
      LeavesChain(w, u, WriteRecord(u, e, p, os.data, os.moveBad), n);
    }
  }

  /** Storing a packet without a loss leaves the files of the other destinations as they were. */
  lemma StoreLeaves(w: World, e: DestEntry, p: Record, timeText: string, os: StoreResults, start: seq<File>, n: string)
    requires Good(w, start, false) && Consistent(w.dest) && p.Packet? && e.Verified()
    ensures Leaves(w, SetupWrite(w, e, p, timeText, os), n)
  {
    if !NeedsFile(w.dest, e, p) {
      WriteLeaves(w, e, p, os.data, os.moveBad, n);
    } else if w.dest.status.open {
      var c := w.(io := UpdateHeader(w.io, os.seek, os.update));
      var u := UpdateAndClose(w, e, os);
      CloseLeaves(c, e, os.moveFull, n);
      CloseGood(c, e, os.moveFull, start, false);
      NewFileLeaves(u, e, p, timeText, os, start, n);
      NewFileLoses(u, e, p, timeText, os, start, false);
      LeavesChain(w, u, SetupWrite(w, e, p, timeText, os), n);
    } else {
      NewFileLeaves(w, e, p, timeText, os, start, n);
    }
  }
}
