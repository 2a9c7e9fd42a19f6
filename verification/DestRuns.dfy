/** Runs of one destination: what its files hold, what is lost, and which bytes are accounted for. */
module DestRuns {
  import opened Collections
  import opened DiskFiles
  import opened SequenceName
  import opened DestFile

  // ---------- When packets are lost ----------

  /** A closed file is moved onto one that holds packets, or copied onto it in an attempt to. */
  predicate MoveErases(w: World, e: DestEntry, mv: MoveCall) {
    match MoveTarget(e.move, w.dest.status.name)
    case Some(to) => Replaces(w.dest.status.name, to, mv) && PacketsIn(Holds(w.disk.files, to)) != []
    case None => false
  }

  predicate WriteErases(w: World, e: DestEntry, r: Record, result: int, mv: MoveCall) {
    result != r.Bytes() && MoveErases(w, e, mv)
  }

  /** A file is created under a name whose file holds packets, or closed at once and moved onto one. */
  predicate CreateErases(w: World, e: DestEntry, timeText: string, os: StoreResults) {
    Opened(w.dest, e, timeText, os) &&
    var name := NewName(w.dest, e, timeText).value;
    PacketsIn(Holds(w.disk.files, name)) != [] || (!HeadersWritten(os) && MoveErases(OpenNew(w, name), e, os.moveBad))
  }

  predicate NewFileErases(w: World, e: DestEntry, p: Record, timeText: string, os: StoreResults)
    requires w.dest.status.count <= MAX_SEQUENCE_COUNT && e.Verified()
  {
    || CreateErases(w, e, timeText, os)
    || (Created(w.dest, e, timeText, os) && WriteErases(CreateDest(w, e, timeText, os), e, p, os.data, os.moveBad))
  }

  predicate StoreErases(w: World, e: DestEntry, p: Record, timeText: string, os: StoreResults)
    requires w.dest.status.count <= MAX_SEQUENCE_COUNT && e.Verified()
  {
    if !NeedsFile(w.dest, e, p) then WriteErases(w, e, p, os.data, os.moveBad)
    else if w.dest.status.open then MoveErases(w, e, os.moveFull) || NewFileErases(UpdateAndClose(w, e, os), e, p, timeText, os)
    else NewFileErases(w, e, p, timeText, os)
  }

  ghost predicate SameLost(w: World, v: World) {
    PacketsIn(v.disk.lost) == PacketsIn(w.disk.lost)
  }

  /** Losses add up. */
  lemma LossesChain(w: World, u: World, v: World)
    requires w.disk.lost <= u.disk.lost <= v.disk.lost
    ensures SameLost(w, v) <==> SameLost(w, u) && SameLost(u, v)
    ensures !SameLost(w, v) ==> |PacketsIn(v.disk.lost)| > |PacketsIn(w.disk.lost)|
  {
    LostGrows(w.disk.lost, u.disk.lost);
    LostGrows(u.disk.lost, v.disk.lost);
  }

  lemma LostGrows(a: seq<Record>, b: seq<Record>)
    requires a <= b
    ensures PacketsIn(a) <= PacketsIn(b)
  {
    assert b == a + b[|a|..];
    PacketsJoin(a, b[|a|..]);
  }

  lemma CloseLoses(w: World, e: DestEntry, mv: MoveCall)
    ensures w.disk.lost <= CloseDest(w, e, mv).disk.lost
    ensures SameLost(w, CloseDest(w, e, mv)) <==> !MoveErases(w, e, mv)
  {
    match MoveTarget(e.move, w.dest.status.name)
    case None =>
    case Some(to) =>
      MoveFileLoses(w.disk, w.dest.status.name, to, mv);
      PacketsJoin(w.disk.lost, Holds(w.disk.files, to));
  }

  /** What is written of a record that is no whole packet changes no file's packets. */
  lemma SamePackets(disk: Disk, name: string, r: Record, result: int, n: string)
    requires !r.Packet? || result != r.Bytes()
    ensures PacketsIn(Holds(Write(disk, name, Written(r, result)).files, n)) == PacketsIn(Holds(disk.files, n))
  {
    ExtendedHolds(disk.files, name, Written(r, result), n);
    NoPacketWritten(Holds(disk.files, n), r, result);
  }

  lemma WriteLoses(w: World, e: DestEntry, r: Record, result: int, mv: MoveCall)
    ensures w.disk.lost <= WriteRecord(w, e, r, result, mv).disk.lost
    ensures SameLost(w, WriteRecord(w, e, r, result, mv)) <==> !WriteErases(w, e, r, result, mv)
  {
    if result != r.Bytes() {
      var name := w.dest.status.name;
      var u := w.(disk := Write(w.disk, name, Written(r, result)));
      CloseLoses(u, e, mv);
      match MoveTarget(e.move, name)
      case None =>
      case Some(to) => SamePackets(w.disk, name, r, result, to);
    }
  }

  /** A header makes no difference to what a move destroys. */
  lemma HeaderErases(w: World, e: DestEntry, r: Record, mv: MoveCall)
    requires !r.Packet?
    ensures MoveErases(WriteRecord(w, e, r, r.Bytes(), mv), e, mv) <==> MoveErases(w, e, mv)
  {
    match MoveTarget(e.move, w.dest.status.name)
    case None =>
    case Some(to) => SamePackets(w.disk, w.dest.status.name, r, r.Bytes(), to);
  }

  lemma HeadersLose(w: World, e: DestEntry, os: StoreResults)
    ensures w.disk.lost <= WriteHeaders(w, e, os).disk.lost
    ensures SameLost(w, WriteHeaders(w, e, os)) <==> HeadersWritten(os) || !MoveErases(w, e, os.moveBad)
  {
    WriteLoses(w, e, CfeHeader, os.header1, os.moveBad);
    if os.header1 == CFE_HEADER_BYTES {
      var v := WriteRecord(w, e, CfeHeader, os.header1, os.moveBad);
      HeaderErases(w, e, CfeHeader, os.moveBad);
      WriteLoses(v, e, DsHeader, os.header2, os.moveBad);
      LossesChain(w, v, WriteHeaders(w, e, os));
    }
  }

  lemma CreateLoses(w: World, e: DestEntry, timeText: string, os: StoreResults)
    requires !w.dest.status.open && w.dest.status.name == "" && w.dest.status.count <= MAX_SEQUENCE_COUNT && e.Verified()
    ensures w.disk.lost <= CreateDest(w, e, timeText, os).disk.lost
    ensures SameLost(w, CreateDest(w, e, timeText, os)) <==> !CreateErases(w, e, timeText, os)
  {
    if Opened(w.dest, e, timeText, os) {
      var name := NewName(w.dest, e, timeText).value;
      var u := OpenNew(w, name);
      assert u == OpenNew(w.(dest := CreateName(w.dest, e, timeText)), name);
      PacketsJoin(w.disk.lost, Holds(w.disk.files, name));
      HeadersLose(u, e, os);
      LossesChain(w, u, WriteHeaders(u, e, os));
    }
  }

  lemma NewFileLoses(w: World, e: DestEntry, p: Record, timeText: string, os: StoreResults, start: seq<File>, alone: bool)
    requires Good(w, start, alone) && Consistent(w.dest) && !w.dest.status.open && p.Packet? && e.Verified()
    ensures w.disk.lost <= StoreInNewFile(w, e, p, timeText, os).disk.lost
    ensures SameLost(w, StoreInNewFile(w, e, p, timeText, os)) <==> !NewFileErases(w, e, p, timeText, os)
  {
    CreateLoses(w, e, timeText, os);
    CreateOutcome(w, e, timeText, os, start, alone);
    var v := CreateDest(w, e, timeText, os);
    if v.dest.status.open {
      WriteLoses(v, e, p, os.data, os.moveBad);
      LossesChain(w, v, WriteRecord(v, e, p, os.data, os.moveBad));
    }
  }

  /** Storing a packet loses others exactly when it creates, moves or copies a file onto one that
      holds packets.
   */
  lemma StoreLoses(w: World, e: DestEntry, p: Record, timeText: string, os: StoreResults, start: seq<File>, alone: bool)
    requires Good(w, start, alone) && Consistent(w.dest) && p.Packet? && e.Verified()
    ensures SameLost(w, SetupWrite(w, e, p, timeText, os)) <==> !StoreErases(w, e, p, timeText, os)
  {
    if !NeedsFile(w.dest, e, p) {
      WriteLoses(w, e, p, os.data, os.moveBad);
    } else if w.dest.status.open {
      var u := w.(io := UpdateHeader(w.io, os.seek, os.update));
      CloseLoses(u, e, os.moveFull);
      CloseGood(u, e, os.moveFull, start, alone);
      NewFileLoses(UpdateAndClose(w, e, os), e, p, timeText, os, start, alone);
      LossesChain(w, UpdateAndClose(w, e, os), SetupWrite(w, e, p, timeText, os));
    } else {
      NewFileLoses(w, e, p, timeText, os, start, alone);
    }
  }

  // ---------- Events and runs ----------

  datatype Event =
    | Store(entry: DestEntry, packet: Record, timeText: string, os: StoreResults)
    | Age(entry: DestEntry, elapsed: nat, os: StoreResults)
    | Close(entry: DestEntry, os: StoreResults)
    | HkRequest
    | SetState(enabled: bool)
    | SetCount(count: nat)
    | LoadTable(enabled: bool, count: nat)

  /** The commands and the table loads put in verified values only. */
  predicate Allowed(ev: Event) {
    match ev
    case Store(e, p, _, _) => e.Verified() && p.Packet?
    case SetCount(count) => count <= MAX_SEQUENCE_COUNT
    case LoadTable(_, count) => count <= MAX_SEQUENCE_COUNT
    case _ => true
  }

  /** A load of the destination table sets state and count; an open file stays open. */
  function Loaded(d: Dest, enabled: bool, count: nat): Dest {
    d.(status := d.status.(enabled := enabled, count := count))
  }

  function React(w: World, ev: Event): World
    requires Allowed(ev) && w.dest.status.count <= MAX_SEQUENCE_COUNT
  {
    match ev
    case Store(e, p, timeText, os) => SetupWrite(w, e, p, timeText, os)
    case Age(e, elapsed, os) => TestAge(w, e, elapsed, os)
    case Close(e, os) => CloseIfOpen(w, e, os)
    case HkRequest => w.(dest := Housekeep(w.dest))
    case SetState(enabled) => w.(dest := w.dest.(status := w.dest.status.(enabled := enabled)))
    case SetCount(count) => w.(dest := w.dest.(status := w.dest.status.(count := count)))
    case LoadTable(enabled, count) => w.(dest := Loaded(w.dest, enabled, count))
  }

  predicate Ages(w: World, e: DestEntry, elapsed: nat) {
    w.dest.status.open && (w.dest.status.age + elapsed) % UINT32 >= e.maxAge
  }

  /** The event creates a file under a name whose file holds packets, or moves or copies one there. */
  predicate Erases(w: World, ev: Event)
    requires Allowed(ev) && w.dest.status.count <= MAX_SEQUENCE_COUNT
  {
    match ev
    case Store(e, p, timeText, os) => StoreErases(w, e, p, timeText, os)
    case Age(e, elapsed, os) => Ages(w, e, elapsed) && MoveErases(w, e, os.moveFull)
    case Close(e, os) => w.dest.status.open && MoveErases(w, e, os.moveFull)
    case _ => false
  }

  function StoredBy(d: Dest, ev: Event): seq<Record> {
    match ev
    case Store(e, p, timeText, os) => if Stored(d, e, p, timeText, os) then [p] else []
    case _ => []
  }

  lemma OtherEventsKeep(w: World, ev: Event, start: seq<File>, alone: bool)
    requires Good(w, start, alone) && Consistent(w.dest) && Allowed(ev) && !ev.Store?
    ensures var v := React(w, ev);
            && Good(v, start, alone) && Consistent(v.dest) && w.disk.lost <= v.disk.lost && v.disk.put == w.disk.put
            && (SameLost(w, v) <==> !Erases(w, ev))
  {
    match ev
    case Age(e, elapsed, os) =>
      var aged := w.(dest := w.dest.(status := w.dest.status.(age := (w.dest.status.age + elapsed) % UINT32)),
                     io := UpdateHeader(w.io, os.seek, os.update));
      if Ages(w, e, elapsed) {
        CloseGood(aged, e, os.moveFull, start, alone);
        CloseLoses(aged, e, os.moveFull);
      }
    case Close(e, os) =>
      var u := w.(io := UpdateHeader(w.io, os.seek, os.update));
      CloseGood(u, e, os.moveFull, start, alone);
      CloseLoses(u, e, os.moveFull);
    case _ =>
  }

  lemma EventKeeps(w: World, ev: Event, start: seq<File>, alone: bool)
    requires Good(w, start, alone) && Consistent(w.dest) && Allowed(ev)
    ensures var v := React(w, ev);
            && Good(v, start, alone) && Consistent(v.dest) && w.disk.lost <= v.disk.lost
            && PacketsIn(v.disk.put) == PacketsIn(w.disk.put) + StoredBy(w.dest, ev)
            && (SameLost(w, v) <==> !Erases(w, ev))
  {
    if ev.Store? {
      StoreOutcome(w, ev.entry, ev.packet, ev.timeText, ev.os, start, alone);
      StoreLoses(w, ev.entry, ev.packet, ev.timeText, ev.os, start, alone);
    } else {
      OtherEventsKeep(w, ev, start, alone);
    }
  }

  const FRESH: Dest := Dest(FileStatus(false, 0, 0, 0, 0, 0, false, ""), [], 0, 0, 0)

  /** The destination starts closed, on a disk that may hold any files. */
  ghost predicate Run(ws: seq<World>, evs: seq<Event>) {
    && |ws| == |evs| + 1 && ws[0].dest == FRESH
    && Named(ws[0].disk.files) && ws[0].disk.lost == ws[0].disk.put == ws[0].disk.copied == []
    && forall i :: 0 <= i < |evs| ==> Follows(ws, evs, i)
  }

  ghost predicate Follows(ws: seq<World>, evs: seq<Event>, i: nat)
    requires i < |evs| < |ws|
  {
    && Allowed(evs[i]) && ws[i].dest.status.count <= MAX_SEQUENCE_COUNT
    && ws[i + 1] == React(ws[i], evs[i])
  }

  /** The packets of a run whose every call succeeded. */
  function StoredPackets(ws: seq<World>, evs: seq<Event>, n: nat): seq<Record>
    requires n <= |evs| < |ws|
  {
    if n == 0 then []
    else StoredPackets(ws, evs, n - 1) + StoredBy(ws[n - 1].dest, evs[n - 1])
  }

  lemma StartGood(w: World)
    requires w.dest == FRESH && Named(w.disk.files) && w.disk.lost == w.disk.put == w.disk.copied == []
    ensures Good(w, w.disk.files, true) && Consistent(w.dest)
  {
    forall m ensures Conserves(w.disk, w.disk.files, m) {
    }
    assert Packets(w.disk.files) + [] == Packets(w.disk.files);
  }

  /** In every state of every run the destination is consistent, its open file is on the disk, and
      every packet put on the disk, like those already there, is there or was lost to another file of
      its name. The packets put there are those stored, in order.
   */
  lemma {:induction false} RunKeeps(ws: seq<World>, evs: seq<Event>, n: nat)
    requires Run(ws, evs) && n <= |evs|
    ensures Good(ws[n], ws[0].disk.files, true) && Consistent(ws[n].dest)
    ensures PacketsIn(ws[n].disk.put) == StoredPackets(ws, evs, n)
  {
    if n == 0 {
      StartGood(ws[0]);
    } else {
      RunKeeps(ws, evs, n - 1);
      assert Follows(ws, evs, n - 1);
      EventKeeps(ws[n - 1], evs[n - 1], ws[0].disk.files, true);
    }
  }

  /** A state in which an event happens, and the next. */
  lemma Reached(ws: seq<World>, evs: seq<Event>, i: nat)
    requires Run(ws, evs) && i < |evs|
    ensures Good(ws[i], ws[0].disk.files, true) && Consistent(ws[i].dest) && Allowed(evs[i])
    ensures ws[i + 1] == React(ws[i], evs[i])
  {
    RunKeeps(ws, evs, i);
    assert Follows(ws, evs, i);
  }

  predicate Quiet(w: World, ev: Event) {
    Allowed(ev) && w.dest.status.count <= MAX_SEQUENCE_COUNT && !Erases(w, ev)
  }

  /** None of the first `n` events creates, moves or copies a file onto one that holds packets. */
  predicate Lossless(ws: seq<World>, evs: seq<Event>, n: nat)
    requires n <= |evs| < |ws|
  {
    n == 0 || (Lossless(ws, evs, n - 1) && Quiet(ws[n - 1], evs[n - 1]))
  }

  lemma NextLost(ws: seq<World>, evs: seq<Event>, i: nat)
    requires Run(ws, evs) && i < |evs|
    ensures PacketsIn(ws[i + 1].disk.lost) == [] <==> PacketsIn(ws[i].disk.lost) == [] && Quiet(ws[i], evs[i])
  {
    RunKeeps(ws, evs, i);
    assert Follows(ws, evs, i);
    EventKeeps(ws[i], evs[i], ws[0].disk.files, true);
    LostGrows(ws[i].disk.lost, ws[i + 1].disk.lost);
  }

  lemma {:induction false} NothingLost(ws: seq<World>, evs: seq<Event>, n: nat)
    requires Run(ws, evs) && n <= |evs|
    ensures PacketsIn(ws[n].disk.lost) == [] <==> Lossless(ws, evs, n)
  {
    if n > 0 {
      NothingLost(ws, evs, n - 1);
      NextLost(ws, evs, n - 1);
    }
  }

  ghost predicate Kept(ws: seq<World>, evs: seq<Event>, n: nat)
    requires Run(ws, evs) && n <= |evs|
  {
    Packets(ws[n].disk.files) == Packets(ws[0].disk.files) + StoredPackets(ws, evs, n)
  }

  /** The packet is on the disk as often as it was at the start, was stored since and was left by copies. */
  ghost predicate There(ws: seq<World>, evs: seq<Event>, n: nat, p: Record)
    requires Run(ws, evs) && n <= |evs|
  {
    SumFiles(ws[n].disk.files, CopiesOf(p)) ==
    SumFiles(ws[0].disk.files, CopiesOf(p)) + Sum(StoredPackets(ws, evs, n), CopiesOf(p)) + Sum(ws[n].disk.copied, CopiesOf(p))
  }

  lemma ThereUnlessLost(ws: seq<World>, evs: seq<Event>, n: nat, p: Record)
    requires Run(ws, evs) && n <= |evs| && p.Packet?
    ensures There(ws, evs, n, p) <==> Sum(PacketsIn(ws[n].disk.lost), CopiesOf(p)) == 0
  {
    RunKeeps(ws, evs, n);
    assert Conserves(ws[n].disk, ws[0].disk.files, CopiesOf(p));
    CopiesInPackets(ws[n].disk.lost, p);
    CopiesInPackets(ws[n].disk.put, p);
  }

  /** No packet is missing if and only if no event has created, moved or copied a file onto one that
      holds packets. If moves have left no copies, the files then hold exactly the packets there were
      at the start and those stored since, in order.
   */
  lemma KeptExactly(ws: seq<World>, evs: seq<Event>, n: nat)
    requires Run(ws, evs) && n <= |evs|
    ensures (forall p: Record :: p.Packet? ==> There(ws, evs, n, p)) <==> Lossless(ws, evs, n)
    ensures PacketsIn(ws[n].disk.copied) == [] ==> (Kept(ws, evs, n) <==> Lossless(ws, evs, n))
  {
    NothingLost(ws, evs, n);
    var lost := PacketsIn(ws[n].disk.lost);
    forall p: Record | p.Packet? ensures There(ws, evs, n, p) <==> Sum(lost, CopiesOf(p)) == 0 {
      ThereUnlessLost(ws, evs, n, p);
    }
    if lost != [] {
      InMeansCopies(lost, lost[0]);
      assert lost[0].Packet? && !There(ws, evs, n, lost[0]);
    }
    if PacketsIn(ws[n].disk.copied) == [] {
      KeptInOrder(ws, evs, n);
    }
  }

  lemma KeptInOrder(ws: seq<World>, evs: seq<Event>, n: nat)
    requires Run(ws, evs) && n <= |evs| && PacketsIn(ws[n].disk.copied) == []
    ensures Kept(ws, evs, n) <==> PacketsIn(ws[n].disk.lost) == []
  {
    RunKeeps(ws, evs, n);
    var w, start := ws[n], ws[0].disk.files;
    assert Conserves(w.disk, start, AllPackets);
    FilePacketsCounted(w.disk.files);
    FilePacketsCounted(start);
    PacketsCounted(w.disk.lost);
    PacketsCounted(w.disk.put);
    PacketsCounted(w.disk.copied);
  }

  /** A move that fails is enough: on a full volume the copy has truncated the file at the target before
      it could write anything, and the closed file stays where it is.
   */
  lemma FailedMoveLoses(w: World, e: DestEntry, os: StoreResults, to: string)
    requires OnDisk(w) && w.dest.status.open && MoveTarget(e.move, w.dest.status.name) == Some(to) && to != w.dest.status.name
    requires w.dest.file != [] && w.dest.file[0] == CfeHeader && w.dest.status.count <= MAX_SEQUENCE_COUNT
    requires !os.moveFull.rename && os.moveFull.copies && os.moveFull.part == 0
    ensures var disk := React(w, Close(e, os)).disk;
            && Holds(disk.files, w.dest.status.name) == w.dest.file && Holds(disk.files, to) == []
            && disk.lost == w.disk.lost + Holds(w.disk.files, to)
  {
    var name, mv, rs := w.dest.status.name, os.moveFull, w.dest.file;
    assert TotalBytes(rs) > 0 by {
      SumJoins([rs[0]], rs[1..], AllBytes);
      assert [rs[0]] + rs[1..] == rs && [rs[0]] == [] + [CfeHeader];
      SumAppend([], CfeHeader, AllBytes);
    }
    MoveFileLoses(w.disk, name, to, mv);
    MoveFileKeeps(w.disk, name, to, mv);
    FrontIs(Without(w.disk.files, to), File(to, []));
  }

  /** A file created with all calls succeeding takes the place of one of its name. */
  lemma CreateReplaces(w: World, e: DestEntry, timeText: string, os: StoreResults, start: seq<File>, alone: bool)
    requires Good(w, start, alone) && Consistent(w.dest) && !w.dest.status.open && e.Verified() && Created(w.dest, e, timeText, os)
    ensures CreateDest(w, e, timeText, os).disk.lost == w.disk.lost + Holds(w.disk.files, NewName(w.dest, e, timeText).value)
    ensures CreateDest(w, e, timeText, os).disk.copied == w.disk.copied
  {
    var name := NewName(w.dest, e, timeText).value;
    var u := OpenNew(w.(dest := CreateName(w.dest, e, timeText)), name);
    OpenGood(w.(dest := CreateName(w.dest, e, timeText)), name, start, alone);
    HeadersGood(u, e, os, start, alone);
  }

  lemma StoreReplaces(w: World, e: DestEntry, p: Record, timeText: string, os: StoreResults, start: seq<File>, alone: bool)
    requires Good(w, start, alone) && Consistent(w.dest) && !w.dest.status.open && e.Verified() && p.Packet?
    requires Created(w.dest, e, timeText, os) && os.data == p.Bytes()
    ensures var v := SetupWrite(w, e, p, timeText, os);
            var name := NewName(w.dest, e, timeText).value;
            && v.disk.lost == w.disk.lost + Holds(w.disk.files, name) && v.disk.copied == w.disk.copied
            && v.dest.status.open && v.dest.status.name == name && Holds(v.disk.files, name) == [CfeHeader, DsHeader, p]
  {
    CreateReplaces(w, e, timeText, os, start, alone);
    CreateOutcome(w, e, timeText, os, start, alone);
    StoreInNewFileOutcome(w, e, p, timeText, os, start, alone);
  }

  /** The packet `p` is alone on the disk, in the file that the count 0 names. */
  ghost predicate HoldsFirst(d: Disk, e: DestEntry, p: Record) {
    var name := FileName(e.path, e.base, Digits(0, SEQUENCE_DIGITS), e.extension);
    && Lawful(d, []) && d.lost == d.copied == [] && PacketsIn(d.put) == [p]
    && name.Some? && Holds(d.files, name.value) == [CfeHeader, DsHeader, p]
  }

  lemma FirstStored(w: World, e: DestEntry, p: Record, os: StoreResults) returns (v: World)
    requires w.dest == FRESH && w.disk == Disk([], [], [], []) && e.Verified() && e.nameType == NAME_BY_COUNT
    requires p.Packet? && Created(w.dest, e, "", os) && os.data == p.Bytes()
    ensures v == React(w, Store(e, p, "", os)) && Good(v, [], true) && Consistent(v.dest) && v.dest.status.open
    ensures HoldsFirst(v.disk, e, p)
  {
    StartGood(w);
    StoreReplaces(w, e, p, "", os, [], true);
    EventKeeps(w, Store(e, p, "", os), [], true);
    v := React(w, Store(e, p, "", os));
    assert PacketsIn(w.disk.put) + [p] == [p];
  }

  lemma SecondStored(w: World, e: DestEntry, p: Record, q: Record, os: StoreResults) returns (v: World)
    requires Good(w, [], true) && Consistent(w.dest) && !w.dest.status.open && w.dest.status.count == 0 && HoldsFirst(w.disk, e, p)
    requires e.Verified() && e.nameType == NAME_BY_COUNT && p.Packet? && q.Packet? && p != q
    requires Created(w.dest, e, "", os) && os.data == q.Bytes()
    ensures v == React(w, Store(e, q, "", os)) && PacketsIn(v.disk.put) == [p, q] && PacketsIn(v.disk.lost) == [p]
    ensures SumFiles(w.disk.files, CopiesOf(p)) == 1 && SumFiles(v.disk.files, CopiesOf(p)) == 0
  {
    StoreReplaces(w, e, q, "", os, [], true);
    EventKeeps(w, Store(e, q, "", os), [], true);
    v := React(w, Store(e, q, "", os));
    assert [] + [CfeHeader, DsHeader, p] == [CfeHeader, DsHeader, p];
    FirstIsGone(w.disk, v.disk, p, q);
  }

  lemma ClosedAndReset(w: World, e: DestEntry, os: StoreResults) returns (v: World)
    requires Good(w, [], true) && Consistent(w.dest) && w.dest.status.open && e.move == ""
    ensures v == React(React(w, Close(e, os)), SetCount(0)) && Good(v, [], true) && Consistent(v.dest)
    ensures !v.dest.status.open && v.dest.status.count == 0 && v.disk == w.disk
  {
    EventKeeps(w, Close(e, os), [], true);
    var u := React(w, Close(e, os));
    EventKeeps(u, SetCount(0), [], true);
    v := React(u, SetCount(0));
  }

  /** A reset of the count is enough: the next file gets the name of an old one and takes its place.
      The first of the two packets stored is no longer on the disk.
   */
  lemma ReusedCountLoses(w: World, e: DestEntry, p: Record, q: Record, os: StoreResults)
    returns (stored: World, reset: World, again: World)
    requires w.dest == FRESH && w.disk == Disk([], [], [], []) && e.Verified() && e.nameType == NAME_BY_COUNT && e.move == ""
    requires p.Packet? && q.Packet? && p != q && os.open && HeadersWritten(os)
    requires FileName(e.path, e.base, Digits(0, SEQUENCE_DIGITS), e.extension).Some?
    ensures stored == React(w, Store(e, p, "", os.(data := p.Bytes()))) && stored.dest.status.count <= MAX_SEQUENCE_COUNT
    ensures reset == React(React(stored, Close(e, os)), SetCount(0)) && reset.dest.status.count <= MAX_SEQUENCE_COUNT
    ensures again == React(reset, Store(e, q, "", os.(data := q.Bytes())))
    ensures PacketsIn(again.disk.put) == [p, q] && PacketsIn(again.disk.lost) == [p]
    ensures SumFiles(reset.disk.files, CopiesOf(p)) == 1 && SumFiles(again.disk.files, CopiesOf(p)) == 0
  {
    stored := FirstStored(w, e, p, os.(data := p.Bytes()));
    reset := ClosedAndReset(stored, e, os);
    again := SecondStored(reset, e, p, q, os.(data := q.Bytes()));
  }

  lemma CopiesOfTwo(p: Record, q: Record)
    requires p.Packet? && q.Packet? && p != q
    ensures Sum([p], CopiesOf(p)) == 1 && Sum([p] + [q], CopiesOf(p)) == 1
  {
    SumAppend([], p, CopiesOf(p));
    SumAppend([p], q, CopiesOf(p));
    assert [] + [p] == [p];
  }

  lemma FirstIsGone(before: Disk, after: Disk, p: Record, q: Record)
    requires Lawful(before, []) && Lawful(after, []) && p.Packet? && q.Packet? && p != q
    requires before.lost == before.copied == after.copied == [] && PacketsIn(before.put) == [p]
    requires after.lost == [CfeHeader, DsHeader, p] && PacketsIn(after.put) == [p] + [q]
    ensures PacketsIn(after.lost) == [p] && PacketsIn(after.put) == [p, q]
    ensures SumFiles(before.files, CopiesOf(p)) == 1 && SumFiles(after.files, CopiesOf(p)) == 0
  {
    assert PacketsIn(after.lost) == [p] by {
      HeaderSums();
      assert [CfeHeader, DsHeader] + [p] == after.lost;
      PacketsAppend([CfeHeader, DsHeader], p);
    }
    assert Conserves(before, [], CopiesOf(p)) && Conserves(after, [], CopiesOf(p));
    CopiesInPackets(before.put, p);
    CopiesInPackets(after.put, p);
    CopiesInPackets(after.lost, p);
    CopiesOfTwo(p, q);
  }
}
