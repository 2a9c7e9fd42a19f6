/** The life of one destination file: created, written, rolled over, aged, closed, mv, disabled. */
module DestFile {
  import opened Collections
  import opened DiskFiles
  import opened SequenceName

  const UINT16: nat := 0x1_0000
  const UINT32: nat := 0x1_0000_0000
  const SECS_PER_HK_CYCLE: nat := 4

  const NAME_BY_COUNT: nat := 1

  /** The row of the destination file table; `move` is the directory that closed files are moved to,
      empty if they stay.
   */
  datatype DestEntry = DestEntry(
    path: string, base: string, extension: string, move: string, nameType: nat,
    maxSize: nat, maxAge: nat, sequenceCount: nat)
  {
    predicate Verified() {
      maxSize < UINT32 && maxAge < UINT32 && sequenceCount <= MAX_SEQUENCE_COUNT
    }
  }

  /** The current state of a destination file, as the application keeps it. */
  datatype FileStatus = FileStatus(
    open: bool, age: nat, size: nat, growth: nat, rate: nat, count: nat, enabled: bool, name: string)

  /** The write counters that all destinations share. */
  datatype IoCounters = IoCounters(writes: nat, writeErrors: nat, updates: nat, updateErrors: nat)

  /** A destination and the record of it: what was written to the open file since it was created, the
      bytes the operating system has accepted, those of them accepted by writes that then counted as
      failed, and the growth reported at past housekeeping requests.
   */
  datatype Dest = Dest(status: FileStatus, file: seq<Record>, accepted: nat, short: nat, reported: nat)

  datatype World = World(dest: Dest, disk: Disk, io: IoCounters)

  /** Results of the operating system calls made while one packet is stored. `moveFull` is the move of
      a file that is closed as full, `moveBad` that of one closed after a failed write.
   */
  datatype StoreResults = StoreResults(
    seek: bool, update: bool, moveFull: MoveCall, open: bool, header1: int, header2: int, data: int, moveBad: MoveCall)

  function Next16(n: nat): nat {
    (n + 1) % UINT16
  }

  // ---------- The operations ----------

  /** The file name from its last separator on. */
  function FileTail(name: string): Option<string> {
    if name == "" then None
    else if name[|name| - 1] == SEPARATOR then Some([SEPARATOR])
    else match FileTail(name[..|name| - 1])
         case None => None
         case Some(tail) => Some(tail + [name[|name| - 1]])
  }

  /** Where a closed file is moved to, if it is. */
  function MoveTarget(dir: string, name: string): Option<string> {
    if dir == "" then None
    else
      var stripped := if dir[|dir| - 1] == SEPARATOR then dir[..|dir| - 1] else dir;
      match FileTail(name)
      case None => None
      case Some(tail) => if |stripped| + |tail| < TOTAL_FNAME_BUFSIZE then Some(stripped + tail) else None
  }

  function MoveClosed(disk: Disk, dir: string, name: string, mv: MoveCall): Disk {
    match MoveTarget(dir, name)
    case Some(to) => MoveFile(disk, name, to, mv)
    case None => disk
  }

  /** The file is closed and moved; size, age, handle and name are reset. */
  function CloseDest(w: World, e: DestEntry, mv: MoveCall): World {
    w.(dest := w.dest.(status := w.dest.status.(open := false, age := 0, size := 0, name := ""), file := []),
       disk := MoveClosed(w.disk, e.move, w.dest.status.name, mv))
  }

  function WriteError(w: World, e: DestEntry, mv: MoveCall): World {
    var v := CloseDest(w, e, mv);
    v.(dest := v.dest.(status := v.dest.status.(enabled := false)),
       io := w.io.(writeErrors := Next16(w.io.writeErrors)))
  }

  /** What a write call that reports `result` has put in the file. */
  function Written(r: Record, result: int): seq<Record> {
    if result == r.Bytes() then [r] else if 0 < result < r.Bytes() then [Partial(result)] else []
  }

  /** Write one record; `result` is what the operating system reports as written. */
  function WriteRecord(w: World, e: DestEntry, r: Record, result: int, mv: MoveCall): World {
    var s := w.dest.status;
    var disk := Write(w.disk, s.name, Written(r, result));
    var bytes := TotalBytes(Written(r, result));
    if result == r.Bytes() then
      World(w.dest.(status := s.(size := (s.size + r.Bytes()) % UINT32, growth := (s.growth + r.Bytes()) % UINT32),
                    file := w.dest.file + [r], accepted := w.dest.accepted + bytes),
            disk, w.io.(writes := Next16(w.io.writes)))
    else WriteError(World(w.dest.(accepted := w.dest.accepted + bytes, short := w.dest.short + bytes), disk, w.io), e, mv)
  }

  /** Only a successful write of the first header is followed by the second. */
  function WriteHeaders(w: World, e: DestEntry, os: StoreResults): World {
    var v := WriteRecord(w, e, CfeHeader, os.header1, os.moveBad);
    if os.header1 == CFE_HEADER_BYTES then WriteRecord(v, e, DsHeader, os.header2, os.moveBad) else v
  }

  function NewName(d: Dest, e: DestEntry, timeText: string): Option<string> {
    FileName(e.path, e.base, if e.nameType == NAME_BY_COUNT then Digits(d.status.count, SEQUENCE_DIGITS) else timeText, e.extension)
  }

  function CreateName(d: Dest, e: DestEntry, timeText: string): Dest {
    match NewName(d, e, timeText)
    case Some(name) => d.(status := d.status.(name := name))
    case None => d.(status := d.status.(enabled := false))
  }

  function CountUp(w: World, e: DestEntry): World
    requires e.Verified()
  {
    if w.dest.status.open && e.nameType == NAME_BY_COUNT && w.dest.status.count <= MAX_SEQUENCE_COUNT then
      w.(dest := w.dest.(status := w.dest.status.(count := NextCount(w.dest.status.count, e.sequenceCount))))
    else w
  }

  /** The file is open under its new name, empty, whatever a file of that name held. */
  function OpenNew(w: World, name: string): World {
    World(w.dest.(status := w.dest.status.(name := name, open := true), file := []), Create(w.disk, name),
          w.io.(writes := Next16(w.io.writes)))
  }

  function Begin(w: World, name: string, e: DestEntry, os: StoreResults): World
    requires e.Verified()
  {
    CountUp(WriteHeaders(OpenNew(w, name), e, os), e)
  }

  function CreateDest(w: World, e: DestEntry, timeText: string, os: StoreResults): World
    requires w.dest.status.count <= MAX_SEQUENCE_COUNT && e.Verified()
  {
    var d := CreateName(w.dest, e, timeText);
    if d.status.name == "" then w.(dest := d)
    else if !os.open then
      w.(dest := d.(status := d.status.(name := "", enabled := false)), io := w.io.(writeErrors := Next16(w.io.writeErrors)))
    else Begin(w.(dest := d), d.status.name, e, os)
  }

  function UpdateHeader(io: IoCounters, seek: bool, update: bool): IoCounters {
    if seek && update then io.(updates := Next16(io.updates)) else io.(updateErrors := Next16(io.updateErrors))
  }

  /** The header is updated and the file closed; the update puts nothing behind what is there. */
  function UpdateAndClose(w: World, e: DestEntry, os: StoreResults): World {
    CloseDest(w.(io := UpdateHeader(w.io, os.seek, os.update)), e, os.moveFull)
  }

  /** Whether the packet goes into a new file. */
  predicate NeedsFile(d: Dest, e: DestEntry, p: Record) {
    !d.status.open || d.status.size + p.Bytes() > e.maxSize
  }

  /** Store a packet: roll over when it would not fit, create a file when none is open, write. */
  function SetupWrite(w: World, e: DestEntry, p: Record, timeText: string, os: StoreResults): World
    requires p.Packet? && w.dest.status.count <= MAX_SEQUENCE_COUNT && e.Verified()
  {
    if !NeedsFile(w.dest, e, p) then WriteRecord(w, e, p, os.data, os.moveBad)
    else
      var v := if w.dest.status.open then UpdateAndClose(w, e, os) else w;
      StoreInNewFile(v, e, p, timeText, os)
  }

  function StoreInNewFile(w: World, e: DestEntry, p: Record, timeText: string, os: StoreResults): World
    requires p.Packet? && w.dest.status.count <= MAX_SEQUENCE_COUNT && e.Verified()
  {
    var v := CreateDest(w, e, timeText, os);
    if v.dest.status.open then WriteRecord(v, e, p, os.data, os.moveBad) else v
  }

  function TestAge(w: World, e: DestEntry, elapsed: nat, os: StoreResults): World {
    if !w.dest.status.open then w
    else
      var age := (w.dest.status.age + elapsed) % UINT32;
      var v := w.(dest := w.dest.(status := w.dest.status.(age := age)));
      if age >= e.maxAge then UpdateAndClose(v, e, os) else v
  }

  function CloseIfOpen(w: World, e: DestEntry, os: StoreResults): World {
    if w.dest.status.open then UpdateAndClose(w, e, os) else w
  }

  /** At a housekeeping request the growth becomes the rate and starts over. */
  function Housekeep(d: Dest): Dest {
    d.(status := d.status.(rate := d.status.growth / SECS_PER_HK_CYCLE, growth := 0),
       reported := d.reported + d.status.growth)
  }

  // ---------- What every operation keeps ----------

  ghost predicate HeadersThenPackets(rs: seq<Record>) {
    && |rs| > 2 && rs[0] == CfeHeader && rs[1] == DsHeader
    && forall i :: 2 <= i < |rs| ==> rs[i].Packet?
  }

  /** While a file is being created it holds only part of its headers. */
  ghost predicate Accounted(d: Dest) {
    && d.status.count <= MAX_SEQUENCE_COUNT && d.status.size < UINT32
    && (!d.status.open ==> d.status.size == 0 && d.status.age == 0 && d.file == [])
    && (d.status.open ==> d.status.name != "" && d.status.size == TotalBytes(d.file))
  }

  /** A closed destination has no size, age or name. An open one has a name, starts with both headers,
      goes on with at least one packet, and its size is the number of bytes written since it was
      created.
   */
  ghost predicate Consistent(d: Dest) {
    && Accounted(d)
    && (!d.status.open ==> d.status.name == "")
    && (d.status.open ==> HeadersThenPackets(d.file))
  }

  /** The open file is on the disk with what was written to it. */
  ghost predicate OnDisk(w: World) {
    w.dest.status.open ==> Has(w.disk.files, w.dest.status.name) && Holds(w.disk.files, w.dest.status.name) == w.dest.file
  }

  /** For a destination that is `alone` on its disk: its open file is the youngest, and the packets
      are there in order.
   */
  ghost predicate InOrder(w: World, start: seq<File>) {
    Ordered(w.disk, start) && (w.dest.status.open ==> w.disk.files != [] && Last(w.disk.files).name == w.dest.status.name)
  }

  ghost predicate Good(w: World, start: seq<File>, alone: bool) {
    Accounted(w.dest) && OnDisk(w) && Lawful(w.disk, start) && (alone ==> InOrder(w, start))
  }

  /** `v` has put `rs` on the disk since `w`. */
  ghost predicate Put(w: World, v: World, rs: seq<Record>) {
    v.disk.put == w.disk.put + rs && w.disk.lost <= v.disk.lost
  }

  lemma MoveGood(disk: Disk, dir: string, name: string, mv: MoveCall, start: seq<File>)
    requires Lawful(disk, start)
    ensures var after := MoveClosed(disk, dir, name, mv);
            && Lawful(after, start) && after.put == disk.put && disk.lost <= after.lost
            && (Ordered(disk, start) ==> Ordered(after, start))
  {
    match MoveTarget(dir, name)
    case None =>
    case Some(to) =>
      MoveFileLawful(disk, name, to, mv, start);
      MoveFileLoses(disk, name, to, mv);
  }

  lemma CloseGood(w: World, e: DestEntry, mv: MoveCall, start: seq<File>, alone: bool)
    requires Good(w, start, alone)
    ensures var v := CloseDest(w, e, mv); Good(v, start, alone) && Consistent(v.dest) && Put(w, v, [])
  {
    MoveGood(w.disk, e.move, w.dest.status.name, mv, start);
    assert w.disk.put + [] == w.disk.put;
  }

  lemma DiskWritten(disk: Disk, name: string, r: Record, start: seq<File>)
    requires Lawful(disk, start) && Has(disk.files, name)
    ensures var d := Write(disk, name, [r]);
            && Lawful(d, start) && Has(d.files, name) && Holds(d.files, name) == Holds(disk.files, name) + [r]
            && d.put == disk.put + [r] && d.lost == disk.lost
  {
    WriteLawful(disk, name, [r], start);
    ExtendedHolds(disk.files, name, [r], name);
  }

  /** A write that succeeds adds the record to the open file and counts its bytes once. */
  lemma WriteSucceeds(w: World, e: DestEntry, r: Record, mv: MoveCall, start: seq<File>, alone: bool)
    requires Good(w, start, alone) && w.dest.status.open && w.dest.status.size + r.Bytes() < UINT32
    ensures var v := WriteRecord(w, e, r, r.Bytes(), mv); Good(v, start, alone) && Put(w, v, [r]) && v.disk.lost == w.disk.lost
  {
    var name := w.dest.status.name;
    DiskWritten(w.disk, name, r, start);
    if alone {
      WriteOrdered(w.disk, name, [r], start);
    }
    SumAppend(w.dest.file, r, AllBytes);
  }

  /** Any other result closes the file, with what the call did write, and disables the destination. */
  lemma WriteFails(w: World, e: DestEntry, r: Record, result: int, mv: MoveCall, start: seq<File>, alone: bool)
    requires Good(w, start, alone) && w.dest.status.open && result != r.Bytes()
    ensures var v := WriteRecord(w, e, r, result, mv);
            && Good(v, start, alone) && Consistent(v.dest) && Put(w, v, Written(r, result))
            && !v.dest.status.open && !v.dest.status.enabled
  {
    var name, rs := w.dest.status.name, Written(r, result);
    WriteLawful(w.disk, name, rs, start);
    if alone {
      WriteOrdered(w.disk, name, rs, start);
    }
    MoveGood(Write(w.disk, name, rs), e.move, name, mv, start);
  }

  /** A move that copies a file onto itself, which destroys it. */
  predicate MovesOntoItself(e: DestEntry, name: string, mv: MoveCall) {
    MoveTarget(e.move, name) == Some(name) && Replaces(name, name, mv)
  }

  /** The name of a closed file after its move, or under which it stays. */
  function NameClosed(disk: Disk, dir: string, name: string, mv: MoveCall): string {
    match MoveTarget(dir, name)
    case Some(to) => NameAfter(disk, name, to, mv)
    case None => name
  }

  /** The file that a failed write closes ends with the bytes that the call did write, wherever its
      move leaves it; only a copy onto itself destroys it.
   */
  lemma ShortWriteStays(w: World, e: DestEntry, r: Record, result: int, mv: MoveCall)
    requires OnDisk(w) && w.dest.status.open && result != r.Bytes()
    ensures var name := w.dest.status.name;
            var after := NameClosed(Write(w.disk, name, Written(r, result)), e.move, name, mv);
            Holds(WriteRecord(w, e, r, result, mv).disk.files, after) ==
            if MovesOntoItself(e, name, mv) then [] else w.dest.file + Written(r, result)
  {
    var name, rs := w.dest.status.name, Written(r, result);
    var disk := Write(w.disk, name, rs);
    ExtendedHolds(w.disk.files, name, rs, name);
    match MoveTarget(e.move, name)
    case None =>
    case Some(to) => MoveFileKeeps(disk, name, to, mv);
  }

  predicate HeadersWritten(os: StoreResults) {
    os.header1 == CFE_HEADER_BYTES && os.header2 == DS_HEADER_BYTES
  }

  lemma HeaderSums()
    ensures TotalBytes([]) == 0 && TotalBytes([CfeHeader]) == CFE_HEADER_BYTES
    ensures TotalBytes([CfeHeader, DsHeader]) == CFE_HEADER_BYTES + DS_HEADER_BYTES
    ensures PacketsIn([CfeHeader, DsHeader]) == []
  {
    SumAppend([], CfeHeader, AllBytes);
    SumAppend([CfeHeader], DsHeader, AllBytes);
    PacketsAppend([], CfeHeader);
    PacketsAppend([CfeHeader], DsHeader);
    assert [] + [CfeHeader] == [CfeHeader] && [CfeHeader] + [DsHeader] == [CfeHeader, DsHeader];
  }

  /** A failed header write leaves the destination closed and disabled, with no packet put on the disk. */
  ghost predicate GaveUp(w: World, v: World, start: seq<File>, alone: bool) {
    && Good(v, start, alone) && Consistent(v.dest) && !v.dest.status.open && !v.dest.status.enabled
    && v.dest.status.count == w.dest.status.count
    && w.disk.lost <= v.disk.lost && PacketsIn(v.disk.put) == PacketsIn(w.disk.put)
  }

  lemma HeaderFails(w: World, e: DestEntry, r: Record, result: int, mv: MoveCall, start: seq<File>, alone: bool)
    requires Good(w, start, alone) && w.dest.status.open && !r.Packet? && result != r.Bytes()
    ensures GaveUp(w, WriteRecord(w, e, r, result, mv), start, alone)
  {
    WriteFails(w, e, r, result, mv, start, alone);
    NoPacketWritten(w.disk.put, r, result);
  }

  /** The first header is written and counted. */
  ghost predicate Begun(w: World, v: World, start: seq<File>, alone: bool) {
    && Good(v, start, alone) && v.dest.status.open && v.dest.file == [CfeHeader]
    && v.dest.status.name == w.dest.status.name && v.dest.status.count == w.dest.status.count
    && v.dest.status.enabled == w.dest.status.enabled && v.dest.status.size == CFE_HEADER_BYTES
    && v.disk.lost == w.disk.lost && PacketsIn(v.disk.put) == PacketsIn(w.disk.put)
  }

  lemma FirstHeader(w: World, e: DestEntry, mv: MoveCall, start: seq<File>, alone: bool)
    requires Good(w, start, alone) && w.dest.status.open && w.dest.file == []
    ensures Begun(w, WriteRecord(w, e, CfeHeader, CFE_HEADER_BYTES, mv), start, alone)
  {
    HeaderSums();
    WriteSucceeds(w, e, CfeHeader, mv, start, alone);
    PacketsAppend(w.disk.put, CfeHeader);
  }

  /** Both headers are written and counted. */
  ghost predicate Headed(w: World, v: World, start: seq<File>, alone: bool) {
    && Good(v, start, alone) && v.dest.status.open && v.dest.file == [CfeHeader, DsHeader]
    && v.dest.status.name == w.dest.status.name && v.dest.status.count == w.dest.status.count
    && v.dest.status.enabled == w.dest.status.enabled && v.dest.status.size == CFE_HEADER_BYTES + DS_HEADER_BYTES
    && v.disk.lost == w.disk.lost && PacketsIn(v.disk.put) == PacketsIn(w.disk.put)
  }

  lemma SecondHeader(w: World, v: World, e: DestEntry, mv: MoveCall, start: seq<File>, alone: bool)
    requires Begun(w, v, start, alone)
    ensures Headed(w, WriteRecord(v, e, DsHeader, DS_HEADER_BYTES, mv), start, alone)
  {
    WriteSucceeds(v, e, DsHeader, mv, start, alone);
    PacketsAppend(v.disk.put, DsHeader);
  }

  /** The second header is written only after the first, and a failure closes and disables. */
  lemma HeadersGood(w: World, e: DestEntry, os: StoreResults, start: seq<File>, alone: bool)
    requires Good(w, start, alone) && w.dest.status.open && w.dest.file == []
    ensures var v := WriteHeaders(w, e, os);
            if HeadersWritten(os) then Headed(w, v, start, alone) else GaveUp(w, v, start, alone)
  {
    if os.header1 == CFE_HEADER_BYTES {
      var v := WriteRecord(w, e, CfeHeader, os.header1, os.moveBad);
      FirstHeader(w, e, os.moveBad, start, alone);
      if os.header2 == DS_HEADER_BYTES {
        SecondHeader(w, v, e, os.moveBad, start, alone);
      } else {
        HeaderFails(v, e, DsHeader, os.header2, os.moveBad, start, alone);
      }
    } else {
      HeaderFails(w, e, CfeHeader, os.header1, os.moveBad, start, alone);
    }
  }

  lemma NoPacketWritten(put: seq<Record>, r: Record, result: int)
    requires !r.Packet? || result != r.Bytes()
    ensures PacketsIn(put + Written(r, result)) == PacketsIn(put)
  {
    if Written(r, result) == [] {
      assert put + [] == put;
    } else {
      PacketsAppend(put, Written(r, result)[0]);
    }
  }

  // ---------- Creating a file ----------

  /** A file is opened when the name fits and the create call succeeds. */
  predicate Opened(d: Dest, e: DestEntry, timeText: string, os: StoreResults) {
    NewName(d, e, timeText).Some? && os.open
  }

  predicate Created(d: Dest, e: DestEntry, timeText: string, os: StoreResults) {
    Opened(d, e, timeText, os) && HeadersWritten(os)
  }

  lemma OpenGood(w: World, name: string, start: seq<File>, alone: bool)
    requires Good(w, start, alone) && !w.dest.status.open && name != ""
    ensures Good(OpenNew(w, name), start, alone) && Put(w, OpenNew(w, name), [])
  {
    CreateLawful(w.disk, name, start);
    CreateHolds(w.disk, name, name);
    if alone {
      CreateOrdered(w.disk, name, start);
    }
    assert TotalBytes([]) == 0 && w.disk.put + [] == w.disk.put;
  }

  /** The state after creating a file: open with its name, its headers and the next count if every
      step succeeded, and otherwise closed and disabled with the count as it was. No packet is put on
      the disk.
   */
  ghost predicate CreatedOr(w: World, v: World, e: DestEntry, timeText: string, os: StoreResults, start: seq<File>, alone: bool)
    requires w.dest.status.count <= MAX_SEQUENCE_COUNT && e.Verified()
  {
    && Good(v, start, alone) && w.disk.lost <= v.disk.lost && PacketsIn(v.disk.put) == PacketsIn(w.disk.put)
    && (v.dest.status.open <==> Created(w.dest, e, timeText, os))
    && (if v.dest.status.open then
          && v.dest.status.name == NewName(w.dest, e, timeText).value && v.dest.file == [CfeHeader, DsHeader]
          && v.dest.status.size == CFE_HEADER_BYTES + DS_HEADER_BYTES
          && v.dest.status.enabled == w.dest.status.enabled
          && v.dest.status.count == (if e.nameType == NAME_BY_COUNT then NextCount(w.dest.status.count, e.sequenceCount)
                                     else w.dest.status.count)
        else !v.dest.status.enabled && Consistent(v.dest) && v.dest.status.count == w.dest.status.count)
  }

  lemma BeginOutcome(w: World, name: string, e: DestEntry, os: StoreResults, start: seq<File>, alone: bool)
    requires Good(w, start, alone) && !w.dest.status.open && name != "" && e.Verified()
    ensures var v := Begin(w, name, e, os);
            && Good(v, start, alone) && w.disk.lost <= v.disk.lost && PacketsIn(v.disk.put) == PacketsIn(w.disk.put)
            && (v.dest.status.open <==> HeadersWritten(os))
            && (if HeadersWritten(os) then
                  && v.dest.status.name == name && v.dest.file == [CfeHeader, DsHeader]
                  && v.dest.status.size == CFE_HEADER_BYTES + DS_HEADER_BYTES && v.dest.status.enabled == w.dest.status.enabled
                  && v.dest.status.count == (if e.nameType == NAME_BY_COUNT then NextCount(w.dest.status.count, e.sequenceCount)
                                             else w.dest.status.count)
                else !v.dest.status.enabled && Consistent(v.dest) && v.dest.status.count == w.dest.status.count)
  {
    OpenGood(w, name, start, alone);
    var u := OpenNew(w, name);
    assert u.disk.put == w.disk.put;
    HeadersGood(u, e, os, start, alone);
  }

  lemma CreateOutcome(w: World, e: DestEntry, timeText: string, os: StoreResults, start: seq<File>, alone: bool)
    requires Good(w, start, alone) && Consistent(w.dest) && !w.dest.status.open && e.Verified()
    ensures CreatedOr(w, CreateDest(w, e, timeText, os), e, timeText, os, start, alone)
  {
    if Opened(w.dest, e, timeText, os) {
      var d := CreateName(w.dest, e, timeText);
      BeginOutcome(w.(dest := d), d.status.name, e, os, start, alone);
    }
  }

  // ---------- Storing a packet ----------

  predicate Stored(d: Dest, e: DestEntry, p: Record, timeText: string, os: StoreResults) {
    (NeedsFile(d, e, p) ==> Created(d, e, timeText, os)) && os.data == p.Bytes()
  }

  predicate CountsUp(d: Dest, e: DestEntry, p: Record, timeText: string, os: StoreResults) {
    NeedsFile(d, e, p) && Created(d, e, timeText, os) && e.nameType == NAME_BY_COUNT
  }

  lemma WritePacket(w: World, e: DestEntry, p: Record, result: int, mv: MoveCall, start: seq<File>, alone: bool)
    requires Good(w, start, alone) && w.dest.status.open && p.Packet? && w.dest.status.size + p.Bytes() < UINT32
    requires HeadersThenPackets(w.dest.file + [p])
    ensures var v := WriteRecord(w, e, p, result, mv);
            && Good(v, start, alone) && Consistent(v.dest) && v.dest.status.count == w.dest.status.count
            && w.disk.lost <= v.disk.lost && (v.dest.status.open <==> result == p.Bytes())
            && PacketsIn(v.disk.put) == PacketsIn(w.disk.put) + (if result == p.Bytes() then [p] else [])
            && (if v.dest.status.open then
                  && v.dest.file == w.dest.file + [p] && v.dest.status.size == w.dest.status.size + p.Bytes()
                  && v.dest.status.enabled == w.dest.status.enabled
                else !v.dest.status.enabled)
  {
    if result == p.Bytes() {
      WriteSucceeds(w, e, p, mv, start, alone);
      PacketsAppend(w.disk.put, p);
    } else {
      WriteFails(w, e, p, result, mv, start, alone);
      NoPacketWritten(w.disk.put, p, result);
    }
  }

  /** The state after storing a packet in a new file. */
  ghost predicate NewFileOr(w: World, v: World, e: DestEntry, p: Record, timeText: string, os: StoreResults, start: seq<File>, alone: bool)
    requires w.dest.status.count <= MAX_SEQUENCE_COUNT && e.Verified()
  {
    && Good(v, start, alone) && Consistent(v.dest) && w.disk.lost <= v.disk.lost
    && (v.dest.status.open <==> Created(w.dest, e, timeText, os) && os.data == p.Bytes())
    && PacketsIn(v.disk.put) == PacketsIn(w.disk.put) + (if v.dest.status.open then [p] else [])
    && (if v.dest.status.open then v.dest.file == [CfeHeader, DsHeader, p] && v.dest.status.enabled == w.dest.status.enabled
        else !v.dest.status.enabled)
    && v.dest.status.count == if Created(w.dest, e, timeText, os) && e.nameType == NAME_BY_COUNT
                              then NextCount(w.dest.status.count, e.sequenceCount) else w.dest.status.count
  }

  lemma StoreInNewFileOutcome(w: World, e: DestEntry, p: Record, timeText: string, os: StoreResults, start: seq<File>, alone: bool)
    requires Good(w, start, alone) && Consistent(w.dest) && !w.dest.status.open && p.Packet? && e.Verified()
    ensures NewFileOr(w, StoreInNewFile(w, e, p, timeText, os), e, p, timeText, os, start, alone)
  {
    CreateOutcome(w, e, timeText, os, start, alone);
    var v := CreateDest(w, e, timeText, os);
    if v.dest.status.open {
      PacketAfterHeaders(v, e, p, os.data, os.moveBad, start, alone);
    }
  }

  lemma PacketAfterHeaders(v: World, e: DestEntry, p: Record, result: int, mv: MoveCall, start: seq<File>, alone: bool)
    requires Good(v, start, alone) && v.dest.status.open && p.Packet?
    requires v.dest.file == [CfeHeader, DsHeader] && v.dest.status.size == CFE_HEADER_BYTES + DS_HEADER_BYTES
    ensures var u := WriteRecord(v, e, p, result, mv);
            && Good(u, start, alone) && Consistent(u.dest) && u.dest.status.count == v.dest.status.count
            && v.disk.lost <= u.disk.lost && (u.dest.status.open <==> result == p.Bytes())
            && PacketsIn(u.disk.put) == PacketsIn(v.disk.put) + (if result == p.Bytes() then [p] else [])
            && (if u.dest.status.open then u.dest.file == [CfeHeader, DsHeader, p] && u.dest.status.enabled == v.dest.status.enabled
                else !u.dest.status.enabled)
  {
    assert v.dest.file + [p] == [CfeHeader, DsHeader, p];
    WritePacket(v, e, p, result, mv, start, alone);
  }

  /** The state after storing a packet. */
  ghost predicate StoredOr(w: World, v: World, e: DestEntry, p: Record, timeText: string, os: StoreResults, start: seq<File>, alone: bool)
    requires w.dest.status.count <= MAX_SEQUENCE_COUNT && e.Verified()
  {
    && Good(v, start, alone) && Consistent(v.dest) && w.disk.lost <= v.disk.lost
    && (v.dest.status.open <==> Stored(w.dest, e, p, timeText, os))
    && PacketsIn(v.disk.put) == PacketsIn(w.disk.put) + (if v.dest.status.open then [p] else [])
    && (if v.dest.status.open then
          && v.dest.file[|v.dest.file| - 1] == p && v.dest.status.enabled == w.dest.status.enabled
          && (v.dest.status.size <= e.maxSize || v.dest.file == [CfeHeader, DsHeader, p])
        else !v.dest.status.enabled)
    && v.dest.status.count == if CountsUp(w.dest, e, p, timeText, os)
                              then NextCount(w.dest.status.count, e.sequenceCount) else w.dest.status.count
  }

  /** What `v` is after `u`, it is after `w`, if `u` is `w` or differs by the closing of a full file. */
  lemma NewFileStored(w: World, u: World, v: World, e: DestEntry, p: Record, timeText: string, os: StoreResults, start: seq<File>, alone: bool)
    requires w.dest.status.count <= MAX_SEQUENCE_COUNT && e.Verified() && p.Packet? && NeedsFile(w.dest, e, p)
    requires u.dest.status.enabled == w.dest.status.enabled && u.dest.status.count == w.dest.status.count
    requires NewFileOr(u, v, e, p, timeText, os, start, alone)
    requires Created(u.dest, e, timeText, os) == Created(w.dest, e, timeText, os)
    requires u.disk.put == w.disk.put && w.disk.lost <= u.disk.lost
    ensures StoredOr(w, v, e, p, timeText, os, start, alone)
  {
  }

  /** Closing a full file leaves what the creation of the next one depends on. */
  lemma ClosedForNext(w: World, e: DestEntry, p: Record, timeText: string, os: StoreResults)
    ensures var u := UpdateAndClose(w, e, os);
            && !u.dest.status.open && u.dest.status.enabled == w.dest.status.enabled && u.dest.status.count == w.dest.status.count
            && NewName(u.dest, e, timeText) == NewName(w.dest, e, timeText)
            && Created(u.dest, e, timeText, os) == Created(w.dest, e, timeText, os)
  {
  }

  /** Storing a packet. If every call succeeds, the packet is put on the disk, last in the open file,
      and the file is within its size limit unless it holds nothing but its headers and this packet.
      If a call fails, no packet is put on the disk and the destination is closed and disabled. The
      count moves on exactly when a file was created.
   */
  lemma StoreOutcome(w: World, e: DestEntry, p: Record, timeText: string, os: StoreResults, start: seq<File>, alone: bool)
    requires Good(w, start, alone) && Consistent(w.dest) && p.Packet? && e.Verified()
    ensures StoredOr(w, SetupWrite(w, e, p, timeText, os), e, p, timeText, os, start, alone)
  {
    if !NeedsFile(w.dest, e, p) {
      WritePacket(w, e, p, os.data, os.moveBad, start, alone);
    } else if w.dest.status.open {
      var u := UpdateAndClose(w, e, os);
      CloseGood(w.(io := UpdateHeader(w.io, os.seek, os.update)), e, os.moveFull, start, alone);
      ClosedForNext(w, e, p, timeText, os);
      StoreInNewFileOutcome(u, e, p, timeText, os, start, alone);
      assert u.disk.put == w.disk.put + [] == w.disk.put;
      NewFileStored(w, u, SetupWrite(w, e, p, timeText, os), e, p, timeText, os, start, alone);
    } else {
      StoreInNewFileOutcome(w, e, p, timeText, os, start, alone);
      NewFileStored(w, w, SetupWrite(w, e, p, timeText, os), e, p, timeText, os, start, alone);
    }
  }
}
