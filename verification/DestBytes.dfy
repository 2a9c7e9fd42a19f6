/** The bytes of a destination over a run: those the operating system accepted, and those that the
    growth counter reports.
 */
module DestBytes {
  import opened DiskFiles
  import opened SequenceName
  import opened DestFile
  import opened DestRuns

  /** Accepted bytes, without those of failed writes, that neither a housekeeping request has reported
      nor the growth counter holds.
   */
  function Unreported(d: Dest): int {
    d.accepted - d.short - d.reported - d.status.growth
  }

  /** From `w` to `v` the counters move with the bytes put on the disk. */
  ghost predicate InStep(w: World, v: World) {
    && Multiple(Unreported(v.dest) - Unreported(w.dest))
    && v.dest.accepted - w.dest.accepted == TotalBytes(v.disk.put) - TotalBytes(w.disk.put)
    && v.dest.short - w.dest.short == Sum(v.disk.put, ShortBytes) - Sum(w.disk.put, ShortBytes)
  }

  ghost predicate Multiple(n: int) {
    n % UINT32 == 0
  }

  lemma MultiplesAdd(a: int, b: int)
    requires Multiple(a) && Multiple(b)
    ensures Multiple(a + b)
  {
  }

  lemma StepsChain(w: World, u: World, v: World)
    requires InStep(w, u) && InStep(u, v)
    ensures InStep(w, v)
  {
    MultiplesAdd(Unreported(u.dest) - Unreported(w.dest), Unreported(v.dest) - Unreported(u.dest));
  }

  lemma Wrapped(growth: nat, bytes: nat)
    ensures Multiple(growth + bytes - (growth + bytes) % UINT32)
  {
  }

  lemma WrittenSums(put: seq<Record>, r: Record, result: int)
    requires !r.Partial?
    ensures var bytes := TotalBytes(Written(r, result));
            && TotalBytes(put + Written(r, result)) == TotalBytes(put) + bytes
            && Sum(put + Written(r, result), ShortBytes) == Sum(put, ShortBytes) + (if result == r.Bytes() then 0 else bytes)
            && (result == r.Bytes() ==> bytes == r.Bytes())
  {
    var rs := Written(r, result);
    SumJoins(put, rs, AllBytes);
    SumJoins(put, rs, ShortBytes);
    if rs != [] {
      SumAppend([], rs[0], AllBytes);
      SumAppend([], rs[0], ShortBytes);
      assert [] + [rs[0]] == rs;
    }
  }

  lemma FullWriteReports(w: World, e: DestEntry, r: Record, mv: MoveCall)
    requires TotalBytes(Written(r, r.Bytes())) == r.Bytes()
    ensures Multiple(Unreported(WriteRecord(w, e, r, r.Bytes(), mv).dest) - Unreported(w.dest))
  {
    var growth, bytes := w.dest.status.growth, r.Bytes();
    Wrapped(growth, bytes);
    assert Unreported(WriteRecord(w, e, r, bytes, mv).dest) - Unreported(w.dest) == growth + bytes - (growth + bytes) % UINT32;
  }

  lemma WriteCounts(w: World, e: DestEntry, r: Record, result: int, mv: MoveCall)
    ensures var v := WriteRecord(w, e, r, result, mv);
            var bytes := TotalBytes(Written(r, result));
            && v.disk.put == w.disk.put + Written(r, result) && v.dest.accepted == w.dest.accepted + bytes
            && v.dest.short == w.dest.short + (if result == r.Bytes() then 0 else bytes)
            && (result != r.Bytes() ==> Unreported(v.dest) == Unreported(w.dest))
  {
  }

  /** A short write is not counted as growth; the bytes it left in the file are kept apart. */
  lemma WriteInStep(w: World, e: DestEntry, r: Record, result: int, mv: MoveCall)
    requires !r.Partial?
    ensures InStep(w, WriteRecord(w, e, r, result, mv))
  {
    WriteCounts(w, e, r, result, mv);
    WrittenSums(w.disk.put, r, result);
    var v := WriteRecord(w, e, r, result, mv);
    assert Multiple(Unreported(v.dest) - Unreported(w.dest)) by {
      if result == r.Bytes() {
        FullWriteReports(w, e, r, mv);
      }
    }
  }

  lemma HeadersInStep(w: World, e: DestEntry, os: StoreResults)
    ensures InStep(w, WriteHeaders(w, e, os))
  {
    WriteInStep(w, e, CfeHeader, os.header1, os.moveBad);
    if os.header1 == CFE_HEADER_BYTES {
      var v := WriteRecord(w, e, CfeHeader, os.header1, os.moveBad);
      WriteInStep(v, e, DsHeader, os.header2, os.moveBad);
      StepsChain(w, v, WriteHeaders(w, e, os));
    }
  }

  /** What leaves bytes, growth and reports alone stays in step. */
  lemma Unmoved(w: World, v: World)
    requires Unreported(v.dest) == Unreported(w.dest) && v.dest.accepted == w.dest.accepted && v.dest.short == w.dest.short
    requires v.disk.put == w.disk.put
    ensures InStep(w, v)
  {
  }

  lemma CreateInStep(w: World, e: DestEntry, timeText: string, os: StoreResults)
    requires w.dest.status.count <= MAX_SEQUENCE_COUNT && e.Verified()
    ensures InStep(w, CreateDest(w, e, timeText, os))
  {
    var d, v := CreateName(w.dest, e, timeText), CreateDest(w, e, timeText, os);
    if d.status.name == "" || !os.open {
      Unmoved(w, v);
    } else {
      var u := OpenNew(w.(dest := d), d.status.name);
      var h := WriteHeaders(u, e, os);
      Unmoved(w, u);
      HeadersInStep(u, e, os);
      StepsChain(w, u, h);
      Unmoved(h, v);
      StepsChain(w, h, v);
    }
  }

  lemma NewFileInStep(w: World, e: DestEntry, p: Record, timeText: string, os: StoreResults)
    requires p.Packet? && w.dest.status.count <= MAX_SEQUENCE_COUNT && e.Verified()
    ensures InStep(w, StoreInNewFile(w, e, p, timeText, os))
  {
    var v := CreateDest(w, e, timeText, os);
    CreateInStep(w, e, timeText, os);
    if v.dest.status.open {
      WriteInStep(v, e, p, os.data, os.moveBad);
      StepsChain(w, v, WriteRecord(v, e, p, os.data, os.moveBad));
    }
  }

  lemma StoreInStep(w: World, e: DestEntry, p: Record, timeText: string, os: StoreResults)
    requires p.Packet? && w.dest.status.count <= MAX_SEQUENCE_COUNT && e.Verified()
    ensures InStep(w, SetupWrite(w, e, p, timeText, os))
  {
    if !NeedsFile(w.dest, e, p) {
      WriteInStep(w, e, p, os.data, os.moveBad);
    } else if w.dest.status.open {
      var u := UpdateAndClose(w, e, os);
      Unmoved(w, u);
      NewFileInStep(u, e, p, timeText, os);
      StepsChain(w, u, SetupWrite(w, e, p, timeText, os));
    } else {
      NewFileInStep(w, e, p, timeText, os);
    }
  }

  lemma EventInStep(w: World, ev: Event)
    requires Allowed(ev) && w.dest.status.count <= MAX_SEQUENCE_COUNT
    ensures InStep(w, React(w, ev))
  {
    if ev.Store? {
      StoreInStep(w, ev.entry, ev.packet, ev.timeText, ev.os);
    } else {
      Unmoved(w, React(w, ev));
    }
  }

  lemma {:induction false} RunInStep(ws: seq<World>, evs: seq<Event>, n: nat)
    requires Run(ws, evs) && n <= |evs|
    ensures InStep(ws[0], ws[n])
  {
    if n == 0 {
      Unmoved(ws[0], ws[0]);
    } else {
      RunInStep(ws, evs, n - 1);
      assert Follows(ws, evs, n - 1);
      EventInStep(ws[n - 1], evs[n - 1]);
      StepsChain(ws[0], ws[n - 1], ws[n]);
    }
  }

  /** Over a run, the growth reported and the growth since then are the bytes the operating system has
      accepted, modulo the width of the counter, exactly if the bytes of short writes add up to a
      multiple of it: these are in the files and never counted. All bytes accepted, and all that copies
      have left, are on the disk unless a file was replaced.
   */
  lemma BytesAccounted(ws: seq<World>, evs: seq<Event>, n: nat)
    requires Run(ws, evs) && n <= |evs|
    ensures var d, disk := ws[n].dest, ws[n].disk;
            && d.accepted == TotalBytes(disk.put) && d.short == Sum(disk.put, ShortBytes)
            && (d.reported + d.status.growth + d.short) % UINT32 == d.accepted % UINT32
            && ((d.reported + d.status.growth) % UINT32 == d.accepted % UINT32 <==> d.short % UINT32 == 0)
            && SumFiles(disk.files, AllBytes) + TotalBytes(disk.lost) == SumFiles(ws[0].disk.files, AllBytes) + d.accepted + TotalBytes(disk.copied)
  {
    RunInStep(ws, evs, n);
    BytesOnDisk(ws, evs, n);
    var d := ws[n].dest;
    Remainders(d.accepted, d.reported + d.status.growth, d.short);
  }

  lemma BytesOnDisk(ws: seq<World>, evs: seq<Event>, n: nat)
    requires Run(ws, evs) && n <= |evs|
    ensures SumFiles(ws[n].disk.files, AllBytes) + TotalBytes(ws[n].disk.lost)
            == SumFiles(ws[0].disk.files, AllBytes) + TotalBytes(ws[n].disk.put) + TotalBytes(ws[n].disk.copied)
  {
    RunKeeps(ws, evs, n);
    assert Conserves(ws[n].disk, ws[0].disk.files, AllBytes);
  }

  lemma Remainders(accepted: nat, counted: nat, short: nat)
    requires Multiple(accepted - short - counted)
    ensures (counted + short) % UINT32 == accepted % UINT32
    ensures counted % UINT32 == accepted % UINT32 <==> short % UINT32 == 0
  {
    var k := (accepted - short - counted) / UINT32;
    assert accepted == counted + short + k * UINT32;
  }

  /** Five of ten bytes written: the file holds them, and no counter does. */
  lemma ShortWriteUncounted(w: World, e: DestEntry, p: Record, mv: MoveCall)
    requires OnDisk(w) && w.dest.status.open && p.Packet? && p.length == 10 && e.move == ""
    ensures var v := WriteRecord(w, e, p, 5, mv);
            && Holds(v.disk.files, w.dest.status.name) == w.dest.file + [Partial(5)]
            && v.dest.accepted == w.dest.accepted + 5 && v.dest.status.growth == w.dest.status.growth
  {
    ShortWriteStays(w, e, p, 5, mv);
    SumAppend([], Partial(5), AllBytes);
    assert [] + [Partial(5)] == [Partial(5)];
  }
}
