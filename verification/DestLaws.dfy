/** What a destination does with its open file from packet to packet and from age test to age test,
    in terms of sizes and times.
 */
module DestLaws {
  import opened Collections
  import opened DiskFiles
  import opened SequenceName
  import opened DestFile
  import opened DestRuns

  // ---------- A packet that fits goes into the open file, and another rolls it over ----------

  /** A packet that fits is written behind those in the open file, which stays open under its name; no
      other file of the disk changes.
   */
  lemma FittingStays(w: World, e: DestEntry, p: Record, timeText: string, os: StoreResults, start: seq<File>, n: string)
    requires Good(w, start, false) && Consistent(w.dest) && w.dest.status.open && p.Packet? && e.Verified()
    requires w.dest.status.size + p.length <= e.maxSize && os.data == p.length
    ensures var v, s := SetupWrite(w, e, p, timeText, os), w.dest.status;
            && v.dest.file == w.dest.file + [p] && v.dest.status.open
            && v.dest.status.size == s.size + p.length && v.dest.status.growth == (s.growth + p.length) % 0x1_0000_0000
            && (v.dest.status.name, v.dest.status.count, v.dest.status.age) == (s.name, s.count, s.age)
            && v.dest.status.enabled == s.enabled && v.dest.status.rate == s.rate
            && v.io == w.io.(writes := (w.io.writes + 1) % 0x1_0000)
            && Holds(v.disk.files, n) == Holds(w.disk.files, n) + (if n == s.name then [p] else [])
            && v.disk.lost == w.disk.lost && v.disk.copied == w.disk.copied
  {
    ExtendedHolds(w.disk.files, w.dest.status.name, [p], n);
  }

  /** One that does not fit closes the file first: its header is updated, it is moved, and the packet is
      the first in a new file. The closed file keeps what it holds, unless the new one has its name.
   */
  lemma LargerRollsOver(w: World, e: DestEntry, p: Record, timeText: string, os: StoreResults, start: seq<File>)
    requires Good(w, start, false) && Consistent(w.dest) && w.dest.status.open && p.Packet? && e.Verified()
    requires w.dest.status.size + p.length > e.maxSize && Created(w.dest, e, timeText, os) && os.data == p.length
    ensures var v, name := SetupWrite(w, e, p, timeText, os), NewName(w.dest, e, timeText).value;
            var after := NameClosed(w.disk, e.move, w.dest.status.name, os.moveFull);
            && v.dest.file == [CfeHeader, DsHeader, p] && v.dest.status.open && v.dest.status.name == name
            && v.dest.status.size == 64 + 76 + p.length && v.dest.status.age == 0
            && v.io.updates == (if os.seek && os.update then (w.io.updates + 1) % 0x1_0000 else w.io.updates)
            && v.io.updateErrors == (if os.seek && os.update then w.io.updateErrors else (w.io.updateErrors + 1) % 0x1_0000)
            && Holds(v.disk.files, name) == [CfeHeader, DsHeader, p]
            && (after != name && !MovesOntoItself(e, w.dest.status.name, os.moveFull) ==>
                  Holds(v.disk.files, after) == w.dest.file)
  {
    var u := UpdateAndClose(w, e, os);
    var name := NewName(w.dest, e, timeText).value;
    var after := NameClosed(w.disk, e.move, w.dest.status.name, os.moveFull);
    CloseGood(w.(io := UpdateHeader(w.io, os.seek, os.update)), e, os.moveFull, start, false);
    ClosedForNext(w, e, p, timeText, os);
    NewFileHolds(u, e, p, timeText, os, start, after);
    match MoveTarget(e.move, w.dest.status.name)
    case None =>
    case Some(to) => MoveFileKeeps(w.disk, w.dest.status.name, to, os.moveFull);
  }

  /** With no file open, the packet comes first in a new one. */
  lemma NewFileHolds(w: World, e: DestEntry, p: Record, timeText: string, os: StoreResults, start: seq<File>, n: string)
    requires Good(w, start, false) && Consistent(w.dest) && !w.dest.status.open && p.Packet? && e.Verified()
    requires Created(w.dest, e, timeText, os) && os.data == p.length
    ensures var v, name := StoreInNewFile(w, e, p, timeText, os), NewName(w.dest, e, timeText).value;
            && v == SetupWrite(w, e, p, timeText, os)
            && v.dest.file == [CfeHeader, DsHeader, p] && v.dest.status.open && v.dest.status.name == name
            && v.dest.status.size == 64 + 76 + p.length && v.dest.status.age == 0
            && Holds(v.disk.files, name) == [CfeHeader, DsHeader, p]
            && (n != name ==> Holds(v.disk.files, n) == Holds(w.disk.files, n))
  {
    var name := NewName(w.dest, e, timeText).value;
    var h := CreateDest(w, e, timeText, os);
    CreateOutcome(w, e, timeText, os, start, false);
    CreatedElsewhere(w, e, timeText, os, n);
    StoreInNewFileOutcome(w, e, p, timeText, os, start, false);
    PacketBehind(h, e, p, os, name, n);
  }

  lemma PacketBehind(h: World, e: DestEntry, p: Record, os: StoreResults, name: string, n: string)
    requires OnDisk(h) && h.dest.status.open && h.dest.status.name == name && h.dest.file == [CfeHeader, DsHeader]
    requires h.dest.status.size == 64 + 76 && p.Packet? && os.data == p.length
    ensures var v := WriteRecord(h, e, p, os.data, os.moveBad);
            && v.dest.status.name == name && v.dest.status.size == 64 + 76 + p.length && v.dest.status.age == h.dest.status.age
            && Holds(v.disk.files, name) == [CfeHeader, DsHeader, p]
            && (n != name ==> Holds(v.disk.files, n) == Holds(h.disk.files, n))
  {
    ExtendedHolds(h.disk.files, name, [p], n);
    ExtendedHolds(h.disk.files, name, [p], name);
  }

  lemma CreatedElsewhere(w: World, e: DestEntry, timeText: string, os: StoreResults, n: string)
    requires w.dest.status.count <= MAX_SEQUENCE_COUNT && e.Verified() && Created(w.dest, e, timeText, os)
    ensures var h := CreateDest(w, e, timeText, os);
            && h.dest.status.age == w.dest.status.age
            && (n != NewName(w.dest, e, timeText).value ==> Holds(h.disk.files, n) == Holds(w.disk.files, n))
  {
    var name := NewName(w.dest, e, timeText).value;
    HeadersElsewhere(OpenNew(w.(dest := CreateName(w.dest, e, timeText)), name), e, os, n);
    CreateHolds(w.disk, name, n);
  }

  lemma HeadersElsewhere(w: World, e: DestEntry, os: StoreResults, n: string)
    requires HeadersWritten(os)
    ensures n != w.dest.status.name ==> Holds(WriteHeaders(w, e, os).disk.files, n) == Holds(w.disk.files, n)
    ensures WriteHeaders(w, e, os).dest.status.age == w.dest.status.age
  {
    var v := WriteRecord(w, e, CfeHeader, os.header1, os.moveBad);
    ExtendedHolds(w.disk.files, w.dest.status.name, [CfeHeader], n);
    ExtendedHolds(v.disk.files, w.dest.status.name, [DsHeader], n);
  }

  // ---------- The age of the open file ----------

  /** The packet goes behind those in the open file. */
  predicate Fits(s: FileStatus, e: DestEntry, p: Record) {
    s.open && s.size + p.Bytes() <= e.maxSize
  }

  /** The time tested since the file that is open after the event was opened, if it was `before` in the
      state before.
   */
  function SinceAfter(w: World, ev: Event, before: nat): nat {
    if ev.Store? then (if Fits(w.dest.status, ev.entry, ev.packet) then before else 0)
    else if ev.Age? then before + ev.elapsed
    else before
  }

  /** The times that the open file was tested with since it was opened. */
  function SinceOpened(ws: seq<World>, evs: seq<Event>, n: nat): nat
    requires n <= |evs| < |ws|
  {
    if n == 0 || !ws[n].dest.status.open then 0 else SinceAfter(ws[n - 1], evs[n - 1], SinceOpened(ws, evs, n - 1))
  }

  /** An age test adds the time to the age of the open file, and closes it exactly if the sum, in 32 bits,
      has reached the limit; nothing else of a file that stays open changes.
   */
  lemma AgeTestIs(w: World, e: DestEntry, elapsed: nat, os: StoreResults)
    ensures var v, age := TestAge(w, e, elapsed, os), (w.dest.status.age + elapsed) % 0x1_0000_0000;
            && (!w.dest.status.open ==> v == w)
            && (w.dest.status.open && age < e.maxAge ==> v == w.(dest := w.dest.(status := w.dest.status.(age := age))))
            && (w.dest.status.open && age >= e.maxAge ==>
                  && !v.dest.status.open && v.dest.file == [] && v.disk == MoveClosed(w.disk, e.move, w.dest.status.name, os.moveFull)
                  && v.io.updates == (if os.seek && os.update then (w.io.updates + 1) % 0x1_0000 else w.io.updates)
                  && v.io.updateErrors == (if os.seek && os.update then w.io.updateErrors else (w.io.updateErrors + 1) % 0x1_0000))
  {
  }

  lemma StoreAge(w: World, v: World, e: DestEntry, p: Record, timeText: string, os: StoreResults, start: seq<File>)
    requires Good(w, start, true) && Consistent(w.dest) && p.Packet? && e.Verified()
    requires v == SetupWrite(w, e, p, timeText, os) && v.dest.status.open
    ensures v.dest.status.age == if Fits(w.dest.status, e, p) then w.dest.status.age else 0
  {
    StoreOutcome(w, e, p, timeText, os, start, true);
    assert Good(w, start, false);
    if !w.dest.status.open {
      NewFileHolds(w, e, p, timeText, os, start, "");
    } else if w.dest.status.size + p.Bytes() <= e.maxSize {
      FittingStays(w, e, p, timeText, os, start, "");
    } else {
      LargerRollsOver(w, e, p, timeText, os, start);
    }
  }

  /** What an event makes of the age, if a file is open after it. */
  ghost predicate AgeMoves(w: World, v: World, ev: Event) {
    if ev.Store? then v.dest.status.age == if Fits(w.dest.status, ev.entry, ev.packet) then w.dest.status.age else 0
    else w.dest.status.open &&
         v.dest.status.age == if ev.Age? then (w.dest.status.age + ev.elapsed) % 0x1_0000_0000 else w.dest.status.age
  }

  lemma StoreMoves(w: World, v: World, ev: Event, start: seq<File>)
    requires Good(w, start, true) && Consistent(w.dest) && Allowed(ev) && v == React(w, ev) && v.dest.status.open && ev.Store?
    ensures AgeMoves(w, v, ev)
  {
    StoreAge(w, v, ev.entry, ev.packet, ev.timeText, ev.os, start);
  }

  lemma OtherMoves(w: World, v: World, ev: Event)
    requires Allowed(ev) && w.dest.status.count <= MAX_SEQUENCE_COUNT && v == React(w, ev) && v.dest.status.open && !ev.Store?
    ensures AgeMoves(w, v, ev)
  {
    if ev.Age? {
      AgeTestIs(w, ev.entry, ev.elapsed, ev.os);
    }
  }

  lemma EventMoves(w: World, v: World, ev: Event, start: seq<File>)
    requires Good(w, start, true) && Consistent(w.dest) && Allowed(ev) && v == React(w, ev) && v.dest.status.open
    ensures AgeMoves(w, v, ev)
  {
    if ev.Store? {
      StoreMoves(w, v, ev, start);
    } else {
      OtherMoves(w, v, ev);
    }
  }

  lemma EventAge(w: World, v: World, ev: Event, before: nat)
    requires AgeMoves(w, v, ev) && (w.dest.status.open ==> w.dest.status.age == before % 0x1_0000_0000)
    ensures v.dest.status.age == SinceAfter(w, ev, before) % 0x1_0000_0000
  {
    if ev.Age? {
      AddRemainder(before, ev.elapsed);
    }
  }

  ghost predicate AgeRight(ws: seq<World>, evs: seq<Event>, n: nat)
    requires n <= |evs| < |ws|
  {
    ws[n].dest.status.open ==> ws[n].dest.status.age == SinceOpened(ws, evs, n) % 0x1_0000_0000
  }

  lemma AgeNext(ws: seq<World>, evs: seq<Event>, n: nat)
    requires Run(ws, evs) && 0 < n <= |evs| && AgeRight(ws, evs, n - 1)
    ensures AgeRight(ws, evs, n)
  {
    if ws[n].dest.status.open {
      Reached(ws, evs, n - 1);
      EventMoves(ws[n - 1], ws[n], evs[n - 1], ws[0].disk.files);
      EventAge(ws[n - 1], ws[n], evs[n - 1], SinceOpened(ws, evs, n - 1));
    }
  }

  /** In every state of every run the age of the open file is the sum of the times tested since it was
      opened, modulo the width of the counter.
   */
  lemma {:induction false} AgeIsSum(ws: seq<World>, evs: seq<Event>, n: nat)
    requires Run(ws, evs) && n <= |evs|
    ensures ws[n].dest.status.open ==> ws[n].dest.status.age == SinceOpened(ws, evs, n) % 0x1_0000_0000
  {
    if n > 0 {
      AgeIsSum(ws, evs, n - 1);
      AgeNext(ws, evs, n);
    }
  }

  lemma AddRemainder(a: nat, b: nat)
    ensures (a % 0x1_0000_0000 + b) % 0x1_0000_0000 == (a + b) % 0x1_0000_0000
  {
  }

  /** So an age test in a run leaves the file open exactly if the times since it was opened, that one
      included, are below the limit, modulo the width of the counter.
   */
  lemma ClosedByAgeExactly(ws: seq<World>, evs: seq<Event>, n: nat)
    requires Run(ws, evs) && n < |evs| && evs[n].Age? && ws[n].dest.status.open
    ensures ws[n + 1].dest.status.open <==> (SinceOpened(ws, evs, n) + evs[n].elapsed) % 0x1_0000_0000 < evs[n].entry.maxAge
  {
    AgeIsSum(ws, evs, n);
    assert Follows(ws, evs, n);
    AgeTestIs(ws[n], evs[n].entry, evs[n].elapsed, evs[n].os);
    AddRemainder(SinceOpened(ws, evs, n), evs[n].elapsed);
  }

  /** The destination after `k` age tests of `t` seconds each, with nothing in between. */
  function Tested(w: World, e: DestEntry, t: nat, os: nat -> StoreResults, k: nat): World {
    if k == 0 then w else TestAge(Tested(w, e, t, os, k - 1), e, t, os(k - 1))
  }

  /** The file of `w` was left alone for the given time, `tested` or not yet. */
  ghost predicate Idle(w: World, v: World, e: DestEntry, time: nat, tested: bool) {
    && (v.dest.status.open <==> !tested || time < e.maxAge)
    && (v.dest.status.open ==> v.dest.status.age == time && v.dest.file == w.dest.file && v.disk == w.disk)
  }

  lemma IdleNext(w: World, v: World, e: DestEntry, time: nat, tested: bool, t: nat, os: StoreResults)
    requires Idle(w, v, e, time, tested) && (!tested ==> time == 0) && time + t < 0x1_0000_0000
    ensures Idle(w, TestAge(v, e, t, os), e, time + t, true)
  {
    AgeTestIs(v, e, t, os);
  }

  lemma OneMoreTime(k: nat, t: nat)
    requires k > 0
    ensures 0 <= (k - 1) * t && (k - 1) * t + t == k * t
  {
  }

  /** A file left alone is closed by the first test at which its age has reached the limit. */
  lemma {:induction false} IdleFileCloses(w: World, e: DestEntry, t: nat, os: nat -> StoreResults, k: nat)
    requires w.dest.status.open && w.dest.status.age == 0 && k * t < 0x1_0000_0000
    ensures var v := Tested(w, e, t, os, k);
            && (v.dest.status.open <==> k == 0 || k * t < e.maxAge)
            && (v.dest.status.open ==> v.dest.status.age == k * t && v.dest.file == w.dest.file && v.disk == w.disk)
  {
    if k > 0 {
      OneMoreTime(k, t);
      IdleFileCloses(w, e, t, os, k - 1);
      IdleNext(w, Tested(w, e, t, os, k - 1), e, (k - 1) * t, k - 1 > 0, t, os(k - 1));
    }
  }

  // ---------- Housekeeping ----------

  /** A housekeeping request turns the bytes since the last one into bytes per second of the cycle of
      four seconds, rounded down, and starts counting over; the file and all else stay as they are.
   */
  lemma RateIs(d: Dest)
    ensures var h := Housekeep(d);
            && 4 * h.status.rate <= d.status.growth < 4 * h.status.rate + 4 && h.status.growth == 0
            && h.reported == d.reported + d.status.growth
            && h.status == d.status.(rate := h.status.rate, growth := 0)
            && h.file == d.file && h.accepted == d.accepted && h.short == d.short
  {
  }

  // ---------- Where a closed file goes ----------

  lemma {:induction false} TailIs(head: string, tail: string)
    requires forall i :: 0 <= i < |tail| ==> tail[i] != '/'
    ensures FileTail(head + "/" + tail) == Some("/" + tail)
  {
    var name := head + "/" + tail;
    if tail == "" {
      assert name == head + "/" && [SEPARATOR] == "/" + tail;
    } else {
      var rest := tail[..|tail| - 1];
      TailIs(head, rest);
      assert name[..|name| - 1] == head + "/" + rest;
      assert "/" + rest + [tail[|tail| - 1]] == "/" + tail;
    }
  }

  lemma {:induction false} NoTail(name: string)
    requires forall i :: 0 <= i < |name| ==> name[i] != '/'
    ensures FileTail(name) == None
  {
    if name != "" {
      NoTail(name[..|name| - 1]);
    }
  }

  /** A closed file goes to the directory for moves under its own name, whether the directory is written
      with a separator at its end or not, unless that name has 64 characters or more; without such a
      directory, or a separator in its name, it stays.
   */
  lemma MovesTo(dir: string, head: string, tail: string)
    requires dir != "" && dir[|dir| - 1] != '/' && forall i :: 0 <= i < |tail| ==> tail[i] != '/'
    ensures var to := dir + "/" + tail;
            var target := if |to| < 64 then Some(to) else None;
            MoveTarget(dir, head + "/" + tail) == MoveTarget(dir + "/", head + "/" + tail) == target
    ensures MoveTarget("", head + "/" + tail) == None && MoveTarget(dir, tail) == None
  {
    TailIs(head, tail);
    NoTail(tail);
    var name, slashed := head + "/" + tail, dir + "/";
    assert slashed[|slashed| - 1] == SEPARATOR && slashed[..|slashed| - 1] == dir;
    assert dir + ("/" + tail) == dir + "/" + tail;
    assert FileTail(name) == Some("/" + tail);
  }
}
