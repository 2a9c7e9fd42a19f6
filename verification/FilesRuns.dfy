/** Runs of all destinations together, on one disk. */
module FilesRuns {
  import opened Collections
  import opened DiskFiles
  import opened SequenceName
  import opened PacketFilter
  import opened DestFile
  import opened DestRuns
  import opened DestBytes
  import opened DestFrame
  import opened DataStorage

  /** One event at one destination. */
  datatype Step = Step(index: nat, event: Event)

  predicate Fits(st: Step) {
    st.index < DEST_FILE_CNT && Allowed(st.event)
  }

  predicate AllFit(steps: seq<Step>) {
    steps == [] || (AllFit(steps[..|steps| - 1]) && Fits(steps[|steps| - 1]))
  }

  lemma FitSnoc(steps: seq<Step>, st: Step)
    ensures AllFit(steps + [st]) <==> AllFit(steps) && Fits(st)
  {
    assert (steps + [st])[..|steps|] == steps;
  }

  lemma EventKeepsRange(w: World, ev: Event)
    requires Allowed(ev) && w.dest.status.count <= MAX_SEQUENCE_COUNT
    ensures React(w, ev).dest.status.count <= MAX_SEQUENCE_COUNT
  {
    if ev.Store? {
      CountStaysInRange(w, ev.entry, ev.packet, ev.timeText, ev.os);
    }
  }

  function Take(s: Files, st: Step): (t: Files)
    requires s.Valid() && Fits(st)
    ensures t.Valid()
  {
    EventKeepsRange(s.At(st.index), st.event);
    s.Set(st.index, React(s.At(st.index), st.event))
  }

  function RunAll(s: Files, steps: seq<Step>): (t: Files)
    requires s.Valid() && AllFit(steps)
    ensures t.Valid()
  {
    if steps == [] then s else Take(RunAll(s, steps[..|steps| - 1]), steps[|steps| - 1])
  }

  // ---------- The packet and housekeeping functions are runs ----------

  /** What the filters of a packet's table entry make the destinations do. */
  function StoreSteps(s: Files, fs: seq<FilterParms>, p: Incoming, env: Surroundings, n: nat): (steps: seq<Step>)
    requires s.Valid() && env.Valid() && n <= |fs|
    ensures AllFit(steps)
  {
    if n == 0 then []
    else
      var before := StoreSteps(s, fs, p, env, n - 1);
      var t, f := StoreUpTo(s, fs, p, env, n - 1), fs[n - 1];
      if Accepts(t.dests, f, p) then
        FitSnoc(before, StoreStep(f.fileIndex, p, env, env.os(n - 1)));
        before + [StoreStep(f.fileIndex, p, env, env.os(n - 1))]
      else before
  }

  function StoreStep(i: nat, p: Incoming, env: Surroundings, os: StoreResults): (st: Step)
    requires env.Valid() && i < DEST_FILE_CNT
    ensures Fits(st)
  {
    Step(i, Store(env.entries[i], p.Body(), env.timeText, os))
  }

  lemma StoreOneIsStep(s: Files, i: nat, p: Incoming, env: Surroundings, os: StoreResults)
    requires s.Valid() && env.Valid() && i < DEST_FILE_CNT
    ensures StoreOne(s, i, p, env, os) == Take(s, StoreStep(i, p, env, os))
  {
  }

  function AgeSteps(env: Surroundings, elapsed: nat, n: nat): (steps: seq<Step>)
    requires env.Valid() && n <= DEST_FILE_CNT
    ensures AllFit(steps)
  {
    if n == 0 then []
    else
      var before, st := AgeSteps(env, elapsed, n - 1), Step(n - 1, Age(env.entries[n - 1], elapsed, env.os(n - 1)));
      FitSnoc(before, st);
      before + [st]
  }

  lemma RunSnoc(s: Files, steps: seq<Step>, st: Step)
    requires s.Valid() && AllFit(steps) && Fits(st)
    ensures AllFit(steps + [st])
    ensures RunAll(s, steps + [st]) == Take(RunAll(s, steps), st)
  {
    assert (steps + [st])[..|steps|] == steps;
  }

  lemma StoreAfter(s: Files, steps: seq<Step>, t: Files, i: nat, p: Incoming, env: Surroundings, os: StoreResults)
    requires s.Valid() && AllFit(steps) && t == RunAll(s, steps) && env.Valid() && i < DEST_FILE_CNT
    ensures AllFit(steps + [StoreStep(i, p, env, os)])
    ensures StoreOne(t, i, p, env, os) == RunAll(s, steps + [StoreStep(i, p, env, os)])
  {
    StoreOneIsStep(t, i, p, env, os);
    RunSnoc(s, steps, StoreStep(i, p, env, os));
  }

  lemma StoreNextIsRun(s: Files, fs: seq<FilterParms>, p: Incoming, env: Surroundings, n: nat)
    requires s.Valid() && env.Valid() && 0 < n <= |fs|
    requires StoreUpTo(s, fs, p, env, n - 1) == RunAll(s, StoreSteps(s, fs, p, env, n - 1))
    ensures StoreUpTo(s, fs, p, env, n) == RunAll(s, StoreSteps(s, fs, p, env, n))
  {
    var t, f := StoreUpTo(s, fs, p, env, n - 1), fs[n - 1];
    if Accepts(t.dests, f, p) {
      StoreAfter(s, StoreSteps(s, fs, p, env, n - 1), t, f.fileIndex, p, env, env.os(n - 1));
    }
  }

  lemma {:induction false} StoreIsRun(s: Files, fs: seq<FilterParms>, p: Incoming, env: Surroundings, n: nat)
    requires s.Valid() && env.Valid() && n <= |fs|
    ensures StoreUpTo(s, fs, p, env, n) == RunAll(s, StoreSteps(s, fs, p, env, n))
  {
    if n > 0 {
      StoreIsRun(s, fs, p, env, n - 1);
      StoreNextIsRun(s, fs, p, env, n);
    }
  }

  lemma {:induction false} AgeIsRun(s: Files, env: Surroundings, elapsed: nat, n: nat)
    requires s.Valid() && env.Valid() && n <= DEST_FILE_CNT
    ensures AgeUpTo(s, env, elapsed, n) == RunAll(s, AgeSteps(env, elapsed, n))
  {
    if n > 0 {
      AgeIsRun(s, env, elapsed, n - 1);
      RunSnoc(s, AgeSteps(env, elapsed, n - 1), Step(n - 1, Age(env.entries[n - 1], elapsed, env.os(n - 1))));
    }
  }

  // ---------- What every run keeps ----------

  /** All destinations closed and never used, on a disk that may hold any files. */
  ghost predicate Initial(s: Files) {
    && |s.dests| == DEST_FILE_CNT && (forall i :: 0 <= i < DEST_FILE_CNT ==> s.dests[i] == FRESH)
    && Named(s.disk.files) && s.disk.lost == s.disk.put == s.disk.copied == []
  }

  /** Each destination is consistent and its growth counter in step with its bytes; the disk holds no
      more than was put or copied there.
   */
  ghost predicate Orderly(s: Files, start: seq<File>) {
    && s.Valid() && Bounded(s.disk, start)
    && forall i :: 0 <= i < DEST_FILE_CNT ==> Steady(s.dests[i])
  }

  ghost predicate Steady(d: Dest) {
    Consistent(d) && Multiple(Unreported(d))
  }

  lemma EventOrderly(w: World, ev: Event, start: seq<File>)
    requires Consistent(w.dest) && Allowed(ev) && Bounded(w.disk, start)
    ensures Consistent(React(w, ev).dest) && Bounded(React(w, ev).disk, start)
    ensures w.disk.lost <= React(w, ev).disk.lost
    ensures PacketsIn(React(w, ev).disk.put) == PacketsIn(w.disk.put) + StoredBy(w.dest, ev)
  {
    match ev
    case Store(e, p, timeText, os) =>
      StoreConsistent(w, e, p, timeText, os);
      StoreGrows(w, e, p, timeText, os, start);
    case Age(e, elapsed, os) => AgeGrows(w, e, elapsed, os, start);
    case Close(e, os) => CloseIfOpenGrows(w, e, os, start);
    case _ =>
  }

  lemma StaysSteady(w: World, v: World)
    requires Steady(w.dest) && InStep(w, v) && Consistent(v.dest)
    ensures Steady(v.dest)
  {
    MultiplesAdd(Unreported(w.dest), Unreported(v.dest) - Unreported(w.dest));
  }

  lemma TakeOrderly(s: Files, st: Step, start: seq<File>)
    requires Orderly(s, start) && Fits(st)
    ensures Orderly(Take(s, st), start) && s.disk.lost <= Take(s, st).disk.lost
    ensures PacketsIn(Take(s, st).disk.put) == PacketsIn(s.disk.put) + StoredBy(s.dests[st.index], st.event)
  {
    EventOrderly(s.At(st.index), st.event, start);
    EventInStep(s.At(st.index), st.event);
    StaysSteady(s.At(st.index), React(s.At(st.index), st.event));
  }

  lemma InitialOrderly(s: Files)
    requires Initial(s)
    ensures Orderly(s, s.disk.files)
  {
    forall m ensures Within(s.disk, s.disk.files, m) {
    }
  }

  /** In every state of every run of all destinations, whatever their names: each is consistent, its
      reported and current growth are its accepted bytes without those of short writes, modulo the
      width of the counter, and the disk holds no more than was put or copied
      there.
   */
  lemma {:induction false} AllOrderly(s: Files, steps: seq<Step>)
    requires Initial(s) && AllFit(steps)
    ensures Orderly(RunAll(s, steps), s.disk.files)
  {
    if steps == [] {
      InitialOrderly(s);
    } else {
      AllOrderly(s, steps[..|steps| - 1]);
      TakeOrderly(RunAll(s, steps[..|steps| - 1]), steps[|steps| - 1], s.disk.files);
    }
  }

  // ---------- What is on the disk as long as nothing is lost ----------

  /** Every file in use is on the disk, in use by one destination only. */
  ghost predicate Apart(s: Files)
    requires |s.dests| == DEST_FILE_CNT
  {
    && (forall i :: 0 <= i < DEST_FILE_CNT ==> OnDisk(s.At(i)))
    && forall i, j :: 0 <= i < j < DEST_FILE_CNT && s.dests[i].status.open && s.dests[j].status.open ==>
         s.dests[i].status.name != s.dests[j].status.name
  }

  ghost predicate Whole(s: Files, start: seq<File>) {
    Orderly(s, start) && Lawful(s.disk, start) && Apart(s) && PacketsIn(s.disk.lost) == []
  }

  predicate Spoils(s: Files, st: Step)
    requires s.Valid() && Fits(st)
  {
    Erases(s.At(st.index), st.event)
  }

  lemma OpenHoldsPackets(w: World)
    requires Consistent(w.dest) && OnDisk(w) && w.dest.status.open
    ensures PacketsIn(Holds(w.disk.files, w.dest.status.name)) != []
  {
    var rs := w.dest.file;
    var n := |rs| - 1;
    assert rs == rs[..n] + [rs[n]] && rs[n].Packet?;
    PacketsAppend(rs[..n], rs[n]);
  }

  lemma EventLeaves(w: World, ev: Event, start: seq<File>, n: string)
    requires Good(w, start, false) && Consistent(w.dest) && Allowed(ev)
    ensures Leaves(w, React(w, ev), n)
  {
    if Foreign(w, n) {
      HoldsHas(w.disk.files, n);
    }
    match ev
    case Store(e, p, timeText, os) => StoreLeaves(w, e, p, timeText, os, start, n);
    case Age(e, elapsed, os) =>
      if w.dest.status.open {
        var aged := w.(dest := w.dest.(status := w.dest.status.(age := (w.dest.status.age + elapsed) % UINT32)),
                       io := UpdateHeader(w.io, os.seek, os.update));
        CloseLeaves(aged, e, os.moveFull, n);
      }
    case Close(e, os) =>
      if w.dest.status.open {
        CloseLeaves(w.(io := UpdateHeader(w.io, os.seek, os.update)), e, os.moveFull, n);
      }
    case _ =>
  }

  /** Another destination's open file is spared by a step that loses nothing. */
  lemma OtherSpared(s: Files, st: Step, start: seq<File>, j: nat)
    requires Whole(s, start) && Fits(st) && !Spoils(s, st) && j < DEST_FILE_CNT && j != st.index && s.dests[j].status.open
    ensures var t := Take(s, st);
            && OnDisk(t.At(j))
            && (t.dests[st.index].status.open ==> t.dests[st.index].status.name != s.dests[j].status.name)
  {
    var w, n := s.At(st.index), s.dests[j].status.name;
    OpenHoldsPackets(s.At(j));
    EventKeeps(w, st.event, start, false);
    EventLeaves(w, st.event, start, n);
  }

  lemma TakeApart(s: Files, st: Step, start: seq<File>)
    requires Whole(s, start) && Fits(st) && !Spoils(s, st) && OnDisk(Take(s, st).At(st.index))
    ensures Apart(Take(s, st))
  {
    var i, t := st.index, Take(s, st);
    forall j | 0 <= j < DEST_FILE_CNT && j != i && s.dests[j].status.open
      ensures OnDisk(t.At(j)) && (t.dests[i].status.open ==> t.dests[i].status.name != s.dests[j].status.name)
    {
      OtherSpared(s, st, start, j);
    }
  }

  lemma TakeWhole(s: Files, st: Step, start: seq<File>)
    requires Whole(s, start) && Fits(st)
    ensures PacketsIn(Take(s, st).disk.lost) == [] <==> !Spoils(s, st)
    ensures !Spoils(s, st) ==> Whole(Take(s, st), start)
  {
    TakeOrderly(s, st, start);
    EventKeeps(s.At(st.index), st.event, start, false);
    if !Spoils(s, st) {
      TakeApart(s, st, start);
    }
  }

  /** No step creates, moves or copies a file onto one that holds packets. */
  predicate Careful(s: Files, steps: seq<Step>)
    requires s.Valid() && AllFit(steps)
  {
    steps == [] || (Careful(s, steps[..|steps| - 1]) && !Spoils(RunAll(s, steps[..|steps| - 1]), steps[|steps| - 1]))
  }

  function StoredAll(s: Files, steps: seq<Step>): seq<Record>
    requires s.Valid() && AllFit(steps)
  {
    if steps == [] then []
    else
      var before, last := steps[..|steps| - 1], steps[|steps| - 1];
      StoredAll(s, before) + StoredBy(RunAll(s, before).dests[last.index], last.event)
  }

  lemma InitialWhole(s: Files)
    requires Initial(s)
    ensures Whole(s, s.disk.files)
  {
    InitialOrderly(s);
    forall m ensures Conserves(s.disk, s.disk.files, m) {
    }
  }

  /** The disk holds every packet there was at the start, every packet stored since and every packet
      left by a copy, as often as stored or copied, if no destination has created, moved or copied a
      file onto one that holds packets; and fewer packets than that once one has. In the first case
      every open file is there with what was written to it, and no two destinations share one.
   */
  lemma {:induction false} AllKeptExactly(s: Files, steps: seq<Step>)
    requires Initial(s) && AllFit(steps)
    ensures var t := RunAll(s, steps);
            && PacketsIn(t.disk.put) == StoredAll(s, steps)
            && (PacketsIn(t.disk.lost) == [] <==> Careful(s, steps))
            && (Careful(s, steps) ==> Whole(t, s.disk.files))
            && (Careful(s, steps) <==>
                |Packets(t.disk.files)| >= |Packets(s.disk.files)| + |StoredAll(s, steps)| + |PacketsIn(t.disk.copied)|)
  {
    if steps == [] {
      InitialWhole(s);
    } else {
      var before, last := steps[..|steps| - 1], steps[|steps| - 1];
      AllKeptExactly(s, before);
      AllOrderly(s, before);
      AllOrderly(s, steps);
      TakeOrderly(RunAll(s, before), last, s.disk.files);
      LostGrows(RunAll(s, before).disk.lost, RunAll(s, steps).disk.lost);
      if Careful(s, before) {
        TakeWhole(RunAll(s, before), last, s.disk.files);
      }
    }
    LostMeansFewer(RunAll(s, steps), s.disk.files);
    if Careful(s, steps) {
      WholeMeansAll(RunAll(s, steps), s.disk.files);
    }
  }

  lemma LostMeansFewer(t: Files, start: seq<File>)
    requires Bounded(t.disk, start)
    ensures PacketsIn(t.disk.lost) != [] ==>
              |Packets(t.disk.files)| < |Packets(start)| + |PacketsIn(t.disk.put)| + |PacketsIn(t.disk.copied)|
  {
    assert Within(t.disk, start, AllPackets);
    DiskCounted(t.disk, start);
  }

  lemma WholeMeansAll(t: Files, start: seq<File>)
    requires Whole(t, start)
    ensures |Packets(t.disk.files)| == |Packets(start)| + |PacketsIn(t.disk.put)| + |PacketsIn(t.disk.copied)|
  {
    assert Conserves(t.disk, start, AllPackets);
    DiskCounted(t.disk, start);
  }

  lemma DiskCounted(d: Disk, start: seq<File>)
    ensures |Packets(d.files)| == SumFiles(d.files, AllPackets) && |Packets(start)| == SumFiles(start, AllPackets)
    ensures |PacketsIn(d.lost)| == Sum(d.lost, AllPackets) && |PacketsIn(d.put)| == Sum(d.put, AllPackets)
    ensures |PacketsIn(d.copied)| == Sum(d.copied, AllPackets)
  {
    FilePacketsCounted(d.files);
    FilePacketsCounted(start);
    PacketsCounted(d.lost);
    PacketsCounted(d.put);
    PacketsCounted(d.copied);
  }
}
