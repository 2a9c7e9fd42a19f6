/** The names of the files that a destination creates over a stretch of a run, named by count. */
module DestNames {
  import opened Collections
  import opened DiskFiles
  import opened SequenceName
  import opened DestFile
  import opened DestRuns

  /** A file that was created: the count in its name, and whether its headers could be written. */
  datatype Creation = Creation(name: string, count: nat, complete: bool)

  function CreationBy(w: World, ev: Event): seq<Creation> {
    match ev
    case Store(e, p, timeText, os) =>
      if NeedsFile(w.dest, e, p) && Opened(w.dest, e, timeText, os)
      then [Creation(NewName(w.dest, e, timeText).value, w.dest.status.count, HeadersWritten(os))] else []
    case _ => []
  }

  /** The files created by the events from `a` up to `n`. */
  function Creations(ws: seq<World>, evs: seq<Event>, a: nat, n: nat): seq<Creation>
    requires a <= n <= |evs| < |ws|
  {
    if n == a then [] else Creations(ws, evs, a, n - 1) + CreationBy(ws[n - 1], evs[n - 1])
  }

  function Names(cs: seq<Creation>): seq<string> {
    seq(|cs|, i requires 0 <= i < |cs| => cs[i].name)
  }

  function Counts(cs: seq<Creation>): seq<nat> {
    seq(|cs|, i requires 0 <= i < |cs| => cs[i].count)
  }

  /** The name that the entry gives to a count. */
  function NameOf(e: DestEntry, count: nat): Option<string> {
    FileName(e.path, e.base, Digits(count, SEQUENCE_DIGITS), e.extension)
  }

  /** The event is by the count of one and the same entry, and does not set the count itself. */
  predicate Steady(e: DestEntry, ev: Event) {
    match ev
    case Store(f, _, _, _) =>
      && f.nameType == NAME_BY_COUNT && f.sequenceCount == e.sequenceCount
      && f.path == e.path && f.base == e.base && f.extension == e.extension
    case SetCount(_) => false
    case LoadTable(_, _) => false
    case _ => true
  }

  ghost predicate Stretch(ws: seq<World>, evs: seq<Event>, e: DestEntry, a: nat, n: nat) {
    && Run(ws, evs) && a <= n <= |evs| && e.Verified()
    && forall i :: a <= i < n ==> Steady(e, evs[i])
  }

  lemma NameInjective(e: DestEntry, c: nat, d: nat)
    requires c <= MAX_SEQUENCE_COUNT && d <= MAX_SEQUENCE_COUNT && NameOf(e, c).Some? && NameOf(e, d).Some?
    ensures NameOf(e, c) == NameOf(e, d) <==> c == d
  {
    CountNamesDistinct(e.path, e.base, e.extension, c, d);
  }

  // ---------- Names and counts ----------

  ghost predicate Counted(e: DestEntry, c: Creation) {
    c.count <= MAX_SEQUENCE_COUNT && NameOf(e, c.count) == Some(c.name)
  }

  lemma CreationCounted(w: World, ev: Event, e: DestEntry)
    requires Steady(e, ev) && w.dest.status.count <= MAX_SEQUENCE_COUNT
    ensures forall c :: c in CreationBy(w, ev) ==> Counted(e, c)
  {
  }

  lemma {:induction false} CreationsCounted(ws: seq<World>, evs: seq<Event>, e: DestEntry, a: nat, n: nat)
    requires Stretch(ws, evs, e, a, n)
    ensures forall c :: c in Creations(ws, evs, a, n) ==> Counted(e, c)
  {
    if n > a {
      CreationsCounted(ws, evs, e, a, n - 1);
      assert Follows(ws, evs, n - 1);
      CreationCounted(ws[n - 1], evs[n - 1], e);
    }
  }

  /** Whatever happens in between, the names are distinct if and only if the counts are. */
  lemma NamesByCount(e: DestEntry, cs: seq<Creation>)
    requires forall c :: c in cs ==> Counted(e, c)
    ensures Distinct(Names(cs)) <==> Distinct(Counts(cs))
  {
    forall i, j | 0 <= i < j < |cs| ensures Names(cs)[i] == Names(cs)[j] <==> Counts(cs)[i] == Counts(cs)[j] {
      assert Counted(e, cs[i]) && Counted(e, cs[j]);
      NameInjective(e, cs[i].count, cs[j].count);
    }
  }

  // ---------- The counts of a stretch ----------

  function Completed(cs: seq<Creation>): nat {
    if cs == [] then 0 else Completed(cs[..|cs| - 1]) + if cs[|cs| - 1].complete then 1 else 0
  }

  /** How many files are created before a count comes again. */
  function Span(count: nat, restart: nat): nat
    requires count <= MAX_SEQUENCE_COUNT
  {
    MAX_SEQUENCE_COUNT - count + 1 + if restart <= count then count - restart else 0
  }

  /** The counts before they come again: up to the largest, and from the table's count on. */
  lemma {:induction false} CountIs(count: nat, restart: nat, k: nat)
    requires count <= MAX_SEQUENCE_COUNT && restart <= MAX_SEQUENCE_COUNT && k <= Span(count, restart)
    ensures CountAfter(count, restart, k) ==
            if k <= MAX_SEQUENCE_COUNT - count then count + k else restart + (k - (MAX_SEQUENCE_COUNT - count + 1))
  {
    if k > 0 {
      CountIs(count, restart, k - 1);
    }
  }

  /** The creations whose counts follow one another. */
  ghost predicate InTurn(cs: seq<Creation>, count: nat, restart: nat)
    requires count <= MAX_SEQUENCE_COUNT && restart <= MAX_SEQUENCE_COUNT
  {
    forall k :: 0 <= k < |cs| ==> TurnAt(cs, count, restart, k)
  }

  ghost predicate TurnAt(cs: seq<Creation>, count: nat, restart: nat, k: nat)
    requires count <= MAX_SEQUENCE_COUNT && restart <= MAX_SEQUENCE_COUNT && k < |cs|
  {
    cs[k].count == CountAfter(count, restart, Completed(cs[..k]))
  }

  lemma EventCounts(w: World, ev: Event, e: DestEntry, start: seq<File>)
    requires Good(w, start, true) && Consistent(w.dest) && Allowed(ev) && Steady(e, ev) && e.Verified()
    ensures var cs := CreationBy(w, ev);
            && |cs| <= 1 && (cs != [] ==> cs[0].count == w.dest.status.count)
            && React(w, ev).dest.status.count ==
               if cs != [] && cs[0].complete then NextCount(w.dest.status.count, e.sequenceCount) else w.dest.status.count
  {
    if ev.Store? {
      StoreOutcome(w, ev.entry, ev.packet, ev.timeText, ev.os, start, true);
    }
  }

  lemma TurnSnoc(cs: seq<Creation>, c: Creation, count: nat, restart: nat)
    requires count <= MAX_SEQUENCE_COUNT && restart <= MAX_SEQUENCE_COUNT
    requires InTurn(cs, count, restart) && c.count == CountAfter(count, restart, Completed(cs))
    ensures InTurn(cs + [c], count, restart)
    ensures Completed(cs + [c]) == Completed(cs) + if c.complete then 1 else 0
  {
    var more := cs + [c];
    forall k | 0 <= k < |more| ensures TurnAt(more, count, restart, k) {
      assert more[..k] == if k < |cs| then cs[..k] else cs;
      assert k < |cs| ==> TurnAt(cs, count, restart, k);
    }
    assert more[..|cs|] == cs;
  }

  /** One event: the creations go on in turn, and the count stands where they have brought it. */
  ghost predicate Tracks(cs: seq<Creation>, now: nat, count: nat, restart: nat)
    requires count <= MAX_SEQUENCE_COUNT && restart <= MAX_SEQUENCE_COUNT
  {
    InTurn(cs, count, restart) && now == CountAfter(count, restart, Completed(cs))
  }

  lemma TracksStep(cs: seq<Creation>, more: seq<Creation>, now: nat, next: nat, count: nat, restart: nat)
    requires count <= MAX_SEQUENCE_COUNT && restart <= MAX_SEQUENCE_COUNT && Tracks(cs, now, count, restart)
    requires |more| <= 1 && (more != [] ==> more[0].count == now)
    requires next == if more != [] && more[0].complete then NextCount(now, restart) else now
    ensures Tracks(cs + more, next, count, restart)
  {
    if more == [] {
      assert cs + more == cs;
    } else {
      assert more == [more[0]];
      TurnSnoc(cs, more[0], count, restart);
    }
  }

  lemma RunCounts(ws: seq<World>, evs: seq<Event>, e: DestEntry, i: nat)
    requires Run(ws, evs) && i < |evs| && Steady(e, evs[i]) && e.Verified()
    ensures ws[i].dest.status.count <= MAX_SEQUENCE_COUNT
    ensures var cs := CreationBy(ws[i], evs[i]);
            && |cs| <= 1 && (cs != [] ==> cs[0].count == ws[i].dest.status.count)
            && ws[i + 1].dest.status.count ==
               if cs != [] && cs[0].complete then NextCount(ws[i].dest.status.count, e.sequenceCount) else ws[i].dest.status.count
  {
    RunKeeps(ws, evs, i);
    assert Follows(ws, evs, i);
    EventCounts(ws[i], evs[i], e, ws[0].disk.files);
  }

  lemma TracksEvent(ws: seq<World>, evs: seq<Event>, e: DestEntry, i: nat, cs: seq<Creation>, count: nat)
    requires Run(ws, evs) && i < |evs| && Steady(e, evs[i]) && e.Verified() && count <= MAX_SEQUENCE_COUNT
    requires Tracks(cs, ws[i].dest.status.count, count, e.sequenceCount)
    ensures Tracks(cs + CreationBy(ws[i], evs[i]), ws[i + 1].dest.status.count, count, e.sequenceCount)
  {
    RunCounts(ws, evs, e, i);
    TracksStep(cs, CreationBy(ws[i], evs[i]), ws[i].dest.status.count, ws[i + 1].dest.status.count, count, e.sequenceCount);
  }

  lemma {:induction false} CreationsInTurn(ws: seq<World>, evs: seq<Event>, e: DestEntry, a: nat, n: nat)
    requires Stretch(ws, evs, e, a, n) && ws[a].dest.status.count <= MAX_SEQUENCE_COUNT
    ensures Tracks(Creations(ws, evs, a, n), ws[n].dest.status.count, ws[a].dest.status.count, e.sequenceCount)
  {
    if n > a {
      CreationsInTurn(ws, evs, e, a, n - 1);
      TracksEvent(ws, evs, e, n - 1, Creations(ws, evs, a, n - 1), ws[a].dest.status.count);
    }
  }

  /** Every file but the last got its headers. */
  predicate AllButLast(cs: seq<Creation>) {
    forall k :: 0 <= k < |cs| - 1 ==> cs[k].complete
  }

  lemma {:induction false} CompletedAll(cs: seq<Creation>)
    requires forall k :: 0 <= k < |cs| ==> cs[k].complete
    ensures Completed(cs) == |cs|
  {
    if cs != [] {
      CompletedAll(cs[..|cs| - 1]);
    }
  }

  lemma FailureRepeats(cs: seq<Creation>, count: nat, restart: nat, k: nat)
    requires count <= MAX_SEQUENCE_COUNT && restart <= MAX_SEQUENCE_COUNT && InTurn(cs, count, restart)
    requires k + 1 < |cs| && !cs[k].complete
    ensures cs[k].count == cs[k + 1].count
  {
    assert TurnAt(cs, count, restart, k) && TurnAt(cs, count, restart, k + 1);
    assert cs[..k + 1][..k] == cs[..k];
  }

  lemma CompleteInTurn(cs: seq<Creation>, count: nat, restart: nat, k: nat)
    requires count <= MAX_SEQUENCE_COUNT && restart <= MAX_SEQUENCE_COUNT && InTurn(cs, count, restart)
    requires AllButLast(cs) && k < |cs|
    ensures Counts(cs)[k] == CountAfter(count, restart, k)
  {
    assert TurnAt(cs, count, restart, k);
    CompletedAll(cs[..k]);
  }

  /** Where the count comes again after the restart. */
  function FirstAgain(count: nat, restart: nat): nat {
    if restart <= count then 0 else restart - count
  }

  lemma CountsDistinctExactly(cs: seq<Creation>, count: nat, restart: nat)
    requires count <= MAX_SEQUENCE_COUNT && restart <= MAX_SEQUENCE_COUNT && InTurn(cs, count, restart)
    ensures Distinct(Counts(cs)) <==> AllButLast(cs) && |cs| <= Span(count, restart)
  {
    if !AllButLast(cs) {
      var k :| 0 <= k < |cs| - 1 && !cs[k].complete;
      FailureRepeats(cs, count, restart, k);
      assert Counts(cs)[k] == Counts(cs)[k + 1];
    } else if |cs| > Span(count, restart) {
      var i, j := FirstAgain(count, restart), Span(count, restart);
      CompleteInTurn(cs, count, restart, i);
      CompleteInTurn(cs, count, restart, j);
      CountIs(count, restart, i);
      CountIs(count, restart, j);
      assert Counts(cs)[i] == Counts(cs)[j];
    } else {
      forall i, j | 0 <= i < j < |cs| ensures Counts(cs)[i] != Counts(cs)[j] {
        CompleteInTurn(cs, count, restart, i);
        CompleteInTurn(cs, count, restart, j);
        CountIs(count, restart, i);
        CountIs(count, restart, j);
      }
    }
  }

  /** Over a stretch of a run in which neither a command nor a table load sets the count, the files
      created get pairwise distinct names if and only if each but the last got its headers, and there
      are no more of them than counts before one comes again after a restart.
   */
  lemma NamesDistinctExactly(ws: seq<World>, evs: seq<Event>, e: DestEntry, a: nat, n: nat)
    requires Stretch(ws, evs, e, a, n)
    ensures ws[a].dest.status.count <= MAX_SEQUENCE_COUNT
    ensures var cs := Creations(ws, evs, a, n);
            Distinct(Names(cs)) <==> AllButLast(cs) && |cs| <= Span(ws[a].dest.status.count, e.sequenceCount)
  {
    RunKeeps(ws, evs, a);
    CreationsCounted(ws, evs, e, a, n);
    CreationsInTurn(ws, evs, e, a, n);
    NamesByCount(e, Creations(ws, evs, a, n));
    CountsDistinctExactly(Creations(ws, evs, a, n), ws[a].dest.status.count, e.sequenceCount);
  }

  // ---------- Distinct names lose nothing ----------

  /** The file of that name holds no packet. */
  predicate Bare(w: World, name: string) {
    PacketsIn(Holds(w.disk.files, name)) == []
  }

  predicate Unmoving(ev: Event) {
    match ev
    case Store(e, _, _, _) => e.move == ""
    case Age(e, _, _) => e.move == ""
    case Close(e, _) => e.move == ""
    case _ => true
  }

  lemma WriteElsewhere(w: World, e: DestEntry, r: Record, result: int, mv: MoveCall, name: string)
    requires e.move == "" && name != w.dest.status.name
    ensures Bare(WriteRecord(w, e, r, result, mv), name) <==> Bare(w, name)
  {
    ExtendedHolds(w.disk.files, w.dest.status.name, Written(r, result), name);
  }

  lemma BeginElsewhere(w: World, newName: string, e: DestEntry, os: StoreResults, start: seq<File>, name: string)
    requires Good(w, start, true) && !w.dest.status.open && newName != "" && e.Verified() && e.move == ""
    requires Bare(w, name) && newName != name
    ensures Bare(Begin(w, newName, e, os), name)
  {
    var u := OpenNew(w, newName);
    CreateHolds(w.disk, newName, name);
    WriteElsewhere(u, e, CfeHeader, os.header1, os.moveBad, name);
    if os.header1 == CFE_HEADER_BYTES {
      WriteElsewhere(WriteRecord(u, e, CfeHeader, os.header1, os.moveBad), e, DsHeader, os.header2, os.moveBad, name);
    }
  }

  lemma NewFileElsewhere(w: World, e: DestEntry, p: Record, timeText: string, os: StoreResults, start: seq<File>, name: string)
    requires Good(w, start, true) && Consistent(w.dest) && !w.dest.status.open && p.Packet? && e.Verified() && e.move == ""
    requires Bare(w, name) && (Opened(w.dest, e, timeText, os) ==> NewName(w.dest, e, timeText).value != name)
    ensures Bare(StoreInNewFile(w, e, p, timeText, os), name)
  {
    if Opened(w.dest, e, timeText, os) {
      var d := CreateName(w.dest, e, timeText);
      BeginElsewhere(w.(dest := d), d.status.name, e, os, start, name);
      CreateOutcome(w, e, timeText, os, start, true);
      var c := CreateDest(w, e, timeText, os);
      if c.dest.status.open {
        WriteElsewhere(c, e, p, os.data, os.moveBad, name);
      }
    }
  }

  lemma OpenNotBare(w: World, start: seq<File>, name: string)
    requires Good(w, start, true) && Consistent(w.dest) && w.dest.status.open && Bare(w, name)
    ensures name != w.dest.status.name
  {
    var rs := w.dest.file;
    var n := |rs| - 1;
    assert rs == rs[..n] + [rs[n]] && rs[n].Packet?;
    PacketsAppend(rs[..n], rs[n]);
  }

  /** Packets come only into a file that the event creates. */
  lemma StaysBare(w: World, ev: Event, start: seq<File>, name: string)
    requires Good(w, start, true) && Consistent(w.dest) && Allowed(ev) && Unmoving(ev) && Bare(w, name)
    requires forall c :: c in CreationBy(w, ev) ==> c.name != name
    ensures Bare(React(w, ev), name)
  {
    if w.dest.status.open {
      OpenNotBare(w, start, name);
    }
    match ev
    case Store(e, p, timeText, os) =>
      if !NeedsFile(w.dest, e, p) {
        WriteElsewhere(w, e, p, os.data, os.moveBad, name);
      } else {
        assert Opened(w.dest, e, timeText, os) ==> CreationBy(w, ev) != [] && CreationBy(w, ev)[0] in CreationBy(w, ev);
        if w.dest.status.open {
          CloseGood(w.(io := UpdateHeader(w.io, os.seek, os.update)), e, os.moveFull, start, true);
          NewFileElsewhere(UpdateAndClose(w, e, os), e, p, timeText, os, start, name);
        } else {
          NewFileElsewhere(w, e, p, timeText, os, start, name);
        }
      }
    case _ =>
  }

  /** Without moves, only a creation can take the place of a file that holds packets. */
  lemma ErasesByName(w: World, ev: Event)
    requires Allowed(ev) && w.dest.status.count <= MAX_SEQUENCE_COUNT && Unmoving(ev)
    requires forall c :: c in CreationBy(w, ev) ==> Bare(w, c.name)
    ensures !Erases(w, ev)
  {
    match ev
    case Store(e, p, timeText, os) =>
      if NeedsFile(w.dest, e, p) && Opened(w.dest, e, timeText, os) {
        assert CreationBy(w, ev)[0] in CreationBy(w, ev);
      }
    case _ =>
  }

  /** The names of counts not used yet are free. */
  ghost predicate Free(w: World, e: DestEntry, cs: seq<Creation>) {
    forall count: nat :: count <= MAX_SEQUENCE_COUNT && NameOf(e, count).Some? ==> FreeName(w, NameOf(e, count).value, cs)
  }

  ghost predicate FreeName(w: World, name: string, cs: seq<Creation>) {
    name in Names(cs) || Bare(w, name)
  }

  lemma FreeStep(w: World, v: World, ev: Event, e: DestEntry, cs: seq<Creation>, all: seq<Creation>, start: seq<File>)
    requires Good(w, start, true) && Consistent(w.dest) && Allowed(ev) && Steady(e, ev) && Unmoving(ev) && Free(w, e, cs)
    requires all == cs + CreationBy(w, ev) && Distinct(Names(all)) && v == React(w, ev)
    ensures Free(v, e, all) && Quiet(w, ev)
  {
    var more := CreationBy(w, ev);
    CreationCounted(w, ev, e);
    assert Names(all) == Names(cs) + Names(more);
    forall c | c in more ensures Bare(w, c.name) {
      assert FreeName(w, c.name, cs);
      NotUsed(cs, more);
      assert Names(more)[0] == c.name;
    }
    ErasesByName(w, ev);
    forall count: nat | count <= MAX_SEQUENCE_COUNT && NameOf(e, count).Some?
      ensures FreeName(v, NameOf(e, count).value, all)
    {
      var name := NameOf(e, count).value;
      assert FreeName(w, name, cs);
      if name !in Names(all) {
        assert forall c :: c in more ==> c.name != name by {
          forall c | c in more ensures c.name in Names(more) {
            assert Names(more)[0] == c.name;
          }
        }
        StaysBare(w, ev, start, name);
      }
    }
  }

  lemma NotUsed(cs: seq<Creation>, more: seq<Creation>)
    requires |more| <= 1 && Distinct(Names(cs + more))
    ensures forall c :: c in more ==> c.name !in Names(cs)
  {
    if more != [] {
      assert Names(cs + more) == Names(cs) + [more[0].name];
      DistinctSnoc(Names(cs), more[0].name);
    }
  }

  lemma {:induction false} DistinctPrefix(l: seq<string>, m: seq<string>)
    requires Distinct(l + m)
    ensures Distinct(l)
  {
    forall i, j | 0 <= i < j < |l| ensures l[i] != l[j] {
      assert (l + m)[i] == l[i] && (l + m)[j] == l[j];
    }
  }

  lemma NamesPrefix(cs: seq<Creation>, more: seq<Creation>)
    requires Distinct(Names(cs + more))
    ensures Distinct(Names(cs))
  {
    assert Names(cs + more) == Names(cs) + Names(more);
    DistinctPrefix(Names(cs), Names(more));
  }

  ghost predicate NoRepeat(ws: seq<World>, evs: seq<Event>, a: nat, n: nat)
    requires a <= n <= |evs| < |ws|
  {
    Distinct(Names(Creations(ws, evs, a, n)))
  }

  /** What holds up to the event before the last holds after it. */
  ghost predicate FreeAt(ws: seq<World>, evs: seq<Event>, e: DestEntry, a: nat, n: nat)
    requires a <= n <= |evs| < |ws|
  {
    Free(ws[n], e, Creations(ws, evs, a, n)) && SameLost(ws[a], ws[n])
  }

  lemma NoRepeatBefore(ws: seq<World>, evs: seq<Event>, a: nat, n: nat)
    requires a < n <= |evs| < |ws| && NoRepeat(ws, evs, a, n)
    ensures NoRepeat(ws, evs, a, n - 1)
  {
    NamesPrefix(Creations(ws, evs, a, n - 1), CreationBy(ws[n - 1], evs[n - 1]));
  }

  lemma LostNext(ws: seq<World>, evs: seq<Event>, a: nat, n: nat)
    requires Run(ws, evs) && a < n <= |evs| && SameLost(ws[a], ws[n - 1])
    requires Quiet(ws[n - 1], evs[n - 1])
    ensures SameLost(ws[a], ws[n])
  {
    RunKeeps(ws, evs, n - 1);
    assert Follows(ws, evs, n - 1);
    EventKeeps(ws[n - 1], evs[n - 1], ws[0].disk.files, true);
  }

  lemma CreationsNext(ws: seq<World>, evs: seq<Event>, a: nat, n: nat)
    requires a < n <= |evs| < |ws|
    ensures Creations(ws, evs, a, n) == Creations(ws, evs, a, n - 1) + CreationBy(ws[n - 1], evs[n - 1])
  {
  }

  lemma FreeNext(ws: seq<World>, evs: seq<Event>, e: DestEntry, a: nat, n: nat)
    requires Run(ws, evs) && a < n <= |evs| && Steady(e, evs[n - 1]) && Unmoving(evs[n - 1])
    requires NoRepeat(ws, evs, a, n) && Free(ws[n - 1], e, Creations(ws, evs, a, n - 1))
    ensures Free(ws[n], e, Creations(ws, evs, a, n)) && Quiet(ws[n - 1], evs[n - 1])
  {
    var all := Creations(ws, evs, a, n);
    assert Distinct(Names(all));
    CreationsNext(ws, evs, a, n);
    Reached(ws, evs, n - 1);
    FreeStep(ws[n - 1], ws[n], evs[n - 1], e, Creations(ws, evs, a, n - 1), all, ws[0].disk.files);
  }

  /** A stretch on which no file is moved and no name comes twice. */
  ghost predicate Still(ws: seq<World>, evs: seq<Event>, e: DestEntry, a: nat, n: nat) {
    Stretch(ws, evs, e, a, n) && NoRepeat(ws, evs, a, n) && forall i :: a <= i < n ==> Unmoving(evs[i])
  }

  lemma StillBefore(ws: seq<World>, evs: seq<Event>, e: DestEntry, a: nat, n: nat)
    requires a < n && Still(ws, evs, e, a, n)
    ensures Still(ws, evs, e, a, n - 1) && Run(ws, evs) && NoRepeat(ws, evs, a, n)
    ensures Steady(e, evs[n - 1]) && Unmoving(evs[n - 1])
  {
    NoRepeatBefore(ws, evs, a, n);
  }

  lemma FreeAtStart(ws: seq<World>, evs: seq<Event>, e: DestEntry, a: nat)
    requires a <= |evs| < |ws| && Free(ws[a], e, [])
    ensures FreeAt(ws, evs, e, a, a)
  {
    assert Creations(ws, evs, a, a) == [];
  }

  /** A destination that names its files by count, moves none, and starts on a disk where these names
      are free, loses no packet while the names it uses are distinct.
   */
  lemma {:induction false} DistinctNamesKeep(ws: seq<World>, evs: seq<Event>, e: DestEntry, a: nat, n: nat)
    requires Still(ws, evs, e, a, n) && Free(ws[a], e, [])
    ensures FreeAt(ws, evs, e, a, n)
  {
    if n == a {
      FreeAtStart(ws, evs, e, a);
    } else {
      StillBefore(ws, evs, e, a, n);
      DistinctNamesKeep(ws, evs, e, a, n - 1);
      FreeNext(ws, evs, e, a, n);
      LostNext(ws, evs, a, n);
    }
  }
}
