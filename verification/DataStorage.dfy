/** Storing packets from the software bus into the destination files. */
module DataStorage {
  import opened Collections
  import opened DiskFiles
  import opened PacketFilter
  import opened DestFile
  import opened DestRuns

  const DEST_FILE_CNT: nat := 16

  /** What the application reads of a packet. */
  datatype Incoming = Incoming(id: nat, length: PacketLength, sequence: uint16, seconds: uint32, subseconds: uint32) {
    function Body(): Record {
      Packet(id, length)
    }

    function FilterValue(filterType: uint16): uint16 {
      if filterType == BY_COUNT then sequence else TimeValue(seconds, subseconds)
    }
  }

  /** The environment of one storage request: the clock text for file names and, for each filter,
      the results of the operating system calls.
   */
  datatype Surroundings = Surroundings(entries: seq<DestEntry>, timeText: string, os: nat -> StoreResults) {
    predicate Valid() {
      |entries| == DEST_FILE_CNT && forall e :: e in entries ==> e.Verified()
    }
  }

  /** All destinations, on one disk. */
  datatype Files = Files(dests: seq<Dest>, disk: Disk, io: IoCounters) {
    predicate Valid() {
      |dests| == DEST_FILE_CNT && forall d :: d in dests ==> d.status.count <= SequenceName.MAX_SEQUENCE_COUNT
    }

    function At(i: nat): World
      requires i < |dests|
    {
      World(dests[i], disk, io)
    }

    function Set(i: nat, w: World): Files
      requires i < |dests|
    {
      Files(dests[i := w.dest], w.disk, w.io)
    }
  }

  /** A used filter with a real, enabled destination passes the packet. */
  predicate Accepts(ds: seq<Dest>, f: FilterParms, p: Incoming) {
    && f.n != 0 && f.fileIndex < DEST_FILE_CNT && f.fileIndex < |ds|
    && ds[f.fileIndex].status.enabled
    && !IsPacketFiltered(f.filterType, p.FilterValue(f.filterType), f.n, f.x, f.o)
  }

  lemma WriteKeepsCount(w: World, e: DestEntry, r: Record, result: int, mv: MoveCall)
    ensures WriteRecord(w, e, r, result, mv).dest.status.count == w.dest.status.count
  {
  }

  lemma CreateKeepsRange(w: World, e: DestEntry, timeText: string, os: StoreResults)
    requires w.dest.status.count <= SequenceName.MAX_SEQUENCE_COUNT && e.Verified()
    ensures CreateDest(w, e, timeText, os).dest.status.count <= SequenceName.MAX_SEQUENCE_COUNT
  {
    var d := CreateName(w.dest, e, timeText);
    var u := OpenNew(w.(dest := d), d.status.name);
    WriteKeepsCount(u, e, CfeHeader, os.header1, os.moveBad);
    WriteKeepsCount(WriteRecord(u, e, CfeHeader, os.header1, os.moveBad), e, DsHeader, os.header2, os.moveBad);
  }

  lemma CountStaysInRange(w: World, e: DestEntry, p: Record, timeText: string, os: StoreResults)
    requires p.Packet? && w.dest.status.count <= SequenceName.MAX_SEQUENCE_COUNT && e.Verified()
    ensures SetupWrite(w, e, p, timeText, os).dest.status.count <= SequenceName.MAX_SEQUENCE_COUNT
  {
    WriteKeepsCount(w, e, p, os.data, os.moveBad);
    var u := if w.dest.status.open then UpdateAndClose(w, e, os) else w;
    CreateKeepsRange(u, e, timeText, os);
    WriteKeepsCount(CreateDest(u, e, timeText, os), e, p, os.data, os.moveBad);
  }

  function StoreOne(s: Files, i: nat, p: Incoming, env: Surroundings, os: StoreResults): (t: Files)
    requires s.Valid() && env.Valid() && i < DEST_FILE_CNT
    ensures t.Valid()
  {
    CountStaysInRange(s.At(i), env.entries[i], p.Body(), env.timeText, os);
    s.Set(i, SetupWrite(s.At(i), env.entries[i], p.Body(), env.timeText, os))
  }

  /** The destinations after the first `n` filters of the packet's table entry. */
  function StoreUpTo(s: Files, fs: seq<FilterParms>, p: Incoming, env: Surroundings, n: nat): (t: Files)
    requires s.Valid() && env.Valid() && n <= |fs|
    ensures t.Valid()
  {
    if n == 0 then s
    else
      var t := StoreUpTo(s, fs, p, env, n - 1);
      if Accepts(t.dests, fs[n - 1], p) then StoreOne(t, fs[n - 1].fileIndex, p, env, env.os(n - 1)) else t
  }

  /** Some filter stored the packet, each judged when its turn came. */
  predicate StoredByUpTo(s: Files, fs: seq<FilterParms>, p: Incoming, env: Surroundings, n: nat)
    requires s.Valid() && env.Valid() && n <= |fs|
  {
    n > 0 && (StoredByUpTo(s, fs, p, env, n - 1) || Accepts(StoreUpTo(s, fs, p, env, n - 1).dests, fs[n - 1], p))
  }

  /** A failed write disables its destination for the filters that follow; still, a packet counts
      as passed exactly when one of its filters accepts it in the state it finds.
   */
  lemma {:induction false} PassedExactly(s: Files, fs: seq<FilterParms>, p: Incoming, env: Surroundings, n: nat)
    requires s.Valid() && env.Valid() && n <= |fs|
    ensures StoredByUpTo(s, fs, p, env, n) <==> exists i :: 0 <= i < n && Accepts(s.dests, fs[i], p)
    ensures !StoredByUpTo(s, fs, p, env, n) ==> StoreUpTo(s, fs, p, env, n) == s
  {
    if n > 0 {
      PassedExactly(s, fs, p, env, n - 1);
    }
  }

  // ---------- Packet counters ----------

  datatype Outcome = Disabled | Ignored | Filtered | Passed

  datatype PacketCounts = PacketCounts(disabled: nat, ignored: nat, filtered: nat, passed: nat)

  function Next32(n: nat): nat {
    (n + 1) % UINT32
  }

  function Tally(c: PacketCounts, o: Outcome): PacketCounts {
    match o
    case Disabled => c.(disabled := Next32(c.disabled))
    case Ignored => c.(ignored := Next32(c.ignored))
    case Filtered => c.(filtered := Next32(c.filtered))
    case Passed => c.(passed := Next32(c.passed))
  }

  function TallyAll(os: seq<Outcome>): PacketCounts {
    if os == [] then PacketCounts(0, 0, 0, 0) else Tally(TallyAll(os[..|os| - 1]), os[|os| - 1])
  }

  function CountOf(os: seq<Outcome>, o: Outcome): nat {
    if os == [] then 0 else CountOf(os[..|os| - 1], o) + if os[|os| - 1] == o then 1 else 0
  }

  lemma NextOfRemainder(n: nat)
    ensures Next32(n % UINT32) == (n + 1) % UINT32
  {
  }

  lemma {:induction false} CountsAddUp(os: seq<Outcome>)
    ensures CountOf(os, Disabled) + CountOf(os, Ignored) + CountOf(os, Filtered) + CountOf(os, Passed) == |os|
  {
    if os != [] {
      CountsAddUp(os[..|os| - 1]);
    }
  }

  function CountOfField(c: PacketCounts, o: Outcome): nat {
    match o
    case Disabled => c.disabled
    case Ignored => c.ignored
    case Filtered => c.filtered
    case Passed => c.passed
  }

  /** Each counter holds the number of its outcomes, modulo its width. */
  lemma {:induction false} TalliesCount(os: seq<Outcome>, o: Outcome)
    ensures CountOfField(TallyAll(os), o) == CountOf(os, o) % UINT32
  {
    if os != [] {
      TalliesCount(os[..|os| - 1], o);
      NextOfRemainder(CountOf(os[..|os| - 1], o));
    }
  }

  lemma TallyConserves(os: seq<Outcome>)
    ensures var c := TallyAll(os); (c.disabled + c.ignored + c.filtered + c.passed) % UINT32 == |os| % UINT32
  {
    CountsAddUp(os);
    TalliesCount(os, Disabled);
    TalliesCount(os, Ignored);
    TalliesCount(os, Filtered);
    TalliesCount(os, Passed);
    SumOfFour(CountOf(os, Disabled), CountOf(os, Ignored), CountOf(os, Filtered), CountOf(os, Passed));
  }

  lemma RemainderStays(a: nat, b: nat)
    ensures (a % UINT32 + b) % UINT32 == (a + b) % UINT32
  {
  }

  lemma SumOfFour(a: nat, b: nat, c: nat, d: nat)
    ensures (a % UINT32 + b % UINT32 + c % UINT32 + d % UINT32) % UINT32 == (a + b + c + d) % UINT32
  {
    RemainderStays(a, b % UINT32 + c % UINT32 + d % UINT32);
    RemainderStays(b, a + c % UINT32 + d % UINT32);
    RemainderStays(c, a + b + d % UINT32);
    RemainderStays(d, a + b + c);
  }

  // ---------- Packets offered to the application ----------

  /** The application: enabled or not, with both of its tables loaded or not. */
  datatype App = App(enabled: bool, loaded: bool, files: Files, counts: PacketCounts)

  /** A packet, with the filters of its entry in the filter table, if it has one. */
  datatype Offer = Offer(packet: Incoming, filters: Option<seq<FilterParms>>, env: Surroundings)

  predicate Handles(a: App, o: Offer) {
    a.enabled && a.loaded && o.filters.Some?
  }

  function OutcomeOf(a: App, o: Offer): Outcome {
    if !a.enabled then Disabled
    else if !a.loaded || o.filters.None? then Ignored
    else if exists k :: 0 <= k < |o.filters.value| && Accepts(a.files.dests, o.filters.value[k], o.packet) then Passed
    else Filtered
  }

  /** What becomes of the application when a packet is offered. */
  function StoreOffer(a: App, o: Offer): (b: App)
    requires a.files.Valid() && o.env.Valid()
    ensures b.files.Valid()
  {
    a.(files := if Handles(a, o) then StoreUpTo(a.files, o.filters.value, o.packet, o.env, |o.filters.value|) else a.files,
       counts := Tally(a.counts, OutcomeOf(a, o)))
  }

  function ResetCounts(a: App): App {
    a.(files := a.files.(io := IoCounters(0, 0, 0, 0)), counts := PacketCounts(0, 0, 0, 0))
  }

  /** `Otherwise` is all else that happens, which may change anything but the packet counters. */
  datatype AppEvent =
    | Offered(offer: Offer)
    | ResetCmd
    | Otherwise(enabled: bool, loaded: bool, files: Files)

  predicate Possible(ev: AppEvent) {
    match ev
    case Offered(o) => o.env.Valid()
    case ResetCmd => true
    case Otherwise(_, _, files) => files.Valid()
  }

  predicate AllPossible(evs: seq<AppEvent>) {
    evs == [] || (AllPossible(evs[..|evs| - 1]) && Possible(evs[|evs| - 1]))
  }

  function AppStep(a: App, ev: AppEvent): (b: App)
    requires a.files.Valid() && Possible(ev)
    ensures b.files.Valid()
  {
    match ev
    case Offered(o) => StoreOffer(a, o)
    case ResetCmd => ResetCounts(a)
    case Otherwise(enabled, loaded, files) => App(enabled, loaded, files, a.counts)
  }

  function RunApp(a: App, evs: seq<AppEvent>): (b: App)
    requires a.files.Valid() && AllPossible(evs)
    ensures b.files.Valid()
  {
    if evs == [] then a else AppStep(RunApp(a, evs[..|evs| - 1]), evs[|evs| - 1])
  }

  /** The outcomes of the packets offered since the last reset. */
  function Outcomes(a: App, evs: seq<AppEvent>): seq<Outcome>
    requires a.files.Valid() && AllPossible(evs)
  {
    if evs == [] then []
    else
      var before := evs[..|evs| - 1];
      match evs[|evs| - 1]
      case Offered(o) => Outcomes(a, before) + [OutcomeOf(RunApp(a, before), o)]
      case ResetCmd => []
      case Otherwise(_, _, _) => Outcomes(a, before)
  }

  function OfferedSinceReset(evs: seq<AppEvent>): nat {
    if evs == [] || evs[|evs| - 1].ResetCmd? then 0
    else OfferedSinceReset(evs[..|evs| - 1]) + if evs[|evs| - 1].Offered? then 1 else 0
  }

  lemma TallySnoc(os: seq<Outcome>, o: Outcome)
    ensures TallyAll(os + [o]) == Tally(TallyAll(os), o)
  {
    assert (os + [o])[..|os|] == os;
  }

  lemma {:induction false} CountsAreTallies(a: App, evs: seq<AppEvent>)
    requires a.files.Valid() && AllPossible(evs) && a.counts == PacketCounts(0, 0, 0, 0)
    ensures RunApp(a, evs).counts == TallyAll(Outcomes(a, evs))
    ensures |Outcomes(a, evs)| == OfferedSinceReset(evs)
  {
    if evs != [] {
      var before, last := evs[..|evs| - 1], evs[|evs| - 1];
      CountsAreTallies(a, before);
      if last.Offered? {
        TallySnoc(Outcomes(a, before), OutcomeOf(RunApp(a, before), last.offer));
      }
    }
  }

  /** Over any run, each packet counter holds the number of packets offered since the last reset that
      had its outcome, and together the four count every packet offered, modulo their width.
   */
  lemma PacketsConserved(a: App, evs: seq<AppEvent>, o: Outcome)
    requires a.files.Valid() && AllPossible(evs) && a.counts == PacketCounts(0, 0, 0, 0)
    ensures var c := RunApp(a, evs).counts;
            && CountOfField(c, o) == CountOf(Outcomes(a, evs), o) % UINT32
            && (c.disabled + c.ignored + c.filtered + c.passed) % UINT32 == OfferedSinceReset(evs) % UINT32
  {
    CountsAreTallies(a, evs);
    TalliesCount(Outcomes(a, evs), o);
    TallyConserves(Outcomes(a, evs));
  }

  /** Only a packet that counts as passed touches the files. */
  lemma OnlyPassedStores(a: App, o: Offer)
    requires a.files.Valid() && o.env.Valid() && OutcomeOf(a, o) != Passed
    ensures StoreOffer(a, o).files == a.files
  {
    if Handles(a, o) {
      PassedExactly(a.files, o.filters.value, o.packet, o.env, |o.filters.value|);
    }
  }

  // ---------- Loading the destination table ----------

  /** The values of the table that the application changes are kept beside it. */
  function LoadAll(s: Files, table: seq<DestEntry>, states: seq<bool>): (t: Files)
    requires |s.dests| == |table| == |states| == DEST_FILE_CNT
    ensures (forall e :: e in table ==> e.Verified()) ==> t.Valid()
  {
    assert forall i :: 0 <= i < |table| ==> table[i] in table;
    s.(dests := seq(DEST_FILE_CNT, i requires 0 <= i < DEST_FILE_CNT => Loaded(s.dests[i], states[i], table[i].sequenceCount)))
  }

  /** A load is an event at each destination, which gets state and count from the table; its file, open
      or not, stays as it is.
   */
  lemma LoadEach(s: Files, table: seq<DestEntry>, states: seq<bool>, i: nat)
    requires s.Valid() && |table| == |states| == DEST_FILE_CNT && (forall e :: e in table ==> e.Verified()) && i < DEST_FILE_CNT
    ensures Allowed(LoadTable(states[i], table[i].sequenceCount)) && s.dests[i].status.count <= SequenceName.MAX_SEQUENCE_COUNT
    ensures var d, before := LoadAll(s, table, states).dests[i], s.dests[i];
            && d.status.enabled == states[i] && d.status.count == table[i].sequenceCount
            && d == before.(status := before.status.(enabled := states[i], count := table[i].sequenceCount))
    ensures LoadAll(s, table, states).At(i) == React(s.At(i), LoadTable(states[i], table[i].sequenceCount))
  {
    assert table[i] in table && s.dests[i] in s.dests;
  }

  // ---------- The housekeeping cycle ----------

  /** File ages of the first `n` destinations tested. */
  function AgeUpTo(s: Files, env: Surroundings, elapsed: nat, n: nat): (t: Files)
    requires s.Valid() && env.Valid() && n <= DEST_FILE_CNT
    ensures t.Valid() && t.dests[n..] == s.dests[n..]
  {
    if n == 0 then s
    else
      var t := AgeUpTo(s, env, elapsed, n - 1);
      t.Set(n - 1, TestAge(t.At(n - 1), env.entries[n - 1], elapsed, env.os(n - 1)))
  }

  /** The age test treats the state of every destination on its own. */
  lemma {:induction false} AgeEach(s: Files, env: Surroundings, elapsed: nat, n: nat, i: nat)
    requires s.Valid() && env.Valid() && n <= DEST_FILE_CNT && i < n
    ensures AgeUpTo(s, env, elapsed, n).dests[i] == TestAge(s.At(i), env.entries[i], elapsed, env.os(i)).dest
  {
    assert AgeUpTo(s, env, elapsed, n - 1).dests[n - 1] == s.dests[n - 1] by {
      assert AgeUpTo(s, env, elapsed, n - 1).dests[n - 1..][0] == s.dests[n - 1..][0];
    }
    if i < n - 1 {
      AgeEach(s, env, elapsed, n - 1, i);
    }
  }
}
