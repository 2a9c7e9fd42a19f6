/** The commands that edit the packet filter table, and runs of them. */
module FilterCommands {
  import opened Counting
  import opened FilterIndex

  /** The part of the application data that the commands read and write. The table pointer is null
      until the first load; the command counters are eight bits wide.
   */
  datatype Db = Db(loaded: bool, idx: Index, accepted: nat, rejected: nat)

  datatype Command =
    | Load(table: seq<MsgId>)
    | AddMid(mid: MsgId)
    | RemoveMid(mid: MsgId)

  function Reject(d: Db): Db {
    d.(rejected := Next8(d.rejected))
  }

  function Accept(d: Db, idx: Index): Db {
    d.(idx := idx, accepted := Next8(d.accepted))
  }

  ghost predicate Initial(d: Db) {
    && !d.loaded && d.idx.Shaped()
    && forall b :: 0 <= b < BUCKETS ==> d.idx.head[b] == NONE
  }

  /** Command `c` takes `d` to `e`. A command whose loops do not all leave takes `d` nowhere.
      REMOVE MID searches the index before it checks anything.
   */
  ghost predicate Step(d: Db, c: Command, e: Db)
    requires d.idx.Shaped()
  {
    match c
    case Load(table) =>
      && |table| == PACKETS && e.idx.mids == table && Built(e.idx)
      && e == d.(loaded := true, idx := e.idx)
    case AddMid(mid) =>
      if !ValidMid(mid) || !d.loaded then e == Reject(d)
      else
        && Returns(d.idx, mid)
        && if Lookup(d.idx, mid) != NONE then e == Reject(d)
           else
             && Returns(d.idx, INVALID_MID)
             && if Lookup(d.idx, INVALID_MID) == NONE then e == Reject(d)
                else Ends(d.idx, Hash(mid)) && e == Accept(d, Added(d.idx, mid))
    case RemoveMid(mid) =>
      && Returns(d.idx, mid)
      && if !ValidMid(mid) || !d.loaded || Lookup(d.idx, mid) == NONE then e == Reject(d)
         else
           && e.idx.mids == d.idx.mids[Lookup(d.idx, mid) := INVALID_MID] && Built(e.idx)
           && e == Accept(d, e.idx)
  }

  // ---------- What the commands are documented to do, read off the table alone ----------

  predicate AddAccepted(d: Db, mid: MsgId) {
    0 < mid <= 0x1FFF && d.loaded && mid !in d.idx.mids && INVALID_MID in d.idx.mids
  }

  predicate RemoveAccepted(d: Db, mid: MsgId) {
    0 < mid <= 0x1FFF && d.loaded && mid in d.idx.mids
  }

  ghost predicate Sound(d: Db, ch: seq<seq<nat>>, added: set<nat>) {
    if d.loaded then Ready(d.idx, ch, added) else Initial(d) && added == {}
  }

  /** In a sound state both commands accept exactly when the table says they should; ADD MID
      writes the first unused entry, REMOVE MID clears the first entry of its ID, and no other
      entry changes.
   */
  lemma CommandsFollowTable(d: Db, ch: seq<seq<nat>>, added: set<nat>, c: Command, e: Db)
    requires Sound(d, ch, added) && Step(d, c, e) && !c.Load?
    ensures c.AddMid? && AddAccepted(d, c.mid) ==>
      && e.accepted == (d.accepted + 1) % 256 && e.rejected == d.rejected && e.loaded
      && 0 <= Scan(d.idx.mids, INVALID_MID) < PACKETS
      && e.idx.mids == d.idx.mids[Scan(d.idx.mids, INVALID_MID) := c.mid]
    ensures c.RemoveMid? && RemoveAccepted(d, c.mid) ==>
      && e.accepted == (d.accepted + 1) % 256 && e.rejected == d.rejected && e.loaded
      && 0 <= Scan(d.idx.mids, c.mid) < PACKETS
      && e.idx.mids == d.idx.mids[Scan(d.idx.mids, c.mid) := INVALID_MID]
    ensures !(if c.AddMid? then AddAccepted(d, c.mid) else RemoveAccepted(d, c.mid)) ==>
      e == d.(rejected := (d.rejected + 1) % 256)
  {
    if d.loaded {
      LookupIsScan(d.idx, ch, added, c.mid);
      LookupIsScan(d.idx, ch, added, INVALID_MID);
    }
  }

  /** Neither command changes what the table says about a third message ID. */
  lemma OtherIdsUnchanged(mids: seq<MsgId>, i: nat, mid: MsgId, other: MsgId)
    requires i < |mids| && other != mids[i] && other != mid
    ensures Scan(mids[i := mid], other) == Scan(mids, other)
  {
    SameScan(mids, mids[i := mid], other, 0);
  }

  lemma {:induction false} SameScan(a: seq<MsgId>, b: seq<MsgId>, mid: MsgId, from: nat)
    requires |a| == |b| && from <= |a|
    requires forall i :: 0 <= i < |a| ==> (a[i] == mid <==> b[i] == mid)
    ensures Scan(a, mid, from) == Scan(b, mid, from)
    decreases |a| - from
  {
    if from < |a| {
      SameScan(a, b, mid, from + 1);
    }
  }

  /** REMOVE MID of an ID just added returns, gives the table back and rebuilds the index, also
      when the ADD MID had closed a bucket on itself.
   */
  lemma RemoveUndoesAdd(d: Db, ch: seq<seq<nat>>, added: set<nat>, mid: MsgId, e: Db)
    requires Sound(d, ch, added) && Step(d, AddMid(mid), e) && AddAccepted(d, mid)
    ensures e.idx.Shaped() && Returns(e.idx, mid)
    ensures exists f :: Step(e, RemoveMid(mid), f)
    ensures forall f :: Step(e, RemoveMid(mid), f) ==> f.idx.mids == d.idx.mids && Built(f.idx)
  {
    LookupIsScan(d.idx, ch, added, mid);
    AddedIsFound(d.idx, ch, added, mid);
    assert e.idx == Added(d.idx, mid);
    var idx := Lookup(d.idx, INVALID_MID);
    assert d.idx.mids[idx := mid][idx := INVALID_MID] == d.idx.mids;
    var rebuilt := Buildable(d.idx.mids);
    assert Step(e, RemoveMid(mid), Accept(e, rebuilt));
  }

  // ---------- Runs ----------

  ghost predicate Run(ds: seq<Db>, cs: seq<Command>) {
    && |ds| == |cs| + 1 && Initial(ds[0])
    && (forall i :: 0 <= i < |ds| ==> ds[i].idx.Shaped())
    && forall i :: 0 <= i < |cs| ==> Steps(ds, cs, i)
  }

  ghost predicate Steps(ds: seq<Db>, cs: seq<Command>, i: nat)
    requires i < |cs| < |ds| && ds[i].idx.Shaped()
  {
    Step(ds[i], cs[i], ds[i + 1])
  }

  /** The buckets that accepted ADD MID commands have used since the index was last built. */
  function AddedSince(ds: seq<Db>, cs: seq<Command>, i: nat): (added: set<nat>)
    requires i <= |cs| < |ds|
  {
    if i == 0 then {}
    else
      var before := AddedSince(ds, cs, i - 1);
      match cs[i - 1]
      case Load(_) => {}
      case AddMid(mid) => if AddAccepted(ds[i - 1], mid) then before + {Hash(mid)} else before
      case RemoveMid(mid) => if RemoveAccepted(ds[i - 1], mid) then {} else before
  }

  /** Command `i` is not an accepted ADD MID into the unused bucket or a bucket already used. */
  predicate FreshAdd(ds: seq<Db>, cs: seq<Command>, i: nat)
    requires i < |cs| < |ds|
  {
    cs[i].AddMid? && AddAccepted(ds[i], cs[i].mid) ==>
      Hash(cs[i].mid) !in AddedSince(ds, cs, i) && Hash(cs[i].mid) != UNUSED
  }

  lemma StepKeepsSound(d: Db, ch: seq<seq<nat>>, added: set<nat>, c: Command, e: Db) returns (ch': seq<seq<nat>>)
    requires Sound(d, ch, added) && Step(d, c, e)
    requires c.AddMid? && AddAccepted(d, c.mid) ==> Hash(c.mid) !in added && Hash(c.mid) != UNUSED
    ensures
      var added' := match c
        case Load(_) => {}
        case AddMid(mid) => if AddAccepted(d, mid) then added + {Hash(mid)} else added
        case RemoveMid(mid) => if RemoveAccepted(d, mid) then {} else added;
      Sound(e, ch', added')
  {
    ch' := ch;
    match c {
      case Load(table) =>
        BuiltIsReady(e.idx);
        ch' := Buckets(table);
      case AddMid(mid) =>
        CommandsFollowTable(d, ch, added, c, e);
        if AddAccepted(d, mid) {
          LookupIsScan(d.idx, ch, added, mid);
          var k := AddKeepsReady(d.idx, ch, added, mid);
          ch' := Grown(ch, Hash(mid), k);
        }
      case RemoveMid(mid) =>
        CommandsFollowTable(d, ch, added, c, e);
        if RemoveAccepted(d, mid) {
          LookupIsScan(d.idx, ch, added, mid);
          BuiltIsReady(e.idx);
          ch' := Buckets(e.idx.mids);
        }
    }
  }

  lemma {:induction false} RunSound(ds: seq<Db>, cs: seq<Command>, i: nat) returns (ch: seq<seq<nat>>)
    requires Run(ds, cs) && i <= |cs|
    requires forall j :: 0 <= j < i ==> FreshAdd(ds, cs, j)
    ensures Sound(ds[i], ch, AddedSince(ds, cs, i))
  {
    if i == 0 {
      ch := [];
    } else {
      var before := RunSound(ds, cs, i - 1);
      assert FreshAdd(ds, cs, i - 1) && Steps(ds, cs, i - 1);
      ch := StepKeepsSound(ds[i - 1], before, AddedSince(ds, cs, i - 1), cs[i - 1], ds[i]);
    }
  }

  /** While every accepted ADD MID is fresh, the search for any message ID returns what the
      linear scan of the filter table returns.
   */
  lemma RunLookupIsScan(ds: seq<Db>, cs: seq<Command>, i: nat, mid: MsgId)
    requires Run(ds, cs) && i <= |cs| && ds[i].loaded
    requires forall j :: 0 <= j < i ==> FreshAdd(ds, cs, j)
    ensures Returns(ds[i].idx, mid) && Lookup(ds[i].idx, mid) == Scan(ds[i].idx.mids, mid)
  {
    var ch := RunSound(ds, cs, i);
    LookupIsScan(ds[i].idx, ch, AddedSince(ds, cs, i), mid);
  }

  /** Over a run, every bucket ends in every state exactly when every accepted ADD MID is fresh. */
  lemma RunEndsExactly(ds: seq<Db>, cs: seq<Command>)
    requires Run(ds, cs)
    ensures (forall i :: 0 <= i < |ds| ==> AllEnd(ds[i].idx)) <==> (forall i :: 0 <= i < |cs| ==> FreshAdd(ds, cs, i))
  {
    if forall i :: 0 <= i < |cs| ==> FreshAdd(ds, cs, i) {
      forall i | 0 <= i < |ds| ensures AllEnd(ds[i].idx) {
        var ch := RunSound(ds, cs, i);
        SoundEnds(ds[i], ch, AddedSince(ds, cs, i));
      }
    } else {
      var i: nat :| i < |cs| && !FreshAdd(ds, cs, i);
      var j := StaleAddClosesSome(ds, cs, i);
    }
  }

  /** The search for every ID returns what the scan of the table returns. */
  ghost predicate Agrees(d: Db)
    requires d.idx.Shaped()
  {
    d.loaded ==> forall mid: MsgId :: Returns(d.idx, mid) && Lookup(d.idx, mid) == Scan(d.idx.mids, mid)
  }

  lemma SoundAgrees(d: Db, ch: seq<seq<nat>>, added: set<nat>)
    requires Sound(d, ch, added)
    ensures d.idx.Shaped() && Agrees(d)
  {
    if d.loaded {
      forall mid: MsgId ensures Returns(d.idx, mid) && Lookup(d.idx, mid) == Scan(d.idx.mids, mid) {
        LookupIsScan(d.idx, ch, added, mid);
      }
    }
  }

  /** After a stale ADD MID the search for some absent ID does not return. */
  lemma StaleAddDisagrees(d: Db, ch: seq<seq<nat>>, added: set<nat>, mid: MsgId, e: Db)
    requires Sound(d, ch, added) && AddAccepted(d, mid) && Step(d, AddMid(mid), e)
    requires Hash(mid) in added || Hash(mid) == UNUSED
    ensures e.idx.Shaped() && !Agrees(e)
  {
    LookupIsScan(d.idx, ch, added, mid);
    AddClosesBucket(d.idx, ch, added, mid);
    assert e.idx == Added(d.idx, mid);
    var absent := AbsentId(e.idx.mids, Hash(mid));
  }

  lemma {:induction false} StaleAddDisagreesSome(ds: seq<Db>, cs: seq<Command>, i: nat) returns (j: nat)
    requires Run(ds, cs) && i < |cs| && !FreshAdd(ds, cs, i)
    ensures j < |ds| && !Agrees(ds[j])
  {
    if forall k :: 0 <= k < i ==> FreshAdd(ds, cs, k) {
      var ch := RunSound(ds, cs, i);
      assert Steps(ds, cs, i);
      StaleAddDisagrees(ds[i], ch, AddedSince(ds, cs, i), cs[i].mid, ds[i + 1]);
      j := i + 1;
    } else {
      var k: nat :| k < i && !FreshAdd(ds, cs, k);
      j := StaleAddDisagreesSome(ds, cs, k);
    }
  }

  /** Over a run, the search for every ID returns in every state what the scan of the table returns, if
      and only if every accepted ADD MID is fresh.
   */
  lemma RunAgreesExactly(ds: seq<Db>, cs: seq<Command>)
    requires Run(ds, cs)
    ensures (forall i :: 0 <= i < |ds| ==> Agrees(ds[i])) <==> (forall i :: 0 <= i < |cs| ==> FreshAdd(ds, cs, i))
  {
    if forall i :: 0 <= i < |cs| ==> FreshAdd(ds, cs, i) {
      forall i | 0 <= i < |ds| ensures Agrees(ds[i]) {
        var ch := RunSound(ds, cs, i);
        SoundAgrees(ds[i], ch, AddedSince(ds, cs, i));
      }
    } else {
      var i: nat :| i < |cs| && !FreshAdd(ds, cs, i);
      var j := StaleAddDisagreesSome(ds, cs, i);
    }
  }

  lemma SoundEnds(d: Db, ch: seq<seq<nat>>, added: set<nat>)
    requires Sound(d, ch, added)
    ensures d.idx.Shaped() && AllEnd(d.idx)
  {
    if d.loaded {
      ReadyEnds(d.idx, ch, added);
    } else {
      forall b | 0 <= b < BUCKETS ensures Ends(d.idx, b) {
        assert ListAt(d.idx.next, d.idx.head[b], []);
      }
    }
  }

  lemma {:induction false} StaleAddClosesSome(ds: seq<Db>, cs: seq<Command>, i: nat) returns (j: nat)
    requires Run(ds, cs) && i < |cs| && !FreshAdd(ds, cs, i)
    ensures j < |ds| && !AllEnd(ds[j].idx)
  {
    if forall k :: 0 <= k < i ==> FreshAdd(ds, cs, k) {
      var ch := RunSound(ds, cs, i);
      assert Steps(ds, cs, i);
      StaleAddCloses(ds[i], ch, AddedSince(ds, cs, i), cs[i].mid, ds[i + 1]);
      j := i + 1;
    } else {
      var k: nat :| k < i && !FreshAdd(ds, cs, k);
      j := StaleAddClosesSome(ds, cs, k);
    }
  }

  lemma StaleAddCloses(d: Db, ch: seq<seq<nat>>, added: set<nat>, mid: MsgId, e: Db)
    requires Sound(d, ch, added) && AddAccepted(d, mid) && Step(d, AddMid(mid), e)
    requires Hash(mid) in added || Hash(mid) == UNUSED
    ensures e.idx.Shaped() && !AllEnd(e.idx)
  {
    LookupIsScan(d.idx, ch, added, mid);
    AddSoundExactly(d.idx, ch, added, mid);
    assert e.idx == Added(d.idx, mid);
  }

  /** The smallest failing run: over a table of unused entries, ADD MID 0x0800 is accepted, and
      then the search for the absent 0x0900 never returns.
   */
  lemma FirstAddCanClose(d: Db, e: Db)
    requires d.loaded && Built(d.idx) && forall i :: 0 <= i < PACKETS ==> d.idx.mids[i] == INVALID_MID
    requires Step(d, AddMid(0x0800), e)
    ensures e.accepted == Next8(d.accepted) && e.idx.Shaped()
    ensures 0x0900 !in e.idx.mids && !Returns(e.idx, 0x0900)
  {
    BuiltIsReady(d.idx);
    assert d.idx.mids[0] == INVALID_MID;
    LookupIsScan(d.idx, Buckets(d.idx.mids), {}, 0x0800);
    AddClosesBucket(d.idx, Buckets(d.idx.mids), {}, 0x0800);
    assert Hash(0x0800) == Hash(0x0900) == UNUSED;
    assert e.idx == Added(d.idx, 0x0800);
  }
}
