/** The command queue between the File Manager task and its child task, step by step.

    The parent verifies, fills a slot, advances the write index, counts the entry under a mutex and
    gives the semaphore. The child takes the semaphore, checks count and index, executes the
    command out of its slot, advances the read index and uncounts the entry under the mutex. Each
    load and each store of a shared variable is a step of its own, and steps of the two tasks
    interleave in any way.
 */
module ChildQueue {

  import opened Counting

  type Cmd = nat

  /** A cleared slot. */
  const NO_CMD: Cmd := 0

  datatype Parent =
    | Idle
    | CountRead(cmd: Cmd, local: nat)
    | Verified(cmd: Cmd)
    | Filled(cmd: Cmd)
    | IndexRaised(cmd: Cmd)
    | IndexWrapped(cmd: Cmd)
    | Locked(cmd: Cmd)
    | Loaded(cmd: Cmd, local: nat)
    | Stored
    | Unlocked

  datatype Child =
    | Waiting
    | Taken
    | CountChecked
    | Executing(run: Cmd)
    | Executed
    | ReadRaised
    | ReadWrapped
    | Holding
    | Fetched(value: nat)
    | Released
    | EmptyExit
    | IndexExit
    | TakeFailed
    | Dead

  datatype Owner = Free | ByParent | ByChild

  /** The shared variables, where each task stands, and a record of what happened: the commands
      accepted and started, in order, and how many entries were uncounted, with the slot of the
      first entry that was not.
   */
  datatype State = State(
    depth: nat, queue: seq<Cmd>, writeIndex: nat, readIndex: nat, count: nat,
    semaphore: bool, tokens: nat, mutex: Owner,
    parent: Parent, child: Child, successes: nat, errors: nat,
    accepted: seq<Cmd>, started: seq<Cmd>, released: nat, base: nat)

  ghost predicate Initial(s: State) {
    && 1 <= s.depth <= 10 && |s.queue| == s.depth
    && s.writeIndex == s.readIndex == s.count == s.tokens == s.released == s.base == 0
    && s.semaphore && s.mutex == Free && s.parent == Idle && s.child == Waiting
    && s.successes == s.errors == 0 && s.accepted == s.started == []
  }

  // ---------- The steps ----------

  datatype Verdict = Disabled | Full | Broken | Accept

  /** The decision of the verification, on its own copy of the count. */
  function Verify(s: State, local: nat): Verdict {
    if !s.semaphore then Disabled
    else if local == s.depth then Full
    else if local > s.depth || s.writeIndex >= s.depth then Broken
    else Accept
  }

  function Wrap(depth: nat, i: nat): nat {
    if i >= depth then 0 else i
  }

  predicate ParentReady(s: State) {
    s.parent != Idle && (s.parent.IndexWrapped? ==> s.mutex == Free)
  }

  function Put(queue: seq<Cmd>, i: nat, cmd: Cmd): seq<Cmd> {
    if i < |queue| then queue[i := cmd] else queue
  }

  function ParentStep(s: State): State
    requires ParentReady(s)
  {
    match s.parent
    case Idle => s
    case CountRead(cmd, local) =>
      if Verify(s, local) == Accept then s.(queue := Put(s.queue, s.writeIndex, NO_CMD), parent := Verified(cmd))
      else s.(parent := Idle)
    case Verified(cmd) => s.(queue := Put(s.queue, s.writeIndex, cmd), parent := Filled(cmd))
    case Filled(cmd) => s.(writeIndex := s.writeIndex + 1, parent := IndexRaised(cmd))
    case IndexRaised(cmd) => s.(writeIndex := Wrap(s.depth, s.writeIndex), parent := IndexWrapped(cmd))
    case IndexWrapped(cmd) => s.(mutex := ByParent, parent := Locked(cmd))
    case Locked(cmd) => s.(parent := Loaded(cmd, s.count))
    case Loaded(cmd, local) => s.(count := Next8(local), accepted := s.accepted + [cmd], parent := Stored)
    case Stored => s.(mutex := Free, parent := Unlocked)
    case Unlocked => s.(tokens := if s.semaphore then s.tokens + 1 else s.tokens, parent := Idle)
  }

  /** A new ground command: the parent copies the count. */
  function RequestStep(s: State, cmd: Cmd): State
    requires s.parent == Idle
  {
    s.(parent := CountRead(cmd, s.count))
  }

  predicate ChildReady(s: State, take: bool) {
    && s.child != Dead
    && (s.child == Waiting && take ==> s.tokens > 0)
    && (s.child == ReadWrapped ==> s.mutex == Free)
  }

  /** `take` is the result of the semaphore call, `success` that of the command. */
  function ChildStep(s: State, take: bool, success: bool): State
    requires ChildReady(s, take)
  {
    match s.child
    case Waiting => if take then s.(tokens := s.tokens - 1, child := Taken) else s.(child := TakeFailed)
    case Taken => if s.count == 0 then s.(errors := Next8(s.errors), child := EmptyExit) else s.(child := CountChecked)
    case CountChecked =>
      if s.readIndex >= s.depth || s.readIndex >= |s.queue| then s.(errors := Next8(s.errors), child := IndexExit)
      else s.(child := Executing(s.queue[s.readIndex]), started := s.started + [s.queue[s.readIndex]])
    case Executing(_) =>
      if success then s.(successes := Next8(s.successes), child := Executed)
      else s.(errors := Next8(s.errors), child := Executed)
    case Executed => s.(readIndex := s.readIndex + 1, child := ReadRaised)
    case ReadRaised => s.(readIndex := Wrap(s.depth, s.readIndex), child := ReadWrapped)
    case ReadWrapped => s.(mutex := ByChild, child := Holding)
    case Holding => s.(child := Fetched(s.count))
    case Fetched(value) => s.(count := if value == 0 then 255 else value - 1, child := Released, released := s.released + 1, base := Slot(s.depth, s.base, 1))
    case Released => s.(mutex := Free, child := Waiting)
    case EmptyExit => s.(semaphore := false, child := Dead)
    case IndexExit => s.(semaphore := false, child := Dead)
    case TakeFailed => s.(semaphore := false, child := Dead)
    case Dead => s
  }

  /** The slot `k` places after slot `base` of the ring. */
  function Slot(depth: nat, base: nat, k: nat): nat {
    if base + k < depth then base + k else if base + k < depth + depth then base + k - depth else 0
  }

  // ---------- What every step keeps ----------

  predicate Busy(c: Child) {
    c.Executing? || c.Executed? || c.ReadRaised? || c.ReadWrapped? || c.Holding? || c.Fetched?
  }

  predicate HasToken(c: Child) {
    c.Taken? || c.CountChecked? || Busy(c)
  }

  predicate Entering(p: Parent) {
    p.Verified? || p.Filled? || p.IndexRaised? || p.IndexWrapped? || p.Locked? || p.Loaded?
  }

  ghost predicate Shape(s: State) {
    && 1 <= s.depth <= 10 && |s.queue| == s.depth && s.base < s.depth
    && s.count <= s.depth && |s.accepted| == s.released + s.count
  }

  /** The entries of the ring are, untouched, the accepted commands not yet uncounted. */
  ghost predicate Ring(s: State) {
    && Shape(s)
    && (forall k :: 0 <= k < s.count ==> Holds(s.queue, s.base, s.accepted, s.released, k))
  }

  ghost predicate Holds(queue: seq<Cmd>, base: nat, accepted: seq<Cmd>, released: nat, k: nat) {
    && Slot(|queue|, base, k) < |queue| && released + k < |accepted|
    && queue[Slot(|queue|, base, k)] == accepted[released + k]
  }

  /** Where the write index stands: past the entry being added only once it has been raised. */
  function WriteIndexAt(s: State): nat {
    if s.parent.IndexRaised? then Slot(s.depth, s.base, s.count) + 1
    else Slot(s.depth, s.base, s.count + One(s.parent.IndexWrapped? || s.parent.Locked? || s.parent.Loaded?))
  }

  ghost predicate ParentAt(s: State) {
    && (s.parent.CountRead? ==> s.count <= s.parent.local <= s.depth)
    && (Entering(s.parent) ==> s.count < s.depth)
    && s.writeIndex == WriteIndexAt(s)
    && (Entering(s.parent) && !s.parent.Verified? ==> Holds(s.queue, s.base, s.accepted + [s.parent.cmd], s.released, s.count))
    && (s.parent.Loaded? ==> s.parent.local == s.count)
    && (s.mutex == ByParent <==> s.parent.Locked? || s.parent.Loaded? || s.parent.Stored?)
  }

  function ReadIndexAt(s: State): nat {
    if s.child.ReadRaised? then s.base + 1
    else Slot(s.depth, s.base, One(s.child.ReadWrapped? || s.child.Holding? || s.child.Fetched?))
  }

  ghost predicate ChildAt(s: State) {
    && !s.child.EmptyExit? && !s.child.IndexExit?
    && (HasToken(s.child) ==> s.count >= 1)
    && s.readIndex == ReadIndexAt(s)
    && (s.child.Fetched? ==> s.child.value == s.count)
    && (s.mutex == ByChild <==> s.child.Holding? || s.child.Fetched? || s.child.Released?)
    && (s.semaphore <==> !s.child.Dead?)
  }

  ghost predicate Tokens(s: State) {
    s.semaphore ==> s.tokens + One(HasToken(s.child)) + One(s.parent.Stored? || s.parent.Unlocked?) == s.count
  }

  /** What the child started is what was accepted, up to the entry it is busy with; the counters
      count what it finished.
   */
  ghost predicate Record(s: State) {
    && s.released + One(Busy(s.child)) <= |s.accepted|
    && s.started == s.accepted[..s.released + One(Busy(s.child))]
    && (s.child.Executing? ==> s.child.run == s.accepted[s.released])
    && s.successes < 256 && s.errors < 256
    && (s.successes + s.errors) % 256 == (|s.started| - One(s.child.Executing?)) % 256
  }

  ghost predicate Inv(s: State) {
    Ring(s) && ParentAt(s) && ChildAt(s) && Tokens(s) && Record(s)
  }

  lemma InitialInv(s: State)
    requires Initial(s)
    ensures Inv(s)
  {
  }

  lemma RequestKeeps(s: State, cmd: Cmd)
    requires Inv(s) && s.parent == Idle
    ensures Inv(RequestStep(s, cmd))
  {
    var t := RequestStep(s, cmd);
    assert Ring(t);
  }

  /** The slot the parent writes is none of those in use. */
  lemma WriteElsewhere(s: State, cmd: Cmd)
    requires Ring(s) && s.writeIndex == Slot(s.depth, s.base, s.count) && s.count < s.depth
    ensures Ring(s.(queue := Put(s.queue, s.writeIndex, cmd)))
  {
    var t := s.(queue := Put(s.queue, s.writeIndex, cmd));
    forall k | 0 <= k < t.count ensures Holds(t.queue, t.base, t.accepted, t.released, k) {
      assert Holds(s.queue, s.base, s.accepted, s.released, k);
    }
  }

  lemma CountedEntry(s: State)
    requires Ring(s) && ParentAt(s) && s.parent.Loaded?
    ensures Ring(ParentStep(s))
  {
    var t := ParentStep(s);
    forall k | 0 <= k < t.count ensures Holds(t.queue, t.base, t.accepted, t.released, k) {
      if k < s.count {
        assert Holds(s.queue, s.base, s.accepted, s.released, k);
      }
    }
  }

  /** The ring part of the invariant reads little of the state. */
  lemma SameRing(s: State, t: State)
    requires Ring(s) && s.queue == t.queue && s.depth == t.depth && s.base == t.base && s.count == t.count
    requires s.accepted == t.accepted && s.released == t.released
    ensures Ring(t)
  {
  }

  lemma ParentRing(s: State)
    requires Ring(s) && ParentAt(s) && ParentReady(s)
    ensures Ring(ParentStep(s))
  {
    var t := ParentStep(s);
    if s.parent.Loaded? {
      CountedEntry(s);
    } else if s.parent.CountRead? || s.parent.Verified? {
      if t.queue != s.queue {
        var cmd := if s.parent.Verified? then s.parent.cmd else NO_CMD;
        WriteElsewhere(s, cmd);
        SameRing(s.(queue := Put(s.queue, s.writeIndex, cmd)), t);
      } else {
        SameRing(s, t);
      }
    } else {
      SameRing(s, t);
    }
  }

  lemma SlotAfter(depth: nat, base: nat, k: nat)
    requires base < depth && k < depth
    ensures Wrap(depth, Slot(depth, base, k) + 1) == Slot(depth, base, k + 1)
  {
  }

  lemma ParentIndex(s: State)
    requires s.base < s.depth && s.writeIndex == WriteIndexAt(s) && ParentReady(s)
    requires Entering(s.parent) ==> s.count < s.depth <= 10
    requires s.parent.Loaded? ==> s.parent.local == s.count
    ensures ParentStep(s).writeIndex == WriteIndexAt(ParentStep(s))
  {
    if s.parent.IndexRaised? {
      SlotAfter(s.depth, s.base, s.count);
    } else {
      var t := ParentStep(s);
      assert t.depth == s.depth && t.base == s.base;
      assert t.count == s.count + One(s.parent.Loaded?);
    }
  }

  lemma ParentParent(s: State)
    requires Shape(s) && ParentAt(s) && ParentReady(s)
    ensures ParentAt(ParentStep(s))
  {
    ParentIndex(s);
  }

  lemma ParentChild(s: State)
    requires Shape(s) && ParentAt(s) && ChildAt(s) && ParentReady(s)
    ensures ChildAt(ParentStep(s))
  {
    var t := ParentStep(s);
    assert (t.child, t.base, t.depth, t.readIndex, t.semaphore) == (s.child, s.base, s.depth, s.readIndex, s.semaphore);
    assert t.count == s.count + One(s.parent.Loaded?);
  }

  lemma ParentTokens(s: State)
    requires Shape(s) && ParentAt(s) && Tokens(s) && ParentReady(s)
    ensures Tokens(ParentStep(s))
  {
  }

  lemma ParentRecord(s: State)
    requires Record(s) && ParentReady(s)
    ensures Record(ParentStep(s))
  {
    var t := ParentStep(s);
    assert (t.child, t.started, t.released, t.successes, t.errors) == (s.child, s.started, s.released, s.successes, s.errors);
    assert s.accepted <= t.accepted;
  }

  lemma ParentKeeps(s: State)
    requires Inv(s) && ParentReady(s)
    ensures Inv(ParentStep(s))
  {
    ParentRing(s);
    ParentParent(s);
    ParentChild(s);
    ParentTokens(s);
    ParentRecord(s);
  }

  lemma UncountedRing(s: State)
    requires Ring(s) && s.child.Fetched? && s.child.value == s.count >= 1
    ensures Ring(ChildStep(s, true, true))
  {
    var t := ChildStep(s, true, true);
    forall k | 0 <= k < t.count ensures Holds(t.queue, t.base, t.accepted, t.released, k) {
      assert Holds(s.queue, s.base, s.accepted, s.released, k + 1);
    }
  }

  lemma ChildRing(s: State, take: bool, success: bool)
    requires Ring(s) && ChildAt(s) && ChildReady(s, take)
    ensures Ring(ChildStep(s, take, success))
  {
    if s.child.Fetched? {
      UncountedRing(s);
    } else {
      SameRing(s, ChildStep(s, take, success));
    }
  }

  /** Uncounting the first entry moves the ring on by one place: every slot keeps its number. */
  lemma UncountedParent(s: State)
    requires Shape(s) && ParentAt(s) && s.child.Fetched? && s.child.value == s.count && s.count >= 1 && s.mutex == ByChild
    ensures ParentAt(ChildStep(s, true, true))
  {
    var t := ChildStep(s, true, true);
    assert forall k :: 0 <= k <= t.count + 1 ==> Slot(t.depth, t.base, k) == Slot(s.depth, s.base, k + 1);
  }

  /** The parent's part of the invariant reads little of the state. */
  lemma SameForParent(s: State, t: State)
    requires ParentAt(s) && s.parent == t.parent && s.count == t.count && s.depth == t.depth && s.base == t.base
    requires s.queue == t.queue && s.accepted == t.accepted && s.released == t.released && s.writeIndex == t.writeIndex
    requires s.mutex == ByParent <==> t.mutex == ByParent
    ensures ParentAt(t)
  {
    assert WriteIndexAt(s) == WriteIndexAt(t);
  }

  lemma ChildParent(s: State, take: bool, success: bool)
    requires Inv(s) && ChildReady(s, take)
    ensures ParentAt(ChildStep(s, take, success))
  {
    if s.child.Fetched? {
      UncountedParent(s);
    } else {
      SameForParent(s, ChildStep(s, take, success));
    }
  }

  lemma ChildChild(s: State, take: bool, success: bool)
    requires Shape(s) && ChildAt(s) && Tokens(s) && ChildReady(s, take)
    ensures ChildAt(ChildStep(s, take, success)) && Tokens(ChildStep(s, take, success))
  {
  }

  /** The command started is the oldest of those waiting. */
  lemma StartRecorded(s: State, take: bool, success: bool)
    requires Ring(s) && ChildAt(s) && Record(s) && s.child.CountChecked?
    ensures Record(ChildStep(s, take, success))
  {
    assert Holds(s.queue, s.base, s.accepted, s.released, 0);
    assert s.accepted[..s.released + 1] == s.accepted[..s.released] + [s.accepted[s.released]];
  }

  lemma ChildRecord(s: State, take: bool, success: bool)
    requires Ring(s) && ChildAt(s) && Record(s) && ChildReady(s, take)
    ensures Record(ChildStep(s, take, success))
  {
    if s.child.CountChecked? {
      StartRecorded(s, take, success);
    } else if s.child.Executing? {
      FinishedOne(s.successes, s.errors, |s.started| - 1);
    }
  }

  lemma ChildKeeps(s: State, take: bool, success: bool)
    requires Inv(s) && ChildReady(s, take)
    ensures Inv(ChildStep(s, take, success))
  {
    ChildRing(s, take, success);
    ChildParent(s, take, success);
    ChildChild(s, take, success);
    ChildRecord(s, take, success);
  }

  // ---------- Runs ----------

  /** What may happen next: a ground command arrives, or one of the tasks takes a step. */
  datatype Move = Ask(cmd: Cmd) | ParentMove | ChildMove(take: bool, success: bool)

  predicate Can(s: State, m: Move) {
    match m
    case Ask(_) => s.parent == Idle
    case ParentMove => ParentReady(s)
    case ChildMove(take, _) => ChildReady(s, take)
  }

  function Apply(s: State, m: Move): State
    requires Can(s, m)
  {
    match m
    case Ask(cmd) => RequestStep(s, cmd)
    case ParentMove => ParentStep(s)
    case ChildMove(take, success) => ChildStep(s, take, success)
  }

  /** A task that is blocked or done when its turn comes stays where it is. */
  function Next(s: State, m: Move): State {
    if Can(s, m) then Apply(s, m) else s
  }

  /** One interleaving of the two tasks. */
  function Run(s: State, moves: seq<Move>): State {
    if moves == [] then s
    else
      Next(Run(s, moves[..|moves| - 1]), moves[|moves| - 1])
  }

  lemma {:induction false} RunKeeps(s: State, moves: seq<Move>)
    requires Inv(s)
    ensures Inv(Run(s, moves))
  {
    if moves != [] {
      RunKeeps(s, moves[..|moves| - 1]);
      var t := Run(s, moves[..|moves| - 1]);
      var m := moves[|moves| - 1];
      if Can(t, m) {
        match m
        case Ask(cmd) => RequestKeeps(t, cmd);
        case ParentMove => ParentKeeps(t);
        case ChildMove(take, success) => ChildKeeps(t, take, success);
      }
    }
  }

  function SlotHolds(s: State, k: int): Cmd {
    if 0 <= k && Slot(s.depth, s.base, k) < |s.queue| then s.queue[Slot(s.depth, s.base, k)] else NO_CMD
  }

  /** What the ring holds for the child to start, read slot by slot. */
  function Pending(s: State): seq<Cmd> {
    var first := One(Busy(s.child));
    var n := if s.count >= first then s.count - first else 0;
    seq<Cmd>(n, (k: int) => SlotHolds(s, k + first))
  }

  lemma PendingIs(s: State)
    requires Ring(s) && s.count >= One(Busy(s.child))
    ensures Pending(s) == s.accepted[s.released + One(Busy(s.child))..]
  {
    var first := One(Busy(s.child));
    var rest := s.accepted[s.released + first..];
    assert |Pending(s)| == |rest|;
    forall k | 0 <= k < |rest| ensures Pending(s)[k] == rest[k] {
      assert Holds(s.queue, s.base, s.accepted, s.released, k + first);
      assert Pending(s)[k] == SlotHolds(s, k + first);
      assert rest[k] == s.accepted[s.released + (k + first)];
    }
  }

  lemma InOrder(t: State)
    requires Ring(t) && Record(t) && (t.child.Executing? ==> t.readIndex == t.base)
    requires t.count >= One(Busy(t.child))
    ensures t.accepted == t.started + Pending(t)
    ensures t.child.Executing? ==>
              && t.readIndex < |t.queue| && t.queue[t.readIndex] == t.child.run
              && t.started != [] && t.started[|t.started| - 1] == t.child.run
  {
    PendingIs(t);
    var n := t.released + One(Busy(t.child));
    assert t.accepted == t.accepted[..n] + t.accepted[n..];
    if t.child.Executing? {
      assert Holds(t.queue, t.base, t.accepted, t.released, 0);
    }
  }

  /** In every interleaving commands are started at most once and in the order they were accepted,
      none is lost, and the one being executed stays in its slot.
   */
  lemma StartedInOrder(s: State, moves: seq<Move>)
    requires Initial(s)
    ensures var t := Run(s, moves);
            && t.accepted == t.started + Pending(t)
            && (t.child.Executing? ==>
                  && t.readIndex < |t.queue| && t.queue[t.readIndex] == t.child.run
                  && t.started != [] && t.started[|t.started| - 1] == t.child.run)
  {
    InitialInv(s);
    RunKeeps(s, moves);
    var t := Run(s, moves);
    InOrder(t);
  }

  /** The exits for an empty queue, a bad index and a broken interface are never taken. */
  lemma NeverBroken(s: State, moves: seq<Move>)
    requires Initial(s)
    ensures var t := Run(s, moves);
            && !t.child.EmptyExit? && !t.child.IndexExit?
            && (t.parent.CountRead? ==> Verify(t, t.parent.local) != Broken)
            && ((t.parent.Idle? || t.parent.CountRead? || t.parent.Verified?) ==> t.writeIndex < t.depth)
            && (t.child.CountChecked? ==> t.readIndex < t.depth)
  {
    InitialInv(s);
    RunKeeps(s, moves);
  }

  /** Between commands of both tasks the indices differ by the count, and while the child lives the
      semaphore holds one token for each entry.
   */
  lemma IndicesAgree(s: State, moves: seq<Move>)
    requires Initial(s)
    ensures var t := Run(s, moves);
            && t.count <= t.depth && t.depth > 0
            && (t.parent.Idle? && (t.child.Waiting? || t.child.Taken? || t.child.CountChecked? || t.child.Dead?) ==>
                  t.writeIndex == (t.readIndex + t.count) % t.depth)
            && (t.semaphore ==> t.tokens + One(HasToken(t.child)) + One(t.parent.Stored? || t.parent.Unlocked?) == t.count)
  {
    InitialInv(s);
    RunKeeps(s, moves);
    var t := Run(s, moves);
    if t.base + t.count < t.depth {
      SmallMod(t.base + t.count, t.depth);
    } else {
      WrapMod(t.base + t.count, t.depth);
    }
  }

  /** Every command the child finished raised exactly one of its two counters. */
  lemma CountersCountFinished(s: State, moves: seq<Move>)
    requires Initial(s)
    ensures var t := Run(s, moves);
            (t.successes + t.errors) % 256 == (|t.started| - One(t.child.Executing?)) % 256
  {
    InitialInv(s);
    RunKeeps(s, moves);
  }

  lemma TakeSucceeds(s: State, m: Move)
    requires s.semaphore && !s.child.TakeFailed? && !s.child.EmptyExit? && !s.child.IndexExit?
    requires m.ChildMove? ==> m.take
    ensures Next(s, m).semaphore && !Next(s, m).child.TakeFailed?
  {
  }

  /** The child stops only when its semaphore call fails. */
  lemma {:induction false} OnlyTakeEnds(s: State, moves: seq<Move>)
    requires Initial(s)
    requires forall i :: 0 <= i < |moves| && moves[i].ChildMove? ==> moves[i].take
    ensures Run(s, moves).semaphore && !Run(s, moves).child.TakeFailed?
  {
    if moves != [] {
      var before := moves[..|moves| - 1];
      OnlyTakeEnds(s, before);
      NeverBroken(s, before);
      TakeSucceeds(Run(s, before), moves[|moves| - 1]);
    }
  }

  /** A failing semaphore call ends the child: whatever the parent does, its next step deletes the
      semaphore, and no command is started or counted any more.
   */
  lemma {:induction false} FailureEnds(s: State, success: bool, moves: seq<Move>)
    requires s.child == Waiting && s.semaphore
    ensures var t := Run(Next(s, ChildMove(false, success)), moves);
            && t.started == s.started && t.successes == s.successes && t.errors == s.errors && t.tokens >= s.tokens
            && (if Moved(moves) then t.child == Dead && !t.semaphore else t.child == TakeFailed && t.semaphore)
  {
    if moves != [] {
      FailureEnds(s, success, moves[..|moves| - 1]);
    }
  }

  /** The child's turn comes at some move. */
  predicate Moved(moves: seq<Move>) {
    moves != [] && (Moved(moves[..|moves| - 1]) || moves[|moves| - 1].ChildMove?)
  }

  /** No deadlock: a task that is in the middle of something can go on, or waits for a lock whose
      holder can go on; and an idle parent leaves no accepted command waiting for a stuck child.
   */
  lemma NoDeadlock(s: State, moves: seq<Move>)
    requires Initial(s)
    ensures var t := Run(s, moves);
            && (t.parent.Idle? || ParentReady(t) || (t.mutex == ByChild && ChildReady(t, true)))
            && (t.child.Waiting? || t.child.Dead? || ChildReady(t, true) || (t.mutex == ByParent && ParentReady(t)))
            && (t.parent.Idle? && t.semaphore && t.count > 0 ==> ChildReady(t, true))
  {
    InitialInv(s);
    RunKeeps(s, moves);
  }

  // ---------- One whole submission, one whole service ----------

  /** The moves of a parent that is not interrupted. */
  function Submission(cmd: Cmd): seq<Move> {
    [Ask(cmd)] + seq(9, _ => ParentMove)
  }

  /** The moves of a child that is not interrupted. */
  function Service(success: bool): seq<Move> {
    seq(10, _ => ChildMove(true, success))
  }

  function Submitted(s: State, cmd: Cmd): State {
    if Verify(s, s.count) != Accept then s
    else s.(queue := Put(s.queue, s.writeIndex, cmd), writeIndex := Wrap(s.depth, s.writeIndex + 1), count := Next8(s.count),
            accepted := s.accepted + [cmd], tokens := s.tokens + 1)
  }

  function Served(s: State, success: bool): State
    requires s.readIndex < |s.queue|
  {
    s.(tokens := if s.tokens > 0 then s.tokens - 1 else 0, readIndex := Wrap(s.depth, s.readIndex + 1),
       count := if s.count == 0 then 255 else s.count - 1, started := s.started + [s.queue[s.readIndex]],
       successes := if success then Next8(s.successes) else s.successes,
       errors := if success then s.errors else Next8(s.errors),
       released := s.released + 1, base := Slot(s.depth, s.base, 1))
  }

  /** The same move `n` times over. */
  function Again(s: State, m: Move, n: nat): State {
    if n == 0 then s else Next(Again(s, m, n - 1), m)
  }

  lemma {:induction false} RunJoins(s: State, first: seq<Move>, second: seq<Move>)
    ensures Run(s, first + second) == Run(Run(s, first), second)
  {
    if second == [] {
      assert first + second == first;
    } else {
      var n := |second| - 1;
      assert (first + second)[..|first| + n] == first + second[..n];
      RunJoins(s, first, second[..n]);
    }
  }

  lemma {:induction false} AgainIsRun(s: State, m: Move, n: nat)
    ensures Run(s, seq(n, _ => m)) == Again(s, m, n)
  {
    if n > 0 {
      AgainIsRun(s, m, n - 1);
      assert seq(n, _ => m)[..n - 1] == seq(n - 1, _ => m);
    }
  }

  lemma GoesTo(s: State, m: Move, n: nat, t: State, u: State)
    requires Again(s, m, n) == t && u == Next(t, m)
    ensures Again(s, m, n + 1) == u
  {
  }

  /** A request the parent can accept when nothing interrupts it. */
  predicate Acceptable(s: State) {
    s.parent.CountRead? && s.parent.local == s.count && Verify(s, s.count) == Accept && s.mutex == Free && s.writeIndex < |s.queue|
  }

  function EntryWrite(s: State, cmd: Cmd): State {
    s.(queue := Put(s.queue, s.writeIndex, cmd), writeIndex := s.writeIndex + 1, parent := IndexRaised(cmd))
  }

  lemma EntryWritten(s: State, cmd: Cmd)
    requires Acceptable(s) && s.parent.cmd == cmd
    ensures Again(s, ParentMove, 3) == EntryWrite(s, cmd)
  {
    var s1 := s.(queue := Put(s.queue, s.writeIndex, NO_CMD), parent := Verified(cmd));
    GoesTo(s, ParentMove, 0, s, s1);
    var s2 := s1.(queue := Put(s.queue, s.writeIndex, cmd), parent := Filled(cmd));
    GoesTo(s, ParentMove, 1, s1, s2);
    GoesTo(s, ParentMove, 2, s2, EntryWrite(s, cmd));
  }

  function CountLoad(s: State, cmd: Cmd): State {
    s.(queue := Put(s.queue, s.writeIndex, cmd), writeIndex := Wrap(s.depth, s.writeIndex + 1), mutex := ByParent,
       parent := Loaded(cmd, s.count))
  }

  lemma CountLoaded(s: State, cmd: Cmd)
    requires Acceptable(s) && s.parent.cmd == cmd
    ensures Again(s, ParentMove, 6) == CountLoad(s, cmd)
  {
    EntryWritten(s, cmd);
    var s3 := EntryWrite(s, cmd);
    var s4 := s3.(writeIndex := Wrap(s.depth, s.writeIndex + 1), parent := IndexWrapped(cmd));
    GoesTo(s, ParentMove, 3, s3, s4);
    var s5 := s4.(mutex := ByParent, parent := Locked(cmd));
    GoesTo(s, ParentMove, 4, s4, s5);
    GoesTo(s, ParentMove, 5, s5, CountLoad(s, cmd));
  }

  lemma EntryCounted(s: State, cmd: Cmd)
    requires Acceptable(s) && s.parent.cmd == cmd
    ensures Again(s, ParentMove, 9) == Submitted(s, cmd).(parent := Idle)
  {
    CountLoaded(s, cmd);
    var s6 := CountLoad(s, cmd);
    var s7 := s6.(count := Next8(s.count), accepted := s.accepted + [cmd], parent := Stored);
    GoesTo(s, ParentMove, 6, s6, s7);
    var s8 := s7.(mutex := Free, parent := Unlocked);
    GoesTo(s, ParentMove, 7, s7, s8);
    GoesTo(s, ParentMove, 8, s8, s8.(tokens := s.tokens + 1, parent := Idle));
  }

  lemma {:induction false} Refused(s: State, n: nat)
    requires s.parent.CountRead? && Verify(s, s.parent.local) != Accept && n >= 1
    ensures Again(s, ParentMove, n) == s.(parent := Idle)
  {
    if n > 1 {
      Refused(s, n - 1);
    }
  }

  /** Uninterrupted, the parent's ten moves add one command or, refused, change nothing. */
  lemma SubmissionIs(s: State, cmd: Cmd)
    requires Inv(s) && s.parent.Idle? && s.mutex == Free
    ensures Run(s, Submission(cmd)) == Submitted(s, cmd)
  {
    var s0 := RequestStep(s, cmd);
    RunJoins(s, [Ask(cmd)], seq(9, _ => ParentMove));
    assert Run(s, [Ask(cmd)]) == s0 by { assert [Ask(cmd)][..0] == []; }
    AgainIsRun(s0, ParentMove, 9);
    if Verify(s, s.count) == Accept {
      EntryCounted(s0, cmd);
    } else {
      Refused(s0, 9);
    }
  }

  /** An accepted submission adds the command at the end of the queue, behind all that was accepted. */
  lemma SubmissionKeeps(s: State, cmd: Cmd)
    requires Inv(s) && s.parent.Idle? && s.mutex == Free
    ensures Inv(Submitted(s, cmd))
    ensures Verify(s, s.count) == Accept <==> s.semaphore && s.count < s.depth
    ensures Verify(s, s.count) == Accept ==> Pending(Submitted(s, cmd)) == Pending(s) + [cmd]
  {
    SubmissionIs(s, cmd);
    RunKeeps(s, Submission(cmd));
    PendingIs(s);
    PendingIs(Submitted(s, cmd));
  }

  function Execute(s: State, success: bool): State
    requires s.readIndex < |s.queue|
  {
    s.(tokens := if s.tokens > 0 then s.tokens - 1 else 0, started := s.started + [s.queue[s.readIndex]],
       successes := if success then Next8(s.successes) else s.successes,
       errors := if success then s.errors else Next8(s.errors), child := Executed)
  }

  predicate Servable(s: State) {
    s.child.Waiting? && s.mutex == Free && s.tokens > 0 && s.count > 0 && s.readIndex < s.depth == |s.queue|
  }

  lemma CommandExecuted(s: State, success: bool)
    requires Servable(s)
    ensures Again(s, ChildMove(true, success), 4) == Execute(s, success)
  {
    var m := ChildMove(true, success);
    var s1 := s.(tokens := s.tokens - 1, child := Taken);
    GoesTo(s, m, 0, s, s1);
    var s2 := s1.(child := CountChecked);
    GoesTo(s, m, 1, s1, s2);
    var s3 := s2.(child := Executing(s.queue[s.readIndex]), started := s.started + [s.queue[s.readIndex]]);
    GoesTo(s, m, 2, s2, s3);
    GoesTo(s, m, 3, s3, Execute(s, success));
  }

  lemma IndexMoved(s: State, success: bool)
    requires Servable(s)
    ensures Again(s, ChildMove(true, success), 7) ==
            Execute(s, success).(readIndex := Wrap(s.depth, s.readIndex + 1), mutex := ByChild, child := Holding)
  {
    var m := ChildMove(true, success);
    CommandExecuted(s, success);
    var s4 := Execute(s, success);
    var s5 := s4.(readIndex := s.readIndex + 1, child := ReadRaised);
    GoesTo(s, m, 4, s4, s5);
    var s6 := s5.(readIndex := Wrap(s.depth, s.readIndex + 1), child := ReadWrapped);
    GoesTo(s, m, 5, s5, s6);
    GoesTo(s, m, 6, s6, s6.(mutex := ByChild, child := Holding));
  }

  lemma EntryUncounted(s: State, success: bool)
    requires Servable(s)
    ensures Again(s, ChildMove(true, success), 10) == Served(s, success)
  {
    var m := ChildMove(true, success);
    IndexMoved(s, success);
    var s7 := Execute(s, success).(readIndex := Wrap(s.depth, s.readIndex + 1), mutex := ByChild, child := Holding);
    var s8 := s7.(child := Fetched(s.count));
    GoesTo(s, m, 7, s7, s8);
    var s9 := s8.(count := s.count - 1, child := Released, released := s.released + 1, base := Slot(s.depth, s.base, 1));
    GoesTo(s, m, 8, s8, s9);
    GoesTo(s, m, 9, s9, s9.(mutex := Free, child := Waiting));
  }

  /** Uninterrupted, the child's ten moves execute the first command and uncount it. */
  lemma ServiceIs(s: State, success: bool)
    requires Servable(s)
    ensures Run(s, Service(success)) == Served(s, success)
  {
    EntryUncounted(s, success);
    AgainIsRun(s, ChildMove(true, success), 10);
    assert Service(success) == seq(10, _ => ChildMove(true, success));
  }

  function Services(results: seq<bool>): seq<Move> {
    if results == [] then [] else Service(results[0]) + Services(results[1..])
  }

  /** Left alone with a live child, the queue drains: every accepted command is executed, in order,
      with one service for each entry, and the child waits again.
   */
  lemma {:induction false} Drains(s: State, results: seq<bool>)
    requires Inv(s) && s.semaphore && s.parent.Idle? && s.child.Waiting? && |results| == s.count
    ensures var t := Run(s, Services(results));
            && t.started == t.accepted == s.accepted
            && t.count == t.tokens == 0 && t.readIndex == t.writeIndex == s.writeIndex
            && t.child.Waiting? && t.semaphore
    decreases |results|
  {
    if results != [] {
      assert Holds(s.queue, s.base, s.accepted, s.released, 0);
      ServiceIs(s, results[0]);
      RunKeeps(s, Service(results[0]));
      RunJoins(s, Service(results[0]), Services(results[1..]));
      Drains(Run(s, Service(results[0])), results[1..]);
    }
  }
}
