/** The question whether a file is open, as two tasks ask it at the same time.

    The search over the open handles reports what it finds in one variable that the parent task and
    the child task share, without a lock. A task clears it, looks at one handle after the other and
    sets it at each handle of the name it looks for, and reads it at the end; steps of the tasks
    interleave in any way. The handles themselves do not change meanwhile.

    A handle tells the name under which its file was opened. Which file a name denotes is for the
    operating system to say, and several names may denote one file.
 */
module OpenQuery {

  datatype Who = Parent | Child

  datatype Task = Idle | Searching(path: string, next: nat) | Answered(path: string, isOpen: bool)

  /** `handles` are the names of the open files. */
  datatype State = State(handles: seq<string>, fileIsOpen: bool, parent: Task, child: Task)

  /** A task starts to ask for a file, looks at its next handle, whose information it gets or not, or
      reads the answer.
   */
  datatype Move = Ask(who: Who, path: string) | Look(who: Who, info: bool) | Read(who: Who)

  function TaskOf(s: State, who: Who): Task {
    if who == Parent then s.parent else s.child
  }

  function With(s: State, who: Who, t: Task): State {
    if who == Parent then s.(parent := t) else s.(child := t)
  }

  /** The move clears the variable: a task starts to ask. */
  predicate Clears(s: State, m: Move) {
    m.Ask? && !TaskOf(s, m.who).Searching?
  }

  /** The move finds a handle of the name its task looks for, and sets the variable. */
  predicate Finds(s: State, m: Move) {
    var t := TaskOf(s, m.who);
    m.Look? && t.Searching? && t.next < |s.handles| && m.info && s.handles[t.next] == t.path
  }

  function Next(s: State, m: Move): State {
    var t := TaskOf(s, m.who);
    match m
    case Ask(who, path) => if t.Searching? then s else With(s, who, Searching(path, 0)).(fileIsOpen := false)
    case Look(who, info) =>
      if !t.Searching? || t.next >= |s.handles| then s
      else With(s, who, t.(next := t.next + 1)).(fileIsOpen := s.fileIsOpen || Finds(s, m))
    case Read(who) =>
      if !t.Searching? || t.next < |s.handles| then s
      else With(s, who, Answered(t.path, s.fileIsOpen))
  }

  function Run(s: State, moves: seq<Move>): State {
    if moves == [] then s else Next(Run(s, moves[..|moves| - 1]), moves[|moves| - 1])
  }

  /** The file that the name denotes is open, under whatever name. */
  predicate Open(handles: seq<string>, denote: string -> int, path: string) {
    exists k :: 0 <= k < |handles| && denote(handles[k]) == denote(path)
  }

  // ---------- The last write ----------

  predicate Writes(s: State, moves: seq<Move>, k: nat)
    requires k < |moves|
  {
    Clears(Run(s, moves[..k]), moves[k]) || Finds(Run(s, moves[..k]), moves[k])
  }

  predicate Found(s: State, moves: seq<Move>, k: nat)
    requires k < |moves|
  {
    Finds(Run(s, moves[..k]), moves[k])
  }

  /** Move `w` writes the variable, and none after it does. */
  ghost predicate LastWrite(s: State, moves: seq<Move>, w: nat) {
    w < |moves| && Writes(s, moves, w) && forall k :: w < k < |moves| ==> !Writes(s, moves, k)
  }

  /** Move `a` starts the question that task `who` has not had answered yet. */
  ghost predicate Asked(s: State, moves: seq<Move>, who: Who, a: nat) {
    && a < |moves| && moves[a].Ask? && moves[a].who == who && Clears(Run(s, moves[..a]), moves[a])
    && forall k :: a < k <= |moves| ==> SearchingAt(s, moves, who, k, moves[a].path)
  }

  predicate SearchingAt(s: State, moves: seq<Move>, who: Who, k: nat, path: string)
    requires k <= |moves|
  {
    var t := TaskOf(Run(s, moves[..k]), who);
    t.Searching? && t.path == path
  }

  lemma RunSnoc(s: State, moves: seq<Move>, m: Move)
    ensures Run(s, moves + [m]) == Next(Run(s, moves), m)
  {
    assert (moves + [m])[..|moves|] == moves;
  }

  /** All but the last move, and the moves before any of these. */
  lemma Earlier(moves: seq<Move>, k: nat)
    requires k < |moves|
    ensures moves[..|moves| - 1][..k] == moves[..k] && (k < |moves| - 1 ==> moves[..|moves| - 1][k] == moves[k])
  {
  }

  lemma EarlierWrites(s: State, moves: seq<Move>, k: nat)
    requires k < |moves| - 1
    ensures Writes(s, moves[..|moves| - 1], k) == Writes(s, moves, k) && Found(s, moves[..|moves| - 1], k) == Found(s, moves, k)
  {
    Earlier(moves, k);
  }

  lemma {:induction false} HandlesStay(s: State, moves: seq<Move>)
    ensures Run(s, moves).handles == s.handles
  {
    if moves != [] {
      HandlesStay(s, moves[..|moves| - 1]);
    }
  }

  /** In any interleaving the variable tells whether the last write was a find. */
  lemma {:induction false} VariableIsLastWrite(s: State, moves: seq<Move>, w: nat)
    requires LastWrite(s, moves, w)
    ensures Run(s, moves).fileIsOpen == Found(s, moves, w)
  {
    var n := |moves| - 1;
    if w < n {
      var before := moves[..n];
      EarlierWrites(s, moves, w);
      forall k | w < k < n ensures !Writes(s, before, k) {
        EarlierWrites(s, moves, k);
      }
      VariableIsLastWrite(s, before, w);
      assert !Writes(s, moves, n);
    }
  }

  /** While a task searches, its question was asked, and the variable written since. */
  lemma {:induction false} QuestionAsked(s: State, moves: seq<Move>, who: Who) returns (a: nat, w: nat)
    requires !TaskOf(s, who).Searching? && TaskOf(Run(s, moves), who).Searching?
    ensures Asked(s, moves, who, a) && LastWrite(s, moves, w) && a <= w
  {
    var n := |moves| - 1;
    var before := moves[..n];
    assert moves[..|moves|] == moves;
    if TaskOf(Run(s, before), who).Searching? {
      a, w := QuestionAsked(s, before, who);
      AskedStill(s, moves, who, a);
      if Writes(s, moves, n) {
        w := n;
      } else {
        LastStill(s, moves, w);
      }
    } else {
      a, w := n, n;
    }
  }

  lemma AskedStill(s: State, moves: seq<Move>, who: Who, a: nat)
    requires moves != [] && Asked(s, moves[..|moves| - 1], who, a) && TaskOf(Run(s, moves), who).Searching?
    ensures Asked(s, moves, who, a)
  {
    var n := |moves| - 1;
    Earlier(moves, a);
    assert moves[..|moves|] == moves;
    assert SearchingAt(s, moves[..n], who, n, moves[a].path) && moves[..n][..n] == moves[..n];
    forall k | a < k <= n ensures SearchingAt(s, moves, who, k, moves[a].path) {
      assert SearchingAt(s, moves[..n], who, k, moves[a].path) && moves[..n][..k] == moves[..k];
    }
  }

  lemma LastStill(s: State, moves: seq<Move>, w: nat)
    requires moves != [] && LastWrite(s, moves[..|moves| - 1], w) && !Writes(s, moves, |moves| - 1)
    ensures LastWrite(s, moves, w)
  {
    EarlierWrites(s, moves, w);
    forall k | w < k < |moves| ensures !Writes(s, moves, k) {
      if k < |moves| - 1 {
        EarlierWrites(s, moves, k);
      }
    }
  }

  // ---------- When the answer is wrong ----------

  /** The task is at the end of its search. */
  predicate Ready(s: State, moves: seq<Move>, who: Who) {
    var t := TaskOf(Run(s, moves), who);
    t.Searching? && t.next == |s.handles|
  }

  /** In any interleaving, a task that now reads its answer gets a wrong one if and only if the last
      write since it asked was a start of a question, by either task, although its file is open; or was
      the other task's find, although its file is not open.
   */
  lemma WrongExactly(s: State, denote: string -> int, moves: seq<Move>, who: Who, a: nat, w: nat)
    requires !TaskOf(s, who).Searching? && Ready(s, moves, who)
    requires Asked(s, moves, who, a) && LastWrite(s, moves, w)
    ensures a <= w
    ensures var path, t := moves[a].path, TaskOf(Run(s, moves + [Read(who)]), who);
            && t.Answered? && t.path == path
            && (t.isOpen != Open(s.handles, denote, path) <==>
                  if moves[w].Ask? then Open(s.handles, denote, path)
                  else moves[w].who != who && !Open(s.handles, denote, path))
  {
    RunSnoc(s, moves, Read(who));
    HandlesStay(s, moves);
    VariableIsLastWrite(s, moves, w);
    assert SearchingAt(s, moves, who, |moves|, moves[a].path) && moves[..|moves|] == moves;
    assert Writes(s, moves, a);
    if moves[w].Look? && moves[w].who == who {
      OwnFind(s, denote, moves, who, a, w);
    }
  }

  /** What a task finds itself is the file it asks about. */
  lemma OwnFind(s: State, denote: string -> int, moves: seq<Move>, who: Who, a: nat, w: nat)
    requires Asked(s, moves, who, a) && a < w < |moves| && moves[w].who == who && Found(s, moves, w)
    ensures Open(s.handles, denote, moves[a].path)
  {
    HandlesStay(s, moves[..w]);
    assert SearchingAt(s, moves, who, w, moves[a].path);
    var t := TaskOf(Run(s, moves[..w]), who);
    assert denote(s.handles[t.next]) == denote(moves[a].path);
  }

  // ---------- A question that the other task does not interrupt ----------

  /** One look at each of the first `n` handles, with the information that each gives or not. */
  function Looks(who: Who, infos: seq<bool>, n: nat): seq<Move>
    requires n <= |infos|
  {
    if n == 0 then [] else Looks(who, infos, n - 1) + [Look(who, infos[n - 1])]
  }

  function Question(who: Who, path: string, infos: seq<bool>): seq<Move> {
    [Ask(who, path)] + Looks(who, infos, |infos|) + [Read(who)]
  }

  /** A handle of that very name gives information. */
  predicate Seen(handles: seq<string>, path: string, infos: seq<bool>, n: nat)
    requires n <= |handles| == |infos|
  {
    exists k :: 0 <= k < n && handles[k] == path && infos[k]
  }

  /** The search has looked at `n` handles, and the variable tells whether one was found. */
  ghost predicate Halfway(s: State, t: State, who: Who, path: string, infos: seq<bool>, n: nat)
    requires n <= |infos| == |s.handles|
  {
    t.handles == s.handles && TaskOf(t, who) == Searching(path, n) && t.fileIsOpen == Seen(s.handles, path, infos, n)
  }

  lemma LookFinds(s: State, t: State, who: Who, path: string, infos: seq<bool>, n: nat)
    requires n < |infos| == |s.handles| && Halfway(s, t, who, path, infos, n)
    ensures Halfway(s, Next(t, Look(who, infos[n])), who, path, infos, n + 1)
  {
  }

  lemma {:induction false} LooksFind(s: State, who: Who, path: string, infos: seq<bool>, n: nat)
    requires !TaskOf(s, who).Searching? && n <= |infos| == |s.handles|
    ensures Halfway(s, Run(s, [Ask(who, path)] + Looks(who, infos, n)), who, path, infos, n)
  {
    var start := [Ask(who, path)];
    if n == 0 {
      RunSnoc(s, [], Ask(who, path));
      assert start + [] == [] + start;
    } else {
      var before, m := start + Looks(who, infos, n - 1), Look(who, infos[n - 1]);
      LooksFind(s, who, path, infos, n - 1);
      RunSnoc(s, before, m);
      LookFinds(s, Run(s, before), who, path, infos, n - 1);
      assert start + Looks(who, infos, n) == before + [m];
    }
  }

  /** From any state, wherever the other task stands: a question that it does not interrupt is answered
      "open" if and only if a handle of the very name asked about gives information; so the answer is
      right if and only if there is one or the file is not open.
   */
  lemma AloneIs(s: State, denote: string -> int, who: Who, path: string, infos: seq<bool>)
    requires !TaskOf(s, who).Searching? && |infos| == |s.handles|
    ensures var t := TaskOf(Run(s, Question(who, path, infos)), who);
            var seen := Seen(s.handles, path, infos, |infos|);
            && t == Answered(path, seen)
            && (t.isOpen == Open(s.handles, denote, path) <==> seen || !Open(s.handles, denote, path))
  {
    LooksFind(s, who, path, infos, |infos|);
    RunSnoc(s, [Ask(who, path)] + Looks(who, infos, |infos|), Read(who));
    if Seen(s.handles, path, infos, |infos|) {
      var k :| 0 <= k < |infos| && s.handles[k] == path && infos[k];
      assert denote(s.handles[k]) == denote(path);
    }
  }

  // ---------- Wrong answers ----------

  lemma RunLast(s: State, moves: seq<Move>)
    requires moves != []
    ensures Run(s, moves) == Next(Run(s, moves[..|moves| - 1]), moves[|moves| - 1])
  {
  }

  lemma RunFour(s: State, a: Move, b: Move, c: Move, d: Move)
    ensures Run(s, [a, b, c, d]) == Next(Next(Next(Next(s, a), b), c), d)
  {
    var m := [a, b, c, d];
    RunLast(s, m);
    RunLast(s, m[..3]);
    RunLast(s, m[..2]);
    RunLast(s, m[..1]);
    assert m[..3][..2] == m[..2] && m[..2][..1] == m[..1] && m[..1][..0] == [];
  }

  /** The child has seen that its file is open when the parent asks for another file: the parent's
      start makes the child's answer "closed".
   */
  lemma OpenAnsweredClosed(s: State, denote: string -> int, path: string, other: string)
    requires s.parent == s.child == Idle && s.handles == [path]
    ensures Open(s.handles, denote, path)
    ensures Run(s, [Ask(Child, path), Look(Child, true), Ask(Parent, other), Read(Child)]).child == Answered(path, false)
  {
    RunFour(s, Ask(Child, path), Look(Child, true), Ask(Parent, other), Read(Child));
    assert denote(s.handles[0]) == denote(path);
  }

  /** The parent finds its own file open after the child has asked: the child's file is answered to be
      open although it is not.
   */
  lemma ClosedAnsweredOpen(s: State, denote: string -> int, path: string, other: string)
    requires Searching(other, 0) == s.parent && s.child == Idle && s.handles == [other] && denote(path) != denote(other)
    ensures !Open(s.handles, denote, path)
    ensures Run(s, [Ask(Child, path), Look(Child, true), Look(Parent, true), Read(Child)]).child == Answered(path, true)
  {
    RunFour(s, Ask(Child, path), Look(Child, true), Look(Parent, true), Read(Child));
  }

  /** Without any interruption: a file opened under another name, and one whose only handle gives no
      information, are answered to be closed.
   */
  lemma AliasAnsweredClosed(s: State, denote: string -> int, who: Who)
    requires !TaskOf(s, who).Searching? && s.handles == ["/ram/x"] && denote("/ram/x") == denote("/ram//x")
    ensures Open(s.handles, denote, "/ram//x")
    ensures TaskOf(Run(s, Question(who, "/ram//x", [true])), who) == Answered("/ram//x", false)
    ensures TaskOf(Run(s, Question(who, "/ram/x", [false])), who) == Answered("/ram/x", false)
  {
    AloneIs(s, denote, who, "/ram//x", [true]);
    AloneIs(s, denote, who, "/ram/x", [false]);
    assert denote(s.handles[0]) == denote("/ram//x");
    assert "/ram/x"[5] != "/ram//x"[5];
  }
}
