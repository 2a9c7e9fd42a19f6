/** One of the child's 8-bit counters, raised by the child in a load and a store, and set to zero by
    the parent's reset command at any time: nothing locks the two out against each other.
 */
module CounterReset {

  import opened Counting

  datatype Child = Idle | Loaded(value: nat)

  /** `finished` counts the increments completed since the last reset; `carried` is what the child
      had loaded when the last reset came, or 0 if it was not in the middle of an increment.
   */
  datatype State = State(counter: nat, child: Child, finished: nat, carried: nat)

  datatype Move = Load | Store | Reset

  const START := State(0, Idle, 0, 0)

  function Next(s: State, m: Move): State {
    match m
    case Load => if s.child.Idle? then s.(child := Loaded(s.counter)) else s
    case Store => if s.child.Loaded? then s.(counter := Next8(s.child.value), child := Idle, finished := s.finished + 1) else s
    case Reset => s.(counter := 0, finished := 0, carried := if s.child.Loaded? then s.child.value else 0)
  }

  function Run(moves: seq<Move>): State {
    if moves == [] then START else Next(Run(moves[..|moves| - 1]), moves[|moves| - 1])
  }

  /** What the counter shows: the increments since the reset, and from the first of them on also
      what the child carried over it.
   */
  function Expected(s: State): nat {
    if s.finished == 0 then 0 else (s.finished + s.carried) % 256
  }

  ghost predicate Inv(s: State) {
    && s.carried < 256 && s.counter == Expected(s)
    && (s.child.Loaded? ==> s.child.value == (s.finished + s.carried) % 256)
    && (s.child.Idle? && s.finished == 0 ==> s.carried == 0)
  }

  lemma StoreKeeps(s: State)
    requires Inv(s) && s.child.Loaded?
    ensures Inv(Next(s, Store))
  {
    SuccessorMod(s.finished + s.carried);
  }

  lemma SuccessorMod(n: nat)
    ensures (n % 256 + 1) % 256 == (n + 1) % 256
  {
    Congruent(n % 256, n);
  }

  lemma {:induction false} RunKeeps(moves: seq<Move>)
    ensures Inv(Run(moves))
  {
    if moves != [] {
      RunKeeps(moves[..|moves| - 1]);
      var s := Run(moves[..|moves| - 1]);
      if moves[|moves| - 1].Store? && s.child.Loaded? {
        StoreKeeps(s);
      }
    }
  }

  /** After any interleaving the counter shows the commands finished since the last reset, modulo its
      width, unless that reset fell between the load and the store of an increment of a counter that
      was not zero and the store has happened.
   */
  lemma CountsExactly(moves: seq<Move>)
    ensures var s := Run(moves);
            s.counter == s.finished % 256 <==> s.finished == 0 || s.carried == 0
  {
    RunKeeps(moves);
    var s := Run(moves);
    if s.counter == s.finished % 256 && s.finished != 0 {
      assert (s.finished + s.carried) % 256 == s.finished % 256;
      SameModulo(s.finished, s.carried);
    }
  }

  lemma SameModulo(n: nat, d: nat)
    requires (n + d) % 256 == n % 256 && d < 256
    ensures d == 0
  {
    assert n + d == 256 * ((n + d) / 256) + n % 256;
  }

  /** One command before the reset, one across it: the counter then shows two. */
  lemma ResetCanBeLost()
    ensures var s := Run([Load, Store, Load, Reset, Store]); s.finished == 1 && s.counter == 2
  {
    var m := [Load, Store, Load, Reset, Store];
    assert m[..4] == [Load, Store, Load, Reset] && m[..4][..3] == [Load, Store, Load];
    assert [Load, Store, Load][..2] == [Load, Store] && [Load, Store][..1] == [Load] && [Load][..0] == [];
    assert Run([Load]) == State(0, Loaded(0), 0, 0);
    assert Run([Load, Store]) == State(1, Idle, 1, 0);
    assert Run([Load, Store, Load]) == State(1, Loaded(1), 1, 0);
    assert Run([Load, Store, Load, Reset]) == State(0, Loaded(1), 0, 1);
  }
}
