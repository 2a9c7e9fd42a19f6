/** The parent's and the child's code for the command queue, updating the shared variables in
    place, each proved to do what an uninterrupted sequence of its steps does.
 */
module ChildTask {

  import opened ChildQueue
  import opened Counting

  class GlobalData {
    const depth: nat
    const queue: array<Cmd>
    var writeIndex: nat
    var readIndex: nat
    var count: nat
    var semaphore: bool
    var tokens: nat
    var successes: nat
    var errors: nat

    // What happened so far, for the record.
    var accepted: seq<Cmd>
    var started: seq<Cmd>
    var released: nat
    var base: nat

    constructor (depth: nat)
      requires 1 <= depth <= 10
      ensures Initial(View())
      ensures fresh(queue)
    {
      this.depth := depth;
      queue := new Cmd[depth](_ => NO_CMD);
      writeIndex, readIndex, count, tokens, released, base := 0, 0, 0, 0, 0, 0;
      semaphore := true;
      successes, errors := 0, 0;
      accepted, started := [], [];
    }

    /** The shared variables while neither task is in the middle of a command. */
    ghost function View(): State
      reads this, queue
    {
      State(depth, queue[..], writeIndex, readIndex, count, semaphore, tokens, Free, Idle, Waiting, successes, errors,
            accepted, started, released, base)
    }

    ghost predicate Valid()
      reads this, queue
    {
      Inv(View())
    }

    /** Decides whether a command can be queued and clears the slot it will go to. */
    method VerifyChildTask() returns (ok: bool)
      requires depth == queue.Length
      modifies queue
      ensures ok <==> Verify(old(View()), count) == Accept
      ensures ok ==> queue[..] == old(queue[..])[writeIndex := NO_CMD]
      ensures !ok ==> queue[..] == old(queue[..])
    {
      var localQueueCount := count;
      if !semaphore {
        ok := false;
      } else if localQueueCount == depth {
        ok := false;
      } else if localQueueCount > depth || writeIndex >= depth {
        ok := false;
      } else {
        queue[writeIndex] := NO_CMD;
        ok := true;
      }
    }

    /** Makes the filled entry known to the child. */
    method InvokeChildTask()
      requires writeIndex < depth == queue.Length
      modifies this`writeIndex, this`count, this`tokens, this`accepted
      ensures writeIndex == Wrap(depth, old(writeIndex) + 1)
      ensures count == Next8(old(count)) && tokens == old(tokens) + One(semaphore)
      ensures accepted == old(accepted) + [old(queue[writeIndex])]
    {
      accepted := accepted + [queue[writeIndex]];
      writeIndex := writeIndex + 1;
      if writeIndex >= depth {
        writeIndex := 0;
      }
      count := (count + 1) % 256;
      if semaphore {
        tokens := tokens + 1;
      }
    }

    /** A ground command for the child: verified, written to its slot and made known. It comes to
        the same as the parent's uninterrupted steps.
     */
    method Submit(cmd: Cmd) returns (ok: bool)
      requires depth == queue.Length
      modifies this, queue
      ensures View() == Submitted(old(View()), cmd)
      ensures ok <==> Verify(old(View()), old(count)) == Accept
    {
      ok := VerifyChildTask();
      if ok {
        queue[writeIndex] := cmd;
        assert queue[..] == Put(old(queue[..]), writeIndex, cmd);
        InvokeChildTask();
      }
    }

    /** Executes the entry at the read index, with the given result, and releases its slot. */
    method ChildProcess(success: bool)
      requires readIndex < depth == queue.Length
      modifies this`readIndex, this`count, this`successes, this`errors, this`started, this`released, this`base
      ensures started == old(started) + [queue[old(readIndex)]]
      ensures readIndex == Wrap(depth, old(readIndex) + 1)
      ensures count == if old(count) == 0 then 255 else old(count) - 1
      ensures successes == if success then Next8(old(successes)) else old(successes)
      ensures errors == if success then old(errors) else Next8(old(errors))
      ensures released == old(released) + 1 && base == Slot(depth, old(base), 1)
    {
      started := started + [queue[readIndex]];
      if success {
        successes := (successes + 1) % 256;
      } else {
        errors := (errors + 1) % 256;
      }
      readIndex := readIndex + 1;
      if readIndex >= depth {
        readIndex := 0;
      }
      count := if count == 0 then 255 else count - 1;
      released, base := released + 1, Slot(depth, base, 1);
    }

    /** One turn of the child's loop after the semaphore was taken. */
    method ServeNext(success: bool) returns (healthy: bool)
      requires depth == queue.Length && tokens > 0
      modifies this
      ensures healthy <==> old(count != 0 && readIndex < depth)
      ensures healthy ==> View() == Served(old(View()), success)
      ensures !healthy ==> View() == old(View()).(tokens := old(tokens) - 1, errors := Next8(old(errors)))
    {
      tokens := tokens - 1;
      healthy := true;
      if count == 0 {
        errors := (errors + 1) % 256;
        healthy := false;
      } else if readIndex >= depth {
        errors := (errors + 1) % 256;
        healthy := false;
      } else {
        ChildProcess(success);
      }
    }

    /** The child's loop with a semaphore that can be taken as long as it holds a token, and then
        fails if `ends` says so or leaves the child waiting. `results` are the outcomes of the
        commands.
     */
    method ChildLoop(results: seq<bool>, ends: bool)
      requires Valid() && semaphore && |results| == tokens
      modifies this
      ensures View().(semaphore := true) == Run(old(View()), Services(results))
      ensures started == accepted == old(accepted) && count == tokens == 0
      ensures readIndex == writeIndex == old(writeIndex) && semaphore == !ends
    {
      ghost var before := View();
      Drains(before, results);
      var i := 0;
      var healthy := true;
      while healthy && tokens > 0
        invariant healthy && Waits(View()) && i <= |results| && tokens == |results| - i
        invariant Run(View(), Services(results[i..])) == Run(before, Services(results))
        decreases |results| - i
      {
        Serves(View(), results, i);
        healthy := ServeNext(results[i]);
        i := i + 1;
      }
      assert results[i..] == [];
      if ends {
        semaphore := false;
      }
    }
  }

  ghost predicate Waits(s: State) {
    Inv(s) && s.child == Waiting && s.parent == Idle && s.mutex == Free && s.semaphore
  }

  lemma Serves(s: State, results: seq<bool>, i: nat)
    requires Waits(s) && i < |results| && s.tokens == |results| - i
    ensures Servable(s) && Waits(Served(s, results[i]))
    ensures Run(Served(s, results[i]), Services(results[i + 1..])) == Run(s, Services(results[i..]))
  {
    ServiceIs(s, results[i]);
    RunKeeps(s, Service(results[i]));
    RunJoins(s, Service(results[i]), Services(results[i + 1..]));
    assert results[i..][0] == results[i] && results[i..][1..] == results[i + 1..];
  }
}
