/** The child's concatenation of two files into a third.

    File contents are sequences of bytes; the operating system may fail any call, read less than a
    block and write less than it was given.
 */
module Concat {

  import opened Collections

  type Byte = n: nat | n < 256

  const BLOCK_SIZE := 2048
  const LOOP_COUNT := 16

  /** What a read or write call does: it fails, or transfers up to `n` bytes. */
  datatype Transfer = Fails | UpTo(n: nat)

  /** The results of the calls; reads and writes are numbered. `partial` is what a failed copy
      leaves under the target's name.
   */
  datatype Job = Job(
    copy: bool, partial: Option<seq<Byte>>, openSource: bool, openTarget: bool, seek: bool,
    read: nat -> Transfer, write: nat -> Transfer, remove: bool)

  datatype Handle = Source | Target

  /** How much of the remaining bytes a successful read call delivers: something, unless there is
      nothing left, and at most a block.
   */
  function Got(n: nat, remaining: nat): (got: nat)
    ensures got <= remaining && got <= BLOCK_SIZE && (got == 0 <==> remaining == 0)
  {
    Min(Min(if n == 0 then 1 else n, BLOCK_SIZE), remaining)
  }

  /** A file after bytes were written over it from a position. */
  function Overlay(file: seq<Byte>, pos: nat, bytes: seq<Byte>): seq<Byte>
    requires pos <= |file|
  {
    file[..pos] + bytes + if pos + |bytes| <= |file| then file[pos + |bytes|..] else []
  }

  lemma OverlayMore(file: seq<Byte>, pos: nat, first: seq<Byte>, second: seq<Byte>)
    requires pos <= |file|
    ensures pos + |first| <= |Overlay(file, pos, first)|
    ensures Overlay(Overlay(file, pos, first), pos + |first|, second) == Overlay(file, pos, first + second)
  {
    var one := Overlay(file, pos, first);
    assert one[..pos + |first|] == file[..pos] + first;
  }

  /** Does the loop from the n-th call on read all that remains and write all that it reads? */
  predicate Copies(o: Job, remaining: nat, n: nat)
    decreases remaining
  {
    match o.read(n)
    case Fails => false
    case UpTo(k) =>
      var got := Got(k, remaining);
      got == 0 || (o.write(n).UpTo? && o.write(n).n >= got && Copies(o, remaining - got, n + 1))
  }

  /** The blocks it reads before it ends. */
  function Blocks(o: Job, remaining: nat, n: nat): nat
    decreases remaining
  {
    match o.read(n)
    case Fails => 0
    case UpTo(k) =>
      var got := Got(k, remaining);
      if got == 0 then 0
      else if o.write(n).UpTo? && o.write(n).n >= got then 1 + Blocks(o, remaining - got, n + 1)
      else 1
  }

  predicate Succeeds(o: Job, source2: seq<Byte>) {
    o.copy && o.openSource && o.openTarget && Copies(o, |source2|, 0)
  }

  /** Where the second file is written: the result of the seek is not looked at. */
  function Position(o: Job, source1: seq<Byte>): nat {
    if o.seek then |source1| else 0
  }

  /** A successful concatenation is one, unless the seek failed with something to append to and
      something to append: then the second file lies over the first.
   */
  lemma ConcatenatesExactly(o: Job, source1: seq<Byte>, source2: seq<Byte>)
    ensures Overlay(source1, Position(o, source1), source2) == source1 + source2
            <==> o.seek || source1 == [] || source2 == []
  {
    var target := Overlay(source1, Position(o, source1), source2);
    if !o.seek && source1 != [] && source2 != [] {
      assert |target| < |source1| + |source2|;
    }
  }

  /** The command's work on the files: `handles` are those still open at the end. */
  method ConcatFiles(o: Job, source1: seq<Byte>, source2: seq<Byte>)
    returns (ok: bool, target: Option<seq<Byte>>, handles: set<Handle>, delays: nat)
    ensures ok <==> Succeeds(o, source2)
    ensures ok <==> o.copy && o.openSource && o.openTarget && Copies(o, |source2|, 0)
    ensures ok ==> target == Some(Overlay(source1, Position(o, source1), source2))
    ensures ok ==> (target == Some(source1 + source2) <==> o.seek || source1 == [] || source2 == [])
    ensures !ok && o.copy && o.remove ==> target == None
    ensures !ok && o.copy && !o.remove ==> target.Some?
    ensures !o.copy ==> target == o.partial
    ensures handles == {}
    ensures delays == if o.copy && o.openSource && o.openTarget then Blocks(o, |source2|, 0) / LOOP_COUNT else 0
  {
    ConcatenatesExactly(o, source1, source2);
    ok, target, handles, delays := false, o.partial, {}, 0;
    if o.copy {
      target := Some(source1);
      if o.openSource {
        handles := handles + {Source};
        if o.openTarget {
          handles := handles + {Target};
          ok, target, delays := Append(o, source1, source2);
          handles := handles - {Target};
        }
        handles := handles - {Source};
      }
      if !ok {
        if o.remove {
          target := None;
        }
      }
    }
  }

  /** The target after `at` bytes of the second file were written, and the position in it. */
  ghost predicate Written(o: Job, source1: seq<Byte>, source2: seq<Byte>, at: nat, file: seq<Byte>, pos: nat) {
    && at <= |source2| && pos == Position(o, source1) + at
    && file == Overlay(source1, Position(o, source1), source2[..at])
    && pos <= |file|
  }

  lemma WrittenMore(o: Job, source1: seq<Byte>, source2: seq<Byte>, at: nat, file: seq<Byte>, pos: nat, got: nat)
    requires Written(o, source1, source2, at, file, pos) && at + got <= |source2|
    ensures Written(o, source1, source2, at + got, Overlay(file, pos, source2[at..at + got]), pos + got)
  {
    OverlayMore(source1, Position(o, source1), source2[..at], source2[at..at + got]);
    assert source2[..at] + source2[at..at + got] == source2[..at + got];
  }

  /** Whether the loop will succeed and how many blocks it will read in all, seen from the n-th call. */
  ghost predicate Expects(o: Job, all: nat, remaining: nat, n: nat, blocks: nat) {
    Copies(o, all, 0) == Copies(o, remaining, n) && Blocks(o, all, 0) == blocks + Blocks(o, remaining, n)
  }

  /** The loop before its n-th read. */
  ghost predicate Going(o: Job, source1: seq<Byte>, source2: seq<Byte>, at: nat, file: seq<Byte>, pos: nat, n: nat, blocks: nat) {
    Written(o, source1, source2, at, file, pos) && Expects(o, |source2|, |source2| - at, n, blocks)
  }

  ghost predicate Over(o: Job, all: nat, ok: bool, blocks: nat) {
    ok == Copies(o, all, 0) && Blocks(o, all, 0) == blocks
  }

  /** One turn of the loop: it ends with a failed read, the end of the file or a short write, or goes on. */
  lemma BlockStep(o: Job, source1: seq<Byte>, source2: seq<Byte>, at: nat, file: seq<Byte>, pos: nat, n: nat, blocks: nat)
    requires Going(o, source1, source2, at, file, pos, n, blocks)
    ensures o.read(n).Fails? ==> Over(o, |source2|, false, blocks)
    ensures o.read(n).UpTo? ==>
              var got := Got(o.read(n).n, |source2| - at);
              if got == 0 then Over(o, |source2|, true, blocks) && file == Overlay(source1, Position(o, source1), source2)
              else if o.write(n).UpTo? && o.write(n).n >= got then
                Going(o, source1, source2, at + got, Overlay(file, pos, source2[at..at + got]), pos + got, n + 1, blocks + 1)
              else Over(o, |source2|, false, blocks + 1)
  {
    if o.read(n).UpTo? {
      var got := Got(o.read(n).n, |source2| - at);
      if got == 0 {
        assert source2[..at] == source2;
      } else {
        WrittenMore(o, source1, source2, at, file, pos, got);
      }
    }
  }

  /** The loop before its n-th read, or after its end with success or without. */
  ghost predicate Turned(o: Job, source1: seq<Byte>, source2: seq<Byte>, inProgress: bool, ok: bool,
                         at: nat, file: seq<Byte>, pos: nat, n: nat, blocks: nat) {
    if inProgress then !ok && Going(o, source1, source2, at, file, pos, n, blocks)
    else Over(o, |source2|, ok, blocks) && (ok ==> file == Overlay(source1, Position(o, source1), source2))
  }

  /** One turn of the loop: a failed read, the end of the file or a short write ends it. `counted` tells
      whether it came as far as to count its block.
   */
  method CopyBlock(o: Job, source1: seq<Byte>, source2: seq<Byte>, at: nat, file: seq<Byte>, pos: nat, n: nat, ghost blocks: nat)
    returns (inProgress: bool, ok: bool, counted: bool, got: nat, target: seq<Byte>)
    requires Going(o, source1, source2, at, file, pos, n, blocks)
    ensures Turned(o, source1, source2, inProgress, ok, at + got, target, pos + got, n + 1, if counted then blocks + 1 else blocks)
    ensures inProgress ==> counted && 0 < got <= |source2| - at
  {
    BlockStep(o, source1, source2, at, file, pos, n, blocks);
    inProgress, ok, counted, got, target := false, false, false, 0, file;
    if o.read(n).Fails? {
      return;
    }
    got := Got(o.read(n).n, |source2| - at);
    if got == 0 {
      ok := true;
      return;
    }
    var written := if o.write(n).UpTo? then Min(o.write(n).n, got) else 0;
    target := Overlay(file, pos, source2[at..at + written]);
    inProgress, counted := o.write(n).UpTo? && written == got, true;
  }

  /** The task gives way after every sixteen blocks. */
  ghost predicate Delayed(blocks: nat, delays: nat, loopCount: nat) {
    loopCount == blocks % LOOP_COUNT && delays == blocks / LOOP_COUNT
  }

  method CountBlock(delays: nat, loopCount: nat, ghost blocks: nat) returns (delays': nat, loopCount': nat)
    requires Delayed(blocks, delays, loopCount)
    ensures Delayed(blocks + 1, delays', loopCount')
  {
    delays', loopCount' := delays, loopCount + 1;
    if loopCount' == LOOP_COUNT {
      delays', loopCount' := delays + 1, 0;
    }
  }

  lemma AppendStarts(o: Job, source1: seq<Byte>, source2: seq<Byte>)
    ensures Turned(o, source1, source2, true, false, 0, source1, Position(o, source1), 0, 0)
  {
  }

  lemma AppendEnds(o: Job, source1: seq<Byte>, source2: seq<Byte>, ok: bool, at: nat, file: seq<Byte>, pos: nat, n: nat,
                   blocks: nat, delays: nat, loopCount: nat)
    requires Turned(o, source1, source2, false, ok, at, file, pos, n, blocks) && Delayed(blocks, delays, loopCount)
    ensures ok == Copies(o, |source2|, 0) && (ok ==> file == Overlay(source1, Position(o, source1), source2))
    ensures delays == Blocks(o, |source2|, 0) / LOOP_COUNT
  {
  }

  /** Reads the second file block by block and writes it behind the copy of the first. */
  method Append(o: Job, source1: seq<Byte>, source2: seq<Byte>) returns (ok: bool, target: Option<seq<Byte>>, delays: nat)
    ensures ok <==> Copies(o, |source2|, 0)
    ensures ok ==> target == Some(Overlay(source1, Position(o, source1), source2))
    ensures target.Some? && delays == Blocks(o, |source2|, 0) / LOOP_COUNT
  {
    var file := source1;
    var pos: nat := Position(o, source1);
    var at: nat, n: nat, loopCount: nat := 0, 0, 0;
    var inProgress := true;
    ok, delays := false, 0;
    ghost var blocks := 0;
    AppendStarts(o, source1, source2);
    while inProgress
      invariant Delayed(blocks, delays, loopCount) && Turned(o, source1, source2, inProgress, ok, at, file, pos, n, blocks)
      invariant inProgress ==> at <= |source2|
      decreases inProgress, |source2| - at
    {
      var counted, got;
      inProgress, ok, counted, got, file := CopyBlock(o, source1, source2, at, file, pos, n, blocks);
      at, pos, n := at + got, pos + got, n + 1;
      if counted {
        delays, loopCount := CountBlock(delays, loopCount, blocks);
        blocks := blocks + 1;
      }
    }
    AppendEnds(o, source1, source2, ok, at, file, pos, n, blocks, delays, loopCount);
    target := Some(file);
  }

  /** A loop that succeeds has moved every byte, in blocks that are neither empty nor too large. */
  lemma {:induction false} BlocksMoveAll(o: Job, remaining: nat, n: nat)
    requires Copies(o, remaining, n)
    ensures Blocks(o, remaining, n) <= remaining <= BLOCK_SIZE * Blocks(o, remaining, n)
    decreases remaining
  {
    var got := Got(o.read(n).n, remaining);
    if got > 0 {
      BlocksMoveAll(o, remaining - got, n + 1);
    }
  }
}
