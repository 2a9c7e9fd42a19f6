/** The child's delete-all command, working on an open directory in place. */
module ChildDirectory {

  import opened DeleteAll
  import opened Paths
  import opened Counting

  /** An open directory. `asked`, `removed` and `pass` are the model's record of the entries asked
      about and removed, and of what became of the entries read since the last rewind.
   */
  class Directory {
    var entries: seq<Entry>
    var next: nat
    var readCalls: nat
    var asked: seq<Entry>
    var removed: seq<Removal>
    var pass: seq<Fate>

    constructor (entries: seq<Entry>)
      ensures At(0, 0, 0) == Start(entries)
    {
      this.entries := entries;
      next, readCalls := 0, 0;
      asked, removed, pass := [], [], [];
    }

    /** Where the command stands, given its three counts. */
    ghost function At(deleted: nat, notDeleted: nat, skipped: nat): Sweep
      reads this
    {
      Sweep(entries, next, readCalls, deleted, notDeleted, skipped, asked, removed, pass)
    }

    /** The state of the entry just read, asked for by its path. */
    method GetFilenameState(o: Job, path: string) returns (state: FilenameState)
      requires next < |entries|
      modifies this`asked
      ensures state == StateOf(o, entries, path, old(|asked|))
      ensures state == Invalid <==> |path| == 0 || |path| >= 64
      ensures asked == if state == Invalid then old(asked) else old(asked) + [entries[next]]
    {
      state := Invalid;
      if 0 < |path| < MAX_PATH_LEN {
        var i := Find(o.dir, entries, path);
        if o.stat(|asked|) && i < |entries| {
          if entries[i].kind == SubDirectory {
            state := IsDirectory;
          } else {
            state := FileClosed;
            if o.isOpen(|asked|) {
              state := FileOpen;
            }
          }
        } else {
          state := NotInUse;
        }
        asked := asked + [entries[next]];
      }
    }

    /** Removes the file that the last query was about, if the call succeeds. */
    method Remove(o: Job, path: string) returns (ok: bool)
      requires Find(o.dir, entries, path) < |entries| && asked != []
      modifies this`entries, this`removed
      ensures ok == o.remove(|asked| - 1)
      ensures ok ==> var i := Find(o.dir, old(entries), path);
                     entries == Without(old(entries), i) && removed == old(removed) + [Removal(old(entries)[i], |asked| - 1)]
      ensures !ok ==> entries == old(entries) && removed == old(removed)
    {
      ok := o.remove(|asked| - 1);
      if ok {
        var i := Find(o.dir, entries, path);
        removed := removed + [Removal(entries[i], |asked| - 1)];
        entries := entries[..i] + entries[i + 1..];
      }
    }

    /** The result of the call is not looked at by its callers. */
    method Rewind(ok: bool)
      modifies this`next, this`pass
      ensures next == (if ok then 0 else old(next)) && pass == (if ok then [] else old(pass))
    {
      if ok {
        next, pass := 0, [];
      }
    }
  }

  /** Removes the file with the given path if it is answered to be closed and the call succeeds. */
  method DeleteClosedFile(o: Job, d: Directory, path: string, ghost s: Sweep) returns (fate: Fate)
    requires d.next < |d.entries| && s.deleted == |d.removed| && d.At(s.deleted, s.notDeleted, s.skipped) == s
    modifies d
    ensures d.At(s.deleted, s.notDeleted, s.skipped) == AfterCalls(o, s, path)
    ensures fate == FateAt(o, s, path)
  {
    var deleted := |d.removed|;
    var state := d.GetFilenameState(o, path);
    assert state == StateOf(o, s.entries, path, |s.asked|);
    match state {
      case Invalid => fate := NotValid;
      case NotInUse => fate := Vanished(|d.asked| - 1);
      case IsDirectory => fate := Skipped;
      case FileOpen => fate := Busy(|d.asked| - 1);
      case FileClosed =>
        var ok := d.Remove(o, path);
        fate := if ok then Deleted(|d.asked| - 1) else Refused(|d.asked| - 1);
        if ok {
          d.Rewind(o.rewind(deleted));
        }
    }
  }

  /** One turn of the loop: reads an entry, if it can, and deals with it. */
  method ReadAndDelete(o: Job, d: Directory, deleted: nat, notDeleted: nat, skipped: nat)
    returns (more: bool, deleted': nat, notDeleted': nat, skipped': nat)
    requires deleted == |d.removed|
    modifies d
    ensures var before := old(d.At(deleted, notDeleted, skipped));
            more == More(o, before) && d.At(deleted', notDeleted', skipped') == if more then Next(o, before) else before
    ensures deleted' == |d.removed|
  {
    more, deleted', notDeleted', skipped' := o.read(d.readCalls) && d.next < |d.entries|, deleted, notDeleted, skipped;
    if more {
      ghost var before := d.At(deleted, notDeleted, skipped);
      var entry := d.entries[d.next];
      var fate := Ignored;
      if !Dot(entry.name) {
        var path := WithSeparator(o.dir, MAX_PATH_LEN) + entry.name;
        if |path| >= MAX_PATH_LEN {
          fate := TooLong;
        } else {
          fate := DeleteClosedFile(o, d, path, before);
        }
      }
      assert fate == FateOf(o, before);
      notDeleted' := notDeleted + One(Kept(fate));
      skipped' := skipped + One(fate == Skipped);
      deleted' := deleted + One(fate.Deleted?);
      d.readCalls := d.readCalls + 1;
      if !fate.Deleted? {
        d.next, d.pass := d.next + 1, d.pass + [fate];
      }
    }
  }

  /** The loop over the whole directory. */
  method DeleteFiles(o: Job, d: Directory) returns (deleted: nat, notDeleted: nat, skipped: nat)
    requires d.At(0, 0, 0) == Start(d.entries)
    modifies d
    ensures d.At(deleted, notDeleted, skipped) == Run(o, Start(old(d.entries)))
  {
    ghost var start := Start(d.entries);
    var more := true;
    deleted, notDeleted, skipped := 0, 0, 0;
    while more
      invariant deleted == |d.removed| && Run(o, d.At(deleted, notDeleted, skipped)) == Run(o, start)
      invariant !more ==> !More(o, d.At(deleted, notDeleted, skipped))
      decreases |d.entries|, |d.entries| - d.next, more
    {
      more, deleted, notDeleted, skipped := ReadAndDelete(o, d, deleted, notDeleted, skipped);
    }
  }

  /** The helper that adds the separator works on the name in its buffer: the characters before the
      first terminator.
   */
  function Text(buffer: seq<char>): string {
    if buffer == [] || buffer[0] == '\0' then "" else [buffer[0]] + Text(buffer[1..])
  }

  lemma {:induction false} TextIs(buffer: seq<char>, n: nat)
    requires n < |buffer| && buffer[n] == '\0' && forall i :: 0 <= i < n ==> buffer[i] != '\0'
    ensures Text(buffer) == buffer[..n]
  {
    if n > 0 {
      TextIs(buffer[1..], n - 1);
    }
  }

  method AppendPathSep(buffer: array<char>)
    requires buffer.Length == MAX_PATH_LEN && exists n :: 0 <= n < buffer.Length && buffer[n] == '\0'
    modifies buffer
    ensures Text(buffer[..]) == WithSeparator(old(Text(buffer[..])), MAX_PATH_LEN)
  {
    var length := 0;
    while buffer[length] != '\0'
      invariant length < buffer.Length && forall i :: 0 <= i < length ==> buffer[i] != '\0'
      decreases buffer.Length - length
    {
      length := length + 1;
    }
    TextIs(buffer[..], length);
    assert Text(buffer[..]) == buffer[..length];
    if length != 0 && buffer[length - 1] != '/' && length < MAX_PATH_LEN - 1 {
      buffer[length], buffer[length + 1] := '/', '\0';
      TextIs(buffer[..], length + 1);
      assert buffer[..length + 1] == old(buffer[..length]) + "/";
    }
  }
}
