/** The child's command handlers around their loops: the 8-bit counters and the activity report. */
module ChildCommands {

  import opened Counting
  import opened Collections
  import C = Concat
  import D = DeleteAll
  import L = DirList
  import F = DirListFile
  import ChildDirectory

  class Child {
    var successes: nat
    var errors: nat
    var warnings: nat
    var currentCode: nat
    var previousCode: nat

    /** What every handler leaves behind: one of the two counters raised, no current activity. */
    twostate predicate Finished(code: nat, ok: bool)
      reads this
    {
      && successes == (if ok then Next8(old(successes)) else old(successes))
      && errors == (if ok then old(errors) else Next8(old(errors)))
      && currentCode == 0 && previousCode == code
    }

    /** Copy, move, rename and delete: one call of the operating system. */
    method OneCall(code: nat, result: bool)
      modifies this
      ensures Finished(code, result) && warnings == old(warnings)
    {
      currentCode := code;
      if result {
        successes := (successes + 1) % 256;
      } else {
        errors := (errors + 1) % 256;
      }
      previousCode, currentCode := code, 0;
    }

    method ConcatFiles(code: nat, o: C.Job, source1: seq<C.Byte>, source2: seq<C.Byte>) returns (target: Option<seq<C.Byte>>)
      modifies this
      ensures var ok := C.Succeeds(o, source2);
              && Finished(code, ok) && warnings == old(warnings)
              && (ok ==> (target == Some(source1 + source2) <==> o.seek || source1 == [] || source2 == []))
              && (!ok && o.copy && o.remove ==> target == None)
    {
      currentCode := code;
      var ok, file, _, _ := C.ConcatFiles(o, source1, source2);
      target := file;
      if ok {
        successes := (successes + 1) % 256;
      } else {
        errors := (errors + 1) % 256;
      }
      previousCode, currentCode := code, 0;
    }

    /** An 8-bit counter raised once for each of two reasons that holds. */
    static function Raised(n: nat, one: bool, other: bool): nat {
      if one && other then (n + 2) % 256 else if one || other then (n + 1) % 256 else n
    }

    static lemma RaisedTwice(n: nat)
      ensures ((n + 1) % 256 + 1) % 256 == (n + 2) % 256
    {
    }

    method Warn(files: bool, directories: bool)
      modifies this`warnings
      ensures warnings == Raised(old(warnings), files, directories)
    {
      RaisedTwice(warnings);
      if files {
        warnings := (warnings + 1) % 256;
      }
      if directories {
        warnings := (warnings + 1) % 256;
      }
    }

    method DeleteAllFiles(code: nat, o: D.Job, d: ChildDirectory.Directory)
      requires d.At(0, 0, 0) == D.Start(d.entries)
      modifies this, d
      ensures Finished(code, o.open)
      ensures var s := D.Run(o, D.Start(old(d.entries)));
              if o.open then d.At(s.deleted, s.notDeleted, s.skipped) == s && warnings == Raised(old(warnings), s.notDeleted > 0, s.skipped > 0)
              else d.entries == old(d.entries) && warnings == old(warnings)
    {
      currentCode := code;
      if !o.open {
        errors := (errors + 1) % 256;
      } else {
        var deleted, notDeleted, skipped := ChildDirectory.DeleteFiles(o, d);
        successes := (successes + 1) % 256;
        Warn(notDeleted > 0, skipped > 0);
      }
      previousCode, currentCode := code, 0;
    }

    /** The packet is sent only if the directory could be opened. */
    method DirListPacket(code: nat, open: bool, names: seq<string>, path: nat, offset: nat)
      returns (packet: Option<(nat, seq<string>)>)
      modifies this
      ensures Finished(code, open)
      ensures var listed := L.Listed(names);
              && packet == (if open then Some((|listed|, L.Page(path, listed, offset))) else None)
              && (open ==> warnings == (old(warnings) + L.Passed(path, L.From(listed, offset), L.ENTRIES)) % 256)
    {
      currentCode := code;
      if !open {
        errors, packet := (errors + 1) % 256, None;
      } else {
        var totalFiles, fileList, tooLong := L.DirListPacket(names, path, offset);
        warnings := (warnings + tooLong) % 256;
        packet := Some((totalFiles, fileList));
        successes := (successes + 1) % 256;
      }
      previousCode, currentCode := code, 0;
    }
  
    method DirListFile(code: nat, o: F.Job, names: seq<string>, path: nat) returns (file: Option<seq<F.Item>>)
      modifies this
      ensures Finished(code, F.Succeeds(o, path, names))
      ensures F.Succeeds(o, path, names) ==>
                && (file == Some(F.Listing(path, names)) <==> o.seek || L.Listed(names) == [])
                && warnings == (old(warnings) + L.Passed(path, L.Listed(names), F.FILE_ENTRIES)) % 256
    {
      currentCode := code;
      var ok, content, tooLong := F.DirListToFile(o, names, path);
      file := content;
      warnings := (warnings + tooLong) % 256;
      if ok {
        successes := (successes + 1) % 256;
      } else {
        errors := (errors + 1) % 256;
      }
      previousCode, currentCode := code, 0;
    }
  }
}
