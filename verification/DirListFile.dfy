/** The child's directory listing to a file: headers, the names one by one up to a limit, and at the
    end the statistics written over their placeholder.
 */
module DirListFile {

  import opened Collections
  import opened Paths
  import opened DirList

  const FILE_ENTRIES := 3000

  datatype Item = Header | Stats(dirEntries: nat, fileEntries: nat) | Name(name: string)

  /** Whether each call succeeds, with all its bytes if it is a write; entry writes are numbered. */
  datatype Job = Job(
    openDir: bool, create: bool, header: bool, blank: bool, write: nat -> bool, seek: bool, update: bool)

  /** The names that are to be written. */
  function ToWrite(path: nat, names: seq<string>): seq<string> {
    FirstFitting(path, Listed(names), FILE_ENTRIES)
  }

  ghost predicate AllWritten(o: Job, n: nat) {
    forall k :: 0 <= k < n ==> o.write(k)
  }

  ghost predicate Succeeds(o: Job, path: nat, names: seq<string>) {
    && o.openDir && o.create && o.header && o.blank && AllWritten(o, |ToWrite(path, names)|)
    && (Listed(names) == [] || o.update)
  }

  function Items(names: seq<string>): seq<Item> {
    seq(|names|, i requires 0 <= i < |names| => Name(names[i]))
  }

  /** The file as it should be: statistics of the whole listing, then the names. */
  function Listing(path: nat, names: seq<string>): seq<Item> {
    var written := ToWrite(path, names);
    [Header, Stats(|Listed(names)|, |written|)] + Items(written)
  }

  /** The file after a successful command. The result of the seek back is not looked at: without it the
      statistics come after the names, and their placeholder stays.
   */
  function Result(o: Job, path: nat, names: seq<string>): seq<Item> {
    var written := ToWrite(path, names);
    if o.seek || Listed(names) == [] then Listing(path, names)
    else [Header, Stats(0, 0)] + Items(written) + [Stats(|Listed(names)|, |written|)]
  }

  /** The file is the header, the statistics with the number of entries in the directory before the number
      of names in the file, and these names; if the seek back failed, the statistics are zero and the right
      ones follow at the end.
   */
  lemma ResultIs(o: Job, path: nat, names: seq<string>)
    ensures var file, written, right := Result(o, path, names), ToWrite(path, names), o.seek || Listed(names) == [];
            && |file| == |written| + (if right then 2 else 3) && file[0] == Header && file[1].Stats?
            && (forall i :: 0 <= i < |written| ==> file[i + 2] == Name(written[i]))
            && file[1].dirEntries == (if right then |Listed(names)| else 0)
            && file[1].fileEntries == (if right then |written| else 0)
            && (!right ==> file[|file| - 1] == Stats(|Listed(names)|, |written|))
  {
  }

  /** A listing reported as written is one if and only if the seek worked or the directory is empty. */
  lemma ListingRightExactly(o: Job, path: nat, names: seq<string>)
    ensures Result(o, path, names) == Listing(path, names) <==> o.seek || Listed(names) == []
  {
    if !o.seek && Listed(names) != [] {
      assert |Result(o, path, names)| == |Listing(path, names)| + 1;
    }
  }

  /** The loop over the directory: the names written, whether no write failed, and the counts. A failed
      write ends it.
   */
  method WriteEntries(o: Job, names: seq<string>, path: nat)
    returns (ok: bool, dirEntries: nat, written: seq<string>, warnings: nat)
    ensures ok <==> AllWritten(o, |ToWrite(path, names)|)
    ensures ok ==> dirEntries == |Listed(names)| && written == ToWrite(path, names)
    ensures ok ==> warnings == Passed(path, Listed(names), FILE_ENTRIES)
    ensures written <= ToWrite(path, names)
    ensures !ok ==> |written| < |ToWrite(path, names)| && !o.write(|written|) && AllWritten(o, |written|)
  {
    ok, dirEntries, written, warnings := true, 0, [], 0;
    var next := 0;
    ghost var listed := Listed(names);
    assert From(listed, 0) == listed && Ahead(listed, 0, 0) == listed;
    while ok && next < |names|
      invariant next <= |names| && AllWritten(o, |written|)
      invariant ok ==> dirEntries <= |listed| && Listed(names[next..]) == listed[dirEntries..]
      invariant ok ==> Shown(path, listed, 0, FILE_ENTRIES, dirEntries, written, warnings)
      invariant !ok ==> Stopped(o, path, listed, written)
      decreases |names| - next, ok
    {
      var name := names[next];
      ListedStep(names, next);
      next := next + 1;
      if !Dot(name) {
        NextListed(listed, dirEntries, name, Listed(names[next..]));
        ok, written, warnings := WriteEntry(o, path, listed, dirEntries, name, written, warnings);
        dirEntries := dirEntries + 1;
      }
    }
    if ok {
      AllShown(path, listed, 0, FILE_ENTRIES, written, warnings);
    }
  }

  /** Writes the entry, if there is room for one more and its name fits. */
  method WriteEntry(o: Job, path: nat, ghost listed: seq<string>, ghost next: nat, name: string, before: seq<string>, passed: nat)
    returns (ok: bool, written: seq<string>, warnings: nat)
    requires Shown(path, listed, 0, FILE_ENTRIES, next, before, passed) && next < |listed| && listed[next] == name
    requires AllWritten(o, |before|)
    ensures AllWritten(o, |written|)
    ensures if ok then Shown(path, listed, 0, FILE_ENTRIES, next + 1, written, warnings) else Stopped(o, path, listed, written)
  {
    EntryStep(path, listed, next, before, passed);
    ok, written, warnings := true, before, passed;
    if |written| < FILE_ENTRIES {
      if Fits(path, name) {
        if o.write(|written|) {
          written := written + [name];
        } else {
          ok := false;
        }
      } else {
        warnings := warnings + 1;
      }
    }
  }

  /** The write of the next name has failed. */
  ghost predicate Stopped(o: Job, path: nat, listed: seq<string>, written: seq<string>) {
    var all := FirstFitting(path, listed, FILE_ENTRIES);
    |written| < |all| && written <= all && !o.write(|written|)
  }

  lemma EntryStep(path: nat, listed: seq<string>, next: nat, written: seq<string>, warnings: nat)
    requires Shown(path, listed, 0, FILE_ENTRIES, next, written, warnings) && next < |listed|
    ensures if |written| == FILE_ENTRIES then Shown(path, listed, 0, FILE_ENTRIES, next + 1, written, warnings)
            else if Fits(path, listed[next]) then
              && Shown(path, listed, 0, FILE_ENTRIES, next + 1, written + [listed[next]], warnings)
              && written + [listed[next]] <= FirstFitting(path, listed, FILE_ENTRIES)
            else Shown(path, listed, 0, FILE_ENTRIES, next + 1, written, warnings + 1)
  {
    ShowOne(path, listed, 0, FILE_ENTRIES, next, written, warnings);
    assert From(listed, 0) == listed;
  }

  /** The command's work on the file; each of its exits is a success or one error. */
  method DirListToFile(o: Job, names: seq<string>, path: nat) returns (ok: bool, file: Option<seq<Item>>, warnings: nat)
    ensures ok <==> Succeeds(o, path, names)
    ensures ok ==> file == Some(Result(o, path, names)) && warnings == Passed(path, Listed(names), FILE_ENTRIES)
    ensures ok ==> (file == Some(Listing(path, names)) <==> o.seek || Listed(names) == [])
    ensures file.Some? <==> o.openDir && o.create
  {
    ListingRightExactly(o, path, names);
    ok, file, warnings := false, None, 0;
    if o.openDir && o.create {
      file := Some([]);
      if o.header {
        file := Some([Header]);
        if o.blank {
          var dirEntries, written;
          ok, dirEntries, written, warnings := WriteEntries(o, names, path);
          var content := [Header, Stats(0, 0)] + Items(written);
          if ok {
            if dirEntries == 0 {
              NothingToWrite(path, names);
              assert content == Listing(path, names);
            } else if o.update {
              var stats := Stats(dirEntries, |written|);
              content := if o.seek then content[1 := stats] else content + [stats];
              assert o.seek ==> content == Listing(path, names);
            } else {
              ok := false;
            }
          }
          file := Some(content);
        }
      }
    }
  }

  lemma NothingToWrite(path: nat, names: seq<string>)
    requires Listed(names) == []
    ensures ToWrite(path, names) == []
  {
  }
}
