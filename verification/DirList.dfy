/** The child's directory listing by telemetry packet: a window on the directory, and what the
    windows one after the other show.
 */
module DirList {

  import opened Paths

  const MAX_FILE_NAME := 20
  const ENTRIES := 20

  /** The directory without its own and its parent's entry. */
  function Listed(names: seq<string>): seq<string> {
    if names == [] then []
    else (if Dot(names[0]) then [] else [names[0]]) + Listed(names[1..])
  }

  function EntryLength(name: string): nat {
    if |name| < MAX_FILE_NAME then |name| else MAX_FILE_NAME
  }

  /** Is there room for the name behind a directory path of the given length? */
  predicate Fits(path: nat, name: string) {
    path + EntryLength(name) < MAX_PATH_LEN
  }

  function Fitting(path: nat, l: seq<string>): seq<string> {
    if l == [] then []
    else (if Fits(path, l[0]) then [l[0]] else []) + Fitting(path, l[1..])
  }

  /** A name is shown exactly if the path with it, of which at most 20 characters count, is shorter than 64. */
  lemma {:induction false} FittingExactly(path: nat, l: seq<string>, name: string)
    ensures name in Fitting(path, l) <==> name in l && path + (if |name| < 20 then |name| else 20) < 64
  {
    if l != [] {
      FittingExactly(path, l[1..], name);
      assert l == [l[0]] + l[1..];
    }
  }

  /** The first `k` names that fit. */
  function FirstFitting(path: nat, l: seq<string>, k: nat): seq<string> {
    if l == [] || k == 0 then []
    else if Fits(path, l[0]) then [l[0]] + FirstFitting(path, l[1..], k - 1)
    else FirstFitting(path, l[1..], k)
  }

  /** The over-long names met before `k` names were found. */
  function Passed(path: nat, l: seq<string>, k: nat): nat {
    if l == [] || k == 0 then 0
    else if Fits(path, l[0]) then Passed(path, l[1..], k - 1)
    else 1 + Passed(path, l[1..], k)
  }

  function From(l: seq<string>, offset: nat): seq<string> {
    if offset <= |l| then l[offset..] else []
  }

  /** What a packet asked for at an offset shows of the listing. */
  function Page(path: nat, l: seq<string>, offset: nat): seq<string> {
    FirstFitting(path, From(l, offset), ENTRIES)
  }

  /** What is still to come of the window when `next` names were read. */
  function Ahead(l: seq<string>, offset: nat, next: nat): seq<string> {
    From(l, if offset > next then offset else next)
  }

  lemma ReadOne(path: nat, l: seq<string>, offset: nat, next: nat, k: nat)
    requires next < |l|
    ensures next < offset ==> Ahead(l, offset, next + 1) == Ahead(l, offset, next)
    ensures k == 0 ==> FirstFitting(path, Ahead(l, offset, next), k) == [] && Passed(path, Ahead(l, offset, next), k) == 0
    ensures k > 0 && next >= offset && Fits(path, l[next]) ==>
              && FirstFitting(path, Ahead(l, offset, next), k) == [l[next]] + FirstFitting(path, Ahead(l, offset, next + 1), k - 1)
              && Passed(path, Ahead(l, offset, next), k) == Passed(path, Ahead(l, offset, next + 1), k - 1)
    ensures k > 0 && next >= offset && !Fits(path, l[next]) ==>
              && FirstFitting(path, Ahead(l, offset, next), k) == FirstFitting(path, Ahead(l, offset, next + 1), k)
              && Passed(path, Ahead(l, offset, next), k) == 1 + Passed(path, Ahead(l, offset, next + 1), k)
  {
    if next >= offset {
      assert l[next..][1..] == l[next + 1..];
    }
  }

  /** The names shown and the warnings sent after reading `next` names of the listing, of which at most
      `limit` are to be shown from the offset on.
   */
  ghost predicate Shown(path: nat, l: seq<string>, offset: nat, limit: nat, next: nat, shown: seq<string>, warnings: nat) {
    && |shown| <= limit
    && FirstFitting(path, From(l, offset), limit) == shown + FirstFitting(path, Ahead(l, offset, next), limit - |shown|)
    && Passed(path, From(l, offset), limit) == warnings + Passed(path, Ahead(l, offset, next), limit - |shown|)
  }

  lemma ShowOne(path: nat, l: seq<string>, offset: nat, limit: nat, next: nat, shown: seq<string>, warnings: nat)
    requires Shown(path, l, offset, limit, next, shown, warnings) && next < |l|
    ensures if next < offset || |shown| == limit then Shown(path, l, offset, limit, next + 1, shown, warnings)
            else if Fits(path, l[next]) then Shown(path, l, offset, limit, next + 1, shown + [l[next]], warnings)
            else Shown(path, l, offset, limit, next + 1, shown, warnings + 1)
  {
    ReadOne(path, l, offset, next, limit - |shown|);
  }

  lemma AllShown(path: nat, l: seq<string>, offset: nat, limit: nat, shown: seq<string>, warnings: nat)
    requires Shown(path, l, offset, limit, |l|, shown, warnings)
    ensures shown == FirstFitting(path, From(l, offset), limit) && warnings == Passed(path, From(l, offset), limit)
  {
    assert Ahead(l, offset, |l|) == [];
  }

  /** The packet: how many names the directory lists, the names shown, and the warnings sent. */
  method DirListPacket(names: seq<string>, path: nat, offset: nat)
    returns (totalFiles: nat, fileList: seq<string>, warnings: nat)
    ensures totalFiles == |Listed(names)|
    ensures fileList == Page(path, Listed(names), offset)
    ensures warnings == Passed(path, From(Listed(names), offset), ENTRIES)
  {
    totalFiles, fileList, warnings := 0, [], 0;
    var next := 0;
    ghost var listed := Listed(names);
    while next < |names|
      invariant next <= |names| && totalFiles <= |listed| && Listed(names[next..]) == listed[totalFiles..]
      invariant Shown(path, listed, offset, ENTRIES, totalFiles, fileList, warnings)
    {
      var name := names[next];
      ListedStep(names, next);
      next := next + 1;
      if !Dot(name) {
        NextListed(listed, totalFiles, name, Listed(names[next..]));
        ShowOne(path, listed, offset, ENTRIES, totalFiles, fileList, warnings);
        totalFiles := totalFiles + 1;
        if totalFiles > offset && |fileList| < ENTRIES {
          if Fits(path, name) {
            fileList := fileList + [name];
          } else {
            warnings := warnings + 1;
          }
        }
      }
    }
    AllShown(path, listed, offset, ENTRIES, fileList, warnings);
  }

  lemma NextListed(listed: seq<string>, next: nat, name: string, rest: seq<string>)
    requires next <= |listed| && listed[next..] == [name] + rest
    ensures next < |listed| && listed[next] == name && listed[next + 1..] == rest
  {
    assert listed[next..][1..] == rest;
  }

  lemma ListedStep(names: seq<string>, next: nat)
    requires next < |names|
    ensures Listed(names[next..]) == (if Dot(names[next]) then [] else [names[next]]) + Listed(names[next + 1..])
  {
    assert names[next..][1..] == names[next + 1..];
  }

  /** What the packets at the offset and every full packet further on show together. */
  function PagesFrom(path: nat, l: seq<string>, offset: nat): seq<string>
    decreases |l| - offset
  {
    if offset >= |l| then [] else Page(path, l, offset) + PagesFrom(path, l, offset + ENTRIES)
  }

  lemma {:induction false} FittingSplits(path: nat, a: seq<string>, b: seq<string>)
    ensures Fitting(path, a + b) == Fitting(path, a) + Fitting(path, b)
  {
    if a == [] {
      assert a + b == b;
    } else {
      assert (a + b)[1..] == a[1..] + b;
      FittingSplits(path, a[1..], b);
    }
  }

  /** A packet shows all that fits of its own window and fills up from what follows. */
  lemma {:induction false} FirstSplits(path: nat, a: seq<string>, b: seq<string>, k: nat)
    requires |a| <= k
    ensures |Fitting(path, a)| <= |a|
    ensures FirstFitting(path, a + b, k) == Fitting(path, a) + FirstFitting(path, b, k - |Fitting(path, a)|)
  {
    if a == [] {
      assert a + b == b;
    } else {
      assert (a + b)[1..] == a[1..] + b;
      FirstSplits(path, a[1..], b, if Fits(path, a[0]) then k - 1 else k);
    }
  }

  lemma {:induction false} FirstEmpty(path: nat, l: seq<string>, k: nat)
    ensures FirstFitting(path, l, k) == [] <==> k == 0 || Fitting(path, l) == []
    ensures Fitting(path, l) == [] <==> forall j :: 0 <= j < |l| ==> !Fits(path, l[j])
  {
    if l != [] {
      FirstEmpty(path, l[1..], k);
      assert forall j :: 1 <= j < |l| ==> l[j] == l[1..][j - 1];
    }
  }

  lemma {:induction false} AllFit(path: nat, l: seq<string>)
    ensures |Fitting(path, l)| <= |l|
    ensures |Fitting(path, l)| == |l| <==> forall j :: 0 <= j < |l| ==> Fits(path, l[j])
    ensures (forall j :: 0 <= j < |l| ==> Fits(path, l[j])) ==> Fitting(path, l) == l
  {
    if l != [] {
      AllFit(path, l[1..]);
      assert forall j :: 1 <= j < |l| ==> l[j] == l[1..][j - 1];
    }
  }

  /** From the offset on, no over-long name has one that fits in a later window. */
  ghost predicate Harmless(path: nat, l: seq<string>, offset: nat) {
    forall i, j :: offset <= i < j < |l| && !Fits(path, l[i]) && Fits(path, l[j]) ==> i / ENTRIES == j / ENTRIES
  }

  function WindowEnd(l: seq<string>, offset: nat): nat {
    if offset + ENTRIES <= |l| then offset + ENTRIES else |l|
  }

  /** The names of its own window a packet shows, and those it fills up with. */
  function Own(path: nat, l: seq<string>, offset: nat): seq<string>
    requires offset <= |l|
  {
    Fitting(path, l[offset..WindowEnd(l, offset)])
  }

  function Borrowed(path: nat, l: seq<string>, offset: nat): seq<string>
    requires offset <= |l|
  {
    var own := |Own(path, l, offset)|;
    FirstFitting(path, l[WindowEnd(l, offset)..], if own <= ENTRIES then ENTRIES - own else 0)
  }

  lemma WindowSplits(path: nat, l: seq<string>, offset: nat)
    requires offset <= |l|
    ensures Page(path, l, offset) == Own(path, l, offset) + Borrowed(path, l, offset)
    ensures Fitting(path, l[offset..]) == Own(path, l, offset) + Fitting(path, l[WindowEnd(l, offset)..])
    ensures |Own(path, l, offset)| <= WindowEnd(l, offset) - offset
  {
    var end := WindowEnd(l, offset);
    assert l[offset..] == l[offset..end] + l[end..];
    FirstSplits(path, l[offset..end], l[end..], ENTRIES);
    FittingSplits(path, l[offset..end], l[end..]);
  }

  /** Nothing is borrowed if every name of the window fits or no name after it does. */
  lemma BorrowsNothing(path: nat, l: seq<string>, offset: nat)
    requires offset + ENTRIES <= |l|
    ensures Borrowed(path, l, offset) == [] <==>
              || (forall i :: offset <= i < offset + ENTRIES ==> Fits(path, l[i]))
              || (forall j :: offset + ENTRIES <= j < |l| ==> !Fits(path, l[j]))
  {
    var end := offset + ENTRIES;
    AllFit(path, l[offset..end]);
    FirstEmpty(path, l[end..], ENTRIES - |Own(path, l, offset)|);
    assert forall i :: offset <= i < end ==> l[i] == l[offset..end][i - offset];
    assert forall i :: 0 <= i < ENTRIES ==> l[offset..end][i] == l[offset + i];
    assert forall j :: end <= j < |l| ==> l[j] == l[end..][j - end];
    assert forall j :: 0 <= j < |l| - end ==> l[end..][j] == l[end + j];
  }

  /** Together the packets show at least everything that fits. */
  lemma {:induction false} PagesShowAll(path: nat, l: seq<string>, offset: nat)
    requires offset <= |l|
    ensures |PagesFrom(path, l, offset)| >= |Fitting(path, l[offset..])|
    decreases |l| - offset
  {
    if offset < |l| {
      WindowSplits(path, l, offset);
      if offset + ENTRIES <= |l| {
        PagesShowAll(path, l, offset + ENTRIES);
      }
    }
  }

  /** The windows are what division by the packet size says. */
  lemma SameWindow(offset: nat, i: nat)
    requires offset % ENTRIES == 0 && offset <= i
    ensures (offset + ENTRIES) % ENTRIES == 0
    ensures i / ENTRIES == offset / ENTRIES <==> i < offset + ENTRIES
  {
  }

  lemma WindowHarmless(path: nat, l: seq<string>, offset: nat, end: nat)
    requires offset % ENTRIES == 0 && offset + ENTRIES == end <= |l|
    ensures Harmless(path, l, offset) <==> Borrowed(path, l, offset) == [] && Harmless(path, l, end)
  {
    BorrowsNothing(path, l, offset);
    forall i | offset <= i ensures i / ENTRIES == offset / ENTRIES <==> i < end {
      SameWindow(offset, i);
    }
    if Harmless(path, l, offset) && exists i :: offset <= i < end && !Fits(path, l[i]) {
      var i :| offset <= i < end && !Fits(path, l[i]);
      forall j | end <= j < |l| ensures !Fits(path, l[j]) {
      }
    }
  }

  lemma SameTail(own: seq<string>, extra: seq<string>, pages: seq<string>, fit: seq<string>)
    requires |pages| >= |fit|
    ensures own + extra + pages == own + fit <==> extra == [] && pages == fit
  {
    if own + extra + pages == own + fit {
      assert |extra| == 0;
      assert (own + extra + pages)[|own|..] == pages && (own + fit)[|own|..] == fit;
    }
  }

  lemma LastWindow(path: nat, l: seq<string>, offset: nat)
    requires offset <= |l| < offset + ENTRIES && offset % ENTRIES == 0
    ensures PagesFrom(path, l, offset) == Fitting(path, l[offset..]) && Harmless(path, l, offset)
  {
    if offset < |l| {
      WindowSplits(path, l, offset);
      forall i | offset <= i < |l| ensures i / ENTRIES == offset / ENTRIES {
        SameWindow(offset, i);
      }
    }
  }

  lemma WindowExact(path: nat, l: seq<string>, offset: nat, end: nat)
    requires offset + ENTRIES == end <= |l|
    ensures PagesFrom(path, l, offset) == Fitting(path, l[offset..]) <==>
              Borrowed(path, l, offset) == [] && PagesFrom(path, l, end) == Fitting(path, l[end..])
  {
    WindowSplits(path, l, offset);
    PagesShowAll(path, l, end);
    NextPages(path, l, offset, end);
    SameTail(Own(path, l, offset), Borrowed(path, l, offset), PagesFrom(path, l, end), Fitting(path, l[end..]));
  }

  lemma NextPages(path: nat, l: seq<string>, offset: nat, end: nat)
    requires offset + ENTRIES == end <= |l|
    ensures PagesFrom(path, l, offset) == Page(path, l, offset) + PagesFrom(path, l, end)
  {
  }

  /** The packets at 0, 20, 40, ... show exactly the names that fit, in order, unless an over-long
      name is followed in a later window by one that fits: such a name shows up in two packets.
   */
  lemma {:induction false} PagesListExactly(path: nat, l: seq<string>, offset: nat)
    requires offset <= |l| && offset % ENTRIES == 0
    ensures PagesFrom(path, l, offset) == Fitting(path, l[offset..]) <==> Harmless(path, l, offset)
    decreases |l| - offset
  {
    if offset + ENTRIES > |l| {
      LastWindow(path, l, offset);
    } else {
      var end := offset + ENTRIES;
      SameWindow(offset, offset);
      PagesListExactly(path, l, end);
      WindowExact(path, l, offset, end);
      WindowHarmless(path, l, offset, end);
    }
  }

  /** With every name short enough the packets show the listing. */
  lemma PagesListAll(path: nat, l: seq<string>)
    requires forall i :: 0 <= i < |l| ==> Fits(path, l[i])
    ensures PagesFrom(path, l, 0) == l
  {
    PagesListExactly(path, l, 0);
    AllFit(path, l);
    assert l[0..] == l;
  }

  /** One over-long name before twenty that fit: the last of these is shown by both packets. */
  lemma OverLongRepeats(path: nat, long: string, rest: seq<string>)
    requires !Fits(path, long) && |rest| == ENTRIES && forall i :: 0 <= i < |rest| ==> Fits(path, rest[i])
    ensures PagesFrom(path, [long] + rest, 0) == rest + [rest[ENTRIES - 1]]
  {
    var l := [long] + rest;
    assert l[0..] == l && l[1..] == rest && l[ENTRIES..] == [rest[ENTRIES - 1]];
    AllFit(path, rest);
    FirstSplits(path, rest, [], ENTRIES);
    assert rest + [] == rest;
    assert Page(path, l, 0) == rest;
    FirstSplits(path, l[ENTRIES..], [], ENTRIES);
    assert l[ENTRIES..] + [] == l[ENTRIES..];
    AllFit(path, l[ENTRIES..]);
    assert Page(path, l, ENTRIES) == [rest[ENTRIES - 1]];
    NextPages(path, l, 0, ENTRIES);
  }
}
