/** The child's delete-all command: read a directory, remove each file that the file system query
    answers to be closed, and start reading over after each file removed.

    The directory is modelled by its entries in reading order. What each call answers is decided from
    outside: whether a read, a status query, a removal or a rewind succeeds, and whether the search
    over the open handles says that a file is open.
 */
module DeleteAll {

  import opened Counting
  import opened Paths

  datatype Kind = ClosedFile | OpenFile | SubDirectory

  datatype Entry = Entry(name: string, kind: Kind)

  /** The directory named in the command, and what the calls answer: the n-th read, the n-th query with
      the removal that follows it, the rewind after the n-th removal.
   */
  datatype Job = Job(
    dir: string, open: bool, read: nat -> bool, stat: nat -> bool, isOpen: nat -> bool, remove: nat -> bool,
    rewind: nat -> bool)

  datatype FilenameState = Invalid | NotInUse | FileOpen | FileClosed | IsDirectory

  /** What became of an entry that was read, with the number of the query that decided it. */
  datatype Fate = Ignored | TooLong | NotValid | Vanished(call: nat) | Skipped | Busy(call: nat) | Refused(call: nat) | Deleted(call: nat)

  /** An entry removed, and the query that answered it to be closed. */
  datatype Removal = Removal(entry: Entry, call: nat)

  /** Where the command stands: the entries left and the next one to read, the calls made so far, the
      three counts, the entries asked about and removed, and the fates since the last rewind.
   */
  datatype Sweep = Sweep(
    entries: seq<Entry>, next: nat, readCalls: nat,
    deleted: nat, notDeleted: nat, skipped: nat,
    asked: seq<Entry>, removed: seq<Removal>, pass: seq<Fate>)

  function Start(entries: seq<Entry>): Sweep {
    Sweep(entries, 0, 0, 0, 0, 0, [], [], [])
  }

  /** The entry with the given path, or the number of entries. */
  function Find(dir: string, entries: seq<Entry>, path: string): (i: nat)
    ensures i <= |entries|
    ensures i < |entries| ==> PathOf(dir, entries[i].name) == path
  {
    if entries == [] then 0
    else if PathOf(dir, entries[0].name) == path then 0
    else 1 + Find(dir, entries[1..], path)
  }

  // ---------- The command ----------

  /** The query for a path, as the `call`-th. */
  function StateOf(o: Job, entries: seq<Entry>, path: string, call: nat): FilenameState {
    if |path| == 0 || |path| >= MAX_PATH_LEN then Invalid
    else
      var i := Find(o.dir, entries, path);
      if !o.stat(call) || i == |entries| then NotInUse
      else if entries[i].kind == SubDirectory then IsDirectory
      else if o.isOpen(call) then FileOpen
      else FileClosed
  }

  function Path(o: Job, s: Sweep): string
    requires s.next < |s.entries|
  {
    WithSeparator(o.dir, MAX_PATH_LEN) + s.entries[s.next].name
  }

  function FateAt(o: Job, s: Sweep, path: string): Fate {
    match StateOf(o, s.entries, path, |s.asked|)
    case Invalid => NotValid
    case NotInUse => Vanished(|s.asked|)
    case IsDirectory => Skipped
    case FileOpen => Busy(|s.asked|)
    case FileClosed => if o.remove(|s.asked|) then Deleted(|s.asked|) else Refused(|s.asked|)
  }

  function FateOf(o: Job, s: Sweep): Fate
    requires s.next < |s.entries|
  {
    if Dot(s.entries[s.next].name) then Ignored
    else if |Path(o, s)| >= MAX_PATH_LEN then TooLong
    else FateAt(o, s, Path(o, s))
  }

  predicate Kept(f: Fate) {
    f.TooLong? || f.NotValid? || f.Vanished? || f.Busy? || f.Refused?
  }

  function Without(entries: seq<Entry>, i: nat): seq<Entry>
    requires i < |entries|
  {
    entries[..i] + entries[i + 1..]
  }

  /** The status query, the removal and the rewind, as far as they are called for the given path. */
  function AfterCalls(o: Job, s: Sweep, path: string): Sweep
    requires s.next < |s.entries|
  {
    var fate := FateAt(o, s, path);
    var t := s.(asked := if fate.NotValid? then s.asked else s.asked + [s.entries[s.next]]);
    var i := Find(o.dir, s.entries, path);
    if fate.Deleted? && i < |s.entries| then
      t.(entries := Without(s.entries, i), removed := s.removed + [Removal(s.entries[i], fate.call)],
         next := if o.rewind(s.deleted) then 0 else s.next, pass := if o.rewind(s.deleted) then [] else s.pass)
    else t
  }

  /** One entry read and dealt with. */
  function Next(o: Job, s: Sweep): Sweep
    requires s.next < |s.entries|
  {
    var fate := FateOf(o, s);
    var t := if fate.Ignored? || fate.TooLong? then s else AfterCalls(o, s, Path(o, s));
    var u := t.(readCalls := s.readCalls + 1, deleted := s.deleted + One(fate.Deleted?),
                notDeleted := s.notDeleted + One(Kept(fate)), skipped := s.skipped + One(fate.Skipped?));
    if fate.Deleted? then u else u.(next := s.next + 1, pass := s.pass + [fate])
  }

  predicate More(o: Job, s: Sweep) {
    o.read(s.readCalls) && s.next < |s.entries|
  }

  /** The whole loop. It ends although it starts over: each time fewer entries are left. */
  function Run(o: Job, s: Sweep): Sweep
    decreases |s.entries|, |s.entries| - s.next
  {
    if More(o, s) then Run(o, Next(o, s)) else s
  }

  // ---------- What the loop does ----------

  predicate Unique(entries: seq<Entry>) {
    && (forall i :: 0 <= i < |entries| ==> entries[i].name != "")
    && (forall i, j :: 0 <= i < j < |entries| ==> entries[i].name != entries[j].name)
  }

  predicate ValidDir(dir: string) {
    dir != "" && |dir| < MAX_PATH_LEN
  }

  predicate Fits(dir: string, e: Entry) {
    |PathOf(dir, e.name)| < MAX_PATH_LEN
  }

  /** What the command may remove: a file whose path fits. */
  predicate Removable(dir: string, e: Entry) {
    !e.kind.SubDirectory? && !Dot(e.name) && Fits(dir, e)
  }

  /** What it is asked to remove. */
  predicate Doomed(dir: string, e: Entry) {
    Removable(dir, e) && e.kind.ClosedFile?
  }

  /** The entries that `gone` does not hold for, in order. */
  function Others(gone: Entry -> bool, entries: seq<Entry>): seq<Entry> {
    if entries == [] then []
    else (if gone(entries[0]) then [] else [entries[0]]) + Others(gone, entries[1..])
  }

  /** What the command warns about: files it must leave alone, and directories. */
  predicate KeptEntry(dir: string, e: Entry) {
    !Dot(e.name) && (!Fits(dir, e) || e.kind.OpenFile?)
  }

  predicate SkippedEntry(dir: string, e: Entry) {
    !Dot(e.name) && Fits(dir, e) && e.kind.SubDirectory?
  }

  /** The calls made for the `call`-th query remove its file. */
  predicate Condemns(o: Job, call: nat) {
    o.stat(call) && !o.isOpen(call) && o.remove(call)
  }

  /** A fate an entry can have when it stays. */
  ghost predicate Stays(o: Job, e: Entry, f: Fate) {
    match f
    case Ignored => Dot(e.name)
    case TooLong => !Dot(e.name) && !Fits(o.dir, e)
    case Skipped => SkippedEntry(o.dir, e)
    case Busy(call) => Removable(o.dir, e) && o.isOpen(call)
    case Vanished(call) => !Dot(e.name) && !o.stat(call)
    case Refused(call) => Removable(o.dir, e) && !o.remove(call)
    case _ => false
  }

  lemma {:induction false} FindFirst(dir: string, entries: seq<Entry>, i: nat)
    requires i < |entries|
    requires forall j :: 0 <= j < i ==> entries[j].name != entries[i].name
    ensures Find(dir, entries, PathOf(dir, entries[i].name)) == i
  {
    if i > 0 {
      PathsDiffer(dir, entries[0].name, entries[i].name);
      var rest := entries[1..];
      assert forall j :: 0 <= j < i - 1 ==> rest[j] == entries[j + 1];
      FindFirst(dir, rest, i - 1);
    }
  }

  /** The command removes the entry it just read, if it is a file that fits and was answered to be
      closed, or leaves it for the reason its fate names.
   */
  lemma FateIs(o: Job, s: Sweep)
    requires ValidDir(o.dir) && Unique(s.entries) && s.next < |s.entries|
    ensures var e := s.entries[s.next];
            var f := FateOf(o, s);
            if f.Deleted? then
              && Removable(o.dir, e) && f.call == |s.asked| && Condemns(o, f.call)
              && Find(o.dir, s.entries, Path(o, s)) == s.next
            else Stays(o, e, f) && (f.Vanished? || f.Busy? || f.Refused? ==> f.call == |s.asked|)
  {
    var e := s.entries[s.next];
    BuiltPathIsPath(o.dir, e.name);
    FindFirst(o.dir, s.entries, s.next);
  }

  function Entries(removed: seq<Removal>): seq<Entry> {
    seq(|removed|, i requires 0 <= i < |removed| => removed[i].entry)
  }

  /** Every removal is of a file that fits, asked about by a query that found it and answered it to be
      closed.
   */
  ghost predicate Answered(o: Job, asked: seq<Entry>, removed: seq<Removal>) {
    forall i :: 0 <= i < |removed| ==> AnsweredAt(o, asked, removed[i])
  }

  ghost predicate AnsweredAt(o: Job, asked: seq<Entry>, r: Removal) {
    Removable(o.dir, r.entry) && r.call < |asked| && asked[r.call] == r.entry && Condemns(o, r.call)
  }

  /** And every query that found a file to be closed removed it, unless the removal failed. */
  ghost predicate Done(o: Job, asked: seq<Entry>, removed: seq<Removal>) {
    forall n :: 0 <= n < |asked| ==> DoneAt(o, asked, removed, n)
  }

  ghost predicate DoneAt(o: Job, asked: seq<Entry>, removed: seq<Removal>, n: nat)
    requires n < |asked|
  {
    Removable(o.dir, asked[n]) && Condemns(o, n) ==> Removal(asked[n], n) in removed
  }

  /** Every query so far answered rightly whether the file is open. */
  ghost predicate Truthful(o: Job, asked: seq<Entry>) {
    forall n :: 0 <= n < |asked| && !asked[n].kind.SubDirectory? ==> (o.isOpen(n) <==> asked[n].kind.OpenFile?)
  }

  function MayGo(o: Job): Entry -> bool {
    e => Removable(o.dir, e)
  }

  function ShouldGo(o: Job): Entry -> bool {
    e => Doomed(o.dir, e)
  }

  /** Only closed files were removed. */
  ghost predicate AllDoomed(o: Job, removed: seq<Removal>) {
    forall i :: 0 <= i < |removed| ==> Doomed(o.dir, removed[i].entry)
  }

  /** What was there initially is there still or was removed, and what may not be removed is there in
      order; so is, if only closed files were removed, what should not be.
   */
  ghost predicate Accounted(o: Job, initial: seq<Entry>, entries: seq<Entry>, removed: seq<Removal>) {
    && multiset(initial) == multiset(entries) + multiset(Entries(removed))
    && Others(MayGo(o), entries) == Others(MayGo(o), initial)
    && (AllDoomed(o, removed) ==> Others(ShouldGo(o), entries) == Others(ShouldGo(o), initial))
  }

  ghost predicate AllStay(o: Job, entries: seq<Entry>, pass: seq<Fate>) {
    |pass| <= |entries| && forall i :: 0 <= i < |pass| ==> Stays(o, entries[i], pass[i])
  }

  /** What holds before every read. */
  ghost predicate Good(o: Job, initial: seq<Entry>, s: Sweep) {
    && Unique(s.entries) && Accounted(o, initial, s.entries, s.removed) && Answered(o, s.asked, s.removed)
    && Done(o, s.asked, s.removed)
    && AllStay(o, s.entries, s.pass) && |s.pass| == s.next && s.deleted == |s.removed|
  }

  lemma {:induction false} OthersWithout(gone: Entry -> bool, entries: seq<Entry>, i: nat)
    requires i < |entries| && gone(entries[i])
    ensures Others(gone, Without(entries, i)) == Others(gone, entries)
  {
    var rest := Without(entries, i);
    if i == 0 {
      assert rest == entries[1..];
    } else {
      OthersWithout(gone, entries[1..], i - 1);
      assert rest[1..] == Without(entries[1..], i - 1);
    }
  }

  lemma UniqueWithout(entries: seq<Entry>, i: nat)
    requires Unique(entries) && i < |entries|
    ensures Unique(Without(entries, i))
    ensures multiset(entries) == multiset(Without(entries, i)) + multiset([entries[i]])
  {
    assert entries == entries[..i] + [entries[i]] + entries[i + 1..];
    var rest := Without(entries, i);
    forall j | 0 <= j < |rest| ensures rest[j] == entries[if j < i then j else j + 1] {
    }
  }

  lemma MoveOne(all: multiset<Entry>, left: multiset<Entry>, gone: multiset<Entry>, left': multiset<Entry>,
                gone': multiset<Entry>, one: multiset<Entry>)
    requires all == left + gone && left == left' + one && gone' == gone + one
    ensures all == left' + gone'
  {
  }

  lemma AlsoAnswered(o: Job, asked: seq<Entry>, more: seq<Entry>, removed: seq<Removal>)
    requires Answered(o, asked, removed)
    ensures Answered(o, asked + more, removed)
  {
    forall i | 0 <= i < |removed| ensures AnsweredAt(o, asked + more, removed[i]) {
      assert AnsweredAt(o, asked, removed[i]);
    }
  }

  lemma StaysDone(o: Job, asked: seq<Entry>, more: seq<Entry>, removed: seq<Removal>, also: seq<Removal>)
    requires Done(o, asked, removed) && |more| <= 1
    requires more != [] && Removable(o.dir, more[0]) && Condemns(o, |asked|) ==> also == [Removal(more[0], |asked|)]
    ensures Done(o, asked + more, removed + also)
  {
    var all := asked + more;
    forall n | 0 <= n < |all| ensures DoneAt(o, all, removed + also, n) {
      if n < |asked| {
        assert DoneAt(o, asked, removed, n);
        assert all[n] == asked[n];
      }
    }
  }

  lemma TruthfulBefore(o: Job, asked: seq<Entry>, more: seq<Entry>)
    requires Truthful(o, asked + more)
    ensures Truthful(o, asked)
  {
    forall n | 0 <= n < |asked| && !asked[n].kind.SubDirectory? ensures o.isOpen(n) <==> asked[n].kind.OpenFile? {
      assert (asked + more)[n] == asked[n];
    }
  }

  lemma RemovalAccounts(o: Job, initial: seq<Entry>, entries: seq<Entry>, removed: seq<Removal>, i: nat, call: nat)
    requires Unique(entries) && Accounted(o, initial, entries, removed) && i < |entries| && Removable(o.dir, entries[i])
    ensures Accounted(o, initial, Without(entries, i), removed + [Removal(entries[i], call)])
  {
    var e := entries[i];
    var more := removed + [Removal(e, call)];
    UniqueWithout(entries, i);
    assert Entries(more) == Entries(removed) + [e];
    MoveOne(multiset(initial), multiset(entries), multiset(Entries(removed)),
            multiset(Without(entries, i)), multiset(Entries(more)), multiset([e]));
    OthersWithout(MayGo(o), entries, i);
    if AllDoomed(o, more) {
      assert more[|removed|].entry == e;
      assert forall j :: 0 <= j < |removed| ==> more[j] == removed[j];
      OthersWithout(ShouldGo(o), entries, i);
    }
  }

  lemma RemovalGood(o: Job, initial: seq<Entry>, s: Sweep, t: Sweep)
    requires Good(o, initial, s) && s.next < |s.entries|
    requires var e := s.entries[s.next];
             && Removable(o.dir, e) && Condemns(o, |s.asked|) && t.entries == Without(s.entries, s.next)
             && t.asked == s.asked + [e] && t.removed == s.removed + [Removal(e, |s.asked|)]
    requires t.deleted == s.deleted + 1 && |t.pass| == t.next && (t.pass == [] || t.pass == s.pass)
    ensures Good(o, initial, t)
  {
    var e := s.entries[s.next];
    UniqueWithout(s.entries, s.next);
    RemovalAccounts(o, initial, s.entries, s.removed, s.next, |s.asked|);
    AlsoAnswered(o, s.asked, [e], s.removed);
    StaysDone(o, s.asked, [e], s.removed, [Removal(e, |s.asked|)]);
    assert AnsweredAt(o, t.asked, Removal(e, |s.asked|));
    assert forall i :: 0 <= i < s.next ==> t.entries[i] == s.entries[i];
  }

  lemma AlsoStays(o: Job, entries: seq<Entry>, pass: seq<Fate>, fate: Fate)
    requires AllStay(o, entries, pass) && |pass| < |entries| && Stays(o, entries[|pass|], fate)
    ensures AllStay(o, entries, pass + [fate])
  {
  }

  lemma StayGood(o: Job, initial: seq<Entry>, s: Sweep, t: Sweep, fate: Fate, more: seq<Entry>)
    requires Good(o, initial, s) && s.next < |s.entries| && Stays(o, s.entries[s.next], fate)
    requires t.entries == s.entries && t.removed == s.removed && t.deleted == s.deleted && t.asked == s.asked + more
    requires t.next == s.next + 1 && t.pass == s.pass + [fate]
    requires |more| <= 1 && (more != [] && Removable(o.dir, more[0]) ==> !Condemns(o, |s.asked|))
    ensures Good(o, initial, t)
  {
    AlsoStays(o, s.entries, s.pass, fate);
    AlsoAnswered(o, s.asked, more, s.removed);
    StaysDone(o, s.asked, more, s.removed, []);
    assert s.removed + [] == s.removed;
  }

  lemma NextKeeps(o: Job, initial: seq<Entry>, s: Sweep)
    requires ValidDir(o.dir) && Good(o, initial, s) && s.next < |s.entries|
    ensures Good(o, initial, Next(o, s))
  {
    FateIs(o, s);
    var fate, t := FateOf(o, s), Next(o, s);
    if fate.Deleted? {
      RemovalGood(o, initial, s, t);
    } else {
      var more := if fate.Ignored? || fate.TooLong? || fate.NotValid? then [] else [s.entries[s.next]];
      assert s.asked + [] == s.asked;
      StayGood(o, initial, s, t, fate, more);
    }
  }

  lemma {:induction false} RunKeeps(o: Job, initial: seq<Entry>, s: Sweep)
    requires ValidDir(o.dir) && Good(o, initial, s)
    ensures Good(o, initial, Run(o, s)) && !More(o, Run(o, s))
    decreases |s.entries|, |s.entries| - s.next
  {
    if More(o, s) {
      NextKeeps(o, initial, s);
      RunKeeps(o, initial, Next(o, s));
    }
  }

  /** An entry that was left though it may be removed: the last query or removal for it says why. */
  ghost predicate Resisted(o: Job, f: Fate) {
    || (f.Vanished? && !o.stat(f.call))
    || (f.Busy? && o.isOpen(f.call))
    || (f.Refused? && !o.remove(f.call))
  }

  /** Whatever the calls answer: nothing is removed but files that fit, each answered to be closed when
      it was asked about; nothing else moves; the count of removals is right; and if the directory was
      read to its end, then each such file left behind was, in the last pass, answered to be open, not
      found, or not removed.
   */
  lemma DeleteAllOutcome(o: Job, initial: seq<Entry>)
    requires ValidDir(o.dir) && Unique(initial)
    ensures var s := Run(o, Start(initial));
            && multiset(initial) == multiset(s.entries) + multiset(Entries(s.removed))
            && Answered(o, s.asked, s.removed)
            && Others(MayGo(o), s.entries) == Others(MayGo(o), initial)
            && s.deleted == |initial| - |s.entries|
            && (o.read(s.readCalls) ==>
                  && |s.pass| == |s.entries|
                  && forall i :: 0 <= i < |s.entries| && Removable(o.dir, s.entries[i]) ==> Resisted(o, s.pass[i]))
  {
    var s := Run(o, Start(initial));
    assert Entries([]) == [];
    RunKeeps(o, initial, Start(initial));
    assert |multiset(initial)| == |initial| && |multiset(s.entries)| == |s.entries|
           && |multiset(Entries(s.removed))| == |s.removed|;
  }

  /** An open file that was asked about is spared: the query did not find it, answered that it is open,
      or the removal failed.
   */
  ghost predicate OpenSpared(o: Job, asked: seq<Entry>) {
    forall n :: 0 <= n < |asked| && Removable(o.dir, asked[n]) && asked[n].kind.OpenFile? ==> !Condemns(o, n)
  }

  lemma DoomedExactly(o: Job, asked: seq<Entry>, removed: seq<Removal>)
    requires Answered(o, asked, removed) && Done(o, asked, removed)
    ensures AllDoomed(o, removed) <==> OpenSpared(o, asked)
  {
    if AllDoomed(o, removed) {
      forall n | 0 <= n < |asked| && Removable(o.dir, asked[n]) && asked[n].kind.OpenFile? ensures !Condemns(o, n) {
        assert DoneAt(o, asked, removed, n);
      }
    }
    if OpenSpared(o, asked) {
      forall i | 0 <= i < |removed| ensures Doomed(o.dir, removed[i].entry) {
        assert AnsweredAt(o, asked, removed[i]);
      }
    }
  }

  /** Whatever the calls answer: no open file is removed if and only if each that was asked about was
      answered to be open, not found or not removed; and then all entries but closed files stay, in
      order.
   */
  lemma OpenFilesKeptExactly(o: Job, initial: seq<Entry>)
    requires ValidDir(o.dir) && Unique(initial)
    ensures var s := Run(o, Start(initial));
            && (AllDoomed(o, s.removed) <==> OpenSpared(o, s.asked))
            && (OpenSpared(o, s.asked) ==> Others(ShouldGo(o), s.entries) == Others(ShouldGo(o), initial))
  {
    var s := Run(o, Start(initial));
    assert Entries([]) == [];
    RunKeeps(o, initial, Start(initial));
    DoomedExactly(o, s.asked, s.removed);
  }

  lemma TruthSpares(o: Job, asked: seq<Entry>)
    requires Truthful(o, asked)
    ensures OpenSpared(o, asked)
  {
  }

  /** One wrong answer, and an open file is removed. */
  lemma WrongAnswerRemoves(o: Job, e: Entry)
    requires ValidDir(o.dir) && Removable(o.dir, e) && e.kind.OpenFile? && e.name != ""
    requires o.read(0) && o.stat(0) && !o.isOpen(0) && o.remove(0)
    ensures var s := Run(o, Start([e])); s.entries == [] && s.removed == [Removal(e, 0)] && !Truthful(o, s.asked)
  {
    var s := Start([e]);
    FateIs(o, s);
    BuiltPathIsPath(o.dir, e.name);
    FindFirst(o.dir, [e], 0);
    var t := Next(o, s);
    assert t.entries == [] && t.asked == [e];
    assert t.asked[0] == e;
    assert Run(o, t) == t;
  }

  // ---------- When every call succeeds and answers rightly ----------

  ghost predicate Clean(o: Job) {
    forall n: nat :: o.read(n) && o.stat(n) && o.remove(n)
  }

  /** The counts behind the two warnings: never zero when an entry of the pass calls for one, and only
      raised for an entry that does.
   */
  ghost predicate Warns(o: Job, initial: seq<Entry>, s: Sweep) {
    && (forall i :: 0 <= i < |s.pass| ==> (Kept(s.pass[i]) ==> s.notDeleted > 0) && (s.pass[i].Skipped? ==> s.skipped > 0))
    && (Clean(o) && Truthful(o, s.asked) && s.notDeleted > 0 ==>
          exists e :: e in Others(ShouldGo(o), initial) && KeptEntry(o.dir, e))
    && (s.skipped > 0 ==> exists e :: e in Others(MayGo(o), initial) && SkippedEntry(o.dir, e))
  }

  /** A fate that an answer decided names the query about its entry. */
  ghost predicate Traced(entries: seq<Entry>, asked: seq<Entry>, pass: seq<Fate>) {
    |pass| <= |entries| && forall i :: 0 <= i < |pass| && pass[i].Busy? ==> pass[i].call < |asked| && asked[pass[i].call] == entries[i]
  }

  lemma TracedStays(entries: seq<Entry>, asked: seq<Entry>, pass: seq<Fate>, fate: Fate, more: seq<Entry>)
    requires Traced(entries, asked, pass) && |pass| < |entries|
    requires fate.Busy? ==> more == [entries[|pass|]] && fate.call == |asked|
    ensures Traced(entries, asked + more, pass + [fate])
  {
  }

  lemma NextTraced(o: Job, s: Sweep)
    requires ValidDir(o.dir) && Unique(s.entries) && s.next < |s.entries| && |s.pass| == s.next && Traced(s.entries, s.asked, s.pass)
    ensures Traced(Next(o, s).entries, Next(o, s).asked, Next(o, s).pass)
  {
    FateIs(o, s);
    var e, fate := s.entries[s.next], FateOf(o, s);
    if !fate.Deleted? {
      var more := if fate.Ignored? || fate.TooLong? || fate.NotValid? then [] else [e];
      assert s.asked + [] == s.asked;
      TracedStays(s.entries, s.asked, s.pass, fate, more);
    }
  }

  lemma {:induction false} RunTraced(o: Job, initial: seq<Entry>, s: Sweep)
    requires ValidDir(o.dir) && Good(o, initial, s) && Traced(s.entries, s.asked, s.pass)
    ensures Traced(Run(o, s).entries, Run(o, s).asked, Run(o, s).pass)
    decreases |s.entries|, |s.entries| - s.next
  {
    if More(o, s) {
      NextKeeps(o, initial, s);
      NextTraced(o, s);
      RunTraced(o, initial, Next(o, s));
    }
  }

  lemma {:induction false} InOthers(gone: Entry -> bool, entries: seq<Entry>, i: nat)
    requires i < |entries| && !gone(entries[i])
    ensures entries[i] in Others(gone, entries)
  {
    if i > 0 {
      InOthers(gone, entries[1..], i - 1);
    }
  }

  /** A removal changes no count and at most shortens the pass. */
  lemma RemovalWarns(o: Job, initial: seq<Entry>, s: Sweep, t: Sweep, more: seq<Entry>)
    requires Warns(o, initial, s) && t.asked == s.asked + more && t.notDeleted == s.notDeleted && t.skipped == s.skipped
    requires t.pass == [] || t.pass == s.pass
    ensures Warns(o, initial, t)
  {
    if Truthful(o, t.asked) {
      TruthfulBefore(o, s.asked, more);
    }
  }

  /** An entry that stays raises a count for a reason that is among the entries kept. */
  lemma StayWarns(o: Job, initial: seq<Entry>, s: Sweep, t: Sweep, e: Entry, fate: Fate, more: seq<Entry>)
    requires Warns(o, initial, s) && Stays(o, e, fate) && t.asked == s.asked + more
    requires !Removable(o.dir, e) ==> e in Others(MayGo(o), initial)
    requires Truthful(o, t.asked) && KeptEntry(o.dir, e) ==> e in Others(ShouldGo(o), initial)
    requires fate.Busy? ==> more == [e] && fate.call == |s.asked|
    requires t.pass == s.pass + [fate] && t.notDeleted == s.notDeleted + One(Kept(fate)) && t.skipped == s.skipped + One(fate.Skipped?)
    ensures Warns(o, initial, t)
  {
    if Truthful(o, t.asked) {
      TruthfulBefore(o, s.asked, more);
      if fate.Busy? {
        assert t.asked[fate.call] == e;
      }
      assert Clean(o) && Kept(fate) ==> KeptEntry(o.dir, e);
    }
  }

  lemma AmongOthers(o: Job, initial: seq<Entry>, s: Sweep)
    requires Good(o, initial, s) && s.next < |s.entries|
    ensures var e := s.entries[s.next];
            && (!Removable(o.dir, e) ==> e in Others(MayGo(o), initial))
            && (Truthful(o, s.asked) && KeptEntry(o.dir, e) ==> e in Others(ShouldGo(o), initial))
  {
    var e := s.entries[s.next];
    if !Removable(o.dir, e) {
      InOthers(MayGo(o), s.entries, s.next);
    }
    if Truthful(o, s.asked) && KeptEntry(o.dir, e) {
      TruthSpares(o, s.asked);
      DoomedExactly(o, s.asked, s.removed);
      InOthers(ShouldGo(o), s.entries, s.next);
    }
  }

  function AskedAbout(e: Entry, fate: Fate): seq<Entry> {
    if fate.Ignored? || fate.TooLong? || fate.NotValid? then [] else [e]
  }

  /** What one turn does to the counts, the questions and the pass. */
  lemma NextCounts(o: Job, s: Sweep)
    requires ValidDir(o.dir) && Unique(s.entries) && s.next < |s.entries|
    ensures var fate, t := FateOf(o, s), Next(o, s);
            && t.asked == s.asked + AskedAbout(s.entries[s.next], fate)
            && t.notDeleted == s.notDeleted + One(Kept(fate)) && t.skipped == s.skipped + One(fate.Skipped?)
            && (if fate.Deleted? then t.pass == [] || t.pass == s.pass else t.pass == s.pass + [fate])
            && (fate.Busy? ==> fate.call == |s.asked|)
  {
    assert s.asked + [] == s.asked;
  }

  lemma CountedWarns(o: Job, initial: seq<Entry>, s: Sweep, t: Sweep, fate: Fate)
    requires Good(o, initial, s) && Warns(o, initial, s) && s.next < |s.entries|
    requires fate.Deleted? || Stays(o, s.entries[s.next], fate)
    requires t.asked == s.asked + AskedAbout(s.entries[s.next], fate) && (fate.Busy? ==> fate.call == |s.asked|)
    requires t.notDeleted == s.notDeleted + One(Kept(fate)) && t.skipped == s.skipped + One(fate.Skipped?)
    requires if fate.Deleted? then t.pass == [] || t.pass == s.pass else t.pass == s.pass + [fate]
    ensures Warns(o, initial, t)
  {
    var e := s.entries[s.next];
    var more := AskedAbout(e, fate);
    if fate.Deleted? {
      RemovalWarns(o, initial, s, t, more);
    } else {
      AmongOthers(o, initial, s);
      if Truthful(o, t.asked) {
        TruthfulBefore(o, s.asked, more);
      }
      StayWarns(o, initial, s, t, e, fate, more);
    }
  }

  lemma NextWarns(o: Job, initial: seq<Entry>, s: Sweep)
    requires ValidDir(o.dir) && Good(o, initial, s) && Warns(o, initial, s) && s.next < |s.entries|
    ensures Warns(o, initial, Next(o, s))
  {
    FateIs(o, s);
    NextCounts(o, s);
    CountedWarns(o, initial, s, Next(o, s), FateOf(o, s));
  }

  lemma {:induction false} RunWarns(o: Job, initial: seq<Entry>, s: Sweep)
    requires ValidDir(o.dir) && Good(o, initial, s) && Warns(o, initial, s)
    ensures Warns(o, initial, Run(o, s))
    decreases |s.entries|, |s.entries| - s.next
  {
    if More(o, s) {
      NextKeeps(o, initial, s);
      NextWarns(o, initial, s);
      RunWarns(o, initial, Next(o, s));
    }
  }

  lemma {:induction false} AllOthers(gone: Entry -> bool, entries: seq<Entry>)
    requires forall i :: 0 <= i < |entries| ==> !gone(entries[i])
    ensures Others(gone, entries) == entries
  {
    if entries != [] {
      AllOthers(gone, entries[1..]);
    }
  }

  lemma {:induction false} OthersAre(gone: Entry -> bool, entries: seq<Entry>)
    ensures forall e :: e in Others(gone, entries) <==> e in entries && !gone(e)
  {
    if entries != [] {
      OthersAre(gone, entries[1..]);
      assert entries == [entries[0]] + entries[1..];
    }
  }

  /** When no call fails and every answer is right, exactly the entries not asked for are left, in
      order, and the two warnings tell exactly whether some of them are files or directories.
   */
  lemma CleanOutcome(o: Job, initial: seq<Entry>)
    requires ValidDir(o.dir) && Unique(initial) && Clean(o) && Truthful(o, Run(o, Start(initial)).asked)
    ensures var s := Run(o, Start(initial));
            && s.entries == Others(ShouldGo(o), initial)
            && (s.notDeleted > 0 <==> exists e :: e in initial && KeptEntry(o.dir, e))
            && (s.skipped > 0 <==> exists e :: e in initial && SkippedEntry(o.dir, e))
  {
    var s := Run(o, Start(initial));
    assert Entries([]) == [];
    RunKeeps(o, initial, Start(initial));
    RunWarns(o, initial, Start(initial));
    RunTraced(o, initial, Start(initial));
    assert o.read(s.readCalls);
    CleanEnd(o, initial, s);
    WarnedAbout(o, initial);
  }

  lemma WarnedAbout(o: Job, initial: seq<Entry>)
    ensures forall e :: KeptEntry(o.dir, e) ==> (e in initial <==> e in Others(ShouldGo(o), initial))
    ensures forall e :: SkippedEntry(o.dir, e) ==> (e in initial <==> e in Others(ShouldGo(o), initial))
    ensures forall e :: SkippedEntry(o.dir, e) ==> (e in initial <==> e in Others(MayGo(o), initial))
  {
    OthersAre(ShouldGo(o), initial);
    OthersAre(MayGo(o), initial);
  }

  lemma CleanEnd(o: Job, initial: seq<Entry>, s: Sweep)
    requires Clean(o) && Truthful(o, s.asked) && Good(o, initial, s) && Warns(o, initial, s) && s.next == |s.entries|
    requires Traced(s.entries, s.asked, s.pass)
    ensures s.entries == Others(ShouldGo(o), initial)
    ensures forall e :: e in s.entries && KeptEntry(o.dir, e) ==> s.notDeleted > 0
    ensures forall e :: e in s.entries && SkippedEntry(o.dir, e) ==> s.skipped > 0
  {
    forall i | 0 <= i < |s.entries|
      ensures !Doomed(o.dir, s.entries[i])
      ensures KeptEntry(o.dir, s.entries[i]) ==> s.notDeleted > 0
      ensures SkippedEntry(o.dir, s.entries[i]) ==> s.skipped > 0
    {
      assert Stays(o, s.entries[i], s.pass[i]);
    }
    TruthSpares(o, s.asked);
    DoomedExactly(o, s.asked, s.removed);
    AllOthers(ShouldGo(o), s.entries);
  }

  // ---------- What is counted, whatever the calls answer ----------

  /** What a turn of the loop can count. */
  datatype Tally = FileLeft | DirectoryLeft | FileGone

  /** The turn at `s` leaves a file or an entry that cannot be asked about, leaves a directory, or removes
      a file, as the entry read and the answers to its query say.
   */
  predicate Counts(o: Job, s: Sweep, tally: Tally)
    requires s.next < |s.entries|
  {
    var e, q := s.entries[s.next], |s.asked|;
    var fits, directory := |PathOf(o.dir, e.name)| < 64, e.kind == SubDirectory;
    e.name != "." && e.name != ".." &&
    match tally
    case FileLeft => !fits || !o.stat(q) || (!directory && (o.isOpen(q) || !o.remove(q)))
    case DirectoryLeft => fits && o.stat(q) && directory
    case FileGone => fits && o.stat(q) && !directory && !o.isOpen(q) && o.remove(q)
  }

  function CountOf(s: Sweep, tally: Tally): nat {
    match tally case FileLeft => s.notDeleted case DirectoryLeft => s.skipped case FileGone => s.deleted
  }

  /** Each turn counts once, for what becomes of the entry read, unless that is the directory itself or
      its parent; it removes the file, and reads again from the start if the rewind succeeds, or goes on
      to the next entry.
   */
  lemma TurnCounts(o: Job, s: Sweep, tally: Tally)
    requires ValidDir(o.dir) && Unique(s.entries) && s.next < |s.entries|
    ensures var e, t := s.entries[s.next], Next(o, s);
            && CountOf(t, tally) == CountOf(s, tally) + (if Counts(o, s, tally) then 1 else 0)
            && t.readCalls == s.readCalls + 1
            && t.asked == s.asked + (if e.name != "." && e.name != ".." && |PathOf(o.dir, e.name)| < 64 then [e] else [])
            && (if Counts(o, s, FileGone) then
                  && t.entries == s.entries[..s.next] + s.entries[s.next + 1..] && t.removed == s.removed + [Removal(e, |s.asked|)]
                  && t.next == if o.rewind(s.deleted) then 0 else s.next
                else t.entries == s.entries && t.removed == s.removed && t.next == s.next + 1)
  {
    FateIs(o, s);
    var e := s.entries[s.next];
    BuiltPathIsPath(o.dir, e.name);
    FindFirst(o.dir, s.entries, s.next);
    assert s.asked + [] == s.asked;
  }

  /** The states at which the loop has read an entry. */
  function Turns(o: Job, s: Sweep): (turns: seq<Sweep>)
    ensures forall t :: t in turns ==> t.next < |t.entries|
    decreases |s.entries|, |s.entries| - s.next
  {
    if More(o, s) then [s] + Turns(o, Next(o, s)) else []
  }

  function Counted(o: Job, turns: seq<Sweep>, tally: Tally): nat
    requires forall t :: t in turns ==> t.next < |t.entries|
  {
    if turns == [] then 0 else (if Counts(o, turns[0], tally) then 1 else 0) + Counted(o, turns[1..], tally)
  }

  lemma {:induction false} CountedSome(o: Job, turns: seq<Sweep>, tally: Tally)
    requires forall t :: t in turns ==> t.next < |t.entries|
    ensures Counted(o, turns, tally) > 0 <==> exists t :: t in turns && Counts(o, t, tally)
  {
    if turns != [] {
      CountedSome(o, turns[1..], tally);
      assert turns == [turns[0]] + turns[1..];
    }
  }

  lemma {:induction false} RunCounts(o: Job, initial: seq<Entry>, s: Sweep, tally: Tally)
    requires ValidDir(o.dir) && Good(o, initial, s)
    ensures CountOf(Run(o, s), tally) == CountOf(s, tally) + Counted(o, Turns(o, s), tally)
    decreases |s.entries|, |s.entries| - s.next
  {
    if More(o, s) {
      TurnCounts(o, s, tally);
      NextKeeps(o, initial, s);
      RunCounts(o, initial, Next(o, s), tally);
      assert Turns(o, s)[1..] == Turns(o, Next(o, s));
    }
  }

  /** Whatever the calls answer: each count is the number of turns that counted so, and is positive, which
      brings the warning, exactly if one did.
   */
  lemma CountedExactly(o: Job, initial: seq<Entry>, tally: Tally)
    requires ValidDir(o.dir) && Unique(initial)
    ensures var s, turns := Run(o, Start(initial)), Turns(o, Start(initial));
            && CountOf(s, tally) == Counted(o, turns, tally)
            && (CountOf(s, tally) > 0 <==> exists t :: t in turns && Counts(o, t, tally))
  {
    assert Entries([]) == [];
    RunCounts(o, initial, Start(initial), tally);
    CountedSome(o, Turns(o, Start(initial)), tally);
  }

  /** A file that is closed but cannot be removed stays and brings the warning. */
  lemma RefusedWarns(o: Job, e: Entry)
    requires ValidDir(o.dir) && Doomed(o.dir, e) && e.name != ""
    requires o.read(0) && o.stat(0) && !o.isOpen(0) && !o.remove(0)
    ensures var s := Run(o, Start([e])); s.entries == [e] && s.notDeleted == 1
  {
    TurnCounts(o, Start([e]), FileLeft);
    var t := Next(o, Start([e]));
    assert !More(o, t);
  }
}
