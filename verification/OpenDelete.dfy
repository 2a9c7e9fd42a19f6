/** The delete-all command together with the search over the open handles that answers its queries. */
module OpenDelete {
  import opened Paths
  import opened DeleteAll
  import Query = OpenQuery

  /** The search behind one query: the state in which the child starts it, and which handles then give
      information.
   */
  datatype Search = Search(state: Query.State, infos: seq<bool>) {
    ghost predicate Valid(handles: seq<string>) {
      state.handles == handles && !state.child.Searching? && |infos| == |handles|
    }

    function Answer(path: string): Query.Task {
      Query.Run(state, Query.Question(Query.Child, path, infos)).child
    }
  }

  /** The parent interrupts none of the searches that answer the queries. */
  ghost predicate Undisturbed(o: Job, handles: seq<string>, searches: nat -> Search, asked: seq<Entry>) {
    forall n :: 0 <= n < |asked| ==> AnsweredBy(o, handles, searches(n), asked[n], n)
  }

  ghost predicate AnsweredBy(o: Job, handles: seq<string>, search: Search, e: Entry, n: nat) {
    var path := PathOf(o.dir, e.name);
    search.Valid(handles) && search.Answer(path) == Query.Answered(path, o.isOpen(n))
  }

  /** A handle of the very path that the command builds for the entry gives information. */
  predicate SeenOpen(o: Job, handles: seq<string>, search: Search, e: Entry)
    requires |search.infos| == |handles|
  {
    Query.Seen(handles, PathOf(o.dir, e.name), search.infos, |handles|)
  }

  lemma AnswerIsSeen(o: Job, handles: seq<string>, search: Search, e: Entry, n: nat)
    requires AnsweredBy(o, handles, search, e, n)
    ensures o.isOpen(n) == SeenOpen(o, handles, search, e)
  {
    Query.AloneIs(search.state, Length, Query.Child, PathOf(o.dir, e.name), search.infos);
  }

  function Length(s: string): int {
    |s|
  }

  /** An open file that a query finds and whose removal does not fail is seen to be open. */
  ghost predicate AllSeen(o: Job, handles: seq<string>, searches: nat -> Search, asked: seq<Entry>) {
    forall n :: 0 <= n < |asked| && Removable(o.dir, asked[n]) && asked[n].kind.OpenFile? && o.stat(n) && o.remove(n) ==>
      |searches(n).infos| == |handles| && SeenOpen(o, handles, searches(n), asked[n])
  }

  /** If the parent interrupts no query, the command removes no open file if and only if each that it
      finds and can remove is open under the very path that the command builds, by a handle that gives
      its information.
   */
  lemma UndisturbedExactly(o: Job, initial: seq<Entry>, handles: seq<string>, searches: nat -> Search)
    requires ValidDir(o.dir) && Unique(initial)
    requires Undisturbed(o, handles, searches, Run(o, Start(initial)).asked)
    ensures var s := Run(o, Start(initial)); AllDoomed(o, s.removed) <==> AllSeen(o, handles, searches, s.asked)
  {
    var s := Run(o, Start(initial));
    OpenFilesKeptExactly(o, initial);
    forall n | 0 <= n < |s.asked| ensures AnsweredBy(o, handles, searches(n), s.asked[n], n)
      ensures o.isOpen(n) == SeenOpen(o, handles, searches(n), s.asked[n])
    {
      AnswerIsSeen(o, handles, searches(n), s.asked[n], n);
    }
  }

  /** The kind of the entry is that of the file that its path denotes, and whoever has the file open has
      opened it under the path that the command builds.
   */
  ghost predicate SpelledAlike(o: Job, handles: seq<string>, denote: string -> int, e: Entry) {
    var path := PathOf(o.dir, e.name);
    && (e.kind.OpenFile? <==> Query.Open(handles, denote, path))
    && forall k :: 0 <= k < |handles| && denote(handles[k]) == denote(path) ==> handles[k] == path
  }

  predicate Informed(search: Search) {
    forall k :: 0 <= k < |search.infos| ==> search.infos[k]
  }

  lemma AnswerIsRight(o: Job, handles: seq<string>, denote: string -> int, search: Search, e: Entry, n: nat)
    requires SpelledAlike(o, handles, denote, e) && Informed(search) && AnsweredBy(o, handles, search, e, n)
    ensures o.isOpen(n) == e.kind.OpenFile?
  {
    var path := PathOf(o.dir, e.name);
    AnswerIsSeen(o, handles, search, e, n);
    if e.kind.OpenFile? {
      var k :| 0 <= k < |handles| && denote(handles[k]) == denote(path);
      assert handles[k] == path && search.infos[k];
    }
  }

  lemma RemovedWasThere(o: Job, initial: seq<Entry>, i: nat)
    requires ValidDir(o.dir) && Unique(initial) && i < |Run(o, Start(initial)).removed|
    ensures var s := Run(o, Start(initial));
            s.removed[i].entry in initial && AnsweredAt(o, s.asked, s.removed[i])
  {
    var s := Run(o, Start(initial));
    DeleteAllOutcome(o, initial);
    assert Entries(s.removed)[i] == s.removed[i].entry;
    assert s.removed[i].entry in multiset(Entries(s.removed)) && s.removed[i].entry in multiset(initial);
  }

  /** If the parent interrupts no query, every handle gives its information, and the files of the
      directory are open under the paths that the command builds or not at all, then every file removed
      was closed, and all else stays, in order.
   */
  lemma OnlyClosedFilesGo(o: Job, initial: seq<Entry>, handles: seq<string>, denote: string -> int, searches: nat -> Search)
    requires ValidDir(o.dir) && Unique(initial)
    requires forall e :: e in initial && !e.kind.SubDirectory? ==> SpelledAlike(o, handles, denote, e)
    requires Undisturbed(o, handles, searches, Run(o, Start(initial)).asked)
    requires forall n: nat :: Informed(searches(n))
    ensures var s := Run(o, Start(initial));
            && Others(ShouldGo(o), s.entries) == Others(ShouldGo(o), initial)
            && forall i :: 0 <= i < |s.removed| ==> !Query.Open(handles, denote, PathOf(o.dir, s.removed[i].entry.name))
  {
    var s := Run(o, Start(initial));
    forall i | 0 <= i < |s.removed|
      ensures Doomed(o.dir, s.removed[i].entry) && !Query.Open(handles, denote, PathOf(o.dir, s.removed[i].entry.name))
    {
      var r := s.removed[i];
      RemovedWasThere(o, initial, i);
      assert AnsweredBy(o, handles, searches(r.call), s.asked[r.call], r.call);
      AnswerIsRight(o, handles, denote, searches(r.call), r.entry, r.call);
    }
    OpenFilesKeptExactly(o, initial);
    assert AllDoomed(o, s.removed);
  }
}
