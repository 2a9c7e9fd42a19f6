/** What the packet filter table makes of packets, read off their own fields. */
module FilterLaws {
  import opened Collections
  import opened DiskFiles
  import opened FilterIndex
  import opened FilterCommands
  import opened FilterTable
  import opened PacketFilter
  import opened DestFile
  import opened DestRuns
  import opened DestFrame
  import opened DataStorage

  // ---------- Which packets a filter accepts ----------

  /** A filter in use, for a real destination that is enabled. */
  predicate InForce(ds: seq<Dest>, f: FilterParms) {
    && 0 < f.n <= f.x && f.o < f.x && f.fileIndex < 16 && f.fileIndex < |ds|
    && ds[f.fileIndex].status.enabled
  }

  /** A filter by count judges the sequence count of the packet, one by time the eleven low bits of its
      seconds above the four high bits of its subseconds; a filter of no known type accepts nothing.
   */
  lemma AcceptsExactly(ds: seq<Dest>, f: FilterParms, p: Incoming)
    ensures f.filterType == 1 ==>
              (Accepts(ds, f, p) <==> InForce(ds, f) && p.sequence >= f.o && (p.sequence - f.o) % f.x < f.n)
    ensures f.filterType == 2 ==>
              var value := p.seconds % 2048 * 16 + p.subseconds / 0x1000_0000;
              (Accepts(ds, f, p) <==> InForce(ds, f) && value >= f.o && (value - f.o) % f.x < f.n)
    ensures f.filterType != 1 && f.filterType != 2 ==> !Accepts(ds, f, p)
  {
  }

  /** A packet offered to a disabled application counts as disabled, one that meets no table or no entry
      as ignored, and any other as passed or filtered; each raises one counter by one.
   */
  lemma OfferCounted(a: App, o: Offer)
    requires a.files.Valid() && o.env.Valid()
    ensures var c, d := a.counts, StoreOffer(a, o).counts;
            d == if !a.enabled then c.(disabled := (c.disabled + 1) % 0x1_0000_0000)
                 else if !a.loaded || o.filters == None then c.(ignored := (c.ignored + 1) % 0x1_0000_0000)
                 else if forall f :: f in o.filters.value ==> !Accepts(a.files.dests, f, o.packet)
                 then c.(filtered := (c.filtered + 1) % 0x1_0000_0000)
                 else c.(passed := (c.passed + 1) % 0x1_0000_0000)
  {
    if o.filters.Some? {
      var fs := o.filters.value;
      assert forall k :: 0 <= k < |fs| ==> fs[k] in fs;
    }
  }

  // ---------- N of every X packets are stored ----------

  /** The application after the first `n` offers. */
  function OfferUpTo(a: App, os: seq<Offer>, n: nat): (b: App)
    requires a.files.Valid() && (forall o :: o in os ==> o.env.Valid()) && n <= |os|
    ensures b.files.Valid()
  {
    if n == 0 then a else StoreOffer(OfferUpTo(a, os, n - 1), os[n - 1])
  }

  /** How many of the first `n` count as passed. */
  function PassedUpTo(a: App, os: seq<Offer>, n: nat): nat
    requires a.files.Valid() && (forall o :: o in os ==> o.env.Valid()) && n <= |os|
  {
    if n == 0 then 0
    else PassedUpTo(a, os, n - 1) + if OutcomeOf(OfferUpTo(a, os, n - 1), os[n - 1]) == Passed then 1 else 0
  }

  /** The packet, if the filter by count `f` selects it. */
  function Chosen(f: FilterParms, p: Incoming): seq<Record>
    requires f.x > 0
  {
    if p.sequence >= f.o && (p.sequence - f.o) % f.x < f.n then [Packet(p.id, p.length)] else []
  }

  /** The packets that the filter by count `f` selects among the first `n`. */
  function Selected(os: seq<Offer>, f: FilterParms, n: nat): seq<Record>
    requires n <= |os| && f.x > 0
  {
    if n == 0 then [] else Selected(os, f, n - 1) + Chosen(f, os[n - 1].packet)
  }

  /** The filters of an entry of which only the `k`-th is in use. */
  predicate Sole(fs: seq<FilterParms>, k: nat) {
    k < |fs| && forall j :: 0 <= j < |fs| && j != k ==> fs[j].n == 0
  }

  /** All offers are of packets with that entry, with sequence counts following one another. */
  ghost predicate InSequence(os: seq<Offer>, fs: seq<FilterParms>, from: nat) {
    forall i :: 0 <= i < |os| ==> os[i].env.Valid() && os[i].filters == Some(fs) && os[i].packet.sequence == from + i
  }

  lemma {:induction false} SoleStores(s: Files, fs: seq<FilterParms>, k: nat, p: Incoming, env: Surroundings, n: nat)
    requires s.Valid() && env.Valid() && Sole(fs, k) && n <= |fs|
    ensures StoreUpTo(s, fs, p, env, n) ==
            if k < n && Accepts(s.dests, fs[k], p) then StoreOne(s, fs[k].fileIndex, p, env, env.os(k)) else s
  {
    if n > 0 {
      SoleStores(s, fs, k, p, env, n - 1);
      assert n - 1 != k ==> fs[n - 1].n == 0;
    }
  }

  /** The destination is consistent, and `rs` was put on the disk for it. */
  ghost predicate HasPut(a: App, b: App, i: nat, rs: seq<Record>) {
    && i < |b.files.dests| == DEST_FILE_CNT && b.enabled && b.loaded && Consistent(b.files.dests[i])
    && PacketsIn(b.files.disk.put) == PacketsIn(a.files.disk.put) + rs
  }

  lemma StoreOnePuts(s: Files, i: nat, p: Incoming, env: Surroundings, os: StoreResults)
    requires s.Valid() && env.Valid() && i < DEST_FILE_CNT && Consistent(s.dests[i])
    ensures var t := StoreOne(s, i, p, env, os);
            && Consistent(t.dests[i])
            && (t.dests[i].status.enabled ==>
                  s.dests[i].status.enabled && PacketsIn(t.disk.put) == PacketsIn(s.disk.put) + [Packet(p.id, p.length)])
  {
    StoreConsistent(s.At(i), env.entries[i], p.Body(), env.timeText, os);
  }

  /** One offer under a sole filter, if its destination is enabled afterwards. */
  lemma OfferStores(a: App, o: Offer, fs: seq<FilterParms>, k: nat)
    requires a.files.Valid() && o.env.Valid() && o.filters == Some(fs) && Sole(fs, k) && a.enabled && a.loaded
    requires fs[k].fileIndex < DEST_FILE_CNT && Consistent(a.files.dests[fs[k].fileIndex])
    ensures var b, i := StoreOffer(a, o), fs[k].fileIndex;
            && b.enabled && b.loaded && Consistent(b.files.dests[i])
            && (b.files.dests[i].status.enabled ==>
                  && a.files.dests[i].status.enabled
                  && (OutcomeOf(a, o) == Passed <==> Accepts(a.files.dests, fs[k], o.packet))
                  && PacketsIn(b.files.disk.put) == PacketsIn(a.files.disk.put) +
                       if Accepts(a.files.dests, fs[k], o.packet) then [Packet(o.packet.id, o.packet.length)] else [])
  {
    SoleStores(a.files, fs, k, o.packet, o.env, |fs|);
    StoreOnePuts(a.files, fs[k].fileIndex, o.packet, o.env, o.env.os(k));
    assert forall j :: 0 <= j < |fs| && Accepts(a.files.dests, fs[j], o.packet) ==> j == k;
  }

  predicate UsedByCount(f: FilterParms) {
    0 < f.n <= f.x && f.o < f.x && f.filterType == 1 && f.fileIndex < DEST_FILE_CNT
  }

  lemma NextSelected(a: App, b: App, o: Offer, fs: seq<FilterParms>, k: nat, before: seq<Record>)
    requires b.files.Valid() && o.env.Valid() && o.filters == Some(fs) && Sole(fs, k) && UsedByCount(fs[k])
    requires HasPut(a, b, fs[k].fileIndex, before) && StoreOffer(b, o).files.dests[fs[k].fileIndex].status.enabled
    ensures HasPut(a, StoreOffer(b, o), fs[k].fileIndex, before + Chosen(fs[k], o.packet))
    ensures OutcomeOf(b, o) == Passed <==> Chosen(fs[k], o.packet) != []
  {
    OfferStores(b, o, fs, k);
    ChosenAccepted(b.files.dests, fs[k], o.packet);
    PutJoins(PacketsIn(a.files.disk.put), before, Chosen(fs[k], o.packet));
  }

  lemma PutJoins(put: seq<Record>, before: seq<Record>, more: seq<Record>)
    ensures put + before + more == put + (before + more)
  {
  }

  lemma ChosenAccepted(ds: seq<Dest>, f: FilterParms, p: Incoming)
    requires UsedByCount(f) && f.fileIndex < |ds| && ds[f.fileIndex].status.enabled
    ensures Chosen(f, p) == if Accepts(ds, f, p) then [Packet(p.id, p.length)] else []
  {
    AcceptsExactly(ds, f, p);
  }

  lemma {:induction false} AlwaysConsistent(a: App, os: seq<Offer>, fs: seq<FilterParms>, k: nat, from: nat, n: nat)
    requires a.files.Valid() && a.enabled && a.loaded && InSequence(os, fs, from) && Sole(fs, k) && n <= |os|
    requires fs[k].fileIndex < DEST_FILE_CNT && Consistent(a.files.dests[fs[k].fileIndex])
    ensures var b := OfferUpTo(a, os, n); b.enabled && b.loaded && Consistent(b.files.dests[fs[k].fileIndex])
  {
    if n > 0 {
      AlwaysConsistent(a, os, fs, k, from, n - 1);
      OfferStores(OfferUpTo(a, os, n - 1), os[n - 1], fs, k);
    }
  }

  lemma EnabledBefore(a: App, os: seq<Offer>, fs: seq<FilterParms>, k: nat, from: nat, n: nat)
    requires a.files.Valid() && a.enabled && a.loaded && InSequence(os, fs, from) && Sole(fs, k) && 0 < n <= |os|
    requires UsedByCount(fs[k]) && Consistent(a.files.dests[fs[k].fileIndex])
    requires OfferUpTo(a, os, n).files.dests[fs[k].fileIndex].status.enabled
    ensures OfferUpTo(a, os, n - 1).files.dests[fs[k].fileIndex].status.enabled
    ensures os[n - 1].env.Valid() && os[n - 1].filters == Some(fs) && os[n - 1].packet.sequence == from + n - 1
  {
    AlwaysConsistent(a, os, fs, k, from, n - 1);
    OfferStores(OfferUpTo(a, os, n - 1), os[n - 1], fs, k);
  }

  /** While its destination stays enabled, a filter by count stores exactly the packets it selects. */
  lemma {:induction false} SelectedStored(a: App, os: seq<Offer>, fs: seq<FilterParms>, k: nat, from: nat, n: nat)
    requires a.files.Valid() && a.enabled && a.loaded && InSequence(os, fs, from) && Sole(fs, k) && n <= |os|
    requires UsedByCount(fs[k]) && Consistent(a.files.dests[fs[k].fileIndex])
    requires OfferUpTo(a, os, n).files.dests[fs[k].fileIndex].status.enabled
    ensures HasPut(a, OfferUpTo(a, os, n), fs[k].fileIndex, Selected(os, fs[k], n))
    ensures PassedUpTo(a, os, n) == |Selected(os, fs[k], n)|
  {
    if n == 0 {
      assert PacketsIn(a.files.disk.put) + [] == PacketsIn(a.files.disk.put);
    } else {
      EnabledBefore(a, os, fs, k, from, n);
      SelectedStored(a, os, fs, k, from, n - 1);
      NextSelected(a, OfferUpTo(a, os, n - 1), os[n - 1], fs, k, Selected(os, fs[k], n - 1));
    }
  }

  lemma {:induction false} SelectedCounted(os: seq<Offer>, fs: seq<FilterParms>, f: FilterParms, from: nat, n: nat)
    requires InSequence(os, fs, from) && f.x > 0 && n <= |os|
    ensures |Selected(os, f, n)| == PassCount(f.n, f.x, f.o, from, n)
  {
    if n > 0 {
      SelectedCounted(os, fs, f, from, n - 1);
      assert os[n - 1].packet.sequence == from + n - 1;
    }
  }

  /** Of any X packets with consecutive sequence counts from the offset on, a filter by count that is
      the only one in use of their entry has exactly N stored and put on the disk, unless a failed call
      has disabled its destination.
   */
  lemma NOfXStored(a: App, os: seq<Offer>, fs: seq<FilterParms>, k: nat, from: nat)
    requires a.files.Valid() && a.enabled && a.loaded && InSequence(os, fs, from) && Sole(fs, k)
    requires UsedByCount(fs[k]) && |os| == fs[k].x && fs[k].o <= from && Consistent(a.files.dests[fs[k].fileIndex])
    requires OfferUpTo(a, os, |os|).files.dests[fs[k].fileIndex].status.enabled
    ensures PassedUpTo(a, os, |os|) == fs[k].n
    ensures |PacketsIn(OfferUpTo(a, os, |os|).files.disk.put)| == |PacketsIn(a.files.disk.put)| + fs[k].n
  {
    SelectedStored(a, os, fs, k, from, |os|);
    SelectedCounted(os, fs, fs[k], from, |os|);
    ExactlyNOfX(fs[k].n, fs[k].x, fs[k].o, from);
  }

  // ---------- An ID just added stores nothing ----------

  lemma TakenEntry(d: Db, ch: seq<seq<nat>>, added: set<nat>, mid: MsgId, e: Db)
    requires Sound(d, ch, added) && Step(d, AddMid(mid), e) && AddAccepted(d, mid)
    ensures e.idx.Shaped() && Returns(e.idx, mid) && 0 <= Lookup(e.idx, mid) < PACKETS
    ensures e.idx.mids[Lookup(e.idx, mid)] == mid && mid !in d.idx.mids
  {
    LookupIsScan(d.idx, ch, added, mid);
    LookupIsScan(d.idx, ch, added, INVALID_MID);
    AddedIsFound(d.idx, ch, added, mid);
  }

  lemma UnusedStoresNothing(a: App, o: Offer, fs: seq<FilterParms>)
    requires Unused(fs) && a.files.Valid() && a.enabled && a.loaded && o.env.Valid() && o.filters == Some(fs)
    ensures OutcomeOf(a, o) == Filtered && StoreOffer(a, o).files == a.files
  {
    OnlyPassedStores(a, o);
  }

  /** After an accepted ADD MID the search finds the ID at an entry none of whose filters is in use; a
      packet of the ID counts as filtered, and changes no file and no destination.
   */
  lemma AddedIsFiltered(d: Db, ch: seq<seq<nat>>, added: set<nat>, mid: MsgId, e: Db, filters: seq<seq<FilterParms>>,
                        afterwards: seq<seq<FilterParms>>, a: App, o: Offer)
    requires Sound(d, ch, added) && Step(d, AddMid(mid), e) && AddAccepted(d, mid)
    requires Retaken(d.idx.mids, e.idx.mids, filters, afterwards)
    requires a.files.Valid() && a.enabled && a.loaded && o.env.Valid()
    ensures e.idx.Shaped() && Returns(e.idx, mid) && 0 <= Lookup(e.idx, mid) < PACKETS
    ensures var fs := afterwards[Lookup(e.idx, mid)];
            && |fs| == 4
            && (forall k :: 0 <= k < 4 ==> fs[k].fileIndex == 0 && fs[k].filterType == 1 && fs[k].n == fs[k].x == fs[k].o == 0)
            && (o.filters == Some(fs) ==> OutcomeOf(a, o) == Filtered && StoreOffer(a, o).files == a.files)
  {
    TakenEntry(d, ch, added, mid, e);
    var idx := Lookup(e.idx, mid);
    assert d.idx.mids[idx] in d.idx.mids;
    if o.filters == Some(afterwards[idx]) {
      UnusedStoresNothing(a, o, afterwards[idx]);
    }
  }
}
