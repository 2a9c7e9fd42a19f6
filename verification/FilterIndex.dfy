/** The packet filter table of Data Storage and the hash index over it.

    Every filter table entry owns one link. A bucket is a list of links: `head[b]` is the first
    link of bucket `b`, `next[i]` the link after link `i`, and NONE the null pointer. Nothing in
    the source clears the `Next` field of a link when it is put in a second list, so the lists of
    different buckets may share links and a list may close on itself. The specification therefore
    speaks of bounded walks, and of buckets whose list ends.
 */
module FilterIndex {

  type MsgId = m: int | 0 <= m < 0x1_0000_0000

  const PACKETS: nat := 256
  const BUCKETS: nat := 256
  const NONE: int := -1
  const INVALID_MID: MsgId := 0
  const HIGHEST_MID: MsgId := 0x1FFF

  predicate ValidMid(mid: MsgId) {
    mid != INVALID_MID && mid <= HIGHEST_MID
  }

  /** The low eight bits of the message ID. */
  function Hash(mid: MsgId): (b: nat)
    ensures b < BUCKETS
  {
    mid % 256
  }

  /** The bucket that holds the unused entries. */
  const UNUSED: nat := Hash(INVALID_MID)

  datatype Index = Index(mids: seq<MsgId>, head: seq<int>, next: seq<int>) {
    ghost predicate Shaped() {
      && |mids| == PACKETS && |next| == PACKETS && |head| == BUCKETS
      && (forall i :: 0 <= i < PACKETS ==> IsLink(next[i]))
      && (forall b :: 0 <= b < BUCKETS ==> IsLink(head[b]))
    }
  }

  predicate IsLink(link: int) {
    NONE <= link < PACKETS
  }

  // ---------- Walking a bucket ----------

  datatype Walk = Hit(index: nat) | Miss | Unfinished

  /** What the search loop has found after passing at most `fuel` links. */
  function WalkFrom(s: Index, link: int, mid: MsgId, fuel: nat): (w: Walk)
    requires s.Shaped() && IsLink(link)
    ensures w.Hit? ==> w.index < PACKETS && s.mids[w.index] == mid
    decreases fuel
  {
    if link == NONE then Miss
    else if s.mids[link] == mid then Hit(link)
    else if fuel == 0 then Unfinished
    else WalkFrom(s, s.next[link], mid, fuel - 1)
  }

  function Search(s: Index, mid: MsgId, fuel: nat): Walk
    requires s.Shaped()
  {
    WalkFrom(s, s.head[Hash(mid)], mid, fuel)
  }

  /** The search for `mid` leaves its loop. */
  ghost predicate Returns(s: Index, mid: MsgId)
    requires s.Shaped()
  {
    exists fuel: nat :: Search(s, mid, fuel) != Unfinished
  }

  /** What a search that returns returns. */
  ghost function Lookup(s: Index, mid: MsgId): (r: int)
    requires s.Shaped() && Returns(s, mid)
    ensures r == NONE || (0 <= r < PACKETS && s.mids[r] == mid)
  {
    var fuel: nat :| Search(s, mid, fuel) != Unfinished;
    match Search(s, mid, fuel)
    case Hit(i) => i
    case _ => NONE
  }

  lemma {:induction false} WalkStable(s: Index, link: int, mid: MsgId, fuel: nat, more: nat)
    requires s.Shaped() && IsLink(link) && fuel <= more
    requires WalkFrom(s, link, mid, fuel) != Unfinished
    ensures WalkFrom(s, link, mid, more) == WalkFrom(s, link, mid, fuel)
    decreases fuel
  {
    if link != NONE && s.mids[link] != mid {
      WalkStable(s, s.next[link], mid, fuel - 1, more - 1);
    }
  }

  /** However far a finished walk looked, it found what the search returns. */
  lemma LookupIs(s: Index, mid: MsgId, fuel: nat)
    requires s.Shaped() && Search(s, mid, fuel) != Unfinished
    ensures Returns(s, mid)
    ensures Lookup(s, mid) == match Search(s, mid, fuel) case Hit(i) => i case _ => NONE
  {
    forall other: nat | Search(s, mid, other) != Unfinished
      ensures Search(s, mid, other) == Search(s, mid, fuel)
    {
      var link := s.head[Hash(mid)];
      if other <= fuel {
        WalkStable(s, link, mid, other, fuel);
      } else {
        WalkStable(s, link, mid, fuel, other);
      }
    }
  }

  /** `c` is the list of links that starts at `start` and ends with the null pointer. */
  ghost predicate ListAt(next: seq<int>, start: int, c: seq<nat>) {
    && start == After(c, 0)
    && (forall p :: 0 <= p < |c| ==> c[p] < |next|)
    && forall p :: 0 <= p < |c| ==> Joined(next, c, p)
  }

  ghost predicate Joined(next: seq<int>, c: seq<nat>, p: nat)
    requires p < |c| && c[p] < |next|
  {
    next[c[p]] == After(c, p + 1)
  }

  /** The link at position `p` of a list, or the null pointer behind its last link. */
  function After(c: seq<nat>, p: nat): int {
    if p < |c| then c[p] else NONE
  }

  ghost predicate Ends(s: Index, b: nat)
    requires s.Shaped() && b < BUCKETS
  {
    exists c :: ListAt(s.next, s.head[b], c)
  }

  lemma {:induction false} ListUniqueFrom(next: seq<int>, c: seq<nat>, d: seq<nat>, p: nat)
    requires p <= |c| && p <= |d| && c[..p] == d[..p]
    requires After(c, p) == After(d, p)
    requires ListAt(next, After(c, 0), c)
    requires ListAt(next, After(d, 0), d)
    ensures c == d
    decreases |c| - p
  {
    if p < |c| {
      assert p < |d| && c[p] == d[p];
      assert Joined(next, c, p);
      assert Joined(next, d, p);
      assert c[..p + 1] == c[..p] + [c[p]] && d[..p + 1] == d[..p] + [d[p]];
      ListUniqueFrom(next, c, d, p + 1);
    }
  }

  lemma ListUnique(next: seq<int>, start: int, c: seq<nat>, d: seq<nat>)
    requires ListAt(next, start, c) && ListAt(next, start, d)
    ensures c == d
  {
    ListUniqueFrom(next, c, d, 0);
  }

  /** The state after linking entry `idx` at the end of bucket `b`. */
  ghost function Append(s: Index, b: nat, idx: nat): (t: Index)
    requires s.Shaped() && b < BUCKETS && idx < PACKETS && Ends(s, b)
    ensures t.Shaped() && t.mids == s.mids
  {
    var c :| ListAt(s.next, s.head[b], c);
    if c == [] then s.(head := s.head[b := idx])
    else s.(next := s.next[c[|c| - 1] := idx])
  }

  lemma AppendIs(s: Index, b: nat, idx: nat, c: seq<nat>)
    requires s.Shaped() && b < BUCKETS && idx < PACKETS && ListAt(s.next, s.head[b], c)
    ensures Ends(s, b)
    ensures Append(s, b, idx) == if c == [] then s.(head := s.head[b := idx]) else s.(next := s.next[c[|c| - 1] := idx])
  {
    forall d | ListAt(s.next, s.head[b], d) ensures c == d {
      ListUnique(s.next, s.head[b], c, d);
    }
  }

  // ---------- The linear scan that the index replaces ----------

  /** The first entry at or after `from` that holds `mid`. */
  function Scan(mids: seq<MsgId>, mid: MsgId, from: nat := 0): (r: int)
    requires from <= |mids|
    ensures r == NONE ==> mid !in mids[from..]
    ensures r != NONE ==> from <= r < |mids| && mids[r] == mid && mid !in mids[from..r]
    decreases |mids| - from
  {
    if from == |mids| then NONE
    else if mids[from] == mid then from
    else
      assert mids[from..] == [mids[from]] + mids[from + 1..];
      var r := Scan(mids, mid, from + 1);
      assert r != NONE ==> mids[from..r] == [mids[from]] + mids[from + 1..r];
      r
  }

  // ---------- The states in which the index is sound ----------

  /** `ch` lists the links of each bucket, and `added` the buckets that an ADD MID command has
      appended to since the index was last built.

      - A bucket not in `added` holds only entries of its own hash (the unused bucket apart).
      - The unused bucket holds entries that are unused or were taken by an ADD MID command.
      - A bucket in `added` runs into the list of the unused bucket and ends where that one ends.
      - Each entry is in the bucket of its message ID, equal IDs in table order.
   */
  ghost predicate Ready(s: Index, ch: seq<seq<nat>>, added: set<nat>) {
    && s.Shaped() && |ch| == BUCKETS
    && Lists(s, ch) && Homes(s.mids, ch, added) && Complete(s.mids, ch) && Sorted(s.mids, ch)
  }

  ghost predicate Lists(s: Index, ch: seq<seq<nat>>)
    requires s.Shaped() && |ch| == BUCKETS
  {
    forall b :: 0 <= b < BUCKETS ==> ListAt(s.next, s.head[b], ch[b])
  }

  ghost predicate Homes(mids: seq<MsgId>, ch: seq<seq<nat>>, added: set<nat>)
    requires |ch| == BUCKETS
  {
    && (forall b :: 0 <= b < BUCKETS && b !in added && b != UNUSED ==> OnlyHash(mids, ch[b], {b}))
    && OnlyHash(mids, ch[UNUSED], added + {UNUSED})
    && (forall b :: b in added ==> b < BUCKETS && b != UNUSED && SameEnd(ch[b], ch[UNUSED]))
  }

  ghost predicate Sorted(mids: seq<MsgId>, ch: seq<seq<nat>>)
    requires |ch| == BUCKETS
  {
    forall b :: 0 <= b < BUCKETS ==> InOrder(mids, ch[b], b)
  }

  ghost predicate OnlyHash(mids: seq<MsgId>, c: seq<nat>, bs: set<nat>) {
    forall p :: 0 <= p < |c| ==> c[p] < |mids| && Hash(mids[c[p]]) in bs
  }

  ghost predicate SameEnd(c: seq<nat>, d: seq<nat>) {
    c != [] && d != [] && c[|c| - 1] == d[|d| - 1]
  }

  ghost predicate Complete(mids: seq<MsgId>, ch: seq<seq<nat>>)
    requires |ch| == BUCKETS
  {
    forall i :: 0 <= i < |mids| ==> i in ch[Hash(mids[i])]
  }

  ghost predicate InOrder(mids: seq<MsgId>, c: seq<nat>, b: nat) {
    forall p, q :: 0 <= p < q < |c| && c[p] < |mids| && c[q] < |mids| && mids[c[p]] == mids[c[q]] && Hash(mids[c[p]]) == b ==> c[p] < c[q]
  }

  /** Position `q` is the first at or after `p` whose entry holds `mid`. */
  ghost predicate FirstAt(mids: seq<MsgId>, c: seq<nat>, mid: MsgId, p: nat, q: nat) {
    && p <= q < |c| && c[q] < |mids| && mids[c[q]] == mid
    && forall r :: p <= r < q ==> c[r] < |mids| && mids[c[r]] != mid
  }

  /** A walk along an ending list stops at the first link that holds `mid`. */
  lemma {:induction false} WalkAlong(s: Index, c: seq<nat>, mid: MsgId, p: nat) returns (q: nat)
    requires s.Shaped() && p <= |c| && ListAt(s.next, After(c, 0), c)
    ensures q < |c| ==> FirstAt(s.mids, c, mid, p, q) && WalkFrom(s, After(c, p), mid, |c| - p) == Hit(c[q])
    ensures q >= |c| ==> WalkFrom(s, After(c, p), mid, |c| - p) == Miss && forall r :: p <= r < |c| ==> s.mids[c[r]] != mid
    decreases |c| - p
  {
    if p == |c| || s.mids[c[p]] == mid {
      q := p;
    } else {
      assert Joined(s.next, c, p);
      q := WalkAlong(s, c, mid, p + 1);
    }
  }

  lemma {:induction false} ScanIsLeast(mids: seq<MsgId>, mid: MsgId, from: nat, i: nat)
    requires from <= i < |mids| && mids[i] == mid
    requires forall j :: from <= j < i ==> mids[j] != mid
    ensures Scan(mids, mid, from) == i
    decreases i - from
  {
    if from < i {
      ScanIsLeast(mids, mid, from + 1, i);
    }
  }

  /** In a list with all entries of `mid`, in table order, the first of them is the scan's. */
  lemma FirstHitIsScan(mids: seq<MsgId>, c: seq<nat>, mid: MsgId, q: nat)
    requires FirstAt(mids, c, mid, 0, q)
    requires forall i :: 0 <= i < |mids| && mids[i] == mid ==> i in c
    requires InOrder(mids, c, Hash(mid))
    ensures Scan(mids, mid) == c[q]
  {
    forall j | 0 <= j < c[q] ensures mids[j] != mid {
      if mids[j] == mid {
        assert false;
      }
    }
    ScanIsLeast(mids, mid, 0, c[q]);
  }

  lemma ListLookupIsScan(s: Index, c: seq<nat>, mid: MsgId)
    requires s.Shaped() && ListAt(s.next, s.head[Hash(mid)], c)
    requires forall i :: 0 <= i < PACKETS && s.mids[i] == mid ==> i in c
    requires InOrder(s.mids, c, Hash(mid))
    ensures Search(s, mid, |c|) == var r := Scan(s.mids, mid); if r == NONE then Miss else Hit(r)
  {
    var q := WalkAlong(s, c, mid, 0);
    if q < |c| {
      FirstHitIsScan(s.mids, c, mid, q);
    }
  }

  /** In a sound state every search returns, with what the linear scan returns. */
  lemma LookupIsScan(s: Index, ch: seq<seq<nat>>, added: set<nat>, mid: MsgId)
    requires Ready(s, ch, added)
    ensures Returns(s, mid) && Lookup(s, mid) == Scan(s.mids, mid)
  {
    var c := ch[Hash(mid)];
    assert InOrder(s.mids, c, Hash(mid));
    ListLookupIsScan(s, c, mid);
    LookupIs(s, mid, |c|);
  }

  // ---------- Building the index ----------

  /** The entries before `n` whose message ID hashes to `b`, in table order. */
  function Bucket(mids: seq<MsgId>, b: nat, n: nat): (c: seq<nat>)
    requires n <= |mids|
    ensures forall p :: 0 <= p < |c| ==> c[p] < n && Hash(mids[c[p]]) == b
  {
    if n == 0 then []
    else if Hash(mids[n - 1]) == b then Bucket(mids, b, n - 1) + [n - 1]
    else Bucket(mids, b, n - 1)
  }

  lemma {:induction false} BucketIsComplete(mids: seq<MsgId>, b: nat, n: nat)
    requires n <= |mids|
    ensures var c := Bucket(mids, b, n);
      && (forall p, q :: 0 <= p < q < |c| ==> c[p] < c[q])
      && (forall i :: 0 <= i < n && Hash(mids[i]) == b ==> i in c)
  {
    if n > 0 {
      BucketIsComplete(mids, b, n - 1);
    }
  }

  /** The index as it is built over a table: each bucket lists its entries in table order. */
  ghost predicate Built(s: Index) {
    && s.Shaped()
    && forall b :: 0 <= b < BUCKETS ==> ListAt(s.next, s.head[b], Bucket(s.mids, b, PACKETS))
  }

  /** The index after the first `k` entries were linked; the other links are still cleared. */
  ghost predicate PartlyBuilt(s: Index, k: nat)
    requires k <= PACKETS
  {
    && s.Shaped()
    && (forall b :: 0 <= b < BUCKETS ==> ListAt(s.next, s.head[b], Bucket(s.mids, b, k)))
    && forall i :: k <= i < PACKETS ==> s.next[i] == NONE
  }

  lemma ClearedIsPartlyBuilt(s: Index)
    requires s.Shaped()
    requires (forall b :: 0 <= b < BUCKETS ==> s.head[b] == NONE) && forall i :: 0 <= i < PACKETS ==> s.next[i] == NONE
    ensures PartlyBuilt(s, 0)
  {
  }

  lemma BuildStep(s: Index, k: nat)
    requires k < PACKETS && PartlyBuilt(s, k)
    ensures Ends(s, Hash(s.mids[k])) && PartlyBuilt(Append(s, Hash(s.mids[k]), k), k + 1)
  {
    var b := Hash(s.mids[k]);
    var c := Bucket(s.mids, b, k);
    assert ListAt(s.next, s.head[b], c);
    AppendIs(s, b, k, c);
    var t := Append(s, b, k);
    forall o | 0 <= o < BUCKETS ensures ListAt(t.next, t.head[o], Bucket(t.mids, o, k + 1)) {
      assert ListAt(s.next, s.head[o], Bucket(s.mids, o, k));
      if o == b {
        assert Joined(s.next, [k], 0);
        ListAfterAppend(s.next, c, [k], 0);
        assert [k][0..] == [k];
      } else if c != [] {
        BuildStepElsewhere(s, k, b, o);
      }
    }
  }

  lemma BuildStepElsewhere(s: Index, k: nat, b: nat, o: nat)
    requires s.Shaped() && k < PACKETS && b < BUCKETS && o < BUCKETS && o != b
    requires ListAt(s.next, s.head[b], Bucket(s.mids, b, k)) && Bucket(s.mids, b, k) != []
    requires ListAt(s.next, s.head[o], Bucket(s.mids, o, k))
    ensures var c := Bucket(s.mids, b, k);
      ListAt(s.next[c[|c| - 1] := k], s.head[o], Bucket(s.mids, o, k))
  {
    var c, d := Bucket(s.mids, b, k), Bucket(s.mids, o, k);
    if d != [] {
      assert Hash(s.mids[d[|d| - 1]]) == o && Hash(s.mids[c[|c| - 1]]) == b;
    }
    ListUntouched(s.next, c, d, s.head[o], k);
  }

  lemma {:induction false} PartlyBuildable(mids: seq<MsgId>, k: nat) returns (s: Index)
    requires |mids| == PACKETS && k <= PACKETS
    ensures s.mids == mids && PartlyBuilt(s, k)
  {
    if k == 0 {
      s := Index(mids, seq(BUCKETS, _ => NONE), seq(PACKETS, _ => NONE));
      ClearedIsPartlyBuilt(s);
    } else {
      s := PartlyBuildable(mids, k - 1);
      BuildStep(s, k - 1);
      s := Append(s, Hash(mids[k - 1]), k - 1);
    }
  }

  /** An index can be built over every table. */
  lemma Buildable(mids: seq<MsgId>) returns (s: Index)
    requires |mids| == PACKETS
    ensures s.mids == mids && Built(s)
  {
    s := PartlyBuildable(mids, PACKETS);
  }

  // ---------- A table never holds all IDs of a bucket ----------

  /** The `k`-th message ID of a bucket. */
  function IdOf(b: nat, k: nat): (mid: MsgId)
    requires b < BUCKETS && k <= PACKETS
    ensures Hash(mid) == b
  {
    b + 256 * k
  }

  function FirstIds(b: nat, n: nat): set<MsgId>
    requires b < BUCKETS && n <= PACKETS + 1
  {
    if n == 0 then {} else FirstIds(b, n - 1) + {IdOf(b, n - 1)}
  }

  lemma {:induction false} ManyIds(b: nat, n: nat)
    requires b < BUCKETS && n <= PACKETS + 1
    ensures |FirstIds(b, n)| == n
    ensures forall mid :: mid in FirstIds(b, n) ==> Hash(mid) == b && mid < b + 256 * n
  {
    if n > 0 {
      ManyIds(b, n - 1);
      assert IdOf(b, n - 1) !in FirstIds(b, n - 1);
    }
  }

  function TableIds(mids: seq<MsgId>): (ids: set<MsgId>)
    ensures forall mid :: mid in ids <==> mid in mids
    ensures |ids| <= |mids|
  {
    if mids == [] then {}
    else
      var ids := TableIds(mids[..|mids| - 1]);
      var last := mids[|mids| - 1];
      assert mids == mids[..|mids| - 1] + [last];
      if last in ids then ids else ids + {last}
  }

  lemma SmallerSet(a: set<MsgId>, b: set<MsgId>)
    requires a <= b
    ensures |a| <= |b|
  {
    assert b == a + (b - a);
  }

  /** Some message ID of the bucket is not in the table. */
  lemma AbsentId(mids: seq<MsgId>, b: nat) returns (mid: MsgId)
    requires |mids| == PACKETS && b < BUCKETS
    ensures mid !in mids && Hash(mid) == b
  {
    ManyIds(b, PACKETS + 1);
    var ids, there := FirstIds(b, PACKETS + 1), TableIds(mids);
    if ids <= there {
      SmallerSet(ids, there);
      assert false;
    }
    mid :| mid in ids && mid !in there;
  }

  ghost function Buckets(mids: seq<MsgId>): (ch: seq<seq<nat>>)
    requires |mids| == PACKETS
  {
    seq(BUCKETS, b requires 0 <= b < BUCKETS => Bucket(mids, b, PACKETS))
  }

  lemma BuiltIsReady(s: Index)
    requires Built(s)
    ensures Ready(s, Buckets(s.mids), {})
  {
    var ch := Buckets(s.mids);
    forall b | 0 <= b < BUCKETS
      ensures ListAt(s.next, s.head[b], ch[b]) && OnlyHash(s.mids, ch[b], {b}) && InOrder(s.mids, ch[b], b)
    {
      assert ch[b] == Bucket(s.mids, b, PACKETS);
      BucketIsComplete(s.mids, b, PACKETS);
    }
    assert {} + {UNUSED} == {UNUSED};
    forall i | 0 <= i < PACKETS ensures i in ch[Hash(s.mids[i])] {
      assert ch[Hash(s.mids[i])] == Bucket(s.mids, Hash(s.mids[i]), PACKETS);
      BucketIsComplete(s.mids, Hash(s.mids[i]), PACKETS);
    }
  }

  // ---------- Adding a message ID ----------

  /** The entry the ADD MID command takes, and the table and index it leaves. */
  ghost function Added(s: Index, mid: MsgId): (t: Index)
    requires s.Shaped() && Returns(s, INVALID_MID) && Lookup(s, INVALID_MID) != NONE
    requires Ends(s, Hash(mid))
    ensures t.Shaped()
  {
    var idx := Lookup(s, INVALID_MID);
    Append(s.(mids := s.mids[idx := mid]), Hash(mid), idx)
  }

  /** Some bucket is closed on itself: from `link` the null pointer is out of reach. */
  ghost predicate NeverEnds(next: seq<int>, links: set<int>) {
    forall i :: i in links ==> 0 <= i < |next| && next[i] in links
  }

  lemma {:induction false} NoListIn(next: seq<int>, links: set<int>, start: int, c: seq<nat>, p: nat)
    requires NeverEnds(next, links) && start in links && ListAt(next, start, c)
    requires p < |c| && c[p] in links
    ensures false
    decreases |c| - p
  {
    assert Joined(next, c, p) && next[c[p]] in links;
    if p + 1 < |c| {
      NoListIn(next, links, start, c, p + 1);
    }
  }

  lemma {:induction false} WalkStaysIn(s: Index, links: set<int>, link: int, mid: MsgId, fuel: nat)
    requires s.Shaped() && NeverEnds(s.next, links) && link in links && mid !in s.mids
    ensures WalkFrom(s, link, mid, fuel) == Unfinished
    decreases fuel
  {
    if fuel > 0 {
      WalkStaysIn(s, links, s.next[link], mid, fuel - 1);
    }
  }

  /** Where the list of bucket `b` goes once entry `idx` is linked behind it. */
  lemma ListAfterAppend(next: seq<int>, c: seq<nat>, z: seq<nat>, k: nat)
    requires |next| == PACKETS
    requires ListAt(next, After(c, 0), c)
    requires k < |z| && ListAt(next, z[0], z)
    requires c != [] ==> c[|c| - 1] !in z
    ensures
      var next' := if c == [] then next else next[c[|c| - 1] := z[k]];
      ListAt(next', (c + z[k..])[0], c + z[k..])
  {
    var next' := if c == [] then next else next[c[|c| - 1] := z[k]];
    var d := c + z[k..];
    forall p | 0 <= p < |d|
      ensures Joined(next', d, p)
    {
      if p < |c| {
        assert Joined(next, c, p);
        if p + 1 < |c| {
          assert Joined(next, c, |c| - 1);
        }
      } else {
        assert d[p] == z[p - |c| + k];
        assert Joined(next, z, p - |c| + k);
      }
    }
  }

  /** The list of another bucket does not change when the last link of `c` is redirected. */
  lemma ListUntouched(next: seq<int>, c: seq<nat>, d: seq<nat>, start: int, idx: nat)
    requires c != [] && ListAt(next, c[0], c) && ListAt(next, start, d)
    requires d != [] ==> d[|d| - 1] != c[|c| - 1]
    ensures ListAt(next[c[|c| - 1] := idx], start, d)
    ensures c[|c| - 1] !in d
  {
    var last := c[|c| - 1];
    assert Joined(next, c, |c| - 1);
    forall p | 0 <= p < |d| ensures d[p] != last && Joined(next[last := idx], d, p) {
      assert Joined(next, d, p);
    }
  }

  /** Other lists end elsewhere than a bucket that no ADD MID command has touched. */
  lemma EndsApart(mids: seq<MsgId>, ch: seq<seq<nat>>, added: set<nat>, b: nat, o: nat)
    requires |ch| == BUCKETS && Homes(mids, ch, added) && b < BUCKETS && o < BUCKETS && o != b
    requires b !in added && b != UNUSED && ch[b] != [] && ch[o] != []
    ensures ch[o][|ch[o]| - 1] != ch[b][|ch[b]| - 1]
  {
    assert Hash(mids[ch[b][|ch[b]| - 1]]) in {b};
    if o in added {
      assert SameEnd(ch[o], ch[UNUSED]);
      assert Hash(mids[ch[UNUSED][|ch[UNUSED]| - 1]]) in added + {UNUSED};
    } else if o == UNUSED {
      assert Hash(mids[ch[o][|ch[o]| - 1]]) in added + {UNUSED};
    } else {
      assert Hash(mids[ch[o][|ch[o]| - 1]]) in {o};
    }
  }

  /** The bucket lists after entry `ch[UNUSED][k]` was linked behind bucket `b`. */
  ghost function Grown(ch: seq<seq<nat>>, b: nat, k: nat): seq<seq<nat>>
    requires |ch| == BUCKETS && b < BUCKETS && k < |ch[UNUSED]|
  {
    ch[b := ch[b] + ch[UNUSED][k..]]
  }

  lemma GrownLists(s: Index, mids: seq<MsgId>, ch: seq<seq<nat>>, added: set<nat>, b: nat, k: nat)
    requires s.Shaped() && |ch| == BUCKETS && Lists(s, ch) && Homes(mids, ch, added)
    requires b < BUCKETS && b !in added && b != UNUSED && k < |ch[UNUSED]|
    ensures Ends(s, b) && Lists(Append(s, b, ch[UNUSED][k]), Grown(ch, b, k))
  {
    var c, z := ch[b], ch[UNUSED];
    assert ListAt(s.next, s.head[b], c) && ListAt(s.next, s.head[UNUSED], z);
    AppendIs(s, b, z[k], c);
    var t := Append(s, b, z[k]);
    forall o | 0 <= o < BUCKETS ensures ListAt(t.next, t.head[o], Grown(ch, b, k)[o]) {
      if c != [] && ch[o] != [] && o != b {
        EndsApart(mids, ch, added, b, o);
      }
      if o == b {
        if c != [] {
          EndsApart(mids, ch, added, b, UNUSED);
          ListUntouched(s.next, c, z, s.head[UNUSED], z[k]);
        }
        ListAfterAppend(s.next, c, z, k);
      } else {
        assert ListAt(s.next, s.head[o], ch[o]);
        if c != [] {
          ListUntouched(s.next, c, ch[o], s.head[o], z[k]);
        }
      }
    }
  }

  lemma GrownHomes(mids: seq<MsgId>, ch: seq<seq<nat>>, added: set<nat>, mid: MsgId, k: nat)
    requires |ch| == BUCKETS && Homes(mids, ch, added) && k < |ch[UNUSED]| && ch[UNUSED][k] < |mids|
    requires Hash(mid) !in added && Hash(mid) != UNUSED && mids[ch[UNUSED][k]] == INVALID_MID
    ensures Homes(mids[ch[UNUSED][k] := mid], Grown(ch, Hash(mid), k), added + {Hash(mid)})
  {
    var b, idx := Hash(mid), ch[UNUSED][k];
    var mids', ch', added' := mids[idx := mid], Grown(ch, b, k), added + {b};
    forall o | 0 <= o < BUCKETS && o !in added' && o != UNUSED ensures OnlyHash(mids', ch'[o], {o}) {
      assert OnlyHash(mids, ch[o], {o});
    }
    assert OnlyHash(mids', ch'[UNUSED], added' + {UNUSED}) by {
      assert OnlyHash(mids, ch[UNUSED], added + {UNUSED});
    }
    forall o | o in added' ensures o < BUCKETS && o != UNUSED && SameEnd(ch'[o], ch'[UNUSED]) {
      if o != b {
        assert SameEnd(ch[o], ch[UNUSED]);
      }
    }
  }

  lemma GrownComplete(mids: seq<MsgId>, ch: seq<seq<nat>>, mid: MsgId, k: nat)
    requires |ch| == BUCKETS && Complete(mids, ch) && k < |ch[UNUSED]| && ch[UNUSED][k] < |mids|
    ensures Complete(mids[ch[UNUSED][k] := mid], Grown(ch, Hash(mid), k))
  {
    var idx := ch[UNUSED][k];
    var ch' := Grown(ch, Hash(mid), k);
    var mids' := mids[idx := mid];
    forall i | 0 <= i < |mids'| ensures i in ch'[Hash(mids'[i])] {
      if i == idx {
        assert ch'[Hash(mid)][|ch[Hash(mid)]|] == idx;
      } else {
        assert i in ch[Hash(mids[i])];
      }
    }
  }

  lemma GrownSorted(mids: seq<MsgId>, ch: seq<seq<nat>>, added: set<nat>, mid: MsgId, k: nat)
    requires |ch| == BUCKETS && Homes(mids, ch, added) && Sorted(mids, ch)
    requires k < |ch[UNUSED]| && ch[UNUSED][k] < |mids| && mids[ch[UNUSED][k]] == INVALID_MID
    requires mid !in mids && Hash(mid) !in added && Hash(mid) != UNUSED
    ensures Sorted(mids[ch[UNUSED][k] := mid], Grown(ch, Hash(mid), k))
  {
    var b, idx, z := Hash(mid), ch[UNUSED][k], ch[UNUSED];
    var mids', ch' := mids[idx := mid], Grown(ch, b, k);
    assert InOrder(mids, z, UNUSED);
    forall o | 0 <= o < BUCKETS ensures InOrder(mids', ch'[o], o) {
      assert InOrder(mids, ch[o], o);
      if o == b {
        assert OnlyHash(mids, ch[b], {b}) && OnlyHash(mids, z, added + {UNUSED});
        GrownListInOrder(mids, ch[b], z, added, mid, k);
      }
    }
  }

  lemma GrownListInOrder(mids: seq<MsgId>, c: seq<nat>, z: seq<nat>, added: set<nat>, mid: MsgId, k: nat)
    requires OnlyHash(mids, c, {Hash(mid)}) && OnlyHash(mids, z, added + {UNUSED})
    requires InOrder(mids, c, Hash(mid)) && InOrder(mids, z, UNUSED)
    requires k < |z| && mids[z[k]] == INVALID_MID
    requires mid !in mids && Hash(mid) !in added && Hash(mid) != UNUSED
    ensures InOrder(mids[z[k] := mid], c + z[k..], Hash(mid))
  {
    var idx := z[k];
    var mids', d := mids[idx := mid], c + z[k..];
    forall p, q | 0 <= p < q < |d| && d[p] < |mids'| && d[q] < |mids'| && mids'[d[p]] == mids'[d[q]] && Hash(mids'[d[p]]) == Hash(mid)
      ensures d[p] < d[q]
    {
      if q < |c| {
        assert c[p] != idx && c[q] != idx;
      }
    }
  }

  /** ADD MID into a bucket that no ADD MID has used since the build keeps the index sound. */
  lemma AddKeepsReady(s: Index, ch: seq<seq<nat>>, added: set<nat>, mid: MsgId) returns (k: nat)
    requires Ready(s, ch, added) && mid !in s.mids && INVALID_MID in s.mids
    requires Hash(mid) !in added && Hash(mid) != UNUSED
    ensures Returns(s, INVALID_MID) && Lookup(s, INVALID_MID) != NONE && Ends(s, Hash(mid))
    ensures k < |ch[UNUSED]| && ch[UNUSED][k] == Lookup(s, INVALID_MID)
    ensures Ready(Added(s, mid), Grown(ch, Hash(mid), k), added + {Hash(mid)})
  {
    LookupIsScan(s, ch, added, INVALID_MID);
    var idx := Lookup(s, INVALID_MID);
    assert idx in ch[UNUSED];
    k :| 0 <= k < |ch[UNUSED]| && ch[UNUSED][k] == idx;
    assert ListAt(s.next, s.head[Hash(mid)], ch[Hash(mid)]);
    GrownLists(s.(mids := s.mids[idx := mid]), s.mids, ch, added, Hash(mid), k);
    GrownHomes(s.mids, ch, added, mid, k);
    GrownComplete(s.mids, ch, mid, k);
    GrownSorted(s.mids, ch, added, mid, k);
  }

  /** ADD MID into the unused bucket, or into one an ADD MID has used since the build, closes the
      list: no search of that bucket for an absent message ID returns. */
  lemma AddClosesBucket(s: Index, ch: seq<seq<nat>>, added: set<nat>, mid: MsgId)
    requires Ready(s, ch, added) && mid !in s.mids && INVALID_MID in s.mids
    requires Hash(mid) in added || Hash(mid) == UNUSED
    ensures Returns(s, INVALID_MID) && Lookup(s, INVALID_MID) != NONE && Ends(s, Hash(mid))
    ensures !Ends(Added(s, mid), Hash(mid))
    ensures forall m: MsgId :: m !in Added(s, mid).mids && Hash(m) == Hash(mid) ==> !Returns(Added(s, mid), m)
  {
    LookupIsScan(s, ch, added, INVALID_MID);
    var idx, b := Lookup(s, INVALID_MID), Hash(mid);
    var c, z := ch[b], ch[UNUSED];
    assert idx in z && ListAt(s.next, s.head[b], c) && ListAt(s.next, s.head[UNUSED], z) && SameEnd(c, z);
    AppendIs(s, b, idx, c);
    LinkingBackCloses(s.(mids := s.mids[idx := mid]), b, c, z, idx);
  }

  lemma LinkingBackCloses(s: Index, b: nat, c: seq<nat>, z: seq<nat>, idx: nat)
    requires s.Shaped() && b < BUCKETS && idx < PACKETS && idx in z && SameEnd(c, z)
    requires ListAt(s.next, s.head[b], c) && ListAt(s.next, After(z, 0), z)
    ensures Ends(s, b)
    ensures var t := Append(s, b, idx);
      !Ends(t, b) && forall m: MsgId :: m !in t.mids && Hash(m) == b ==> !Returns(t, m)
  {
    AppendIs(s, b, idx, c);
    var t := Append(s, b, idx);
    var links := (set i | i in c) + (set i | i in z);
    ClosedOnItself(s.next, c, z, idx);
    assert t.head[b] == c[0] && c[0] in links;
    forall d | ListAt(t.next, t.head[b], d) ensures false {
      NoListIn(t.next, links, t.head[b], d, 0);
    }
    forall m: MsgId, fuel: nat | m !in t.mids && Hash(m) == b ensures Search(t, m, fuel) == Unfinished {
      WalkStaysIn(t, links, t.head[b], m, fuel);
    }
  }

  lemma ClosedOnItself(next: seq<int>, c: seq<nat>, z: seq<nat>, idx: nat)
    requires SameEnd(c, z) && idx in z && ListAt(next, After(c, 0), c) && ListAt(next, After(z, 0), z)
    ensures NeverEnds(next[c[|c| - 1] := idx], (set i | i in c) + (set i | i in z))
  {
    var next', links := next[c[|c| - 1] := idx], (set i | i in c) + (set i | i in z);
    forall i | i in links ensures 0 <= i < |next'| && next'[i] in links {
      if i != c[|c| - 1] {
        var d := if i in c then c else z;
        var p :| 0 <= p < |d| && d[p] == i;
        assert Joined(next, d, p);
      }
    }
  }

  /** ADD MID leaves every bucket with a list that ends exactly when its bucket is not the unused
      one and no ADD MID has used it since the index was built. */
  lemma AddSoundExactly(s: Index, ch: seq<seq<nat>>, added: set<nat>, mid: MsgId)
    requires Ready(s, ch, added) && mid !in s.mids && INVALID_MID in s.mids
    ensures Returns(s, INVALID_MID) && Lookup(s, INVALID_MID) != NONE && Ends(s, Hash(mid))
    ensures AllEnd(Added(s, mid)) <==> Hash(mid) !in added && Hash(mid) != UNUSED
  {
    if Hash(mid) !in added && Hash(mid) != UNUSED {
      var k := AddKeepsReady(s, ch, added, mid);
      ReadyEnds(Added(s, mid), Grown(ch, Hash(mid), k), added + {Hash(mid)});
    } else {
      AddClosesBucket(s, ch, added, mid);
    }
  }

  ghost predicate AllEnd(s: Index)
    requires s.Shaped()
  {
    forall b :: 0 <= b < BUCKETS ==> Ends(s, b)
  }

  lemma ReadyEnds(s: Index, ch: seq<seq<nat>>, added: set<nat>)
    requires Ready(s, ch, added)
    ensures AllEnd(s)
  {
    forall b | 0 <= b < BUCKETS ensures Ends(s, b) {
      assert ListAt(s.next, s.head[b], ch[b]);
    }
  }

  // ---------- Searching for the ID just added ----------

  lemma {:induction false} WalkReaches(t: Index, c: seq<nat>, p: nat, idx: nat, mid: MsgId) returns (fuel: nat)
    requires t.Shaped() && p < |c| && idx < PACKETS && t.mids[idx] == mid
    requires forall q :: p <= q < |c| ==> c[q] < PACKETS && t.next[c[q]] == if c[q] == c[|c| - 1] then idx else After(c, q + 1)
    ensures WalkFrom(t, c[p], mid, fuel).Hit?
    decreases |c| - p
  {
    if c[p] == c[|c| - 1] {
      fuel := 1;
      assert WalkFrom(t, t.next[c[p]], mid, 0).Hit?;
    } else {
      fuel := WalkReaches(t, c, p + 1, idx, mid);
      fuel := fuel + 1;
    }
  }

  /** An ID just added is found at its entry, whatever the bucket, closed or not. */
  lemma AddedIsFound(s: Index, ch: seq<seq<nat>>, added: set<nat>, mid: MsgId)
    requires Ready(s, ch, added) && mid !in s.mids && INVALID_MID in s.mids
    ensures Returns(s, INVALID_MID) && Lookup(s, INVALID_MID) != NONE && Ends(s, Hash(mid))
    ensures var t := Added(s, mid); Returns(t, mid) && Lookup(t, mid) == Lookup(s, INVALID_MID)
  {
    LookupIsScan(s, ch, added, INVALID_MID);
    FoundWhereAdded(s, ch[Hash(mid)], mid);
  }

  lemma FoundWhereAdded(s: Index, c: seq<nat>, mid: MsgId)
    requires s.Shaped() && ListAt(s.next, s.head[Hash(mid)], c) && mid !in s.mids
    requires Returns(s, INVALID_MID) && Lookup(s, INVALID_MID) != NONE
    ensures Ends(s, Hash(mid))
    ensures var t := Added(s, mid); Returns(t, mid) && Lookup(t, mid) == Lookup(s, INVALID_MID)
  {
    var idx := Lookup(s, INVALID_MID);
    AppendIs(s, Hash(mid), idx, c);
    LinkedIsFound(s.(mids := s.mids[idx := mid]), c, mid, idx);
  }

  lemma LinkedIsFound(s: Index, c: seq<nat>, mid: MsgId, idx: nat)
    requires s.Shaped() && idx < PACKETS && ListAt(s.next, s.head[Hash(mid)], c)
    requires forall i :: 0 <= i < PACKETS ==> (s.mids[i] == mid <==> i == idx)
    ensures Ends(s, Hash(mid))
    ensures var t := Append(s, Hash(mid), idx); Returns(t, mid) && Lookup(t, mid) == idx
  {
    AppendIs(s, Hash(mid), idx, c);
    var t := Append(s, Hash(mid), idx);
    if c == [] {
      LookupIs(t, mid, 0);
    } else {
      forall q | 0 <= q < |c| ensures c[q] < PACKETS && t.next[c[q]] == if c[q] == c[|c| - 1] then idx else After(c, q + 1) {
        assert Joined(s.next, c, q);
      }
      var fuel := WalkReaches(t, c, 0, idx, mid);
      LookupIs(t, mid, fuel);
    }
  }
}
