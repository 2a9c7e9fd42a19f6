/** The packet filter: pass N of every X packets, starting at offset O. */
module PacketFilter {
  import opened Counting

  type uint16 = v: int | 0 <= v < 0x1_0000
  type uint32 = v: int | 0 <= v < 0x1_0000_0000

  const BY_COUNT: uint16 := 1
  const BY_TIME: uint16 := 2

  /** One filter of a packet filter table entry. */
  datatype FilterParms = FilterParms(fileIndex: uint16, filterType: uint16, n: uint16, x: uint16, o: uint16)

  /** Sequence counts are fourteen bits wide. */
  const SEQUENCE_COUNTS: nat := 16384

  /** The filter value of a time stamp: 11 bits of seconds and the top 4 bits of the subseconds. */
  function TimeValue(seconds: uint32, subseconds: uint32): (v: uint16)
    ensures v < 32768
    ensures v / 16 == seconds % 2048 && v % 16 == subseconds / 0x1000_0000
  {
    (seconds % 2048) * 16 + subseconds / 0x1000_0000
  }

  /** True when the packet is not to be stored; `value` is its sequence count or its time value. */
  function IsPacketFiltered(filterType: uint16, value: uint16, n: uint16, x: uint16, o: uint16): bool {
    if x == 0 then true
    else if n == 0 then true
    else if n > x then true
    else if o >= x then true
    else if filterType != BY_TIME && filterType != BY_COUNT then true
    else if value < o then true
    else if (value - o) % x < n then false
    else true
  }

  predicate UsableParms(filterType: uint16, n: uint16, x: uint16, o: uint16) {
    0 < n <= x && o < x && (filterType == BY_TIME || filterType == BY_COUNT)
  }

  // ---------- N of every X ----------

  function Passes(n: nat, x: nat, o: nat, value: int): nat
    requires x > 0
  {
    if value >= o && (value - o) % x < n then 1 else 0
  }

  /** How many of the `len` consecutive values from `from` pass. */
  function PassCount(n: nat, x: nat, o: nat, from: int, len: nat): nat
    requires x > 0
  {
    if len == 0 then 0 else PassCount(n, x, o, from, len - 1) + Passes(n, x, o, from + len - 1)
  }

  lemma {:induction false} FirstGroup(n: nat, x: nat, o: nat, len: nat)
    requires 0 < n <= x && len <= x
    ensures PassCount(n, x, o, o, len) == if len <= n then len else n
  {
    if len > 0 {
      FirstGroup(n, x, o, len - 1);
      SmallMod(len - 1, x);
    }
  }

  lemma {:induction false} ShiftWindow(n: nat, x: nat, o: nat, from: int, len: nat)
    requires x > 0
    ensures PassCount(n, x, o, from + 1, len) == PassCount(n, x, o, from, len) + Passes(n, x, o, from + len) - Passes(n, x, o, from)
  {
    if len > 0 {
      ShiftWindow(n, x, o, from, len - 1);
    }
  }

  lemma AddModulus(a: nat, x: nat)
    requires x > 0
    ensures (a + x) % x == a % x
  {
    var q := a / x + 1;
    assert q * x == (a / x) * x + x;
    DivModUnique(a + x, x, q, a % x);
  }

  lemma MultipleTooLarge(d: int, x: nat, r: int)
    requires x > 0 && 0 < r + x && r < x && d * x == r
    ensures d == 0
  {
  }

  lemma DivModUnique(a: nat, x: nat, q: int, r: nat)
    requires x > 0 && r < x && a == q * x + r
    ensures a / x == q && a % x == r
  {
    var d := a / x - q;
    assert a == (a / x) * x + a % x;
    assert d * x == r - a % x;
    MultipleTooLarge(d, x, r - a % x);
  }

  lemma AddMultiple(a: nat, x: nat, k: nat)
    requires x > 0
    ensures (a + k * x) % x == a % x
  {
    var q := a / x + k;
    assert q * x == (a / x) * x + k * x;
    DivModUnique(a + k * x, x, q, a % x);
  }

  /** Exactly N of any X consecutive values at or above the offset pass. */
  lemma {:induction false} ExactlyNOfX(n: nat, x: nat, o: nat, from: nat)
    requires 0 < n <= x && o <= from
    ensures PassCount(n, x, o, from, x) == n
    decreases from
  {
    if from == o {
      FirstGroup(n, x, o, x);
    } else {
      ExactlyNOfX(n, x, o, from - 1);
      ShiftWindow(n, x, o, from - 1, x);
      AddModulus(from - 1 - o, x);
    }
  }

  /** What the filter stores: nothing for unusable parameters, and otherwise nothing below the
      offset and exactly N of any X consecutive values at or above it.
   */
  lemma FilterPassesNOfX(filterType: uint16, n: uint16, x: uint16, o: uint16)
    ensures !UsableParms(filterType, n, x, o) ==> forall v: uint16 :: IsPacketFiltered(filterType, v, n, x, o)
    ensures UsableParms(filterType, n, x, o) ==>
      && (forall v: uint16 :: v < o ==> IsPacketFiltered(filterType, v, n, x, o))
      && (forall v: uint16 :: Passes(n, x, o, v) == if IsPacketFiltered(filterType, v, n, x, o) then 0 else 1)
      && (forall from: uint16 :: o <= from ==> PassCount(n, x, o, from, x) == n)
  {
    if UsableParms(filterType, n, x, o) {
      forall from: uint16 | o <= from ensures PassCount(n, x, o, from, x) == n {
        ExactlyNOfX(n, x, o, from);
      }
    }
  }

  // ---------- Sequence counts start over at zero ----------

  /** As PassCount, over consecutive sequence counts, which follow 16383 with 0. */
  function CyclicPassCount(n: nat, x: nat, o: nat, from: nat, len: nat): nat
    requires x > 0
  {
    if len == 0 then 0
    else CyclicPassCount(n, x, o, from, len - 1) + Passes(n, x, o, (from + len - 1) % SEQUENCE_COUNTS)
  }

  ghost predicate ExactEverywhere(n: nat, x: nat, o: nat)
    requires x > 0
  {
    forall from: nat :: CyclicPassCount(n, x, o, from, x) == n
  }

  /** Whether every X packets in a row have N stored, also where the sequence count starts over: only
      if all pass; or X divides the number of counts and no group reaches over the start; or X is a
      multiple of that number, and N is what the counts from O on make of as many rounds.
   */
  predicate SafeAtRollover(n: nat, x: nat, o: nat)
    requires x > 0
  {
    || (n == x && o == 0)
    || (SEQUENCE_COUNTS % x == 0 && n + o <= x)
    || (x % SEQUENCE_COUNTS == 0 && o < SEQUENCE_COUNTS && n == (x / SEQUENCE_COUNTS) * (SEQUENCE_COUNTS - o))
  }

  lemma {:induction false} ShiftCyclic(n: nat, x: nat, o: nat, from: nat, len: nat)
    requires x > 0
    ensures CyclicPassCount(n, x, o, from + 1, len) + Passes(n, x, o, from % SEQUENCE_COUNTS)
         == CyclicPassCount(n, x, o, from, len) + Passes(n, x, o, (from + len) % SEQUENCE_COUNTS)
  {
    if len > 0 {
      ShiftCyclic(n, x, o, from, len - 1);
    }
  }

  /** Before the counts start over nothing differs. */
  lemma {:induction false} CyclicIsPlain(n: nat, x: nat, o: nat, from: nat, len: nat)
    requires x > 0 && from + len <= SEQUENCE_COUNTS
    ensures CyclicPassCount(n, x, o, from, len) == PassCount(n, x, o, from, len)
  {
    if len > 0 {
      CyclicIsPlain(n, x, o, from, len - 1);
      SmallMod(from + len - 1, SEQUENCE_COUNTS);
    }
  }

  lemma {:induction false} PlainFromZero(n: nat, x: nat, o: nat, len: nat)
    requires 0 < n <= x && o < x && len <= x
    ensures PassCount(n, x, o, 0, len) == if len <= o then 0 else if len <= o + n then len - o else n
  {
    if len > 0 {
      PlainFromZero(n, x, o, len - 1);
      if len - 1 >= o {
        SmallMod(len - 1 - o, x);
      }
    }
  }

  /** Moving a window by one exchanges equal values exactly when all windows count the same. */
  lemma ExactMeansPeriodic(n: nat, x: nat, o: nat, v: nat)
    requires x > 0 && ExactEverywhere(n, x, o)
    ensures Passes(n, x, o, v % SEQUENCE_COUNTS) == Passes(n, x, o, (v + x) % SEQUENCE_COUNTS)
  {
    ShiftCyclic(n, x, o, v, x);
    assert CyclicPassCount(n, x, o, v, x) == n && CyclicPassCount(n, x, o, v + 1, x) == n;
  }

  /** In the first group, a value passes exactly between the offset and N beyond it. */
  lemma FirstGroupPasses(n: nat, x: nat, o: nat, v: nat)
    requires v < x
    ensures Passes(n, x, o, v) == if o <= v < o + n then 1 else 0
  {
    if o <= v {
      SmallMod(v - o, x);
    }
  }

  /** Phase `u + t` in the last group before the counts start over. */
  lemma LastGroupPasses(n: nat, x: nat, o: nat, v: nat, q: nat, t: nat)
    requires 0 < x <= SEQUENCE_COUNTS && SEQUENCE_COUNTS == q * x + t && t < x && v < x
    requires SEQUENCE_COUNTS - x + v >= o && q >= 1
    ensures
      var u := if v >= o then v - o else v - o + x;
      v + x >= o && 0 <= u ==>
        Passes(n, x, o, SEQUENCE_COUNTS - x + v) == if (if u + t < x then u + t else u + t - x) < n then 1 else 0
  {
    var u := if v >= o then v - o else v - o + x;
    if v + x >= o && 0 <= u && u < x {
      var w := if u + t < x then u + t else u + t - x;
      var a := SEQUENCE_COUNTS - x + v - o;
      var k := (q - 1) + (if v >= o then 0 else -1) + (if u + t < x then 0 else 1);
      assert a == (q - 1) * x + t + v - o;
      assert a == k * x + w by {
        if v >= o {
          if u + t < x {} else { assert (q - 1 + 1) * x == (q - 1) * x + x; }
        } else {
          if u + t < x { assert (q - 1 - 1) * x == (q - 1) * x - x; } else { }
        }
      }
      DivModUnique(a, x, k, w);
    }
  }

  lemma DivideCounts(x: nat)
    requires 0 < x <= SEQUENCE_COUNTS
    ensures SEQUENCE_COUNTS == (SEQUENCE_COUNTS / x) * x + SEQUENCE_COUNTS % x && SEQUENCE_COUNTS / x >= 1
  {
  }

  lemma ExactNeedsSafe(n: nat, x: nat, o: nat)
    requires 0 < n <= x <= SEQUENCE_COUNTS && o < x && ExactEverywhere(n, x, o)
    ensures SafeAtRollover(n, x, o)
  {
    CyclicIsPlain(n, x, o, 0, x);
    PlainFromZero(n, x, o, x);
    assert CyclicPassCount(n, x, o, 0, x) == n;
    assert n + o <= x;
    if n < x && SEQUENCE_COUNTS % x > 0 {
      DivideCounts(x);
      RolloverMismatch(n, x, o, SEQUENCE_COUNTS / x, SEQUENCE_COUNTS % x);
    }
  }

  /** With a remainder, the value whose twin starts a group must pass. */
  lemma TwinOfGroupStart(n: nat, x: nat, o: nat, q: nat, t: nat)
    requires 0 < n < x <= SEQUENCE_COUNTS && n + o <= x && q >= 1
    requires SEQUENCE_COUNTS == q * x + t && 0 < t < x && ExactEverywhere(n, x, o)
    ensures o < t && x < n + t
  {
    assert (q - 1) * x == q * x - x;
    var v := if o >= t then o - t else o - t + x;
    TwinsAgree(n, x, o, v);
    FirstGroupPasses(n, x, o, v);
    LastGroupPasses(n, x, o, v, q, t);
  }

  /** But then the first value that does not pass has a twin that does. */
  lemma RolloverMismatch(n: nat, x: nat, o: nat, q: nat, t: nat)
    requires 0 < n < x <= SEQUENCE_COUNTS && n + o <= x && q >= 1
    requires SEQUENCE_COUNTS == q * x + t && 0 < t < x
    ensures !ExactEverywhere(n, x, o)
  {
    if ExactEverywhere(n, x, o) {
      TwinOfGroupStart(n, x, o, q, t);
      assert (q - 1) * x == q * x - x;
      var w := if o + n < x then o + n else 0;
      TwinsAgree(n, x, o, w);
      FirstGroupPasses(n, x, o, w);
      LastGroupPasses(n, x, o, w, q, t);
    }
  }

  lemma TwinsAgree(n: nat, x: nat, o: nat, v: nat)
    requires 0 < x <= SEQUENCE_COUNTS && v < x && ExactEverywhere(n, x, o)
    ensures Passes(n, x, o, SEQUENCE_COUNTS - x + v) == Passes(n, x, o, v)
  {
    ExactMeansPeriodic(n, x, o, SEQUENCE_COUNTS - x + v);
    assert (SEQUENCE_COUNTS - x + v) % SEQUENCE_COUNTS == SEQUENCE_COUNTS - x + v;
    assert (SEQUENCE_COUNTS + v) % SEQUENCE_COUNTS == v by {
      AddModulus(v, SEQUENCE_COUNTS);
      if v == SEQUENCE_COUNTS {}
    }
  }

  lemma {:induction false} AllPass(x: nat, from: nat, len: nat)
    requires x > 0
    ensures CyclicPassCount(x, x, 0, from, len) == len
  {
    if len > 0 {
      AllPass(x, from, len - 1);
    }
  }

  lemma SafeIsPeriodic(n: nat, x: nat, o: nat, v: nat)
    requires 0 < n <= x && o < x && SEQUENCE_COUNTS % x == 0 && n + o <= x
    ensures Passes(n, x, o, v % SEQUENCE_COUNTS) == Passes(n, x, o, v + x)
  {
    var r, k := v % SEQUENCE_COUNTS, v / SEQUENCE_COUNTS;
    var q := SEQUENCE_COUNTS / x;
    assert SEQUENCE_COUNTS == q * x && v == k * SEQUENCE_COUNTS + r;
    assert v == (k * q) * x + r;
    AddMultiple(r + x - o, x, k * q);
    if r < o {
      SmallMod(r + x - o, x);
    } else {
      AddModulus(r - o, x);
    }
  }

  lemma {:induction false} SafeIsPlain(n: nat, x: nat, o: nat, from: nat, len: nat)
    requires 0 < n <= x && o < x && SEQUENCE_COUNTS % x == 0 && n + o <= x
    ensures CyclicPassCount(n, x, o, from, len) == PassCount(n, x, o, from + x, len)
  {
    if len > 0 {
      SafeIsPlain(n, x, o, from, len - 1);
      SafeIsPeriodic(n, x, o, from + len - 1);
    }
  }

  // ---------- More than all counts at once ----------

  lemma {:induction false} CyclicJoins(n: nat, x: nat, o: nat, from: nat, a: nat, b: nat)
    requires x > 0
    ensures CyclicPassCount(n, x, o, from, a + b) == CyclicPassCount(n, x, o, from, a) + CyclicPassCount(n, x, o, from + a, b)
  {
    if b > 0 {
      CyclicJoins(n, x, o, from, a, b - 1);
      assert from + a + b - 1 == from + (a + b) - 1;
    }
  }

  /** A whole round counts the same from wherever it starts. */
  lemma {:induction false} RoundIsRound(n: nat, x: nat, o: nat, from: nat)
    requires x > 0
    ensures CyclicPassCount(n, x, o, from, SEQUENCE_COUNTS) == CyclicPassCount(n, x, o, 0, SEQUENCE_COUNTS)
  {
    if from > 0 {
      RoundIsRound(n, x, o, from - 1);
      ShiftCyclic(n, x, o, from - 1, SEQUENCE_COUNTS);
      AddModulus(from - 1, SEQUENCE_COUNTS);
    }
  }

  lemma OnceMore(q: int, k: int)
    ensures q * k == (q - 1) * k + k
    ensures q >= 1 && k >= 0 ==> q * k >= k
    ensures q > 1 && k > 0 ==> q * k > k
  {
  }

  lemma {:induction false} Rounds(n: nat, x: nat, o: nat, from: nat, q: nat)
    requires x > 0
    ensures CyclicPassCount(n, x, o, from, q * SEQUENCE_COUNTS) == q * CyclicPassCount(n, x, o, 0, SEQUENCE_COUNTS)
  {
    if q > 0 {
      Rounds(n, x, o, from, q - 1);
      var before := (q - 1) * SEQUENCE_COUNTS;
      assert q * SEQUENCE_COUNTS == before + SEQUENCE_COUNTS;
      CyclicJoins(n, x, o, from, before, SEQUENCE_COUNTS);
      RoundIsRound(n, x, o, from + before);
      OnceMore(q, CyclicPassCount(n, x, o, 0, SEQUENCE_COUNTS));
    }
  }

  /** How many counts of a round pass when X is larger than a round. */
  function RoundPasses(n: nat, o: nat): nat {
    if SEQUENCE_COUNTS <= o then 0 else if SEQUENCE_COUNTS <= o + n then SEQUENCE_COUNTS - o else n
  }

  lemma RoundCount(n: nat, x: nat, o: nat)
    requires 0 < n <= x && o < x && SEQUENCE_COUNTS <= x
    ensures CyclicPassCount(n, x, o, 0, SEQUENCE_COUNTS) == RoundPasses(n, o)
  {
    CyclicIsPlain(n, x, o, 0, SEQUENCE_COUNTS);
    PlainFromZero(n, x, o, SEQUENCE_COUNTS);
  }

  lemma LargePasses(n: nat, x: nat, o: nat, v: nat)
    requires SEQUENCE_COUNTS <= x && v < SEQUENCE_COUNTS
    ensures Passes(n, x, o, v) == if o <= v < o + n then 1 else 0
  {
    FirstGroupPasses(n, x, o, v);
  }

  /** In an exact filter, a count and the one X further on pass alike. */
  lemma LargeTwins(n: nat, x: nat, o: nat, t: nat, v: nat)
    requires SEQUENCE_COUNTS <= x && t == x % SEQUENCE_COUNTS && v < SEQUENCE_COUNTS && ExactEverywhere(n, x, o)
    ensures Passes(n, x, o, v) == Passes(n, x, o, if v + t < SEQUENCE_COUNTS then v + t else v + t - SEQUENCE_COUNTS)
  {
    ExactMeansPeriodic(n, x, o, v);
    SmallMod(v, SEQUENCE_COUNTS);
    var k := x / SEQUENCE_COUNTS;
    assert v + x == (v + t) + k * SEQUENCE_COUNTS;
    AddMultiple(v + t, SEQUENCE_COUNTS, k);
    if v + t < SEQUENCE_COUNTS {
      SmallMod(v + t, SEQUENCE_COUNTS);
    } else {
      AddModulus(v + t - SEQUENCE_COUNTS, SEQUENCE_COUNTS);
      SmallMod(v + t - SEQUENCE_COUNTS, SEQUENCE_COUNTS);
    }
  }

  /** Then X is a number of whole rounds, unless every count passes: the count that starts the passing
      stretch and the one before it would have twins within the stretch.
   */
  lemma NoRemainder(n: nat, x: nat, o: nat, t: nat)
    requires 0 < n <= x && o < x && SEQUENCE_COUNTS <= x && t == x % SEQUENCE_COUNTS && ExactEverywhere(n, x, o)
    requires o < SEQUENCE_COUNTS && !(o == 0 && SEQUENCE_COUNTS <= n)
    ensures t == 0
  {
    if t > 0 {
      var before := if o > 0 then o - 1 else SEQUENCE_COUNTS - 1;
      LargeTwins(n, x, o, t, o);
      LargeTwins(n, x, o, t, before);
      LargePasses(n, x, o, o);
      LargePasses(n, x, o, before);
      var a := if o + t < SEQUENCE_COUNTS then o + t else o + t - SEQUENCE_COUNTS;
      var b := if before + t < SEQUENCE_COUNTS then before + t else before + t - SEQUENCE_COUNTS;
      LargePasses(n, x, o, a);
      LargePasses(n, x, o, b);
    }
  }

  lemma {:induction false} NothingPasses(n: nat, x: nat, o: nat, from: nat, len: nat)
    requires SEQUENCE_COUNTS <= x && SEQUENCE_COUNTS <= o
    ensures CyclicPassCount(n, x, o, from, len) == 0
  {
    if len > 0 {
      NothingPasses(n, x, o, from, len - 1);
      LargePasses(n, x, o, (from + len - 1) % SEQUENCE_COUNTS);
    }
  }

  lemma {:induction false} EverythingPasses(n: nat, x: nat, from: nat, len: nat)
    requires SEQUENCE_COUNTS <= n <= x
    ensures CyclicPassCount(n, x, 0, from, len) == len
  {
    if len > 0 {
      EverythingPasses(n, x, from, len - 1);
      LargePasses(n, x, 0, (from + len - 1) % SEQUENCE_COUNTS);
    }
  }

  lemma OneRoundOnly(n: nat, q: nat)
    requires n > 0 && q * n == n
    ensures q == 1
  {
    OnceMore(q, n);
  }

  lemma LargeExactNeedsSafe(n: nat, x: nat, o: nat)
    requires 0 < n <= x && o < x && SEQUENCE_COUNTS < x && ExactEverywhere(n, x, o)
    ensures SafeAtRollover(n, x, o)
  {
    assert CyclicPassCount(n, x, o, 0, x) == n;
    if SEQUENCE_COUNTS <= o {
      NothingPasses(n, x, o, 0, x);
    } else if o == 0 && SEQUENCE_COUNTS <= n {
      EverythingPasses(n, x, 0, x);
    } else {
      var q := x / SEQUENCE_COUNTS;
      NoRemainder(n, x, o, x % SEQUENCE_COUNTS);
      assert x == q * SEQUENCE_COUNTS;
      Rounds(n, x, o, 0, q);
      RoundCount(n, x, o);
      if o + n < SEQUENCE_COUNTS {
        OneRoundOnly(n, q);
      }
    }
  }

  lemma LargeSafeIsExact(n: nat, x: nat, o: nat, from: nat)
    requires 0 < n <= x && o < x && SEQUENCE_COUNTS <= x && x % SEQUENCE_COUNTS == 0
    requires o < SEQUENCE_COUNTS && n == (x / SEQUENCE_COUNTS) * (SEQUENCE_COUNTS - o)
    ensures CyclicPassCount(n, x, o, from, x) == n
  {
    var q := x / SEQUENCE_COUNTS;
    assert x == q * SEQUENCE_COUNTS && q >= 1;
    OnceMore(q, SEQUENCE_COUNTS - o);
    RoundCount(n, x, o);
    RoundsAre(n, x, o, from, q, SEQUENCE_COUNTS - o);
  }

  lemma RoundsAre(n: nat, x: nat, o: nat, from: nat, q: nat, k: nat)
    requires x > 0 && x == q * SEQUENCE_COUNTS && CyclicPassCount(n, x, o, 0, SEQUENCE_COUNTS) == k
    ensures CyclicPassCount(n, x, o, from, x) == q * k
  {
    Rounds(n, x, o, from, q);
  }

  /** X is at most the number of counts, or divides it only if it is. */
  lemma DividesOnly(x: nat)
    requires SEQUENCE_COUNTS < x
    ensures SEQUENCE_COUNTS % x != 0
  {
    SmallMod(SEQUENCE_COUNTS, x);
  }

  /** The documented "N of every X" holds across the start-over exactly for safe parameters. */
  lemma ExactAtRolloverExactly(n: nat, x: nat, o: nat)
    requires 0 < n <= x && o < x
    ensures ExactEverywhere(n, x, o) <==> SafeAtRollover(n, x, o)
  {
    if SafeAtRollover(n, x, o) {
      forall from: nat ensures CyclicPassCount(n, x, o, from, x) == n {
        SafeIsExact(n, x, o, from);
      }
    } else if ExactEverywhere(n, x, o) {
      if SEQUENCE_COUNTS < x {
        LargeExactNeedsSafe(n, x, o);
      } else {
        ExactNeedsSafe(n, x, o);
      }
    }
  }

  lemma SafeIsExact(n: nat, x: nat, o: nat, from: nat)
    requires 0 < n <= x && o < x && SafeAtRollover(n, x, o)
    ensures CyclicPassCount(n, x, o, from, x) == n
  {
    if n == x && o == 0 {
      AllPass(x, from, x);
    } else if SEQUENCE_COUNTS % x == 0 && n + o <= x {
      SafeIsPlain(n, x, o, from, x);
      ExactlyNOfX(n, x, o, from + x);
    } else {
      if x < SEQUENCE_COUNTS {
        SmallMod(x, SEQUENCE_COUNTS);
      }
      LargeSafeIsExact(n, x, o, from);
    }
  }

  /** Parameters beyond one round that are exact: half of each two rounds passes. */
  lemma ExactBeyondOneRound()
    ensures ExactEverywhere(16384, 32768, 8192) && !ExactEverywhere(16384, 32768, 0)
  {
    ExactAtRolloverExactly(16384, 32768, 8192);
    ExactAtRolloverExactly(16384, 32768, 0);
    DividesOnly(32768);
  }
}
