/** The telemetry router of the ground system: hosts get names in the order they are first heard,
    and every datagram is published under a topic made of the host's name and the packet's ID.
 */
module Router {

  import opened Collections

  type Byte = n: nat | n < 256

  // ---------- Names and topics ----------

  function Digit(d: nat): char
    requires d < 16
  {
    if d < 10 then '0' + d as char else 'a' + (d - 10) as char
  }

  /** `n` in base 10 or 16, as the language prints it. */
  function Numeral(base: nat, n: nat): (s: string)
    requires base == 10 || base == 16
    ensures s != ""
  {
    var digit := Digit(n % base);
    if n < base then [digit] else Numeral(base, n / base) + [digit]
  }

  function HostName(i: nat): string {
    "Spacecraft" + Numeral(10, i)
  }

  /** The channel of a host, up to the packet ID. */
  function Channel(name: string): string {
    "GroundSystem." + name + "." + "TelemetryPackets."
  }

  function StreamId(datagram: seq<Byte>): nat
    requires |datagram| >= 2
  {
    var high: int, low: int := datagram[0], datagram[1];
    256 * high + low
  }

  function Topic(name: string, id: nat): string {
    Channel(name) + "0x" + Numeral(16, id)
  }

  // ---------- The router ----------

  /** What was published, with the host it came from for the record. */
  datatype Publication = Publication(host: string, topic: string, datagram: seq<Byte>)

  /** The names are bytes but for the first, which is text and cannot be decoded: `stopped` says
      that the thread died of it.
   */
  datatype State = State(addresses: seq<string>, names: seq<string>, published: seq<Publication>, stopped: bool)

  datatype Datagram = Datagram(data: seq<Byte>, host: string)

  const START := State(["All"], ["All"], [], false)

  function Register(s: State, host: string): State {
    if host in s.addresses then s
    else s.(addresses := s.addresses + [host], names := s.names + [HostName(|s.names|)])
  }

  function Step(s: State, d: Datagram): State {
    if s.stopped || |d.data| < 6 then s
    else
      var t := Register(s, d.host);
      var i := IndexOf(t.addresses, d.host);
      if i == 0 then t.(stopped := true)
      else if i < |t.names| then t.(published := t.published + [Publication(d.host, Topic(t.names[i], StreamId(d.data)), d.data)])
      else t
  }

  function Run(s: State, stream: seq<Datagram>): State {
    if stream == [] then s else Step(Run(s, stream[..|stream| - 1]), stream[|stream| - 1])
  }

  class RoutingService {
    var addresses: seq<string>
    var names: seq<string>
    var published: seq<Publication>
    var stopped: bool

    constructor ()
      ensures View() == START
    {
      addresses, names, published, stopped := ["All"], ["All"], [], false;
    }

    ghost function View(): State
      reads this
    {
      State(addresses, names, published, stopped)
    }

    /** One datagram through the receive loop. */
    method Receive(d: Datagram)
      requires Valid(View())
      modifies this
      ensures View() == Step(old(View()), d)
    {
      if stopped || |d.data| < 6 {
        return;
      }
      if d.host !in addresses {
        addresses, names := addresses + [d.host], names + [HostName(|names|)];
      }
      var i := IndexOf(addresses, d.host);
      if i == 0 {
        stopped := true;
      } else {
        published := published + [Publication(d.host, Topic(names[i], StreamId(d.data)), d.data)];
      }
    }
  }

  // ---------- What every run keeps ----------

  /** Equally long lists, no address twice, and each host's name is that of its position. */
  ghost predicate Valid(s: State) {
    && |s.addresses| == |s.names| > 0 && s.addresses[0] == "All" && Distinct(s.addresses)
    && (forall i :: 1 <= i < |s.names| ==> s.names[i] == HostName(i))
  }

  /** Every publication carries the name its host has in the lists. */
  ghost predicate Addressed(s: State) {
    forall k :: 0 <= k < |s.published| ==> Rightly(s, s.published[k])
  }

  ghost predicate Rightly(s: State, p: Publication) {
    var i := IndexOf(s.addresses, p.host);
    0 < i < |s.addresses| && |p.datagram| >= 6 && p.topic == Topic(HostName(i), StreamId(p.datagram))
  }

  lemma {:induction false} IndexStays(addresses: seq<string>, host: string, more: seq<string>)
    ensures host in addresses ==> IndexOf(addresses + more, host) == IndexOf(addresses, host)
    ensures host !in addresses ==> IndexOf(addresses + [host], host) == |addresses|
  {
    if addresses != [] {
      assert (addresses + more)[1..] == addresses[1..] + more;
      assert (addresses + [host])[1..] == addresses[1..] + [host];
      IndexStays(addresses[1..], host, more);
    }
  }

  lemma RegisterKeeps(s: State, host: string)
    requires Valid(s)
    ensures Valid(Register(s, host)) && host in Register(s, host).addresses
    ensures s.addresses <= Register(s, host).addresses && s.names <= Register(s, host).names
  {
    if host !in s.addresses {
      assert forall i :: 0 <= i < |s.addresses| ==> s.addresses[i] != host;
    }
  }

  lemma RegisterAddresses(s: State, host: string, p: Publication)
    requires Rightly(s, p)
    ensures Rightly(Register(s, host), p)
  {
    IndexStays(s.addresses, p.host, [host]);
  }

  lemma StepKeeps(s: State, d: Datagram)
    requires Valid(s) && Addressed(s)
    ensures Valid(Step(s, d)) && Addressed(Step(s, d))
    ensures s.addresses <= Step(s, d).addresses && s.names <= Step(s, d).names
  {
    if !s.stopped && |d.data| >= 6 {
      RegisterKeeps(s, d.host);
      var t, u := Register(s, d.host), Step(s, d);
      assert u.addresses == t.addresses && u.names == t.names;
      forall k | 0 <= k < |u.published| ensures Rightly(u, u.published[k]) {
        if k < |s.published| {
          RegisterAddresses(s, d.host, s.published[k]);
          assert u.published[k] == s.published[k];
        }
      }
    }
  }

  lemma {:induction false} RunKeeps(s: State, stream: seq<Datagram>)
    requires Valid(s) && Addressed(s)
    ensures Valid(Run(s, stream)) && Addressed(Run(s, stream))
    ensures s.addresses <= Run(s, stream).addresses && s.names <= Run(s, stream).names
  {
    if stream != [] {
      RunKeeps(s, stream[..|stream| - 1]);
      StepKeeps(Run(s, stream[..|stream| - 1]), stream[|stream| - 1]);
    }
  }

  lemma {:induction false} RunJoins(s: State, first: seq<Datagram>, second: seq<Datagram>)
    ensures Run(s, first + second) == Run(Run(s, first), second)
  {
    if second == [] {
      assert first + second == first;
    } else {
      assert (first + second)[..|first + second| - 1] == first + second[..|second| - 1];
      RunJoins(s, first, second[..|second| - 1]);
    }
  }

  lemma StartValid()
    ensures Valid(START) && Addressed(START)
  {
  }

  lemma Extends(s: State, t: State, host: string)
    requires Valid(s) && Valid(t) && s.addresses <= t.addresses && s.names <= t.names && host in s.addresses
    ensures var i := IndexOf(s.addresses, host);
            i < |s.names| && IndexOf(t.addresses, host) == i && t.names[i] == s.names[i]
  {
    var more := t.addresses[|s.addresses|..];
    assert t.addresses == s.addresses + more;
    IndexStays(s.addresses, host, more);
  }

  /** Whatever arrives later, the two lists stay equally long and free of repetitions, and a host
      keeps its position and its name.
   */
  lemma NamesNeverChange(first: seq<Datagram>, second: seq<Datagram>)
    ensures var s, t := Run(START, first), Run(START, first + second);
            && |t.addresses| == |t.names| && Distinct(t.addresses)
            && forall host :: host in s.addresses ==> SameName(s, t, host)
  {
    StartValid();
    RunKeeps(START, first);
    RunJoins(START, first, second);
    var s, t := Run(START, first), Run(START, first + second);
    RunKeeps(s, second);
    forall host | host in s.addresses ensures SameName(s, t, host) {
      Extends(s, t, host);
    }
  }

  ghost predicate SameName(s: State, t: State, host: string) {
    var i := IndexOf(s.addresses, host);
    i < |s.names| && i < |t.names| && IndexOf(t.addresses, host) == i && t.names[i] == s.names[i]
  }

  // ---------- Topics tell hosts and packets apart ----------

  predicate NoDot(s: string) {
    forall i :: 0 <= i < |s| ==> s[i] != '.'
  }

  lemma {:induction false} NumeralNoDot(base: nat, n: nat)
    requires base == 10 || base == 16
    ensures NoDot(Numeral(base, n))
  {
    if n >= base {
      NumeralNoDot(base, n / base);
    }
  }

  lemma DigitsDiffer(base: nat, m: nat, n: nat)
    requires base == 10 || base == 16
    requires m / base == n / base && Digit(m % base) == Digit(n % base)
    ensures m == n
  {
    assert m % base == n % base;
  }

  lemma {:induction false} NumeralInjective(base: nat, m: nat, n: nat)
    requires base == 10 || base == 16
    requires Numeral(base, m) == Numeral(base, n)
    ensures m == n
  {
    var a, b := Numeral(base, m), Numeral(base, n);
    assert a[|a| - 1] == b[|b| - 1] && a[..|a| - 1] == b[..|b| - 1];
    if m < base || n < base {
      assert m < base && n < base;
      DigitsDiffer(base, m, n);
    } else {
      assert a[..|a| - 1] == Numeral(base, m / base) && b[..|b| - 1] == Numeral(base, n / base);
      NumeralInjective(base, m / base, n / base);
      DigitsDiffer(base, m, n);
    }
  }

  /** What comes before the first dot is determined. */
  lemma FirstDot(a: string, b: string, c: string, d: string)
    requires NoDot(a) && NoDot(b) && a + "." + c <= b + "." + d
    ensures a == b
  {
    var left, right := a + "." + c, b + "." + d;
    assert left[|a|] == '.' && right[|b|] == '.' && left[|a|] == right[|a|];
    assert a == left[..|a|] && b == right[..|b|];
  }

  lemma SameHead(head: string, x: string, y: string)
    requires head + x <= head + y
    ensures x <= y
  {
    assert x == (head + x)[|head|..] && y == (head + y)[|head|..];
  }

  lemma NameBetween(head: string, a: string, b: string, tail: string, rest: string)
    requires NoDot(a) && NoDot(b) && head + a + "." + tail <= head + b + "." + tail + rest
    ensures a == b
  {
    assert head + a + "." + tail == head + (a + "." + tail);
    assert head + b + "." + tail + rest == head + (b + "." + (tail + rest));
    SameHead(head, a + "." + tail, b + "." + (tail + rest));
    FirstDot(a, b, tail, tail + rest);
  }

  lemma NameNoDot(i: nat)
    ensures NoDot(HostName(i))
  {
    NumeralNoDot(10, i);
    assert NoDot("Spacecraft");
  }

  lemma NamesDiffer(i: nat, j: nat)
    requires HostName(i) == HostName(j)
    ensures i == j
  {
    SameHead("Spacecraft", Numeral(10, i), Numeral(10, j));
    SameHead("Spacecraft", Numeral(10, j), Numeral(10, i));
    NumeralInjective(10, i, j);
  }

  /** No host's channel is the beginning of another host's topic. */
  lemma ChannelsApart(i: nat, j: nat, id: nat)
    requires Channel(HostName(i)) <= Topic(HostName(j), id)
    ensures i == j
  {
    NameNoDot(i);
    NameNoDot(j);
    TopicIs(HostName(j), id);
    NameBetween("GroundSystem.", HostName(i), HostName(j), "TelemetryPackets.", Hex(id));
    NamesDiffer(i, j);
  }

  function Hex(id: nat): string {
    "0x" + Numeral(16, id)
  }

  lemma TopicIs(name: string, id: nat)
    ensures Topic(name, id) == Channel(name) + Hex(id)
  {
    Associative(Channel(name), "0x", Numeral(16, id));
  }

  lemma Associative(a: string, b: string, c: string)
    ensures a + b + c == a + (b + c)
  {
  }

  lemma TopicsInjective(i: nat, j: nat, id: nat, other: nat)
    requires Topic(HostName(i), id) == Topic(HostName(j), other)
    ensures i == j && id == other
  {
    TopicIs(HostName(i), id);
    TopicIs(HostName(j), other);
    ChannelsApart(i, j, other);
    SameHead(Channel(HostName(i)), Hex(id), Hex(other));
    SameHead(Channel(HostName(i)), Hex(other), Hex(id));
    SameHead("0x", Numeral(16, id), Numeral(16, other));
    SameHead("0x", Numeral(16, other), Numeral(16, id));
    NumeralInjective(16, id, other);
  }

  lemma BytesDiffer(d: seq<Byte>, e: seq<Byte>)
    requires |d| >= 2 && |e| >= 2
    ensures StreamId(d) == StreamId(e) <==> d[0] == e[0] && d[1] == e[1]
  {
    var a: int, b: int, x: int, y: int := d[0], d[1], e[0], e[1];
    if 256 * a + b == 256 * x + y {
      assert 256 * (a - x) == y - b;
    }
  }

  lemma RightlyApart(s: State, p: Publication, q: Publication)
    requires Rightly(s, p) && Rightly(s, q)
    ensures p.topic == q.topic <==> p.host == q.host && p.datagram[0] == q.datagram[0] && p.datagram[1] == q.datagram[1]
    ensures Channel(HostName(IndexOf(s.addresses, p.host))) <= q.topic <==> p.host == q.host
  {
    var i, j := IndexOf(s.addresses, p.host), IndexOf(s.addresses, q.host);
    assert i == j <==> p.host == q.host;
    BytesDiffer(p.datagram, q.datagram);
    if p.topic == q.topic {
      TopicsInjective(i, j, StreamId(p.datagram), StreamId(q.datagram));
    }
    if Channel(HostName(i)) <= q.topic {
      ChannelsApart(i, j, StreamId(q.datagram));
    }
    TopicIs(HostName(j), StreamId(q.datagram));
  }

  /** Over any stream, two datagrams are published under the same topic if and only if they came
      from the same host with the same two bytes of packet ID, and a subscription to one host's channel receives
      nothing of another host.
   */
  lemma TopicsIdentify(stream: seq<Datagram>, k: nat, l: nat)
    requires k < |Run(START, stream).published| && l < |Run(START, stream).published|
    ensures var s := Run(START, stream);
            var p, q := s.published[k], s.published[l];
            && |p.datagram| >= 6 && |q.datagram| >= 6
            && (p.topic == q.topic <==> p.host == q.host && p.datagram[0] == q.datagram[0] && p.datagram[1] == q.datagram[1])
            && (Channel(HostName(IndexOf(s.addresses, p.host))) <= q.topic <==> p.host == q.host)
  {
    StartValid();
    RunKeeps(START, stream);
    var s := Run(START, stream);
    assert Rightly(s, s.published[k]) && Rightly(s, s.published[l]);
    RightlyApart(s, s.published[k], s.published[l]);
  }

  // ---------- What a topic says ----------

  /** The digit that a character stands for. */
  function DigitOf(c: char): int {
    if '0' <= c <= '9' then c as int - '0' as int
    else if 'a' <= c <= 'f' then c as int - 'a' as int + 10
    else -1
  }

  /** The number that a text denotes in a base. */
  function Denoted(base: nat, s: string): int {
    if s == "" then 0 else Denoted(base, s[..|s| - 1]) * base + DigitOf(s[|s| - 1])
  }

  /** A numeral is proper: its characters are digits of the base, without a zero in front. */
  predicate Proper(base: nat, s: string) {
    s != "" && (|s| > 1 ==> s[0] != '0') && forall i :: 0 <= i < |s| ==> 0 <= DigitOf(s[i]) < base
  }

  lemma DigitIs(d: nat)
    requires d < 16
    ensures DigitOf(Digit(d)) == d && (Digit(d) == '0' ==> d == 0)
  {
  }

  lemma {:induction false} NumeralIs(base: nat, n: nat)
    requires base == 10 || base == 16
    ensures Proper(base, Numeral(base, n)) && Denoted(base, Numeral(base, n)) == n
    ensures n > 0 ==> Numeral(base, n)[0] != '0'
  {
    var s := Numeral(base, n);
    DigitIs(n % base);
    if n >= base {
      NumeralIs(base, n / base);
      assert s[..|s| - 1] == Numeral(base, n / base);
      assert n == n / base * base + n % base;
    }
  }

  /** Every datagram is published under the channel of its host, named by the decimal place of the host's
      address in the list, and the hexadecimal number of its first two bytes, the first counting 256.
   */
  lemma PublishedUnder(stream: seq<Datagram>, k: nat)
    requires k < |Run(START, stream).published|
    ensures var s := Run(START, stream);
            var p := s.published[k];
            exists place, id :: TopicSays(s, p, place, id)
  {
    StartValid();
    RunKeeps(START, stream);
    var s := Run(START, stream);
    var p := s.published[k];
    assert Rightly(s, p);
    var i := IndexOf(s.addresses, p.host);
    NumeralIs(10, i);
    NumeralIs(16, StreamId(p.datagram));
    TopicText(Numeral(10, i), Numeral(16, StreamId(p.datagram)));
    assert TopicSays(s, p, Numeral(10, i), Numeral(16, StreamId(p.datagram)));
  }

  ghost predicate TopicSays(s: State, p: Publication, place: string, id: string) {
    && |p.datagram| >= 6 && Proper(10, place) && Proper(16, id)
    && 0 < Denoted(10, place) < |s.addresses| && s.addresses[Denoted(10, place)] == p.host
    && Denoted(16, id) == 256 * p.datagram[0] as int + p.datagram[1] as int
    && p.topic == "GroundSystem.Spacecraft" + place + ".TelemetryPackets.0x" + id
  }

  lemma TopicText(place: string, id: string)
    ensures Channel("Spacecraft" + place) + "0x" + id == "GroundSystem.Spacecraft" + place + ".TelemetryPackets.0x" + id
  {
    assert "GroundSystem." + ("Spacecraft" + place) == "GroundSystem.Spacecraft" + place;
    var a := "GroundSystem.Spacecraft" + place;
    assert a + "." + "TelemetryPackets." + "0x" == a + ".TelemetryPackets.0x";
  }

  // ---------- Nothing is lost ----------

  /** The datagrams long enough to hold a telemetry header. */
  function Long(stream: seq<Datagram>): seq<Datagram> {
    if stream == [] then []
    else
      var d := stream[|stream| - 1];
      Long(stream[..|stream| - 1]) + if |d.data| < 6 then [] else [d]
  }

  /** The first of them whose host goes by the name of the first list entry, or their number. */
  function Stop(long: seq<Datagram>): (n: nat)
    ensures n <= |long| && (n < |long| ==> long[n].host == "All")
    ensures forall k :: 0 <= k < n ==> long[k].host != "All"
  {
    if long == [] then 0
    else
      var n := Stop(long[..|long| - 1]);
      if n < |long| - 1 then n else if long[|long| - 1].host == "All" then |long| - 1 else |long|
  }

  ghost predicate Sent(published: seq<Publication>, long: seq<Datagram>) {
    |published| == |long| &&
    forall k :: 0 <= k < |long| ==> published[k].host == long[k].host && published[k].datagram == long[k].data
  }

  /** The router publishes every datagram that is long enough, in order, up to the first from a host
      that goes by the name of the first list entry; and that, only, stops it.
   */
  lemma {:induction false} PublishesAll(stream: seq<Datagram>)
    ensures var s, long := Run(START, stream), Long(stream);
            && (s.stopped <==> Stop(long) < |long|)
            && Sent(s.published, long[..Stop(long)])
  {
    if stream != [] {
      var before, d := stream[..|stream| - 1], stream[|stream| - 1];
      StartValid();
      RunKeeps(START, before);
      PublishesAll(before);
      if |d.data| >= 6 {
        StepPublishes(Run(START, before), Long(before), d);
      } else {
        assert Long(before) + [] == Long(before);
      }
    }
  }

  lemma StepPublishes(s: State, long: seq<Datagram>, d: Datagram)
    requires Valid(s) && |d.data| >= 6
    requires (s.stopped <==> Stop(long) < |long|) && Sent(s.published, long[..Stop(long)])
    ensures var t, longer := Step(s, d), long + [d];
            && (t.stopped <==> Stop(longer) < |longer|)
            && Sent(t.published, longer[..Stop(longer)])
  {
    RegisterKeeps(s, d.host);
    assert IndexOf(Register(s, d.host).addresses, d.host) == 0 <==> d.host == "All";
    var longer := long + [d];
    assert longer[..|long|] == long;
    assert longer[..Stop(long)] == long[..Stop(long)];
  }
}
