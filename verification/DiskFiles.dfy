/** The files on disk, as far as the destination files of Data Storage are concerned: names and
    contents, and what the operating system does to them when a file is created, written or moved.
 */
module DiskFiles {

  const CFE_HEADER_BYTES: nat := 64
  const DS_HEADER_BYTES: nat := 76

  /** A packet as the software bus delivers it: at most 65542 bytes long. */
  type PacketLength = n: nat | n <= 65542

  /** What one write call puts in a file; `Partial` is what a short write leaves. */
  datatype Record =
    | CfeHeader
    | DsHeader
    | Packet(id: nat, length: PacketLength)
    | Partial(bytes: nat)
  {
    function Bytes(): nat {
      match this
      case CfeHeader => CFE_HEADER_BYTES
      case DsHeader => DS_HEADER_BYTES
      case Packet(_, length) => length
      case Partial(bytes) => bytes
    }
  }

  datatype File = File(name: string, records: seq<Record>)

  /** The files, no two of one name, oldest first. `put` is the record of all that was written, `lost`
      of all that was in files when others of the same name took their place, and `copied` of what the
      copies of files not moved after all have left.
   */
  datatype Disk = Disk(files: seq<File>, lost: seq<Record>, put: seq<Record>, copied: seq<Record>)

  /** The calls behind the move of a file: it is renamed; or, failing that, it is copied if both names
      can be opened, which truncates the target, `part` bytes go over before the copy ends, and after a
      whole copy the source is removed.
   */
  datatype MoveCall = MoveCall(rename: bool, copies: bool, part: nat, removed: bool)

  // ---------- Sums over records and files ----------

  /** What can be added up over records. */
  datatype Measure = AllBytes | ShortBytes | AllPackets | CopiesOf(record: Record)

  function Weight(r: Record, m: Measure): nat {
    match m
    case AllBytes => r.Bytes()
    case ShortBytes => if r.Partial? then r.bytes else 0
    case AllPackets => if r.Packet? then 1 else 0
    case CopiesOf(record) => if r == record then 1 else 0
  }

  function Sum(rs: seq<Record>, m: Measure): nat {
    if rs == [] then 0 else Sum(rs[..|rs| - 1], m) + Weight(rs[|rs| - 1], m)
  }

  function TotalBytes(rs: seq<Record>): nat {
    Sum(rs, AllBytes)
  }

  /** The packets of a file, in the order written. */
  function PacketsIn(rs: seq<Record>): (ps: seq<Record>)
    ensures forall p :: p in ps ==> p.Packet?
  {
    if rs == [] then []
    else PacketsIn(rs[..|rs| - 1]) + if rs[|rs| - 1].Packet? then [rs[|rs| - 1]] else []
  }

  function Front(files: seq<File>): seq<File>
    requires files != []
  {
    files[..|files| - 1]
  }

  function Last(files: seq<File>): File
    requires files != []
  {
    files[|files| - 1]
  }

  /** The packets of all files. */
  function Packets(files: seq<File>): seq<Record> {
    if files == [] then [] else Packets(Front(files)) + PacketsIn(Last(files).records)
  }

  function SumFiles(files: seq<File>, m: Measure): nat {
    if files == [] then 0 else SumFiles(Front(files), m) + Sum(Last(files).records, m)
  }

  predicate Has(files: seq<File>, name: string) {
    files != [] && (Last(files).name == name || Has(Front(files), name))
  }

  /** The content of the file of that name, if there is one. */
  function Holds(files: seq<File>, name: string): seq<Record> {
    if files == [] then []
    else if Last(files).name == name then Last(files).records
    else Holds(Front(files), name)
  }

  predicate Named(files: seq<File>) {
    files == [] || (Named(Front(files)) && !Has(Front(files), Last(files).name))
  }

  // ---------- What the operating system does ----------

  function Without(files: seq<File>, name: string): seq<File> {
    if files == [] then []
    else if Last(files).name == name then Without(Front(files), name)
    else Without(Front(files), name) + [Last(files)]
  }

  function Extended(files: seq<File>, name: string, rs: seq<Record>): seq<File> {
    if files == [] then []
    else Extended(Front(files), name, rs) +
         [if Last(files).name == name then File(name, Last(files).records + rs) else Last(files)]
  }

  function Renamed(files: seq<File>, name: string, to: string): seq<File> {
    if files == [] then []
    else Renamed(Front(files), name, to) + [if Last(files).name == name then File(to, Last(files).records) else Last(files)]
  }

  /** Opening a file to be created truncates one of the same name. */
  function Create(d: Disk, name: string): Disk {
    Disk(Without(d.files, name) + [File(name, [])], d.lost + Holds(d.files, name), d.put, d.copied)
  }

  function Write(d: Disk, name: string, rs: seq<Record>): Disk {
    Disk(Extended(d.files, name, rs), d.lost, d.put + rs, d.copied)
  }

  /** Renaming a file replaces one that has the new name already. */
  function Move(d: Disk, name: string, to: string): Disk {
    if name == to then d
    else Disk(Renamed(Without(d.files, to), name, to), d.lost + Holds(d.files, to), d.put, d.copied)
  }

  /** The records that begin within the first bytes, the last perhaps cut. */
  function Prefix(rs: seq<Record>, bytes: nat): seq<Record> {
    if rs == [] || bytes == 0 then []
    else if rs[0].Bytes() <= bytes then [rs[0]] + Prefix(rs[1..], bytes - rs[0].Bytes())
    else [Partial(bytes)]
  }

  /** A copy that stays beside its source takes the place of a file of its name. */
  function Copy(d: Disk, to: string, rs: seq<Record>): Disk {
    Disk(Without(d.files, to) + [File(to, rs)], d.lost + Holds(d.files, to), d.put, d.copied + rs)
  }

  function Remove(d: Disk, name: string): Disk {
    Disk(Without(d.files, name), d.lost + Holds(d.files, name), d.put, d.copied)
  }

  /** Is the source gone, and the target in its place? */
  predicate Arrives(d: Disk, name: string, to: string, mv: MoveCall) {
    mv.rename || (mv.copies && name != to && mv.part >= TotalBytes(Holds(d.files, name)) && mv.removed)
  }

  /** Moving a file. A copy of a file onto itself truncates it first, and then finds nothing to copy. */
  function MoveFile(d: Disk, name: string, to: string, mv: MoveCall): Disk {
    if Arrives(d, name, to, mv) then Move(d, name, to)
    else if !mv.copies then d
    else if name == to then (if mv.removed then Remove(d, name) else Create(d, name))
    else Copy(d, to, Prefix(Holds(d.files, name), mv.part))
  }

  /** The name under which the file is when it was not destroyed. */
  function NameAfter(d: Disk, name: string, to: string, mv: MoveCall): string {
    if Arrives(d, name, to, mv) then to else name
  }

  /** Does the move destroy what is at the target? A copy truncates it, whether it then succeeds or not. */
  predicate Replaces(name: string, to: string, mv: MoveCall) {
    if name == to then mv.copies && !mv.rename else mv.copies || mv.rename
  }

  // ---------- What these do to names, packets and bytes ----------

  lemma SumAppend(rs: seq<Record>, r: Record, m: Measure)
    ensures Sum(rs + [r], m) == Sum(rs, m) + Weight(r, m)
  {
    assert (rs + [r])[..|rs|] == rs;
  }

  lemma PacketsAppend(rs: seq<Record>, r: Record)
    ensures PacketsIn(rs + [r]) == PacketsIn(rs) + if r.Packet? then [r] else []
  {
    assert (rs + [r])[..|rs|] == rs;
  }

  lemma {:induction false} SumJoins(a: seq<Record>, b: seq<Record>, m: Measure)
    ensures Sum(a + b, m) == Sum(a, m) + Sum(b, m)
  {
    if b == [] {
      assert a + b == a;
    } else {
      assert (a + b)[..|a + b| - 1] == a + b[..|b| - 1];
      SumJoins(a, b[..|b| - 1], m);
    }
  }

  lemma {:induction false} PacketsJoin(a: seq<Record>, b: seq<Record>)
    ensures PacketsIn(a + b) == PacketsIn(a) + PacketsIn(b)
  {
    if b == [] {
      assert a + b == a;
    } else {
      assert (a + b)[..|a + b| - 1] == a + b[..|b| - 1];
      PacketsJoin(a, b[..|b| - 1]);
    }
  }

  /** There are packets exactly if they can be counted. */
  lemma {:induction false} PacketsCounted(rs: seq<Record>)
    ensures |PacketsIn(rs)| == Sum(rs, AllPackets)
  {
    if rs != [] {
      PacketsCounted(rs[..|rs| - 1]);
    }
  }

  /** The copies of a packet are among the packets. */
  lemma {:induction false} CopiesInPackets(rs: seq<Record>, p: Record)
    requires p.Packet?
    ensures Sum(rs, CopiesOf(p)) == Sum(PacketsIn(rs), CopiesOf(p))
  {
    if rs != [] {
      var front, last := rs[..|rs| - 1], rs[|rs| - 1];
      CopiesInPackets(front, p);
      if last.Packet? {
        SumAppend(PacketsIn(front), last, CopiesOf(p));
      } else {
        assert PacketsIn(rs) == PacketsIn(front);
      }
    }
  }

  lemma {:induction false} InMeansCopies(rs: seq<Record>, p: Record)
    requires p in rs
    ensures Sum(rs, CopiesOf(p)) > 0
  {
    if rs[|rs| - 1] != p {
      InMeansCopies(rs[..|rs| - 1], p);
    }
  }

  lemma {:induction false} FilePacketsCounted(files: seq<File>)
    ensures |Packets(files)| == SumFiles(files, AllPackets)
  {
    if files != [] {
      FilePacketsCounted(Front(files));
      PacketsCounted(Last(files).records);
    }
  }

  lemma FrontIs(files: seq<File>, f: File)
    ensures Front(files + [f]) == files && Last(files + [f]) == f
  {
  }

  lemma {:induction false} Absent(files: seq<File>, name: string)
    requires !Has(files, name)
    ensures Holds(files, name) == [] && Without(files, name) == files
  {
    if files != [] {
      Absent(Front(files), name);
      assert files == Front(files) + [Last(files)];
    }
  }

  lemma {:induction false} AbsentExtended(files: seq<File>, name: string, rs: seq<Record>)
    requires !Has(files, name)
    ensures Extended(files, name, rs) == files
  {
    if files != [] {
      AbsentExtended(Front(files), name, rs);
      assert files == Front(files) + [Last(files)];
    }
  }

  lemma {:induction false} HoldsHas(files: seq<File>, n: string)
    requires Holds(files, n) != []
    ensures Has(files, n)
  {
    if Last(files).name != n {
      HoldsHas(Front(files), n);
    }
  }

  // Names and contents.

  lemma {:induction false} WithoutHolds(files: seq<File>, name: string, n: string)
    ensures Has(Without(files, name), n) <==> Has(files, n) && n != name
    ensures n != name ==> Holds(Without(files, name), n) == Holds(files, n)
  {
    if files != [] {
      WithoutHolds(Front(files), name, n);
      if Last(files).name != name {
        FrontIs(Without(Front(files), name), Last(files));
      }
    }
  }

  lemma {:induction false} WithoutNamed(files: seq<File>, name: string)
    requires Named(files)
    ensures Named(Without(files, name))
  {
    if files != [] {
      WithoutNamed(Front(files), name);
      WithoutHolds(Front(files), name, Last(files).name);
      if Last(files).name != name {
        FrontIs(Without(Front(files), name), Last(files));
      }
    }
  }

  lemma {:induction false} ExtendedHolds(files: seq<File>, name: string, rs: seq<Record>, n: string)
    ensures Has(Extended(files, name, rs), n) <==> Has(files, n)
    ensures Holds(Extended(files, name, rs), n) == if n == name && Has(files, n) then Holds(files, n) + rs else Holds(files, n)
  {
    if files != [] {
      ExtendedHolds(Front(files), name, rs, n);
    }
  }

  lemma {:induction false} ExtendedNamed(files: seq<File>, name: string, rs: seq<Record>)
    requires Named(files)
    ensures Named(Extended(files, name, rs))
  {
    if files != [] {
      ExtendedNamed(Front(files), name, rs);
      ExtendedHolds(Front(files), name, rs, Last(files).name);
    }
  }

  lemma {:induction false} RenamedHolds(files: seq<File>, name: string, to: string, n: string)
    requires !Has(files, to) && name != to
    ensures Has(Renamed(files, name, to), n) <==> if n == to then Has(files, name) else n != name && Has(files, n)
    ensures n == to && Has(files, name) ==> Holds(Renamed(files, name, to), n) == Holds(files, name)
    ensures n != to && n != name ==> Holds(Renamed(files, name, to), n) == Holds(files, n)
  {
    if files != [] {
      RenamedHolds(Front(files), name, to, n);
    }
  }

  lemma {:induction false} RenamedNamed(files: seq<File>, name: string, to: string)
    requires Named(files) && !Has(files, to) && name != to
    ensures Named(Renamed(files, name, to))
  {
    if files != [] {
      RenamedNamed(Front(files), name, to);
      RenamedHolds(Front(files), name, to, if Last(files).name == name then to else Last(files).name);
    }
  }

  // Sums.

  lemma {:induction false} WithoutSums(files: seq<File>, name: string, m: Measure)
    requires Named(files)
    ensures SumFiles(Without(files, name), m) + Sum(Holds(files, name), m) == SumFiles(files, m)
  {
    if files != [] {
      if Last(files).name == name {
        Absent(Front(files), name);
      } else {
        WithoutSums(Front(files), name, m);
        FrontIs(Without(Front(files), name), Last(files));
      }
    }
  }

  lemma {:induction false} WithoutPackets(files: seq<File>, name: string)
    requires Named(files) && PacketsIn(Holds(files, name)) == []
    ensures Packets(Without(files, name)) == Packets(files)
  {
    if files != [] {
      if Last(files).name == name {
        Absent(Front(files), name);
      } else {
        WithoutPackets(Front(files), name);
        FrontIs(Without(Front(files), name), Last(files));
      }
    }
  }

  lemma {:induction false} ExtendedSums(files: seq<File>, name: string, rs: seq<Record>, m: Measure)
    requires Named(files) && Has(files, name)
    ensures SumFiles(Extended(files, name, rs), m) == SumFiles(files, m) + Sum(rs, m)
  {
    if Last(files).name == name {
      AbsentExtended(Front(files), name, rs);
      SumJoins(Last(files).records, rs, m);
      FrontIs(Front(files), File(name, Last(files).records + rs));
    } else {
      ExtendedSums(Front(files), name, rs, m);
      FrontIs(Extended(Front(files), name, rs), Last(files));
    }
  }

  lemma LastExtended(files: seq<File>, name: string, rs: seq<Record>)
    requires Named(files) && files != [] && Last(files).name == name
    ensures Extended(files, name, rs) == Front(files) + [File(name, Last(files).records + rs)]
    ensures Packets(Extended(files, name, rs)) == Packets(files) + PacketsIn(rs)
  {
    AbsentExtended(Front(files), name, rs);
    PacketsJoin(Last(files).records, rs);
    FrontIs(Front(files), File(name, Last(files).records + rs));
  }

  lemma {:induction false} RenamedSums(files: seq<File>, name: string, to: string, m: Measure)
    ensures SumFiles(Renamed(files, name, to), m) == SumFiles(files, m)
    ensures Packets(Renamed(files, name, to)) == Packets(files)
  {
    if files != [] {
      RenamedSums(Front(files), name, to, m);
    }
  }

  // ---------- What every disk of a run satisfies ----------

  ghost predicate Conserves(d: Disk, start: seq<File>, m: Measure) {
    SumFiles(d.files, m) + Sum(d.lost, m) == SumFiles(start, m) + Sum(d.put, m) + Sum(d.copied, m)
  }

  /** Packets and bytes put or copied to the disk are there or were lost, beside those of the start. */
  ghost predicate Lawful(d: Disk, start: seq<File>) {
    Named(d.files) && forall m :: Conserves(d, start, m)
  }

  /** While no packet was lost or copied, the packets are there in the order they were put. */
  ghost predicate Ordered(d: Disk, start: seq<File>) {
    PacketsIn(d.lost) == [] && PacketsIn(d.copied) == [] ==> Packets(d.files) == Packets(start) + PacketsIn(d.put)
  }

  lemma CreateHolds(d: Disk, name: string, n: string)
    ensures var e := Create(d, name);
            && (Has(e.files, n) <==> Has(d.files, n) || n == name)
            && Holds(e.files, n) == (if n == name then [] else Holds(d.files, n))
            && Last(e.files) == File(name, [])
  {
    WithoutHolds(d.files, name, n);
    FrontIs(Without(d.files, name), File(name, []));
  }

  lemma CreateLawful(d: Disk, name: string, start: seq<File>)
    requires Lawful(d, start)
    ensures Lawful(Create(d, name), start)
  {
    var e := Create(d, name);
    FrontIs(Without(d.files, name), File(name, []));
    WithoutNamed(d.files, name);
    WithoutHolds(d.files, name, name);
    forall m ensures Conserves(e, start, m) {
      assert Conserves(d, start, m);
      WithoutSums(d.files, name, m);
      SumJoins(d.lost, Holds(d.files, name), m);
    }
  }

  lemma CreateOrdered(d: Disk, name: string, start: seq<File>)
    requires Named(d.files) && Ordered(d, start)
    ensures Ordered(Create(d, name), start)
  {
    PacketsJoin(d.lost, Holds(d.files, name));
    FrontIs(Without(d.files, name), File(name, []));
    if PacketsIn(Create(d, name).lost) == [] {
      WithoutPackets(d.files, name);
    }
  }

  lemma WriteLawful(d: Disk, name: string, rs: seq<Record>, start: seq<File>)
    requires Lawful(d, start) && Has(d.files, name)
    ensures Lawful(Write(d, name, rs), start)
  {
    var e := Write(d, name, rs);
    ExtendedNamed(d.files, name, rs);
    forall m ensures Conserves(e, start, m) {
      assert Conserves(d, start, m);
      ExtendedSums(d.files, name, rs, m);
      SumJoins(d.put, rs, m);
    }
  }

  lemma WriteOrdered(d: Disk, name: string, rs: seq<Record>, start: seq<File>)
    requires Named(d.files) && Ordered(d, start) && d.files != [] && Last(d.files).name == name
    ensures Ordered(Write(d, name, rs), start) && Last(Write(d, name, rs).files).name == name
  {
    LastExtended(d.files, name, rs);
    FrontIs(Front(d.files), File(name, Last(d.files).records + rs));
    PacketsJoin(d.put, rs);
    MoreStaysOrdered(d, Write(d, name, rs), PacketsIn(rs), start);
  }

  lemma MoreStaysOrdered(d: Disk, e: Disk, more: seq<Record>, start: seq<File>)
    requires Ordered(d, start) && e.lost == d.lost && e.copied == d.copied
    requires Packets(e.files) == Packets(d.files) + more && PacketsIn(e.put) == PacketsIn(d.put) + more
    ensures Ordered(e, start)
  {
    JoinRight(Packets(start), PacketsIn(d.put), more);
  }

  lemma JoinRight(a: seq<Record>, b: seq<Record>, more: seq<Record>)
    ensures a + b + more == a + (b + more)
  {
  }

  lemma MoveHolds(d: Disk, name: string, to: string, n: string)
    requires Has(d.files, name)
    ensures var e := Move(d, name, to);
            && (n == to || (Has(d.files, n) && n != name) ==> Has(e.files, n))
            && Holds(e.files, to) == Holds(d.files, name)
            && (n != to && n != name ==> Holds(e.files, n) == Holds(d.files, n))
  {
    if name != to {
      var rest := Without(d.files, to);
      WithoutHolds(d.files, to, to);
      WithoutHolds(d.files, to, name);
      WithoutHolds(d.files, to, n);
      RenamedHolds(rest, name, to, n);
      RenamedHolds(rest, name, to, to);
    }
  }

  lemma MoveLawful(d: Disk, name: string, to: string, start: seq<File>)
    requires Lawful(d, start)
    ensures Lawful(Move(d, name, to), start)
  {
    if name != to {
      var e, rest := Move(d, name, to), Without(d.files, to);
      WithoutNamed(d.files, to);
      WithoutHolds(d.files, to, to);
      RenamedNamed(rest, name, to);
      forall m ensures Conserves(e, start, m) {
        assert Conserves(d, start, m);
        WithoutSums(d.files, to, m);
        RenamedSums(rest, name, to, m);
        SumJoins(d.lost, Holds(d.files, to), m);
      }
    }
  }

  lemma MoveOrdered(d: Disk, name: string, to: string, start: seq<File>)
    requires Named(d.files) && Ordered(d, start)
    ensures Ordered(Move(d, name, to), start)
  {
    if name != to {
      PacketsJoin(d.lost, Holds(d.files, to));
      RenamedSums(Without(d.files, to), name, to, AllBytes);
      if PacketsIn(Move(d, name, to).lost) == [] {
        WithoutPackets(d.files, to);
      }
    }
  }

  lemma CopyLawful(d: Disk, to: string, rs: seq<Record>, start: seq<File>)
    requires Lawful(d, start)
    ensures Lawful(Copy(d, to, rs), start)
  {
    var e := Copy(d, to, rs);
    FrontIs(Without(d.files, to), File(to, rs));
    WithoutNamed(d.files, to);
    WithoutHolds(d.files, to, to);
    forall m ensures Conserves(e, start, m) {
      assert Conserves(d, start, m);
      WithoutSums(d.files, to, m);
      SumJoins(d.lost, Holds(d.files, to), m);
      SumJoins(d.copied, rs, m);
    }
  }

  lemma CopyOrdered(d: Disk, to: string, rs: seq<Record>, start: seq<File>)
    requires Named(d.files) && Ordered(d, start)
    ensures Ordered(Copy(d, to, rs), start)
  {
    PacketsJoin(d.lost, Holds(d.files, to));
    PacketsJoin(d.copied, rs);
    FrontIs(Without(d.files, to), File(to, rs));
    if PacketsIn(Copy(d, to, rs).lost) == [] && PacketsIn(Copy(d, to, rs).copied) == [] {
      WithoutPackets(d.files, to);
    }
  }

  lemma RemoveLawful(d: Disk, name: string, start: seq<File>)
    requires Lawful(d, start)
    ensures Lawful(Remove(d, name), start)
    ensures Ordered(d, start) ==> Ordered(Remove(d, name), start)
  {
    var e := Remove(d, name);
    WithoutNamed(d.files, name);
    forall m ensures Conserves(e, start, m) {
      assert Conserves(d, start, m);
      WithoutSums(d.files, name, m);
      SumJoins(d.lost, Holds(d.files, name), m);
    }
    PacketsJoin(d.lost, Holds(d.files, name));
    if PacketsIn(e.lost) == [] {
      WithoutPackets(d.files, name);
    }
  }

  lemma MoveFileLawful(d: Disk, name: string, to: string, mv: MoveCall, start: seq<File>)
    requires Lawful(d, start)
    ensures Lawful(MoveFile(d, name, to, mv), start)
    ensures Ordered(d, start) ==> Ordered(MoveFile(d, name, to, mv), start)
  {
    MoveLawful(d, name, to, start);
    RemoveLawful(d, name, start);
    CreateLawful(d, name, start);
    CopyLawful(d, to, Prefix(Holds(d.files, name), mv.part), start);
    if Ordered(d, start) {
      MoveOrdered(d, name, to, start);
      CreateOrdered(d, name, start);
      CopyOrdered(d, to, Prefix(Holds(d.files, name), mv.part), start);
    }
  }

  /** What the move adds to the losses. */
  lemma MoveFileLoses(d: Disk, name: string, to: string, mv: MoveCall)
    ensures MoveFile(d, name, to, mv).lost == d.lost + if Replaces(name, to, mv) then Holds(d.files, to) else []
    ensures MoveFile(d, name, to, mv).put == d.put
  {
    assert d.lost + [] == d.lost;
  }

  lemma {:induction false} WithoutHoldsNone(files: seq<File>, name: string)
    ensures Holds(Without(files, name), name) == []
  {
    WithoutHolds(files, name, name);
    Absent(Without(files, name), name);
  }

  /** A file that is moved, or not, is there with its content, unless it was copied onto itself. */
  lemma MoveFileKeeps(d: Disk, name: string, to: string, mv: MoveCall)
    requires Has(d.files, name)
    ensures Holds(MoveFile(d, name, to, mv).files, NameAfter(d, name, to, mv)) ==
            if name == to && Replaces(name, to, mv) then [] else Holds(d.files, name)
  {
    MoveHolds(d, name, to, to);
    WithoutHoldsNone(d.files, name);
    CreateHolds(d, name, name);
    var rs := Prefix(Holds(d.files, name), mv.part);
    WithoutHolds(d.files, to, name);
    FrontIs(Without(d.files, to), File(to, rs));
  }

  // ---------- What holds even if two writers share a file ----------

  ghost predicate Within(d: Disk, start: seq<File>, m: Measure) {
    SumFiles(d.files, m) + Sum(d.lost, m) <= SumFiles(start, m) + Sum(d.put, m) + Sum(d.copied, m)
  }

  /** No more is on the disk than was put or copied there. */
  ghost predicate Bounded(d: Disk, start: seq<File>) {
    Named(d.files) && forall m :: Within(d, start, m)
  }

  lemma CreateBounded(d: Disk, name: string, start: seq<File>)
    requires Bounded(d, start)
    ensures Bounded(Create(d, name), start)
  {
    var e := Create(d, name);
    FrontIs(Without(d.files, name), File(name, []));
    WithoutNamed(d.files, name);
    WithoutHolds(d.files, name, name);
    forall m ensures Within(e, start, m) {
      assert Within(d, start, m);
      WithoutSums(d.files, name, m);
      SumJoins(d.lost, Holds(d.files, name), m);
    }
  }

  lemma WriteBounded(d: Disk, name: string, rs: seq<Record>, start: seq<File>)
    requires Bounded(d, start)
    ensures Bounded(Write(d, name, rs), start)
  {
    var e := Write(d, name, rs);
    ExtendedNamed(d.files, name, rs);
    forall m ensures Within(e, start, m) {
      assert Within(d, start, m);
      SumJoins(d.put, rs, m);
      if Has(d.files, name) {
        ExtendedSums(d.files, name, rs, m);
      } else {
        AbsentExtended(d.files, name, rs);
      }
    }
  }

  lemma MoveBounded(d: Disk, name: string, to: string, start: seq<File>)
    requires Bounded(d, start)
    ensures Bounded(Move(d, name, to), start)
  {
    if name != to {
      var e, rest := Move(d, name, to), Without(d.files, to);
      WithoutNamed(d.files, to);
      WithoutHolds(d.files, to, to);
      RenamedNamed(rest, name, to);
      forall m ensures Within(e, start, m) {
        assert Within(d, start, m);
        WithoutSums(d.files, to, m);
        RenamedSums(rest, name, to, m);
        SumJoins(d.lost, Holds(d.files, to), m);
      }
    }
  }

  lemma CopyBounded(d: Disk, to: string, rs: seq<Record>, start: seq<File>)
    requires Bounded(d, start)
    ensures Bounded(Copy(d, to, rs), start)
  {
    var e := Copy(d, to, rs);
    FrontIs(Without(d.files, to), File(to, rs));
    WithoutNamed(d.files, to);
    WithoutHolds(d.files, to, to);
    forall m ensures Within(e, start, m) {
      assert Within(d, start, m);
      WithoutSums(d.files, to, m);
      SumJoins(d.lost, Holds(d.files, to), m);
      SumJoins(d.copied, rs, m);
    }
  }

  lemma RemoveBounded(d: Disk, name: string, start: seq<File>)
    requires Bounded(d, start)
    ensures Bounded(Remove(d, name), start)
  {
    var e := Remove(d, name);
    WithoutNamed(d.files, name);
    forall m ensures Within(e, start, m) {
      assert Within(d, start, m);
      WithoutSums(d.files, name, m);
      SumJoins(d.lost, Holds(d.files, name), m);
    }
  }

  lemma MoveFileBounded(d: Disk, name: string, to: string, mv: MoveCall, start: seq<File>)
    requires Bounded(d, start)
    ensures Bounded(MoveFile(d, name, to, mv), start)
  {
    MoveBounded(d, name, to, start);
    RemoveBounded(d, name, start);
    CreateBounded(d, name, start);
    CopyBounded(d, to, Prefix(Holds(d.files, name), mv.part), start);
  }

  /** The file of name `n` is there, as it was. */
  ghost predicate Spared(d: Disk, e: Disk, n: string) {
    Has(e.files, n) && Holds(e.files, n) == Holds(d.files, n)
  }

  /** Only a loss of its packets, or its own writer, changes a file that holds packets. */
  lemma CreateSpares(d: Disk, name: string, n: string)
    requires PacketsIn(Holds(d.files, n)) != [] && PacketsIn(Create(d, name).lost) == PacketsIn(d.lost)
    ensures n != name && Spared(d, Create(d, name), n)
  {
    HoldsHas(d.files, n);
    PacketsJoin(d.lost, Holds(d.files, name));
    CreateHolds(d, name, n);
  }

  lemma WriteSpares(d: Disk, name: string, rs: seq<Record>, n: string)
    requires PacketsIn(Holds(d.files, n)) != [] && n != name
    ensures Spared(d, Write(d, name, rs), n)
  {
    HoldsHas(d.files, n);
    ExtendedHolds(d.files, name, rs, n);
  }

  lemma CopySpares(d: Disk, to: string, rs: seq<Record>, n: string)
    requires PacketsIn(Holds(d.files, n)) != [] && n != to
    ensures Spared(d, Copy(d, to, rs), n)
  {
    HoldsHas(d.files, n);
    WithoutHolds(d.files, to, n);
    FrontIs(Without(d.files, to), File(to, rs));
  }

  lemma MoveFileSpares(d: Disk, name: string, to: string, mv: MoveCall, n: string)
    requires PacketsIn(Holds(d.files, n)) != [] && n != name && Has(d.files, name)
    requires PacketsIn(MoveFile(d, name, to, mv).lost) == PacketsIn(d.lost)
    ensures Spared(d, MoveFile(d, name, to, mv), n)
  {
    HoldsHas(d.files, n);
    MoveFileLoses(d, name, to, mv);
    PacketsJoin(d.lost, Holds(d.files, to));
    if Replaces(name, to, mv) {
      assert n != to;
    }
    MoveHolds(d, name, to, n);
    WithoutHolds(d.files, name, n);
    CreateHolds(d, name, n);
    if n != to {
      CopySpares(d, to, Prefix(Holds(d.files, name), mv.part), n);
    }
  }
}
