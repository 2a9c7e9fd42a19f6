/** The application data of Data Storage, updated in place by the file and packet functions. */
module Storage {
  import opened FilterIndex
  import opened PacketFilter
  import opened Collections
  import opened DiskFiles
  import opened SequenceName
  import opened DestFile
  import opened DestRuns
  import opened DataStorage
  import opened FilterTable

  class AppData {
    var enabled: bool
    var destTableLoaded: bool
    const filter: FilterData
    const entries: array<DestEntry>
    const dests: array<Dest>
    var disk: Disk
    var io: IoCounters
    var counts: PacketCounts

    /** The part of the data that storing packets leaves alone. */
    ghost predicate Configured()
      reads entries, filter, filter.mids, filter.filters, filter.linkMid, filter.linkIndex, filter.linkNext, filter.hashTable
    {
      && filter.Valid()
      && dests.Length == entries.Length == DEST_FILE_CNT
      && dests as object !in {filter.mids, filter.filters, filter.linkMid, filter.linkIndex, filter.linkNext, filter.hashTable, entries}
      && forall e :: e in entries[..] ==> e.Verified()
    }

    ghost predicate Valid()
      reads this, entries, dests, filter, filter.mids, filter.filters, filter.linkMid, filter.linkIndex, filter.linkNext, filter.hashTable
    {
      Configured() && FilesView().Valid()
    }

    constructor (appEnabled: bool, files: seq<File>)
      ensures Valid() && enabled == appEnabled && !destTableLoaded && !filter.loaded
      ensures FilesView() == Files(seq(DEST_FILE_CNT, i => FRESH), Disk(files, [], [], []), IoCounters(0, 0, 0, 0))
      ensures counts == TallyAll([])
    {
      enabled, destTableLoaded := appEnabled, false;
      disk := Disk(files, [], [], []);
      io, counts := IoCounters(0, 0, 0, 0), PacketCounts(0, 0, 0, 0);
      filter := new FilterData();
      entries := new DestEntry[DEST_FILE_CNT](_ => DestEntry("", "", "", "", 0, 0, 0, 0));
      dests := new Dest[DEST_FILE_CNT](_ => FRESH);
      new;
      assert dests[..] == seq(DEST_FILE_CNT, i => FRESH);
    }

    ghost function FilesView(): Files
      reads this, dests
    {
      Files(dests[..], disk, io)
    }

    ghost function At(i: nat): World
      requires i < dests.Length
      reads this, dests
    {
      World(dests[i], disk, io)
    }

    /** Only destination `i`, the disk and the shared write counters have changed, to `w`. */
    twostate predicate Became(i: nat, w: World)
      reads this, dests
    {
      i < dests.Length && dests[..] == old(dests[..])[i := w.dest] && disk == w.disk && io == w.io
    }

    /** Move a closed file to the directory `dir`, if there is one and its name fits. */
    method FileMove(dir: string, name: string, mv: MoveCall)
      modifies this`disk
      ensures disk == MoveClosed(old(disk), dir, name, mv)
    {
      if dir != "" {
        var pathName := dir;
        if pathName[|pathName| - 1] == SEPARATOR {
          pathName := pathName[..|pathName| - 1];
        }
        var fileName := FileTail(name);
        if fileName.Some? && |pathName| + |fileName.value| < TOTAL_FNAME_BUFSIZE {
          pathName := pathName + fileName.value;
          disk := MoveFile(disk, name, pathName, mv);
        }
      }
    }

    method FileCloseDest(i: nat, e: DestEntry, mv: MoveCall)
      requires i < dests.Length
      modifies this`disk, dests
      ensures Became(i, CloseDest(old(At(i)), e, mv))
    {
      dests[i] := dests[i].(file := []);
      FileMove(e.move, dests[i].status.name, mv);
      dests[i] := dests[i].(status := dests[i].status.(open := false));
      dests[i] := dests[i].(status := dests[i].status.(age := 0));
      dests[i] := dests[i].(status := dests[i].status.(size := 0));
      dests[i] := dests[i].(status := dests[i].status.(name := ""));
    }

    method FileWriteError(i: nat, e: DestEntry, mv: MoveCall)
      requires i < dests.Length
      modifies this`io, this`disk, dests
      ensures Became(i, WriteError(old(At(i)), e, mv))
    {
      io := io.(writeErrors := Next16(io.writeErrors));
      FileCloseDest(i, e, mv);
      dests[i] := dests[i].(status := dests[i].status.(enabled := false));
    }

    method FileWriteData(i: nat, e: DestEntry, r: Record, result: int, mv: MoveCall)
      requires i < dests.Length
      modifies this`io, this`disk, dests
      ensures Became(i, WriteRecord(old(At(i)), e, r, result, mv))
    {
      disk := Write(disk, dests[i].status.name, Written(r, result));
      dests[i] := dests[i].(accepted := dests[i].accepted + TotalBytes(Written(r, result)));
      if result == r.Bytes() {
        dests[i] := dests[i].(file := dests[i].file + [r]);
        io := io.(writes := Next16(io.writes));
        dests[i] := dests[i].(status := dests[i].status.(size := (dests[i].status.size + r.Bytes()) % UINT32));
        dests[i] := dests[i].(status := dests[i].status.(growth := (dests[i].status.growth + r.Bytes()) % UINT32));
      } else {
        dests[i] := dests[i].(short := dests[i].short + TotalBytes(Written(r, result)));
        FileWriteError(i, e, mv);
      }
    }

    method FileWriteHeader(i: nat, e: DestEntry, os: StoreResults)
      requires i < dests.Length
      modifies this`io, this`disk, dests
      ensures Became(i, WriteHeaders(old(At(i)), e, os))
    {
      FileWriteData(i, e, CfeHeader, os.header1, os.moveBad);
      if os.header1 == CFE_HEADER_BYTES {
        FileWriteData(i, e, DsHeader, os.header2, os.moveBad);
      }
    }

    method FileCreateName(i: nat, e: DestEntry, timeText: string)
      requires i < dests.Length
      modifies dests
      ensures Became(i, old(At(i)).(dest := CreateName(old(dests[i]), e, timeText)))
    {
      var sequence := timeText;
      if e.nameType == NAME_BY_COUNT {
        var buffer := new char[SEQUENCE_DIGITS + 1](_ => '\0');
        WriteSequence(buffer, dests[i].status.count);
        sequence := buffer[..SEQUENCE_DIGITS];
      }
      match FileName(e.path, e.base, sequence, e.extension) {
        case Some(name) => dests[i] := dests[i].(status := dests[i].status.(name := name));
        case None => dests[i] := dests[i].(status := dests[i].status.(enabled := false));
      }
    }

    method FileCreateDest(i: nat, e: DestEntry, timeText: string, os: StoreResults)
      requires i < dests.Length && dests[i].status.count <= MAX_SEQUENCE_COUNT && e.Verified()
      modifies this`io, this`disk, dests
      ensures Became(i, CreateDest(old(At(i)), e, timeText, os))
    {
      FileCreateName(i, e, timeText);
      if dests[i].status.name != "" {
        if !os.open {
          io := io.(writeErrors := Next16(io.writeErrors));
          dests[i] := dests[i].(status := dests[i].status.(name := ""));
          dests[i] := dests[i].(status := dests[i].status.(enabled := false));
        } else {
          FileBegin(i, e, os);
        }
      }
    }

    /** The file is created under its name, empty, and gets its headers; then the count moves on. */
    method FileBegin(i: nat, e: DestEntry, os: StoreResults)
      requires i < dests.Length && dests[i].status.count <= MAX_SEQUENCE_COUNT && e.Verified()
      modifies this`io, this`disk, dests
      ensures Became(i, Begin(old(At(i)), old(dests[i]).status.name, e, os))
    {
      FileOpenNew(i);
      ghost var u := At(i);
      FileWriteHeader(i, e, os);
      HeadersKeepCount(u, e, os);
      FileCountUp(i, e);
    }

    method FileOpenNew(i: nat)
      requires i < dests.Length
      modifies this`io, this`disk, dests
      ensures Became(i, OpenNew(old(At(i)), old(dests[i]).status.name))
    {
      disk := Create(disk, dests[i].status.name);
      io := io.(writes := Next16(io.writes));
      dests[i] := dests[i].(status := dests[i].status.(open := true), file := []);
    }

    method FileCountUp(i: nat, e: DestEntry)
      requires i < dests.Length && dests[i].status.count <= MAX_SEQUENCE_COUNT && e.Verified()
      modifies dests
      ensures Became(i, CountUp(old(At(i)), e))
    {
      if dests[i].status.open && e.nameType == NAME_BY_COUNT {
        dests[i] := dests[i].(status := dests[i].status.(count := dests[i].status.count + 1));
        if dests[i].status.count > MAX_SEQUENCE_COUNT {
          dests[i] := dests[i].(status := dests[i].status.(count := e.sequenceCount));
        }
      }
    }

    static lemma HeadersKeepCount(u: World, e: DestEntry, os: StoreResults)
      ensures WriteHeaders(u, e, os).dest.status.count == u.dest.status.count
    {
      WriteKeepsCount(u, e, CfeHeader, os.header1, os.moveBad);
      WriteKeepsCount(WriteRecord(u, e, CfeHeader, os.header1, os.moveBad), e, DsHeader, os.header2, os.moveBad);
    }

    method FileUpdateHeader(seek: bool, update: bool)
      modifies this`io
      ensures io == UpdateHeader(old(io), seek, update)
    {
      if seek {
        if update {
          io := io.(updates := Next16(io.updates));
        } else {
          io := io.(updateErrors := Next16(io.updateErrors));
        }
      } else {
        io := io.(updateErrors := Next16(io.updateErrors));
      }
    }

    method FileStoreInNewFile(i: nat, e: DestEntry, p: Record, timeText: string, os: StoreResults)
      requires i < dests.Length && p.Packet? && dests[i].status.count <= MAX_SEQUENCE_COUNT && e.Verified()
      modifies this`io, this`disk, dests
      ensures Became(i, StoreInNewFile(old(At(i)), e, p, timeText, os))
    {
      FileCreateDest(i, e, timeText, os);
      if dests[i].status.open {
        FileWriteData(i, e, p, os.data, os.moveBad);
      }
    }

    method FileSetupWrite(i: nat, e: DestEntry, p: Record, timeText: string, os: StoreResults)
      requires i < dests.Length && p.Packet? && dests[i].status.count <= MAX_SEQUENCE_COUNT && e.Verified()
      modifies this`io, this`disk, dests
      ensures Became(i, SetupWrite(old(At(i)), e, p, timeText, os))
    {
      var openNewFile := false;
      if !dests[i].status.open {
        openNewFile := true;
      } else if dests[i].status.size + p.Bytes() > e.maxSize {
        FileUpdateHeader(os.seek, os.update);
        FileCloseDest(i, e, os.moveFull);
        openNewFile := true;
      } else {
        FileWriteData(i, e, p, os.data, os.moveBad);
      }
      if openNewFile {
        FileStoreInNewFile(i, e, p, timeText, os);
      }
    }

    method FileTestAgeOf(i: nat, e: DestEntry, elapsed: nat, os: StoreResults)
      requires i < dests.Length
      modifies this`io, this`disk, dests
      ensures Became(i, TestAge(old(At(i)), e, elapsed, os))
    {
      if dests[i].status.open {
        dests[i] := dests[i].(status := dests[i].status.(age := (dests[i].status.age + elapsed) % UINT32));
        if dests[i].status.age >= e.maxAge {
          FileUpdateHeader(os.seek, os.update);
          FileCloseDest(i, e, os.moveFull);
        }
      }
    }

    method FileTestAge(elapsed: nat, env: Surroundings)
      requires Valid() && env.Valid() && env.entries == entries[..]
      modifies this`io, this`disk, dests
      ensures Valid()
      ensures FilesView() == if destTableLoaded then AgeUpTo(old(FilesView()), env, elapsed, DEST_FILE_CNT) else old(FilesView())
    {
      if destTableLoaded {
        ghost var s := FilesView();
        for i := 0 to DEST_FILE_CNT
          invariant Configured() && FilesView() == AgeUpTo(s, env, elapsed, i)
        {
          assert entries[i] == env.entries[i];
          FileTestAgeOf(i, entries[i], elapsed, env.os(i));
        }
      }
    }

    /** The filters of the packet's entry in the filter table, as the search finds it. */
    ghost function FiltersOf(mid: MsgId): Option<seq<FilterParms>>
      reads filter.mids, filter.hashTable, filter.linkNext, filter.filters
    {
      if !filter.View().Shaped() || !Returns(filter.View(), mid) then None
      else
        var idx := Lookup(filter.View(), mid);
        if 0 <= idx < filter.filters.Length then Some(filter.filters[idx]) else None
    }

    ghost function AppView(): App
      reads this, dests, filter
    {
      App(enabled, filter.loaded && destTableLoaded, FilesView(), counts)
    }

    /** Where a packet gets to the filters the application is enabled. */
    ghost function EnabledView(): App
      reads this, dests, filter
    {
      AppView().(enabled := true)
    }

    /** Put the packet in the destination of one filter, if the filter accepts it. */
    method ApplyFilter(f: FilterParms, p: Incoming, env: Surroundings, os: StoreResults) returns (stored: bool)
      requires Valid() && env.Valid() && env.entries == entries[..]
      modifies this`io, this`disk, dests
      ensures Valid() && stored == Accepts(old(dests[..]), f, p)
      ensures FilesView() == if stored then StoreOne(old(FilesView()), f.fileIndex, p, env, os) else old(FilesView())
    {
      stored := false;
      if f.n != 0 && f.fileIndex < DEST_FILE_CNT {
        var i := f.fileIndex;
        if dests[i].status.enabled {
          var filtered := IsPacketFiltered(f.filterType, p.FilterValue(f.filterType), f.n, f.x, f.o);
          if !filtered {
            assert entries[i] == env.entries[i] && dests[i] == FilesView().dests[i];
            FileSetupWrite(i, entries[i], p.Body(), env.timeText, os);
            stored := true;
            assert FilesView() == StoreOne(old(FilesView()), i, p, env, os);
          }
        }
      }
    }

    method FileStorePacket(mid: MsgId, p: Incoming, env: Surroundings)
      requires Valid() && env.Valid() && env.entries == entries[..] && Returns(filter.View(), mid)
      requires filter.loaded && destTableLoaded
      modifies this`io, this`disk, this`counts, dests
      ensures Valid() && EnabledView() == StoreOffer(old(EnabledView()), Offer(p, old(FiltersOf(mid)), env))
    {
      var idx := filter.FindMsgID(mid);
      if idx == NONE {
        counts := Tally(counts, Ignored);
        return;
      }
      assert FiltersOf(mid) == Some(filter.filters[idx]);
      var passed := StoreUnder(filter.filters[idx], p, env);
      counts := Tally(counts, if passed then Passed else Filtered);
    }

    method StoreUnder(fs: seq<FilterParms>, p: Incoming, env: Surroundings) returns (passed: bool)
      requires Valid() && env.Valid() && env.entries == entries[..]
      modifies this`io, this`disk, dests
      ensures Valid() && FilesView() == StoreUpTo(old(FilesView()), fs, p, env, |fs|)
      ensures passed == exists k :: 0 <= k < |fs| && Accepts(old(dests[..]), fs[k], p)
    {
      passed := false;
      ghost var s := FilesView();
      for k := 0 to |fs|
        invariant Configured() && FilesView() == StoreUpTo(s, fs, p, env, k)
        invariant passed == StoredByUpTo(s, fs, p, env, k)
      {
        var stored := ApplyFilter(fs[k], p, env, env.os(k));
        if stored {
          passed := true;
        }
      }
      PassedExactly(s, fs, p, env, |fs|);
    }

    method AppStorePacket(mid: MsgId, p: Incoming, env: Surroundings)
      requires Valid() && env.Valid() && env.entries == entries[..]
      requires enabled && filter.loaded && destTableLoaded ==> Returns(filter.View(), mid)
      modifies this`io, this`disk, this`counts, dests
      ensures Valid() && AppView() == StoreOffer(old(AppView()), Offer(p, old(FiltersOf(mid)), env))
    {
      if !enabled {
        counts := Tally(counts, Disabled);
      } else if !filter.loaded || !destTableLoaded {
        counts := Tally(counts, Ignored);
      } else {
        FileStorePacket(mid, p, env);
      }
    }

    method ResetCounters()
      modifies this`io, this`counts
      ensures AppView() == ResetCounts(old(AppView()))
      ensures counts == PacketCounts(0, 0, 0, 0) && io == IoCounters(0, 0, 0, 0)
    {
      io, counts := IoCounters(0, 0, 0, 0), PacketCounts(0, 0, 0, 0);
    }

    /** The values of the table that the application changes are kept beside it. */
    method LoadStates(states: seq<bool>)
      requires dests.Length == entries.Length == |states| == DEST_FILE_CNT
      modifies dests
      ensures FilesView() == LoadAll(old(FilesView()), old(entries[..]), states)
    {
      ghost var s, table := FilesView(), entries[..];
      for i := 0 to DEST_FILE_CNT
        invariant entries[..] == table
        invariant forall j :: 0 <= j < i ==> dests[j] == Loaded(s.dests[j], states[j], table[j].sequenceCount)
        invariant forall j :: i <= j < DEST_FILE_CNT ==> dests[j] == s.dests[j]
      {
        dests[i] := dests[i].(status := dests[i].status.(enabled := states[i]));
        dests[i] := dests[i].(status := dests[i].status.(count := entries[i].sequenceCount));
      }
    }

    method SetEntries(table: seq<DestEntry>)
      requires entries.Length == |table|
      modifies entries
      ensures entries[..] == table
    {
      forall i | 0 <= i < entries.Length {
        entries[i] := table[i];
      }
    }

    /** A load of the destination file table sets the state and the count of every destination; open
        files stay open.
     */
    method ManageDestFile(table: seq<DestEntry>, states: seq<bool>)
      requires Valid() && |table| == |states| == DEST_FILE_CNT && forall e :: e in table ==> e.Verified()
      modifies this`destTableLoaded, entries, dests
      ensures Valid() && destTableLoaded && entries[..] == table
      ensures FilesView() == LoadAll(old(FilesView()), table, states)
    {
      destTableLoaded := true;
      SetEntries(table);
      LoadStates(states);
    }

    /** Housekeeping: the ages are tested, then each growth becomes a rate and starts over. */
    method SendHk(env: Surroundings)
      requires Valid() && env.Valid() && env.entries == entries[..]
      modifies this`io, this`disk, dests
      ensures Valid()
      ensures var t := if destTableLoaded then AgeUpTo(old(FilesView()), env, SECS_PER_HK_CYCLE, DEST_FILE_CNT) else old(FilesView());
        && io == t.io && disk == t.disk
        && forall i :: 0 <= i < DEST_FILE_CNT ==> dests[i] == Housekeep(t.dests[i])
    {
      FileTestAge(SECS_PER_HK_CYCLE, env);
      ghost var t := FilesView();
      for i := 0 to DEST_FILE_CNT
        invariant Valid() && io == t.io && disk == t.disk
        invariant forall j :: 0 <= j < i ==> dests[j] == Housekeep(t.dests[j])
        invariant forall j :: i <= j < DEST_FILE_CNT ==> dests[j] == t.dests[j]
      {
        dests[i] := dests[i].(status := dests[i].status.(rate := dests[i].status.growth / SECS_PER_HK_CYCLE),
                              reported := dests[i].reported + dests[i].status.growth);
        dests[i] := dests[i].(status := dests[i].status.(growth := 0));
      }
    }
  }
}
