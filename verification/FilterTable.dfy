/** The packet filter table, its hash links and the table commands, as they are updated in place. */
module FilterTable {
  import opened Counting
  import opened FilterIndex
  import opened FilterCommands
  import opened PacketFilter

  const FILTERS_PER_PACKET: nat := 4

  const CLEARED: seq<FilterParms> := seq(FILTERS_PER_PACKET, i => FilterParms(0, BY_COUNT, 0, 0, 0))

  /** The four filters of an entry that was taken or given up: none is in use. */
  predicate Unused(fs: seq<FilterParms>) {
    |fs| == 4 && forall k :: 0 <= k < 4 ==>
      fs[k].fileIndex == 0 && fs[k].filterType == 1 && fs[k].n == 0 && fs[k].x == 0 && fs[k].o == 0
  }

  /** The filters of the entries whose message ID changed are out of use, and all others as before. */
  predicate Retaken(mids: seq<MsgId>, next: seq<MsgId>, filters: seq<seq<FilterParms>>, afterwards: seq<seq<FilterParms>>) {
    && |mids| == |next| == |filters| == |afterwards| == PACKETS
    && forall i :: 0 <= i < PACKETS ==> if next[i] != mids[i] then Unused(afterwards[i]) else afterwards[i] == filters[i]
  }

  lemma EntryRetaken(mids: seq<MsgId>, filters: seq<seq<FilterParms>>, i: nat, mid: MsgId)
    requires |mids| == |filters| == PACKETS && i < PACKETS && mids[i] != mid
    ensures Retaken(mids, mids[i := mid], filters, filters[i := CLEARED])
  {
  }

  class FilterData {
    var loaded: bool
    const mids: array<MsgId>
    const filters: array<seq<FilterParms>>
    const linkMid: array<MsgId>
    const linkIndex: array<nat>
    const linkNext: array<int>
    const hashTable: array<int>
    var accepted: nat
    var rejected: nat

    ghost function View(): Index
      reads mids, hashTable, linkNext
    {
      Index(mids[..], hashTable[..], linkNext[..])
    }

    ghost function DbView(): Db
      reads this, mids, hashTable, linkNext
    {
      Db(loaded, View(), accepted, rejected)
    }

    /** A link in use carries its own position as its table index. */
    ghost predicate Named(link: int)
      reads linkIndex
    {
      link != NONE ==> 0 <= link < linkIndex.Length && linkIndex[link] == link
    }

    ghost predicate Valid()
      reads this, mids, filters, linkMid, linkIndex, linkNext, hashTable
    {
      && filters.Length == linkMid.Length == linkIndex.Length == PACKETS
      && mids != linkMid && linkNext != hashTable
      && mids as object != linkNext && mids as object != hashTable
      && linkMid as object != linkNext && linkMid as object != hashTable
      && linkIndex as object != linkNext && linkIndex as object != hashTable
      && linkIndex as object != mids && linkIndex as object != linkMid
      && mids.Length == PACKETS && linkNext.Length == PACKETS && hashTable.Length == BUCKETS
      && View().Shaped()
      && (forall b :: 0 <= b < BUCKETS ==> Named(hashTable[b]))
      && (forall i :: 0 <= i < PACKETS ==> Named(linkNext[i]))
    }

    constructor ()
      ensures Valid() && Initial(DbView()) && accepted == rejected == 0
      ensures fresh(mids) && fresh(filters) && fresh(linkMid) && fresh(linkIndex) && fresh(linkNext) && fresh(hashTable)
    {
      loaded, accepted, rejected := false, 0, 0;
      mids := new MsgId[PACKETS](_ => INVALID_MID);
      filters := new seq<FilterParms>[PACKETS](_ => CLEARED);
      linkMid := new MsgId[PACKETS](_ => INVALID_MID);
      linkIndex := new nat[PACKETS](_ => 0);
      linkNext := new int[PACKETS](_ => NONE);
      hashTable := new int[BUCKETS](_ => NONE);
      new;
      assert linkNext[..] == seq(PACKETS, _ => NONE) && hashTable[..] == seq(BUCKETS, _ => NONE);
    }

    /** Search the bucket of `mid`. The caller's duty to have the loop end is the source's own. */
    method FindMsgID(mid: MsgId) returns (r: int)
      requires Valid() && Returns(View(), mid)
      ensures r == Lookup(View(), mid)
    {
      r := NONE;
      var link := hashTable[Hash(mid)];
      ghost var fuel: nat :| Search(View(), mid, fuel) != Unfinished;
      LookupIs(View(), mid, fuel);
      ghost var found := Search(View(), mid, fuel);
      while link != NONE
        invariant IsLink(link) && Named(link) && r == NONE
        invariant WalkFrom(View(), link, mid, fuel) == found
        decreases fuel
      {
        if mids[linkIndex[link]] == mid {
          r := linkIndex[link];
          break;
        }
        link := linkNext[link];
        fuel := fuel - 1;
      }
    }

    /** Link entry `idx` at the end of the bucket of `mid`. The link's `Next` field is left alone. */
    method AddMsgID(mid: MsgId, idx: nat) returns (b: nat)
      requires Valid() && idx < PACKETS && Ends(View(), Hash(mid))
      modifies linkMid, linkIndex, linkNext, hashTable
      ensures Valid() && b == Hash(mid)
      ensures View() == Append(old(View()), b, idx)
    {
      b := Hash(mid);
      ghost var s := View();
      ghost var c :| ListAt(s.next, s.head[b], c);
      AppendIs(s, b, idx, c);
      linkIndex[idx] := idx;
      linkMid[idx] := mid;
      if hashTable[b] == NONE {
        hashTable[b] := idx;
      } else {
        var link := hashTable[b];
        ghost var p := 0;
        while linkNext[link] != NONE
          invariant p < |c| && link == c[p] && link < PACKETS
          invariant View() == s
          decreases |c| - p
        {
          assert Joined(s.next, c, p);
          link := linkNext[link];
          p := p + 1;
        }
        assert Joined(s.next, c, p);
        linkNext[link] := idx;
      }
    }

    method ClearHash()
      requires Valid()
      modifies linkMid, linkIndex, linkNext, hashTable
      ensures Valid() && PartlyBuilt(View(), 0) && mids[..] == old(mids[..])
    {
      forall i | 0 <= i < PACKETS { linkMid[i] := INVALID_MID; }
      forall i | 0 <= i < PACKETS { linkIndex[i] := 0; }
      forall i | 0 <= i < PACKETS { linkNext[i] := NONE; }
      forall b | 0 <= b < BUCKETS { hashTable[b] := NONE; }
      ClearedIsPartlyBuilt(View());
    }

    method LinkEntry(k: nat)
      requires Valid() && k < PACKETS && PartlyBuilt(View(), k)
      modifies linkMid, linkIndex, linkNext, hashTable
      ensures Valid() && PartlyBuilt(View(), k + 1) && mids[..] == old(mids[..])
    {
      BuildStep(View(), k);
      var b := AddMsgID(mids[k], k);
    }

    /** Clear the index and link every table entry. */
    method CreateHash()
      requires Valid()
      modifies linkMid, linkIndex, linkNext, hashTable
      ensures Valid() && Built(View()) && mids[..] == old(mids[..])
    {
      ClearHash();
      for k := 0 to PACKETS
        invariant Valid() && PartlyBuilt(View(), k) && mids[..] == old(mids[..])
      {
        LinkEntry(k);
      }
    }

    ghost predicate Runs(c: Command)
      requires View().Shaped()
      reads this, mids, hashTable, linkNext
    {
      exists e :: Step(DbView(), c, e)
    }

    /** A table load: the entries are replaced and the index is built again. */
    method LoadTable(table: seq<MsgId>, parms: seq<seq<FilterParms>>)
      requires Valid() && |table| == |parms| == PACKETS
      modifies this, mids, filters, linkMid, linkIndex, linkNext, hashTable
      ensures Valid() && Step(old(DbView()), Load(table), DbView())
      ensures filters[..] == parms
    {
      loaded := true;
      forall i | 0 <= i < PACKETS { mids[i] := table[i]; }
      forall i | 0 <= i < PACKETS { filters[i] := parms[i]; }
      assert mids[..] == table && filters[..] == parms;
      CreateHash();
    }

    method AddMidCmd(mid: MsgId)
      requires Valid() && Runs(AddMid(mid))
      modifies this, mids, filters, linkMid, linkIndex, linkNext, hashTable
      ensures Valid() && Step(old(DbView()), AddMid(mid), DbView())
      ensures Retaken(old(mids[..]), mids[..], old(filters[..]), filters[..])
    {
      if !ValidMid(mid) || !loaded {
        rejected := Next8(rejected);
        return;
      }
      var idx := FindMsgID(mid);
      if idx != NONE {
        rejected := Next8(rejected);
        return;
      }
      idx := FindMsgID(INVALID_MID);
      if idx == NONE {
        rejected := Next8(rejected);
        return;
      }
      ghost var s := View();
      mids[idx] := mid;
      assert View() == s.(mids := s.mids[idx := mid]);
      assert forall c :: ListAt(s.next, s.head[Hash(mid)], c) ==> ListAt(View().next, View().head[Hash(mid)], c);
      var b := AddMsgID(mid, idx);
      EntryRetaken(old(mids[..]), filters[..], idx, mid);
      filters[idx] := CLEARED;
      accepted := Next8(accepted);
    }

    /** The search comes before the checks, as in the source. */
    method RemoveMidCmd(mid: MsgId)
      requires Valid() && Runs(RemoveMid(mid))
      modifies this, mids, filters, linkMid, linkIndex, linkNext, hashTable
      ensures Valid() && Step(old(DbView()), RemoveMid(mid), DbView())
      ensures Retaken(old(mids[..]), mids[..], old(filters[..]), filters[..])
    {
      var idx := FindMsgID(mid);
      if !ValidMid(mid) || !loaded || idx == NONE {
        rejected := Next8(rejected);
        return;
      }
      ghost var s := View();
      mids[idx] := INVALID_MID;
      assert View() == s.(mids := s.mids[idx := INVALID_MID]);
      CreateHash();
      EntryRetaken(old(mids[..]), filters[..], idx, INVALID_MID);
      filters[idx] := CLEARED;
      accepted := Next8(accepted);
    }
  }
}
