/**
 * MsgBusImpl_redis: turns the parsed BMP events (peer up/down, unicast
 * prefix add/delete, router init) into rows written to, or keys deleted
 * from, the state database through the RedisManager gate. Every other
 * event kind is accepted and produces nothing.
 */
module MsgBusRedis {
  import opened Strings
  import opened Redis

  datatype Option<T> = None | Some(value: T)

  /** The parts of obj_bgp_peer the handlers read. */
  datatype BgpPeer = BgpPeer(peerAddr: string, peerAs: nat, peerRd: string, isAdjIn: bool)

  datatype PeerUpEvent = PeerUpEvent(
    remotePort: nat, localAsn: nat, localIp: string, localPort: nat, sentCap: string, recvCap: string)

  datatype PeerDownEvent = PeerDownEvent(bgpErrCode: nat, bgpErrSubcode: nat, errorText: string)

  datatype PeerAction = PeerActionUp | PeerActionDown

  /** The parts of obj_rib the handlers read. */
  datatype Rib = Rib(prefix: string, prefixLen: nat)

  /** The parts of obj_path_attr the handlers read. */
  datatype PathAttr = PathAttr(
    origin: string, asPath: string, asPathCount: nat, originAs: nat, nextHop: string,
    localPref: nat, communityList: string, extCommunityList: string,
    largeCommunityList: string, originatorId: string)

  datatype PrefixAction = PrefixActionAdd | PrefixActionDel

  datatype RouterAction = RouterActionInit | RouterActionOther

  /** The event kinds this backend accepts and ignores. */
  datatype IgnoredEvent =
    | CollectorEvent | BaseAttributeEvent | L3VpnEvent | EvpnEvent | StatReport
    | LsNodeEvent | LsLinkEvent | LsPrefixEvent | BmpRaw

  const PeerCommonNames: seq<string> :=
    ["peer_addr", "peer_asn", "peer_rd", "remote_port", "local_asn",
     "local_ip", "local_port", "sent_cap", "recv_cap"]

  const PeerDownNames: seq<string> := ["bgp_err_code", "bgp_err_subcode", "error_text"]

  const RibFieldNames: seq<string> :=
    ["origin", "as_path", "as_path_count", "origin_as", "next_hop", "local_pref",
     "community_list", "ext_community_list", "large_community_list", "originator_id"]

  function Names(fields: seq<FieldValue>): (names: seq<string>)
    ensures |names| == |fields|
  {
    seq(|fields|, i requires 0 <= i < |fields| => fields[i].0)
  }

  /** The neighbour row update_Peer writes. */
  function PeerFields(peer: BgpPeer, up: PeerUpEvent, down: Option<PeerDownEvent>, code: PeerAction)
    : seq<FieldValue>
    requires code.PeerActionDown? ==> down.Some?
  {
    [("peer_addr", peer.peerAddr),
     ("peer_asn", Decimal(peer.peerAs)),
     ("peer_rd", peer.peerRd),
     ("remote_port", Decimal(up.remotePort)),
     ("local_asn", Decimal(up.localAsn)),
     ("local_ip", up.localIp),
     ("local_port", Decimal(up.localPort)),
     ("sent_cap", up.sentCap),
     ("recv_cap", up.recvCap)]
    + match code
      case PeerActionUp => []
      case PeerActionDown =>
        [("bgp_err_code", Decimal(down.value.bgpErrCode)),
         ("bgp_err_subcode", Decimal(down.value.bgpErrSubcode)),
         ("error_text", down.value.errorText)]
  }

  /** The neighbour row has the nine common fields in their fixed order, then
      the three error fields on peer down only. */
  lemma PeerFieldsLayout(peer: BgpPeer, up: PeerUpEvent, down: Option<PeerDownEvent>, code: PeerAction)
    requires code.PeerActionDown? ==> down.Some?
    ensures Names(PeerFields(peer, up, down, code))
         == PeerCommonNames + (if code.PeerActionDown? then PeerDownNames else [])
  {
    var fs := PeerFields(peer, up, down, code);
    var expected := PeerCommonNames + (if code.PeerActionDown? then PeerDownNames else []);
    assert |Names(fs)| == |expected|;
    forall i | 0 <= i < |fs| ensures Names(fs)[i] == expected[i] {
    }
  }

  /** The address is stored as given, and the numbers of the row read back. */
  lemma PeerFieldsReadBack(peer: BgpPeer, up: PeerUpEvent, down: Option<PeerDownEvent>, code: PeerAction)
    requires code.PeerActionDown? ==> down.Some?
    ensures PeerFields(peer, up, down, code)[0].1 == peer.peerAddr
    ensures ParseDecimal(PeerFields(peer, up, down, code)[1].1) == peer.peerAs
    ensures ParseDecimal(PeerFields(peer, up, down, code)[3].1) == up.remotePort
    ensures ParseDecimal(PeerFields(peer, up, down, code)[4].1) == up.localAsn
    ensures ParseDecimal(PeerFields(peer, up, down, code)[6].1) == up.localPort
    ensures code.PeerActionDown? ==>
      && ParseDecimal(PeerFields(peer, up, down, code)[9].1) == down.value.bgpErrCode
      && ParseDecimal(PeerFields(peer, up, down, code)[10].1) == down.value.bgpErrSubcode
  {
    var fs := PeerFields(peer, up, down, code);
    assert fs[1].1 == Decimal(peer.peerAs);
    assert fs[3].1 == Decimal(up.remotePort);
    assert fs[4].1 == Decimal(up.localAsn);
    assert fs[6].1 == Decimal(up.localPort);
    DecimalRoundTrip(peer.peerAs);
    DecimalRoundTrip(up.remotePort);
    DecimalRoundTrip(up.localAsn);
    DecimalRoundTrip(up.localPort);
    if code.PeerActionDown? {
      assert fs[9].1 == Decimal(down.value.bgpErrCode);
      assert fs[10].1 == Decimal(down.value.bgpErrSubcode);
      DecimalRoundTrip(down.value.bgpErrCode);
      DecimalRoundTrip(down.value.bgpErrSubcode);
    }
  }

  /** On a peer-up row, no entry writes an error field, and `local_asn` is
      written once; on a peer-down row the error fields are written last. */
  lemma PeerFieldsWrites(peer: BgpPeer, up: PeerUpEvent, down: PeerDownEvent)
    ensures !Writes(PeerFields(peer, up, None, PeerActionUp), "bgp_err_code")
    ensures !Writes(PeerFields(peer, up, None, PeerActionUp), "error_text")
    ensures LastWrite(PeerFields(peer, up, None, PeerActionUp), 4)
    ensures LastWrite(PeerFields(peer, up, Some(down), PeerActionDown), 9)
    ensures LastWrite(PeerFields(peer, up, Some(down), PeerActionDown), 11)
  {
    var upFields := PeerFields(peer, up, None, PeerActionUp);
    PeerFieldsLayout(peer, up, None, PeerActionUp);
    assert forall i :: 0 <= i < |upFields| ==> upFields[i].0 == Names(upFields)[i];
  }

  /** The prefix key part of a RIB entry: prefix, '/', decimal length. */
  function RibKeyPart(rib: Rib): string {
    rib.prefix + "/" + Decimal(rib.prefixLen)
  }

  /** The key part splits back at its last '/' into the prefix and its length. */
  lemma {:induction false} RibKeyPartSplits(rib: Rib)
    ensures LastIndexOf(RibKeyPart(rib), '/') == |rib.prefix|
    ensures RibKeyPart(rib)[..|rib.prefix|] == rib.prefix
    ensures AllDigits(RibKeyPart(rib)[|rib.prefix| + 1..])
    ensures ParseDecimal(RibKeyPart(rib)[|rib.prefix| + 1..]) == rib.prefixLen
  {
    var d := Decimal(rib.prefixLen);
    assert '/' !in d by {
      forall i | 0 <= i < |d| ensures d[i] != '/' {
        assert IsDigit(d[i]);
      }
    }
    assert RibKeyPart(rib) == rib.prefix + ['/'] + d;
    LastIndexOfAt(rib.prefix, '/', d);
    assert RibKeyPart(rib)[|rib.prefix| + 1..] == d;
    DecimalRoundTrip(rib.prefixLen);
  }

  /** The RIB table of a peer's direction. */
  function RibTable(peer: BgpPeer): string {
    if peer.isAdjIn then TableRibIn else TableRibOut
  }

  /** The key parts of a prefix ADD row. */
  function RibAddKeys(rib: Rib, peerAddr: string): seq<string> {
    [RibKeyPart(rib), NeighborPrefix, peerAddr]
  }

  /** The ten route-attribute fields added per RIB entry. */
  function AttrFields(attr: PathAttr): (fs: seq<FieldValue>)
    ensures Names(fs) == RibFieldNames
  {
    [("origin", attr.origin),
     ("as_path", attr.asPath),
     ("as_path_count", Decimal(attr.asPathCount)),
     ("origin_as", Decimal(attr.originAs)),
     ("next_hop", attr.nextHop),
     ("local_pref", Decimal(attr.localPref)),
     ("community_list", attr.communityList),
     ("ext_community_list", attr.extCommunityList),
     ("large_community_list", attr.largeCommunityList),
     ("originator_id", attr.originatorId)]
  }

  /** The field list after `k` entries: `addFieldValues` is never cleared. */
  function Accumulated(attr: PathAttr, k: nat): seq<FieldValue>
    decreases k
  {
    if k == 0 then [] else Accumulated(attr, k - 1) + AttrFields(attr)
  }

  /** The numeric attributes read back from their fields. */
  lemma AttrFieldsReadBack(attr: PathAttr)
    ensures ParseDecimal(AttrFields(attr)[2].1) == attr.asPathCount
    ensures ParseDecimal(AttrFields(attr)[3].1) == attr.originAs
    ensures ParseDecimal(AttrFields(attr)[5].1) == attr.localPref
  {
    DecimalRoundTrip(attr.asPathCount);
    DecimalRoundTrip(attr.originAs);
    DecimalRoundTrip(attr.localPref);
  }

  /** After `k` entries the field list holds the ten attribute fields `k` times over. */
  lemma {:induction false} AccumulatedRepeats(attr: PathAttr, k: nat)
    ensures |Accumulated(attr, k)| == 10 * k
    ensures forall i :: 0 <= i < 10 * k ==> Accumulated(attr, k)[i] == AttrFields(attr)[i % 10]
    decreases k
  {
    if k > 0 {
      AccumulatedRepeats(attr, k - 1);
      var prev := Accumulated(attr, k - 1);
      var cur := Accumulated(attr, k);
      forall i | 0 <= i < 10 * k ensures cur[i] == AttrFields(attr)[i % 10] {
        if i >= 10 * (k - 1) {
          assert cur[i] == AttrFields(attr)[i - 10 * (k - 1)];
          assert i % 10 == i - 10 * (k - 1);
        } else {
          assert cur[i] == prev[i];
        }
      }
    }
  }

  /** In the stored hash the repeats collapse: the row of every entry ends up
      as if the ten attribute fields had been written once. */
  lemma {:induction false} AccumulatedRowSettles(attr: PathAttr, k: nat, row: Row)
    requires k > 0
    ensures Merge(row, Accumulated(attr, k)) == Merge(row, AttrFields(attr))
    decreases k
  {
    if k == 1 {
      assert Accumulated(attr, 0) == [];
      assert Accumulated(attr, 1) == AttrFields(attr);
    } else {
      MergeAppend(row, Accumulated(attr, k - 1), AttrFields(attr));
      AccumulatedRowSettles(attr, k - 1, row);
      MergeTwice(row, AttrFields(attr));
    }
  }

  /** The rows a prefix ADD writes for `ribs` into an enabled table. */
  function AddWrites(peer: BgpPeer, ribs: seq<Rib>, attr: PathAttr, sep: Separator): seq<StoreOp> {
    seq(|ribs|, i requires 0 <= i < |ribs| =>
      Set(RibTable(peer), FullKey(RibAddKeys(ribs[i], peer.peerAddr), sep), Accumulated(attr, i + 1)))
  }

  /** The raw key a prefix DEL deletes: no separator between the neighbour
      marker and the peer address. */
  function PrefixDelKey(peer: BgpPeer, rib: Rib, sep: string): string {
    RibTable(peer) + sep + RibKeyPart(rib) + sep + NeighborPrefix + peer.peerAddr
  }

  function DelKeys(peer: BgpPeer, ribs: seq<Rib>, sep: string): seq<string> {
    seq(|ribs|, i requires 0 <= i < |ribs| => PrefixDelKey(peer, ribs[i], sep))
  }

  lemma JoinThree(a: string, b: string, d: string, sep: string)
    ensures JoinKey([a, b, d], sep) == a + sep + b + sep + d
  {
    assert [a, b, d][..2] == [a, b];
    assert [a, b][..1] == [a];
    assert JoinKey([a, b], sep) == a + sep + b;
    assert JoinKey([a, b, d], sep) == JoinKey([a, b], sep) + sep + d;
  }

  /** With a one-character separator, the row an ADD writes lies at four key
      segments: table, prefix/len, the neighbour marker, the peer address. */
  lemma AddKeySegments(peer: BgpPeer, rib: Rib, c: char)
    requires c !in RibTable(peer) && c !in RibKeyPart(rib) && c !in NeighborPrefix && c !in peer.peerAddr
    ensures Split(StoreKey(RibTable(peer), [c], FullKey(RibAddKeys(rib, peer.peerAddr), [c])), c)
         == [RibTable(peer), RibKeyPart(rib), NeighborPrefix, peer.peerAddr]
  {
    var t, k, n, a := RibTable(peer), RibKeyPart(rib), NeighborPrefix, peer.peerAddr;
    var keys := [k, n, a];
    var parts := [t, k, n, a];
    FullKeyIsJoinIff(keys, [c]);
    JoinThree(k, n, a, [c]);
    JoinThree(t, k, n, [c]);
    assert parts[..3] == [t, k, n];
    assert JoinKey(parts, [c]) == JoinKey([t, k, n], [c]) + [c] + a;
    assert StoreKey(t, [c], JoinKey(keys, [c])) == JoinKey(parts, [c]);
    assert forall i :: 0 <= i < |parts| ==> c !in parts[i];
    SplitJoinKey(parts, c);
  }

  /** The key a DEL deletes has only three segments: the peer address is
      fused with the neighbour marker. */
  lemma DelKeySegments(peer: BgpPeer, rib: Rib, c: char)
    requires c !in RibTable(peer) && c !in RibKeyPart(rib) && c !in NeighborPrefix && c !in peer.peerAddr
    ensures Split(PrefixDelKey(peer, rib, [c]), c)
         == [RibTable(peer), RibKeyPart(rib), NeighborPrefix + peer.peerAddr]
  {
    var t, k, na := RibTable(peer), RibKeyPart(rib), NeighborPrefix + peer.peerAddr;
    var parts := [t, k, na];
    assert c !in na;
    JoinThree(t, k, na, [c]);
    assert PrefixDelKey(peer, rib, [c]) == JoinKey(parts, [c]);
    assert forall i :: 0 <= i < |parts| ==> c !in parts[i];
    SplitJoinKey(parts, c);
  }

  /** Whatever the separator, the key a prefix DEL deletes is never the key
      under which the matching ADD wrote its row. */
  lemma DelKeyMissesAddKey(peer: BgpPeer, rib: Rib, sep: Separator)
    ensures PrefixDelKey(peer, rib, sep)
         != StoreKey(RibTable(peer), sep, FullKey(RibAddKeys(rib, peer.peerAddr), sep))
  {
    var keys := RibAddKeys(rib, peer.peerAddr);
    AppendSeparatedIsJoin(keys, sep);
    JoinThree(RibKeyPart(rib), NeighborPrefix, peer.peerAddr, sep);
  }

  /** A prefix withdrawn right after it was added stays in the database: the
      DEL removes a key nobody wrote, and the ADD row keeps every field it
      wrote, with the last value written to it. */
  lemma WithdrawnPrefixStays(peer: BgpPeer, rib: Rib, fields: seq<FieldValue>, sep: Separator, db: Store)
    ensures
      var key := FullKey(RibAddKeys(rib, peer.peerAddr), sep);
      var row := StoreKey(RibTable(peer), sep, key);
      var db' := ApplyAll(db, sep, [Set(RibTable(peer), key, fields), Del([PrefixDelKey(peer, rib, sep)])]);
      && row in db'
      && forall i :: 0 <= i < |fields| && LastWrite(fields, i) ==>
           fields[i].0 in db'[row] && db'[row][fields[i].0] == fields[i].1
  {
    var key := FullKey(RibAddKeys(rib, peer.peerAddr), sep);
    var row := StoreKey(RibTable(peer), sep, key);
    DelKeyMissesAddKey(peer, rib, sep);
    ApplyTwo(db, sep, Set(RibTable(peer), key, fields), Del([PrefixDelKey(peer, rib, sep)]));
    var before: Row := if row in db then db[row] else map[];
    MergeLastWins(before, fields);
  }

  /** A peer that comes back up after going down keeps the error fields of the
      down event in its neighbour row: the up event writes its nine fields
      over the row and never clears the other three. */
  lemma PeerUpKeepsDownErrors(peer: BgpPeer, upBefore: PeerUpEvent, down: PeerDownEvent,
                              upAfter: PeerUpEvent, sep: Separator, db: Store)
    ensures
      var key := FullKey([peer.peerAddr], sep);
      var row := StoreKey(TableNeighbor, sep, key);
      var db' := ApplyAll(db, sep,
        [Set(TableNeighbor, key, PeerFields(peer, upBefore, Some(down), PeerActionDown)),
         Set(TableNeighbor, key, PeerFields(peer, upAfter, None, PeerActionUp))]);
      && row in db'
      && "bgp_err_code" in db'[row] && db'[row]["bgp_err_code"] == Decimal(down.bgpErrCode)
      && "error_text" in db'[row] && db'[row]["error_text"] == down.errorText
      && "local_asn" in db'[row] && db'[row]["local_asn"] == Decimal(upAfter.localAsn)
  {
    var key := FullKey([peer.peerAddr], sep);
    var row := StoreKey(TableNeighbor, sep, key);
    var downFields := PeerFields(peer, upBefore, Some(down), PeerActionDown);
    var upFields := PeerFields(peer, upAfter, None, PeerActionUp);
    ApplyTwo(db, sep, Set(TableNeighbor, key, downFields), Set(TableNeighbor, key, upFields));
    var before: Row := if row in db then db[row] else map[];
    var afterDown := Merge(before, downFields);
    PeerFieldsWrites(peer, upBefore, down);
    PeerFieldsWrites(peer, upAfter, down);
    assert downFields[9] == ("bgp_err_code", Decimal(down.bgpErrCode));
    assert downFields[11] == ("error_text", down.errorText);
    assert upFields[4] == ("local_asn", Decimal(upAfter.localAsn));
    MergeSets(before, downFields, 9);
    MergeSets(before, downFields, 11);
    MergeKeeps(afterDown, upFields, "bgp_err_code");
    MergeKeeps(afterDown, upFields, "error_text");
    MergeSets(afterDown, upFields, 4);
  }

  class MsgBusImplRedis {
    const redisMgr: RedisManager

    constructor (sep: Separator)
      ensures fresh(redisMgr) && redisMgr.separator == sep
      ensures redisMgr.enabledTables == {} && redisMgr.ops == [] && !redisMgr.disconnected
    {
      redisMgr := new RedisManager(sep);
    }

    /** update_Peer: one neighbour row keyed by the peer address. */
    method UpdatePeer(peer: BgpPeer, up: Option<PeerUpEvent>, down: Option<PeerDownEvent>, code: PeerAction)
      requires up.Some?
      requires code.PeerActionDown? ==> down.Some?
      modifies redisMgr
      ensures redisMgr.enabledTables == old(redisMgr.enabledTables)
      ensures redisMgr.disconnected == old(redisMgr.disconnected)
      ensures TableNeighbor in redisMgr.enabledTables ==>
        redisMgr.ops == old(redisMgr.ops)
          + [Set(TableNeighbor, FullKey([peer.peerAddr], redisMgr.separator), PeerFields(peer, up.value, down, code))]
      ensures TableNeighbor !in redisMgr.enabledTables ==> redisMgr.ops == old(redisMgr.ops)
    {
      var keys := [peer.peerAddr];
      var fieldValues := PeerFields(peer, up.value, down, code);
      var _ := redisMgr.WriteBMPTable(TableNeighbor, keys, fieldValues);
    }

    /** update_unicastPrefix: per RIB entry, an ADD writes a row and a DEL
        collects a raw key; the DEL keys go out in one delete at the end. */
    method UpdateUnicastPrefix(peer: BgpPeer, rib: seq<Rib>, attr: Option<PathAttr>, code: PrefixAction)
      modifies redisMgr
      ensures redisMgr.enabledTables == old(redisMgr.enabledTables)
      ensures redisMgr.disconnected == old(redisMgr.disconnected)
      ensures attr.None? ==> redisMgr.ops == old(redisMgr.ops)
      ensures attr.Some? && code.PrefixActionAdd? ==>
        redisMgr.ops == old(redisMgr.ops)
          + (if RibTable(peer) in redisMgr.enabledTables
             then AddWrites(peer, rib, attr.value, redisMgr.separator) else [])
      ensures attr.Some? && code.PrefixActionDel? ==>
        redisMgr.ops == old(redisMgr.ops)
          + (if rib == [] then [] else [Del(DelKeys(peer, rib, redisMgr.separator))])
    {
      if attr.None? {
        return;
      }
      var a := attr.value;
      var addFieldValues: seq<FieldValue> := [];
      var delKeys: seq<string> := [];
      var neigh := peer.peerAddr;
      var sep := redisMgr.separator;
      ghost var enabled := RibTable(peer) in redisMgr.enabledTables;
      var i := 0;
      while i < |rib|
        invariant 0 <= i <= |rib|
        invariant redisMgr.enabledTables == old(redisMgr.enabledTables)
        invariant redisMgr.disconnected == old(redisMgr.disconnected)
        invariant code.PrefixActionAdd? ==>
          && addFieldValues == Accumulated(a, i)
          && delKeys == []
          && redisMgr.ops == old(redisMgr.ops) + (if enabled then AddWrites(peer, rib[..i], a, sep) else [])
        invariant code.PrefixActionDel? ==>
          delKeys == DelKeys(peer, rib[..i], sep) && redisMgr.ops == old(redisMgr.ops)
      {
        var pfx := rib[i].prefix + "/" + Decimal(rib[i].prefixLen);
        var keys := [pfx];
        match code {
          case PrefixActionAdd =>
            addFieldValues := addFieldValues + AttrFields(a);
            keys := keys + [NeighborPrefix, peer.peerAddr];
            assert keys == RibAddKeys(rib[i], peer.peerAddr);
            if peer.isAdjIn {
              var _ := redisMgr.WriteBMPTable(TableRibIn, keys, addFieldValues);
            } else {
              var _ := redisMgr.WriteBMPTable(TableRibOut, keys, addFieldValues);
            }
            assert AddWrites(peer, rib[..i + 1], a, sep)
                == AddWrites(peer, rib[..i], a, sep)
                   + [Set(RibTable(peer), FullKey(keys, sep), Accumulated(a, i + 1))];
          case PrefixActionDel =>
            var comKey := if peer.isAdjIn then TableRibIn else TableRibOut;
            comKey := comKey + sep;
            comKey := comKey + pfx;
            comKey := comKey + sep;
            comKey := comKey + NeighborPrefix;
            comKey := comKey + neigh;
            assert DelKeys(peer, rib[..i + 1], sep) == DelKeys(peer, rib[..i], sep) + [comKey];
            delKeys := delKeys + [comKey];
        }
        i := i + 1;
      }
      assert rib[..|rib|] == rib;
      if delKeys != [] {
        var _ := redisMgr.RemoveBMPTable(delKeys);
      }
    }

    /** update_Router: a router (re)initialising resets every enabled table. */
    method UpdateRouter(code: RouterAction) returns (ghost order: seq<string>)
      modifies redisMgr
      ensures redisMgr.enabledTables == old(redisMgr.enabledTables)
      ensures redisMgr.disconnected == old(redisMgr.disconnected)
      ensures code.RouterActionInit? ==>
        && redisMgr.ops == old(redisMgr.ops) + FlushEach(order)
        && (forall t :: t in order <==> t in redisMgr.enabledTables)
        && Distinct(order) && |order| == |redisMgr.enabledTables|
      ensures !code.RouterActionInit? ==> redisMgr.ops == old(redisMgr.ops)
    {
      order := [];
      if code == RouterActionInit {
        order := redisMgr.ResetAllTables();
      }
    }

    /** update_Collector, update_baseAttribute, update_L3Vpn, update_eVPN,
        add_StatReport, update_LsNode, update_LsLink, update_LsPrefix and
        send_bmp_raw: accepted, nothing written. */
    method UpdateIgnored(ev: IgnoredEvent)
      ensures unchanged(redisMgr)
    {
    }
  }
}
