/** The veth-creation request: an interface name, and a link-info attribute nesting the kind and the
    peer's description three levels deep. */
module Veth {
  import opened Common
  import opened Netlink

  const VETH: seq<Byte> := [0x76, 0x65, 0x74, 0x68]      // "veth"
  const ROOM := 256

  /** A C string's bytes: no terminator inside. */
  predicate IsName(name: seq<Byte>) {
    0 !in name
  }

  /** The end of the peer's name, the last byte written, lies inside the request struct. */
  predicate Fits(name1: seq<Byte>, name2: seq<Byte>) {
    32 + Align(4 + |name1| + 1) + 4 + 8 + 4 + 4 + 16 + 4 + |name2| + 1 <= 32 + ROOM
  }

  // ---------- Where the stores go ----------

  /** The headers of link info, kind with its text, data and peer, and the peer's struct. */
  function NestStores(li: nat): seq<Extent> {
    [Extent(li + 2, 2), Extent(li, 2)]
    + [Extent(li + 6, 2), Extent(li + 4, 2), Extent(li + 8, 4), Extent(li, 2)]
    + [Extent(li + 14, 2), Extent(li + 12, 2)]
    + [Extent(li + 18, 2), Extent(li + 16, 2), Extent(li + 20, 16)]
  }

  /** The lengths of peer, data, link info and message. */
  function LengthStores(li: nat): seq<Extent> {
    [Extent(li + 16, 2), Extent(li + 12, 2), Extent(li, 2), Extent(0, 4)]
  }

  /** The stores of nl_create_veth, in order, for names of n1 and n2 characters. */
  function VethStores(n1: nat, n2: nat): seq<Extent> {
    var li := 32 + Align(RtaLength(n1 + 1));
    LINK_STORES[..5] + NameStores(32, n1) + ([Extent(0, 4)] + NestStores(li)) +
      (NameStores(li + 36, n2) + LengthStores(li))
  }

  /** All stores stay in the struct exactly when the names fit. */
  lemma StoresInsideIff(name1: seq<Byte>, name2: seq<Byte>)
    ensures Inside(VethStores(|name1|, |name2|), 32 + ROOM) <==> Fits(name1, name2)
  {
    hide Inside, NameStores, NestStores, LengthStores;
    var n1, n2, size := |name1|, |name2|, 32 + ROOM;
    var li := 32 + Align(RtaLength(n1 + 1));
    var a, b := LINK_STORES[..5] + NameStores(32, n1), [Extent(0, 4)] + NestStores(li);
    var c := NameStores(li + 36, n2) + LengthStores(li);
    InsideConcat(a + b, c, size);
    InsideConcat(a, b, size);
    InsideConcat(LINK_STORES[..5], NameStores(32, n1), size);
    InsideConcat(NameStores(li + 36, n2), LengthStores(li), size);
    NameStoresInside(32, n1, size);
    NameStoresInside(li + 36, n2, size);
    FixedStoresInside(li);
  }

  /** The other stores are inside whenever the peer's name is. */
  lemma FixedStoresInside(li: nat)
    ensures Inside(LINK_STORES[..5], 32 + ROOM)
    ensures li + 36 <= 32 + ROOM ==>
      Inside([Extent(0, 4)] + NestStores(li), 32 + ROOM) && Inside(LengthStores(li), 32 + ROOM)
  {
  }

  const VETH_DASH: seq<Byte> := VETH + [0x2d]                          // "veth-"
  const TMP_DASH: seq<Byte> := VETH_DASH + [0x74, 0x6d, 0x70, 0x2d]    // "veth-tmp-"

  /** The names main makes up are cut to 15 characters. */
  function TmpName(suffix: seq<Byte>): seq<Byte> {
    Cut(Cut(TMP_DASH + suffix, 63), 15)
  }

  /** The peer's name: as given on the command line, uncut, or made up. */
  function PeerName(given: Option<seq<Byte>>, veth: seq<Byte>, suffix: seq<Byte>): seq<Byte> {
    match given
    case Some(name) => name
    case None => Cut(Cut(VETH_DASH + veth + [0x2d] + suffix, 63), 15)
  }

  /** Two names of at most 15 characters, such as main makes up, always fit. */
  lemma ShortNamesFit(name1: seq<Byte>, name2: seq<Byte>)
    requires |name1| <= 15 && |name2| <= 15
    ensures Fits(name1, name2)
  {
  }

  /** Main's request, with its random suffix of at least 8 characters, stays in its struct exactly when the
      peer's name was made up or has at most 195 characters. */
  lemma MainFitsIff(given: Option<seq<Byte>>, veth: seq<Byte>, suffix: seq<Byte>)
    requires |suffix| >= 8
    ensures Inside(VethStores(|TmpName(suffix)|, |PeerName(given, veth, suffix)|), 32 + ROOM) <==>
            (given.Some? ==> |given.value| <= 195)
  {
    StoresInsideIff(TmpName(suffix), PeerName(given, veth, suffix));
  }

  /** --veth-peer with 196 characters makes main write past its struct. */
  lemma LongPeerOverruns(veth: seq<Byte>, suffix: seq<Byte>)
    requires |suffix| >= 8
    ensures var given := Some(seq(196, _ => 0x61));
            !Inside(VethStores(|TmpName(suffix)|, |PeerName(given, veth, suffix)|), 32 + ROOM)
  {
    MainFitsIff(Some(seq(196, _ => 0x61)), veth, suffix);
  }

  const HEAD: Head := LinkHead(NLM_F_REQUEST + NLM_F_CREATE + NLM_F_EXCL + NLM_F_ACK, 1, 0)

  function NameAttr(name: seq<Byte>): Attr {
    Attr(IFLA_IFNAME, name + [0])
  }

  function PeerAttr(name2: seq<Byte>): Attr
    requires NameAttr(name2).Ok()
  {
    Attr(VETH_INFO_PEER, Zeros(16) + EncodeAttrs([NameAttr(name2)]))
  }

  function DataAttr(name2: seq<Byte>): Attr
    requires NameAttr(name2).Ok() && PeerAttr(name2).Ok()
  {
    Attr(IFLA_INFO_DATA, EncodeAttrs([PeerAttr(name2)]))
  }

  function LinkInfoAttr(name2: seq<Byte>): Attr
    requires NameAttr(name2).Ok() && PeerAttr(name2).Ok() && DataAttr(name2).Ok()
  {
    Attr(IFLA_LINKINFO, EncodeAttrs([Attr(IFLA_INFO_KIND, VETH), DataAttr(name2)]))
  }

  lemma Sizes(name1: seq<Byte>, name2: seq<Byte>)
    requires Fits(name1, name2)
    ensures NameAttr(name1).Ok() && NameAttr(name2).Ok() && PeerAttr(name2).Ok() && DataAttr(name2).Ok()
    ensures LinkInfoAttr(name2).Ok()
    ensures var n2 := Align(4 + |name2| + 1);
            && |EncodeAttrs([NameAttr(name2)])| == n2
            && |PeerAttr(name2).payload| == 16 + n2 && |DataAttr(name2).payload| == 20 + n2
            && |LinkInfoAttr(name2).payload| == 32 + n2
  {
    OneAttr(NameAttr(name2));
    OneAttr(PeerAttr(name2));
    Two(Attr(IFLA_INFO_KIND, VETH), DataAttr(name2));
  }

  lemma Two(a: Attr, b: Attr)
    requires a.Ok() && b.Ok()
    ensures EncodeAttrs([a, b]) == EncodeAttr(a) + EncodeAttr(b)
  {
    assert [a, b][1..] == [b];
    OneAttr(b);
  }

  // ---------- The receiver ----------

  function CString(s: seq<Byte>): seq<Byte> {
    if s == [] || s[0] == 0 then [] else [s[0]] + CString(s[1..])
  }

  lemma {:induction false} CStringOfName(name: seq<Byte>)
    requires IsName(name)
    ensures CString(name + [0]) == name
  {
    if name != [] {
      assert (name + [0])[1..] == name[1..] + [0];
      CStringOfName(name[1..]);
    }
  }

  function Payload(attrs: Option<seq<Attr>>, kind: int): Option<seq<Byte>> {
    if attrs.None? then None
    else
      match First(attrs.value, (a: Attr) => a.kind == kind)
      case None => None
      case Some(i) => Some(attrs.value[i].payload)
  }

  datatype Pair = Pair(head: Head, name: seq<Byte>, kind: seq<Byte>, peer: seq<Byte>)

  /** Reads a link-creation request attribute by attribute, down to the peer's name. */
  function DecodeVeth(msg: seq<Byte>): Option<Pair> {
    match Decode(msg, 16)
    case None => None
    case Some((h, attrs)) =>
      var name := Payload(Some(attrs), IFLA_IFNAME);
      var info := Payload(Some(attrs), IFLA_LINKINFO);
      if h.kind != RTM_NEWLINK || name.None? || info.None? then None
      else
        var kind := Payload(Walk(info.value), IFLA_INFO_KIND);
        var data := Payload(Walk(info.value), IFLA_INFO_DATA);
        if kind.None? || data.None? then None
        else
          var peer := Payload(Walk(data.value), VETH_INFO_PEER);
          if peer.None? || |peer.value| < 16 then None
          else
            var name2 := Payload(Walk(peer.value[16..]), IFLA_IFNAME);
            if name2.None? then None
            else Some(Pair(h, CString(name.value), kind.value, CString(name2.value)))
  }

  /** Decoding recovers exactly the two names and the kind, for all names that fit. */
  lemma RoundTrip(name1: seq<Byte>, name2: seq<Byte>)
    requires IsName(name1) && IsName(name2) && Fits(name1, name2)
    ensures NameAttr(name1).Ok() && NameAttr(name2).Ok() && PeerAttr(name2).Ok() && DataAttr(name2).Ok()
    ensures LinkInfoAttr(name2).Ok() && |EncodeAttrs([NameAttr(name1), LinkInfoAttr(name2)])| < 0x1_0000
    ensures DecodeVeth(Message(HEAD, EncodeAttrs([NameAttr(name1), LinkInfoAttr(name2)]))) ==
            Some(Pair(HEAD, name1, VETH, name2))
  {
    hide Walk, Decode, EncodeAttrs, EncodeAttr, Message, LinkHead;
    Sizes(name1, name2);
    var attrs := [NameAttr(name1), LinkInfoAttr(name2)];
    Two(NameAttr(name1), LinkInfoAttr(name2));
    HeadIsLink();
    DecodeMessage(HEAD, attrs);
    var inner := [Attr(IFLA_INFO_KIND, VETH), DataAttr(name2)];
    WalkAll(inner);
    WalkAll([PeerAttr(name2)]);
    WalkAll([NameAttr(name2)]);
    assert PeerAttr(name2).payload[16..] == EncodeAttrs([NameAttr(name2)]);
    CStringOfName(name1);
    CStringOfName(name2);
    PayloadFirst(attrs, 0);
    PayloadFirst(attrs, 1);
    PayloadFirst(inner, 0);
    PayloadFirst(inner, 1);
    PayloadFirst([PeerAttr(name2)], 0);
    PayloadFirst([NameAttr(name2)], 0);
  }

  lemma HeadIsLink()
    ensures HEAD.Ok() && |HEAD.fixed| == 16 && HEAD.kind == RTM_NEWLINK && HEAD.fixed == Zeros(16)
  {
  }

  lemma PayloadFirst(attrs: seq<Attr>, i: nat)
    requires i < |attrs| && forall j :: 0 <= j < i ==> attrs[j].kind != attrs[i].kind
    ensures Payload(Some(attrs), attrs[i].kind) == Some(attrs[i].payload)
  {
  }

  // ---------- The bytes at their offsets ----------

  /** The whole request: the link header, name1 and the link info. */
  predicate VethBytes(m: seq<Byte>, name1: seq<Byte>, name2: seq<Byte>) {
    && LinkBytes(m, 0x605, 1, 0) && AttrBytes(m, 32, 3, name1 + [0])
    && NestBytes(m, 32 + Align(4 + |name1| + 1), name2)
  }

  /** The link info at `li`: in it the kind "veth" and the data, in that the peer, in that a zeroed interface
      struct and name2, at the end of the message. */
  predicate NestBytes(m: seq<Byte>, li: nat, name2: seq<Byte>) {
    var n2 := Align(4 + |name2| + 1);
    && |m| == li + 36 + n2
    && U16(m, li) == 36 + n2 && U16(m, li + 2) == 18
    && AttrBytes(m, li + 4, 1, [118, 101, 116, 104])
    && U16(m, li + 12) == 24 + n2 && U16(m, li + 14) == 2
    && U16(m, li + 16) == 20 + n2 && U16(m, li + 18) == 1
    && (forall i :: li + 20 <= i < li + 36 ==> m[i] == 0)
    && AttrBytes(m, li + 36, 3, name2 + [0])
  }

  /** An attribute at the end of a message, whose payload needs no padding. */
  lemma LastAttrAt(m: seq<Byte>, off: nat, a: Attr)
    requires a.Ok() && |a.payload| % 4 == 0 && off <= |m| && m[off..] == EncodeAttr(a)
    ensures |m| == off + 4 + |a.payload| && AttrBytes(m, off, a.kind, a.payload) && m[off + 4..] == a.payload
  {
    hide EncodeAttr;
    assert EncodeAttr(a) + [] == EncodeAttr(a);
    AttrAt(m, off, a, []);
    assert m[off + 4..] == m[off + 4..off + 4 + |a.payload|];
  }

  lemma NestAt(m: seq<Byte>, li: nat, name2: seq<Byte>)
    requires NameAttr(name2).Ok() && PeerAttr(name2).Ok() && DataAttr(name2).Ok() && LinkInfoAttr(name2).Ok()
    requires li <= |m| && m[li..] == EncodeAttr(LinkInfoAttr(name2))
    requires |LinkInfoAttr(name2).payload| == 32 + Align(4 + |name2| + 1)
    ensures var n2 := Align(4 + |name2| + 1);
            && |m| == li + 36 + n2 && U16(m, li) == 36 + n2 && U16(m, li + 2) == 18
            && AttrBytes(m, li + 4, 1, VETH)
            && m[li + 12..] == EncodeAttr(DataAttr(name2))
  {
    hide EncodeAttr, U16;
    LastAttrAt(m, li, LinkInfoAttr(name2));
    Two(Attr(IFLA_INFO_KIND, VETH), DataAttr(name2));
    AttrAt(m, li + 4, Attr(IFLA_INFO_KIND, VETH), EncodeAttr(DataAttr(name2)));
  }

  lemma PeerAt(m: seq<Byte>, data: nat, name2: seq<Byte>)
    requires NameAttr(name2).Ok() && PeerAttr(name2).Ok() && DataAttr(name2).Ok()
    requires data <= |m| && m[data..] == EncodeAttr(DataAttr(name2))
    requires |PeerAttr(name2).payload| == 16 + Align(4 + |name2| + 1)
    requires |DataAttr(name2).payload| == 20 + Align(4 + |name2| + 1)
    ensures var n2 := Align(4 + |name2| + 1);
            && |m| == data + 24 + n2
            && U16(m, data) == 24 + n2 && U16(m, data + 2) == 2 && U16(m, data + 4) == 20 + n2 && U16(m, data + 6) == 1
            && (forall i :: data + 8 <= i < data + 24 ==> m[i] == 0)
            && AttrBytes(m, data + 24, 3, name2 + [0])
  {
    hide EncodeAttr, U16;
    LastAttrAt(m, data, DataAttr(name2));
    OneAttr(PeerAttr(name2));
    LastAttrAt(m, data + 4, PeerAttr(name2));
    OneAttr(NameAttr(name2));
    var p := m[data + 8..];
    assert forall i :: 0 <= i < 16 ==> m[data + 8 + i] == p[i] == 0;
    assert m[data + 24..] == p[16..] == EncodeAttr(NameAttr(name2));
    assert EncodeAttr(NameAttr(name2)) + [] == EncodeAttr(NameAttr(name2));
    AttrAt(m, data + 24, NameAttr(name2), []);
  }

  lemma VethAt(name1: seq<Byte>, name2: seq<Byte>)
    requires |name1| < 0x400 && |name2| < 0x400
    requires NameAttr(name1).Ok() && NameAttr(name2).Ok() && PeerAttr(name2).Ok() && DataAttr(name2).Ok()
    requires LinkInfoAttr(name2).Ok()
    requires |PeerAttr(name2).payload| == 16 + Align(4 + |name2| + 1)
    requires |DataAttr(name2).payload| == 20 + Align(4 + |name2| + 1)
    requires |LinkInfoAttr(name2).payload| == 32 + Align(4 + |name2| + 1)
    ensures HEAD.Ok() && |EncodeAttrs([NameAttr(name1), LinkInfoAttr(name2)])| < 0x1_0000
    ensures VethBytes(Message(HEAD, EncodeAttrs([NameAttr(name1), LinkInfoAttr(name2)])), name1, name2)
  {
    hide EncodeAttr, LinkInfoAttr, LinkBytes, LinkHead, AttrBytes, EncodeAttrs, NestBytes, PeerAttr, DataAttr, Bytes;
    HeadIsLink();
    var b := LinkInfoAttr(name2);
    OuterAt(name1, b);
    InnerAt(Message(HEAD, EncodeAttrs([NameAttr(name1), b])), 32 + Align(4 + |name1| + 1), name2);
  }

  lemma InnerAt(m: seq<Byte>, li: nat, name2: seq<Byte>)
    requires NameAttr(name2).Ok() && PeerAttr(name2).Ok() && DataAttr(name2).Ok() && LinkInfoAttr(name2).Ok()
    requires li <= |m| && m[li..] == EncodeAttr(LinkInfoAttr(name2))
    requires |PeerAttr(name2).payload| == 16 + Align(4 + |name2| + 1)
    requires |DataAttr(name2).payload| == 20 + Align(4 + |name2| + 1)
    requires |LinkInfoAttr(name2).payload| == 32 + Align(4 + |name2| + 1)
    ensures NestBytes(m, li, name2)
  {
    hide EncodeAttr, U16, LinkInfoAttr, DataAttr, PeerAttr, AttrBytes;
    NestAt(m, li, name2);
    PeerAt(m, li + 12, name2);
  }

  lemma OuterAt(name1: seq<Byte>, b: Attr)
    requires NameAttr(name1).Ok() && b.Ok() && |name1| + |b.payload| < 0x1000
    ensures |EncodeAttrs([NameAttr(name1), b])| < 0x1_0000
    ensures var m, li := Message(HEAD, EncodeAttrs([NameAttr(name1), b])), 32 + Align(4 + |name1| + 1);
            LinkBytes(m, 0x605, 1, 0) && AttrBytes(m, 32, 3, name1 + [0]) && li <= |m| && m[li..] == EncodeAttr(b)
  {
    hide EncodeAttr, U16, LinkBytes, LinkHead, AttrBytes;
    HeadIsLink();
    var a := NameAttr(name1);
    Two(a, b);
    LinkAt(0x605, 1, 0, EncodeAttrs([a, b]));
    MessageBytes(HEAD, EncodeAttrs([a, b]));
    AttrAt(Message(HEAD, EncodeAttrs([a, b])), 32, a, EncodeAttr(b));
  }

  // ---------- The sender ----------

  /** The nested part while its three lengths are still growing. */
  function Nest(li: int, data: int, peer: int, tail: seq<Byte>): seq<Byte>
    requires 0 <= li < 0x1_0000 && 0 <= data < 0x1_0000 && 0 <= peer < 0x1_0000
  {
    TlvHeader(li, IFLA_LINKINFO) + EncodeAttr(Attr(IFLA_INFO_KIND, VETH))
    + TlvHeader(data, IFLA_INFO_DATA) + TlvHeader(peer, VETH_INFO_PEER) + Zeros(16) + tail
  }

  /** With its final lengths, the nested part is the link-info attribute. */
  lemma NestIsLinkInfo(name2: seq<Byte>)
    requires NameAttr(name2).Ok() && PeerAttr(name2).Ok() && DataAttr(name2).Ok() && LinkInfoAttr(name2).Ok()
    ensures EncodeAttr(LinkInfoAttr(name2)) ==
            Nest(4 + |LinkInfoAttr(name2).payload|, 4 + |DataAttr(name2).payload|, 4 + |PeerAttr(name2).payload|,
                 EncodeAttr(NameAttr(name2)))
  {
    hide Le16;
    OneAttr(NameAttr(name2));
    OneAttr(PeerAttr(name2));
    Two(Attr(IFLA_INFO_KIND, VETH), DataAttr(name2));
    NoPadding(PeerAttr(name2));
    NoPadding(DataAttr(name2));
    NoPadding(LinkInfoAttr(name2));
  }

  lemma NoPadding(a: Attr)
    requires a.Ok() && |a.payload| % 4 == 0
    ensures EncodeAttr(a) == TlvHeader(4 + |a.payload|, a.kind) + a.payload
  {
  }

  /** nl_create_veth's message, for all names: a store leaves the struct exactly when one of those listed
      does, and otherwise the bytes sent decode to the names. */
  method BuildVeth(name1: seq<Byte>, name2: seq<Byte>) returns (r: Request)
    requires IsName(name1) && IsName(name2)
    ensures r.Overrun? <==> !Inside(VethStores(|name1|, |name2|), 32 + ROOM)
    ensures r.Sent? ==> DecodeVeth(r.bytes) == Some(Pair(HEAD, name1, VETH, name2))
    ensures r.Sent? ==> VethBytes(r.bytes, name1, name2)
  {
    hide VethBytes, DecodeVeth, EncodeAttrs, EncodeAttr, Decode, LinkHead, Le16, LinkInfoAttr, VethStores, Inside;
    StoresInsideIff(name1, name2);
    HeadIsLink();
    var req, len := NewRequest(HEAD, ROOM);
    EmptyBody(HEAD);
    var iname := NameAttr(name1);
    if len + 4 + |iname.payload| > req.Length {
      return Overrun;
    }
    EncodeAppend([], iname);
    len := AddAttr(req, len, iname, HEAD, []);
    if len + 40 + |name2| + 1 > req.Length {
      return Overrun;
    }
    Sizes(name1, name2);
    var liLen := BuildNest(req, len, name2, Message(HEAD, EncodeAttrs([] + [iname])));
    NestIsLinkInfo(name2);
    len := FinishVeth(req, len, liLen, name1, name2);
    RoundTrip(name1, name2);
    VethAt(name1, name2);
    SentIsMessage(req, Message(HEAD, EncodeAttrs([NameAttr(name1), LinkInfoAttr(name2)])));
    return Sent(req[..len]);
  }

  /** Adds the aligned link-info length to nlmsg_len. */
  method FinishVeth(req: array<Byte>, len: nat, liLen: nat, ghost name1: seq<Byte>, ghost name2: seq<Byte>)
    returns (next: nat)
    requires NameAttr(name1).Ok() && NameAttr(name2).Ok() && PeerAttr(name2).Ok() && DataAttr(name2).Ok()
    requires LinkInfoAttr(name2).Ok() && liLen == 4 + |LinkInfoAttr(name2).payload| && liLen % 4 == 0
    requires HEAD.Ok() && |HEAD.fixed| == 16
    requires |EncodeAttrs([] + [NameAttr(name1)])| < 0x1000
    requires len == |Message(HEAD, EncodeAttrs([] + [NameAttr(name1)]))|
    requires Built(req, Message(HEAD, EncodeAttrs([] + [NameAttr(name1)])) + EncodeAttr(LinkInfoAttr(name2)))
    requires req.Length < 0x1000
    modifies req
    ensures |EncodeAttrs([NameAttr(name1), LinkInfoAttr(name2)])| < 0x1_0000
    ensures Built(req, Message(HEAD, EncodeAttrs([NameAttr(name1), LinkInfoAttr(name2)])))
    ensures next == |Message(HEAD, EncodeAttrs([NameAttr(name1), LinkInfoAttr(name2)]))|
  {
    hide EncodeAttrs, Le32, LinkInfoAttr, LinkHead;
    next := len + Align(liLen);
    ghost var body, li := EncodeAttrs([] + [NameAttr(name1)]), EncodeAttr(LinkInfoAttr(name2));
    assert Message(HEAD, body) + li == [] + Le32(len) + (HeadTail(HEAD) + (body + li));
    Patch(req, Le32(next), 0, [], Le32(len), HeadTail(HEAD) + (body + li));
    OneAttr(NameAttr(name1));
    Two(NameAttr(name1), LinkInfoAttr(name2));
    assert [] + [NameAttr(name1)] == [NameAttr(name1)];
    assert [] + Le32(next) + (HeadTail(HEAD) + (body + li)) == Message(HEAD, body + li);
  }

  /** Writes link info, kind, data, peer and the peer's name, patching the lengths from the inside out. */
  method BuildNest(req: array<Byte>, li: nat, name2: seq<Byte>, ghost m: seq<Byte>) returns (liLen: nat)
    requires Built(req, m) && li == |m| && li % 4 == 0 && req.Length % 4 == 0 && req.Length < 0x1000
    requires li + 40 + |name2| + 1 <= req.Length
    modifies req
    ensures var n2 := Align(4 + |name2| + 1);
            liLen == 36 + n2 && NameAttr(name2).Ok() &&
            Built(req, m + Nest(liLen, 24 + n2, 20 + n2, EncodeAttr(NameAttr(name2))))
  {
    hide EncodeAttr, Nest, Built;
    var data, peer, pname := OpenNest(req, li, m);
    NestGrows(m, EncodeAttr(NameAttr(name2)));
    var end := WriteAttr(req, pname, NameAttr(name2), m + Nest(4, 4, 20, []));
    var peerLen := 20 + (end - pname);
    var dataLen := 4 + Align(peerLen);
    liLen := 12 + Align(dataLen);
    SetLengths(req, li, data, peer, liLen, dataLen, peerLen, m, EncodeAttr(NameAttr(name2)));
  }

  lemma NestGrows(m: seq<Byte>, t: seq<Byte>)
    ensures (m + Nest(4, 4, 20, [])) + t == m + Nest(4, 4, 20, t)
    ensures |m + Nest(4, 4, 20, [])| == |m| + 36
  {
  }

  /** The headers from the outermost in, with the lengths known so far; the kind and the peer's zeroed
      interface struct. */
  method OpenNest(req: array<Byte>, li: nat, ghost m: seq<Byte>) returns (data: nat, peer: nat, pname: nat)
    requires Built(req, m) && li == |m| && li % 4 == 0 && req.Length % 4 == 0 && li + 36 <= req.Length
    modifies req
    ensures data == li + 12 && peer == data + 4 && pname == peer + 20 && Built(req, m + Nest(4, 4, 20, []))
  {
    hide Le16, Zeros, EncodeAttr, Built;
    var kindAttr := Attr(IFLA_INFO_KIND, VETH);
    Append(req, li, TlvHeader(4, IFLA_LINKINFO), m);
    data := WriteAttr(req, li + 4, kindAttr, m + TlvHeader(4, IFLA_LINKINFO));
    ghost var m1 := m + TlvHeader(4, IFLA_LINKINFO) + EncodeAttr(kindAttr);
    Append(req, data, TlvHeader(4, IFLA_INFO_DATA), m1);
    peer := data + 4;
    Append(req, peer, TlvHeader(20, VETH_INFO_PEER), m1 + TlvHeader(4, IFLA_INFO_DATA));
    pname := peer + 20;
    Append(req, peer + 4, Zeros(16), m1 + TlvHeader(4, IFLA_INFO_DATA) + TlvHeader(20, VETH_INFO_PEER));
    assert m1 + TlvHeader(4, IFLA_INFO_DATA) + TlvHeader(20, VETH_INFO_PEER) + Zeros(16) == m + Nest(4, 4, 20, []);
  }

  // What stands before and behind each of the three length fields.

  function BeforeData(li: int): seq<Byte>
    requires 0 <= li < 0x1_0000
  {
    Le16(li) + Le16(IFLA_LINKINFO) + EncodeAttr(Attr(IFLA_INFO_KIND, VETH))
  }

  function BehindPeer(t: seq<Byte>): seq<Byte> {
    Le16(VETH_INFO_PEER) + Zeros(16) + t
  }

  function BehindData(peer: int, t: seq<Byte>): seq<Byte>
    requires 0 <= peer < 0x1_0000
  {
    Le16(IFLA_INFO_DATA) + Le16(peer) + BehindPeer(t)
  }

  function BehindLinkInfo(data: int, peer: int, t: seq<Byte>): seq<Byte>
    requires 0 <= data < 0x1_0000 && 0 <= peer < 0x1_0000
  {
    Le16(IFLA_LINKINFO) + EncodeAttr(Attr(IFLA_INFO_KIND, VETH)) + Le16(data) + BehindData(peer, t)
  }

  lemma LengthFields(m: seq<Byte>, li: int, data: int, peer: int, t: seq<Byte>)
    requires 0 <= li < 0x1_0000 && 0 <= data < 0x1_0000 && 0 <= peer < 0x1_0000
    ensures m + Nest(li, data, peer, t) == m + Le16(li) + BehindLinkInfo(data, peer, t)
    ensures m + Nest(li, data, peer, t) == (m + BeforeData(li)) + Le16(data) + BehindData(peer, t)
    ensures m + Nest(li, data, peer, t)
         == (m + BeforeData(li) + Le16(data) + Le16(IFLA_INFO_DATA)) + Le16(peer) + BehindPeer(t)
  {
    hide Le16, Zeros, EncodeAttr;
  }

  /** Patches the lengths, innermost first. */
  method SetLengths(req: array<Byte>, li: nat, data: nat, peer: nat, liLen: nat, dataLen: nat, peerLen: nat,
                    ghost m: seq<Byte>, ghost t: seq<Byte>)
    requires Built(req, m + Nest(4, 4, 20, t)) && li == |m| && data == li + 12 && peer == data + 4
    requires liLen < 0x1_0000 && dataLen < 0x1_0000 && peerLen < 0x1_0000
    modifies req
    ensures Built(req, m + Nest(liLen, dataLen, peerLen, t))
  {
    hide Le16, EncodeAttr, Built, Nest, BehindData, BehindPeer, BehindLinkInfo;
    LengthFields(m, 4, 4, 20, t);
    LengthFields(m, 4, 4, peerLen, t);
    LengthFields(m, 4, dataLen, peerLen, t);
    LengthFields(m, liLen, dataLen, peerLen, t);
    Patch(req, Le16(peerLen), peer, m + BeforeData(4) + Le16(4) + Le16(IFLA_INFO_DATA), Le16(20), BehindPeer(t));
    Patch(req, Le16(dataLen), data, m + BeforeData(4), Le16(4), BehindData(peerLen, t));
    Patch(req, Le16(liLen), li, m, Le16(4), BehindLinkInfo(dataLen, peerLen, t));
  }
}
