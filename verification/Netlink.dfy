/** rtnetlink requests: nested, 4-byte-aligned attributes written into a zeroed struct with lengths
    patched as the nesting closes, an independent decoder, and the walk over a reply. */
module Netlink {
  import opened Common

  type Byte = b: int | 0 <= b < 256

  // ---------- Little-endian fields ----------

  function Le16(v: int): (r: seq<Byte>)
    requires 0 <= v < 0x1_0000
    ensures |r| == 2
  {
    [v % 256, v / 256]
  }

  function Le32(v: int): (r: seq<Byte>)
    requires 0 <= v < 0x1_0000_0000
    ensures |r| == 4
  {
    Le16(v % 0x1_0000) + Le16(v / 0x1_0000)
  }

  function U16(s: seq<Byte>, i: nat): (v: int)
    requires i + 2 <= |s|
    ensures 0 <= v < 0x1_0000
  {
    s[i] as int + 256 * (s[i + 1] as int)
  }

  function U32(s: seq<Byte>, i: nat): (v: int)
    requires i + 4 <= |s|
    ensures 0 <= v < 0x1_0000_0000
  {
    U16(s, i) + 0x1_0000 * U16(s, i + 2)
  }

  /** NLMSG_ALIGN and RTA_ALIGN. */
  function Align(n: nat): (r: nat)
    ensures n <= r < n + 4 && r % 4 == 0 && (n % 4 == 0 ==> r == n)
  {
    (n + 3) / 4 * 4
  }

  function Zeros(n: nat): (r: seq<Byte>)
    ensures |r| == n && forall i :: 0 <= i < n ==> r[i] == 0
  {
    seq(n, _ => 0)
  }

  // ---------- The wire format ----------

  /** An attribute: its type and its payload. */
  datatype Attr = Attr(kind: int, payload: seq<Byte>) {
    predicate Ok() { 0 <= kind < 0x1_0000 && 4 + |payload| < 0x1_0000 }
  }

  function TlvHeader(len: int, kind: int): (r: seq<Byte>)
    requires 0 <= len < 0x1_0000 && 0 <= kind < 0x1_0000
    ensures |r| == 4
  {
    Le16(len) + Le16(kind)
  }

  /** The attribute's bytes, padded to the alignment. */
  function EncodeAttr(a: Attr): (r: seq<Byte>)
    requires a.Ok()
    ensures |r| == Align(4 + |a.payload|)
  {
    TlvHeader(4 + |a.payload|, a.kind) + a.payload + Zeros(Align(4 + |a.payload|) - (4 + |a.payload|))
  }

  function EncodeAttrs(attrs: seq<Attr>): (r: seq<Byte>)
    requires forall i :: 0 <= i < |attrs| ==> attrs[i].Ok()
    ensures |r| % 4 == 0
  {
    if attrs == [] then [] else EncodeAttr(attrs[0]) + EncodeAttrs(attrs[1..])
  }

  /** The receiver's attribute walk, RTA_OK and RTA_NEXT: None when the bytes do not end with an
      attribute. */
  function Walk(s: seq<Byte>): Option<seq<Attr>>
    decreases |s|
  {
    if s == [] then Some([])
    else if |s| < 4 then None
    else
      var len := U16(s, 0);
      if len < 4 || len > |s| then None
      else
        var a := Attr(U16(s, 2), s[4..len]);
        match Walk(s[if Align(len) <= |s| then Align(len) else |s|..])
        case None => None
        case Some(more) => Some([a] + more)
  }

  lemma HeaderFields(len: int, kind: int, rest: seq<Byte>)
    requires 0 <= len < 0x1_0000 && 0 <= kind < 0x1_0000
    ensures var s := TlvHeader(len, kind) + rest; U16(s, 0) == len && U16(s, 2) == kind
  {
  }

  /** Walking over an encoded attribute yields it and goes on behind its padding. */
  lemma WalkOne(a: Attr, rest: seq<Byte>)
    requires a.Ok()
    ensures Walk(EncodeAttr(a) + rest) == match Walk(rest) case None => None case Some(more) => Some([a] + more)
  {
    hide Le16, Zeros;
    var len := 4 + |a.payload|;
    var pad := Zeros(Align(len) - len);
    var s := EncodeAttr(a) + rest;
    assert s == TlvHeader(len, a.kind) + (a.payload + pad + rest);
    HeaderFields(len, a.kind, a.payload + pad + rest);
    assert s[4..len] == a.payload;
    assert s[Align(len)..] == rest;
  }

  /** Decoding undoes encoding, for every list of attributes. */
  lemma {:induction false} WalkAll(attrs: seq<Attr>)
    requires forall i :: 0 <= i < |attrs| ==> attrs[i].Ok()
    ensures Walk(EncodeAttrs(attrs)) == Some(attrs)
  {
    if attrs != [] {
      WalkAll(attrs[1..]);
      WalkOne(attrs[0], EncodeAttrs(attrs[1..]));
      assert attrs == [attrs[0]] + attrs[1..];
    }
  }

  lemma {:induction false} EncodeAppend(attrs: seq<Attr>, a: Attr)
    requires a.Ok() && forall i :: 0 <= i < |attrs| ==> attrs[i].Ok()
    ensures EncodeAttrs(attrs + [a]) == EncodeAttrs(attrs) + EncodeAttr(a)
  {
    if attrs == [] {
      assert attrs + [a] == [a];
      assert EncodeAttrs([a][1..]) == [];
    } else {
      assert (attrs + [a])[1..] == attrs[1..] + [a];
      EncodeAppend(attrs[1..], a);
    }
  }

  // ---------- Messages ----------

  const IFLA_IFNAME := 3
  const IFLA_LINKINFO := 18
  const IFLA_INFO_KIND := 1
  const IFLA_INFO_DATA := 2
  const VETH_INFO_PEER := 1
  const IFLA_NET_NS_FD := 28
  const IFA_ADDRESS := 1
  const IFA_LOCAL := 2
  const RTA_DST := 1
  const RTA_OIF := 4
  const RTA_GATEWAY := 5
  const RTM_NEWLINK := 16
  const RTM_NEWADDR := 20
  const RTM_NEWROUTE := 24
  const NLM_F_REQUEST := 0x1
  const NLM_F_ACK := 0x4
  const NLM_F_REPLACE := 0x100
  const NLM_F_EXCL := 0x200
  const NLM_F_CREATE := 0x400

  /** What precedes the attributes: message type, flags, sequence number and the fixed struct. */
  datatype Head = Head(kind: int, flags: int, seqno: int, fixed: seq<Byte>) {
    predicate Ok() {
      0 <= kind < 0x1_0000 && 0 <= flags < 0x1_0000 && 0 <= seqno < 0x1_0000_0000 && |fixed| % 4 == 0 && |fixed| < 0x100
    }
  }

  /** The header fields after nlmsg_len, and the fixed struct. */
  function HeadTail(h: Head): (r: seq<Byte>)
    requires h.Ok()
    ensures |r| == 12 + |h.fixed|
  {
    Le16(h.kind) + Le16(h.flags) + Le32(h.seqno) + Le32(0) + h.fixed
  }

  /** A message whose nlmsg_len field says `len`, with `body` for its attributes. */
  function Bytes(h: Head, len: int, body: seq<Byte>): (r: seq<Byte>)
    requires h.Ok() && 0 <= len < 0x1_0000_0000
    ensures |r| == 16 + |h.fixed| + |body|
  {
    Le32(len) + HeadTail(h) + body
  }

  /** The finished message: nlmsg_len counts all of it. */
  function Message(h: Head, body: seq<Byte>): (r: seq<Byte>)
    requires h.Ok() && |body| < 0x1_0000
  {
    Bytes(h, 16 + |h.fixed| + |body|, body)
  }

  /** The receiver's view of a message with a fixed struct of `fixedLen` bytes. */
  function Decode(msg: seq<Byte>, fixedLen: nat): Option<(Head, seq<Attr>)> {
    if |msg| < 16 + fixedLen || U32(msg, 0) != |msg| then None
    else
      match Walk(msg[16 + fixedLen..])
      case None => None
      case Some(attrs) => Some((Head(U16(msg, 4), U16(msg, 6), U32(msg, 8), msg[16..16 + fixedLen]), attrs))
  }

  lemma U16OfLe16(s: seq<Byte>, i: nat, v: int)
    requires 0 <= v < 0x1_0000 && i + 2 <= |s| && s[i..i + 2] == Le16(v)
    ensures U16(s, i) == v
  {
  }

  lemma U32OfLe32(s: seq<Byte>, i: nat, v: int)
    requires 0 <= v < 0x1_0000_0000 && i + 4 <= |s| && s[i..i + 4] == Le32(v)
    ensures U32(s, i) == v
  {
  }

  /** Decoding a finished message gives back its head and its attributes. */
  lemma DecodeMessage(h: Head, attrs: seq<Attr>)
    requires h.Ok() && (forall i :: 0 <= i < |attrs| ==> attrs[i].Ok()) && |EncodeAttrs(attrs)| < 0x1_0000
    ensures Decode(Message(h, EncodeAttrs(attrs)), |h.fixed|) == Some((h, attrs))
  {
    hide Le16, Le32, U16, U32, Walk, EncodeAttrs;
    var body := EncodeAttrs(attrs);
    var m := Message(h, body);
    WalkAll(attrs);
    assert m[16 + |h.fixed|..] == body;
    assert m[0..4] == Le32(|m|) && m[4..6] == Le16(h.kind) && m[6..8] == Le16(h.flags) && m[8..12] == Le32(h.seqno);
    U32OfLe32(m, 0, |m|);
    U16OfLe16(m, 4, h.kind);
    U16OfLe16(m, 6, h.flags);
    U32OfLe32(m, 8, h.seqno);
    assert m[16..16 + |h.fixed|] == h.fixed;
  }

  // ---------- The bytes at their offsets ----------

  /** The least significant byte comes first. */
  lemma ByteOrder()
    ensures Le16(0x0102) == [2, 1] && Le32(0x0102_0304) == [4, 3, 2, 1]
    ensures U16([2, 1], 0) == 0x0102 && U32([4, 3, 2, 1], 0) == 0x0102_0304
  {
  }

  /** A message of this length, type, flags and sequence number, from port 0. */
  predicate HeaderBytes(m: seq<Byte>, kind: int, flags: int, seqno: int) {
    |m| >= 16 && U32(m, 0) == |m| && U16(m, 4) == kind && U16(m, 6) == flags && U32(m, 8) == seqno && U32(m, 12) == 0
  }

  /** An attribute at offset off. */
  predicate AttrBytes(m: seq<Byte>, off: nat, kind: int, payload: seq<Byte>) {
    && off + 4 + |payload| <= |m| && U16(m, off) == 4 + |payload| && U16(m, off + 2) == kind
    && m[off + 4..off + 4 + |payload|] == payload
  }

  /** A link request: unspecified family, no link type, the interface index, no flags and no change mask. */
  predicate LinkBytes(m: seq<Byte>, flags: int, seqno: int, index: int) {
    && HeaderBytes(m, 16, flags, seqno) && |m| >= 32
    && m[16] == 0 && m[17] == 0 && U16(m, 18) == 0 && U32(m, 20) == index && U32(m, 24) == 0 && U32(m, 28) == 0
  }

  lemma MessageBytes(h: Head, body: seq<Byte>)
    requires h.Ok() && |body| < 0x1_0000
    ensures var m := Message(h, body);
            && HeaderBytes(m, h.kind, h.flags, h.seqno)
            && m[16..16 + |h.fixed|] == h.fixed && m[16 + |h.fixed|..] == body
  {
    hide Le16, Le32, U16, U32;
    var m := Message(h, body);
    assert m[0..4] == Le32(|m|) && m[4..6] == Le16(h.kind) && m[6..8] == Le16(h.flags);
    assert m[8..12] == Le32(h.seqno) && m[12..16] == Le32(0);
    U32OfLe32(m, 0, |m|);
    U16OfLe16(m, 4, h.kind);
    U16OfLe16(m, 6, h.flags);
    U32OfLe32(m, 8, h.seqno);
    U32OfLe32(m, 12, 0);
  }

  /** An encoded attribute at offset off, with the next one behind its padding. */
  lemma AttrAt(m: seq<Byte>, off: nat, a: Attr, rest: seq<Byte>)
    requires a.Ok() && off <= |m| && m[off..] == EncodeAttr(a) + rest
    ensures AttrBytes(m, off, a.kind, a.payload)
    ensures off + Align(4 + |a.payload|) <= |m| && m[off + Align(4 + |a.payload|)..] == rest
  {
    hide Le16, U16;
    var len := 4 + |a.payload|;
    var e := EncodeAttr(a);
    assert e[0..2] == Le16(len) && e[2..4] == Le16(a.kind) && e[4..len] == a.payload;
    assert forall i, j :: 0 <= i <= j <= |e| ==> m[off..][i..j] == e[i..j];
    assert m[off..off + 2] == m[off..][0..2] && m[off + 2..off + 4] == m[off..][2..4];
    assert m[off + 4..off + len] == m[off..][4..len];
    U16OfLe16(m, off, len);
    U16OfLe16(m, off + 2, a.kind);
    assert m[off + Align(len)..] == m[off..][Align(len)..];
  }

  lemma LinkAt(flags: int, seqno: int, index: int, body: seq<Byte>)
    requires 0 <= flags < 0x1_0000 && 0 <= seqno < 0x1_0000_0000 && 0 <= index < 0x8000_0000 && |body| < 0x1_0000
    ensures LinkBytes(Message(LinkHead(flags, seqno, index), body), flags, seqno, index)
  {
    hide Le32, U16, U32;
    var h := LinkHead(flags, seqno, index);
    var m := Message(h, body);
    MessageBytes(h, body);
    var f := m[16..32];
    assert f == Zeros(4) + Le32(index) + Zeros(8);
    assert m[16] == f[0] && m[17] == f[1];
    ZeroFields();
    assert m[18..20] == f[2..4] == Zeros(2) && m[24..28] == f[8..12] == Zeros(4) && m[28..32] == f[12..16] == Zeros(4);
    assert m[20..24] == f[4..8] == Le32(index);
    U16OfLe16(m, 18, 0);
    U32OfLe32(m, 20, index);
    U32OfLe32(m, 24, 0);
    U32OfLe32(m, 28, 0);
  }

  lemma ZeroFields()
    ensures Le16(0) == Zeros(2) && Le32(0) == Zeros(4)
  {
  }

  // ---------- Building in place ----------

  /** The struct holds m and is still zero behind it. */
  ghost predicate Built(req: array<Byte>, m: seq<Byte>)
    reads req
  {
    |m| <= req.Length && req[..] == m + Zeros(req.Length - |m|)
  }

  /** Copies data into the struct. */
  method Write(req: array<Byte>, off: nat, data: seq<Byte>)
    requires off + |data| <= req.Length
    modifies req
    ensures req[..] == old(req[..off]) + data + old(req[off + |data|..])
  {
    for i := 0 to |data|
      invariant req[..] == old(req[..off]) + data[..i] + old(req[off + i..])
    {
      req[off + i] := data[i];
    }
  }

  /** Replaces a field inside what has been built. */
  method Patch(req: array<Byte>, data: seq<Byte>, off: nat, ghost pre: seq<Byte>, ghost was: seq<Byte>,
               ghost post: seq<Byte>)
    requires Built(req, pre + was + post) && off == |pre| && |was| == |data|
    modifies req
    ensures Built(req, pre + data + post)
  {
    Write(req, off, data);
    assert old(req[..off]) == pre;
    assert old(req[off + |data|..]) == post + Zeros(req.Length - |pre + was + post|);
  }

  /** Writes a field right behind what has been built. */
  method Append(req: array<Byte>, off: nat, data: seq<Byte>, ghost m: seq<Byte>)
    requires Built(req, m) && off == |m| && off + |data| <= req.Length
    modifies req
    ensures Built(req, m + data)
  {
    Write(req, off, data);
    assert old(req[..off]) == m;
    assert old(req[off + |data|..]) == Zeros(req.Length - |m| - |data|);
  }

  /** Bytes that are already zero count as built. */
  lemma Padding(req: array<Byte>, m: seq<Byte>, n: nat)
    requires Built(req, m) && |m| + n <= req.Length
    ensures Built(req, m + Zeros(n))
  {
  }

  /** Writes one attribute, whose padding is already there as zeros. */
  method WriteAttr(req: array<Byte>, off: nat, a: Attr, ghost m: seq<Byte>) returns (next: nat)
    requires Built(req, m) && off == |m| && a.Ok() && off % 4 == 0 && req.Length % 4 == 0
    requires off + 4 + |a.payload| <= req.Length
    modifies req
    ensures Built(req, m + EncodeAttr(a)) && next == off + Align(4 + |a.payload|) <= req.Length
  {
    hide Le16, Zeros;
    var len := 4 + |a.payload|;
    Append(req, off, TlvHeader(len, a.kind), m);
    Append(req, off + 4, a.payload, m + TlvHeader(len, a.kind));
    Padding(req, m + TlvHeader(len, a.kind) + a.payload, Align(len) - len);
    assert m + TlvHeader(len, a.kind) + a.payload + Zeros(Align(len) - len) == m + EncodeAttr(a);
    next := off + Align(len);
  }

  /** A zeroed request struct with room for attributes, its header and fixed struct filled in. */
  method NewRequest(h: Head, room: nat) returns (req: array<Byte>, len: nat)
    requires h.Ok() && room % 4 == 0 && room < 0x1000
    ensures fresh(req) && req.Length == 16 + |h.fixed| + room && len == 16 + |h.fixed|
    ensures Built(req, Message(h, EncodeAttrs([])))
  {
    req := new Byte[16 + |h.fixed| + room](_ => 0);
    len := 16 + |h.fixed|;
    assert req[..] == [] + Zeros(req.Length);
    Append(req, 0, Le32(len), []);
    Append(req, 4, HeadTail(h), [] + Le32(len));
    assert [] + Le32(len) + HeadTail(h) == Message(h, EncodeAttrs([]));
  }

  /** Appends an attribute and adds its aligned length to nlmsg_len. */
  method AddAttr(req: array<Byte>, len: nat, a: Attr, ghost h: Head, ghost attrs: seq<Attr>) returns (next: nat)
    requires h.Ok() && a.Ok() && req.Length % 4 == 0 && req.Length < 0x2000
    requires forall i :: 0 <= i < |attrs| ==> attrs[i].Ok()
    requires |EncodeAttrs(attrs)| < 0x1_0000 && Built(req, Message(h, EncodeAttrs(attrs)))
    requires len == |Message(h, EncodeAttrs(attrs))|
    requires len + 4 + |a.payload| <= req.Length
    modifies req
    ensures |EncodeAttrs(attrs + [a])| < 0x1_0000 && Built(req, Message(h, EncodeAttrs(attrs + [a])))
    ensures next == |Message(h, EncodeAttrs(attrs + [a]))|
  {
    hide Le32, EncodeAttr, EncodeAttrs;
    ghost var body := EncodeAttrs(attrs);
    EncodeAppend(attrs, a);
    next := WriteAttr(req, len, a, Message(h, body));
    assert Message(h, body) + EncodeAttr(a) == [] + Le32(len) + (HeadTail(h) + (body + EncodeAttr(a)));
    Patch(req, Le32(next), 0, [], Le32(len), HeadTail(h) + (body + EncodeAttr(a)));
    assert [] + Le32(next) + (HeadTail(h) + (body + EncodeAttr(a))) == Message(h, body + EncodeAttr(a));
  }

  /** The sent bytes are the message that was built. */
  lemma SentIsMessage(req: array<Byte>, m: seq<Byte>)
    requires Built(req, m)
    ensures req[..|m|] == m
  {
  }

  function LinkHead(flags: int, seqno: int, index: int): Head
    requires 0 <= index < 0x1_0000_0000
  {
    Head(RTM_NEWLINK, flags, seqno, Zeros(4) + Le32(index) + Zeros(8))
  }

  // ---------- Stores and the struct they must stay in ----------

  /** A store of `len` bytes at offset `off` of the request. */
  datatype Extent = Extent(off: nat, len: nat)

  predicate Inside(stores: seq<Extent>, size: nat) {
    forall i :: 0 <= i < |stores| ==> stores[i].off + stores[i].len <= size
  }

  /** The bytes sent; or a store would leave the struct, after which nothing can be said. */
  datatype Request = Sent(bytes: seq<Byte>) | Overrun

  /** rta_len holds 16 bits. */
  function RtaLength(payload: nat): nat {
    (4 + payload) % 0x1_0000
  }

  lemma InsideConcat(a: seq<Extent>, b: seq<Extent>, size: nat)
    ensures Inside(a + b, size) <==> Inside(a, size) && Inside(b, size)
  {
    if Inside(a + b, size) {
      assert forall i :: 0 <= i < |a| ==> a[i] == (a + b)[i];
      assert forall i :: 0 <= i < |b| ==> b[i] == (a + b)[|a| + i];
    }
  }

  /** Message type, flags, sequence number and length; address family and interface index. */
  const LINK_STORES: seq<Extent> :=
    [Extent(0, 4), Extent(4, 2), Extent(6, 2), Extent(8, 4), Extent(16, 1), Extent(20, 4)]

  /** Type, length and text, with its terminator, of a name attribute at offset `off`. */
  function NameStores(off: nat, n: nat): seq<Extent> {
    [Extent(off + 2, 2), Extent(off, 2), Extent(off + 4, n + 1)]
  }

  lemma NameStoresInside(off: nat, n: nat, size: nat)
    ensures Inside(NameStores(off, n), size) <==> off + 4 + n + 1 <= size
  {
    assert NameStores(off, n)[2] == Extent(off + 4, n + 1);
  }

  /** The stores of nl_rename_link for a name of n characters. */
  function RenameStores(n: nat): seq<Extent> {
    LINK_STORES + NameStores(32, n) + [Extent(0, 4)]
  }

  /** They all stay in the struct of 96 bytes exactly for names of at most 59 characters. */
  lemma RenameStoresInside(n: nat)
    ensures Inside(RenameStores(n), 96) <==> n <= 59
  {
    InsideConcat(LINK_STORES + NameStores(32, n), [Extent(0, 4)], 96);
    InsideConcat(LINK_STORES, NameStores(32, n), 96);
    NameStoresInside(32, n, 96);
  }

  /** A name of 60 characters, which nothing keeps from the code, is written past the struct. */
  lemma LongRenameOverruns()
    ensures !Inside(RenameStores(60), 96)
  {
    RenameStoresInside(60);
  }

  /** nl_rename_link, for every name: the new name, zero-terminated, for the link with this index. */
  method BuildRename(index: int, newname: seq<Byte>) returns (r: Request)
    requires 0 <= index < 0x8000_0000
    ensures r.Overrun? <==> !Inside(RenameStores(|newname|), 96)
    ensures r.Sent? ==>
      Decode(r.bytes, 16) ==
      Some((LinkHead(NLM_F_REQUEST + NLM_F_ACK, 7, index), [Attr(IFLA_IFNAME, newname + [0])]))
    ensures r.Sent? ==> LinkBytes(r.bytes, 5, 7, index) && AttrBytes(r.bytes, 32, 3, newname + [0])
  {
    hide Decode, EncodeAttrs;
    var h := LinkHead(NLM_F_REQUEST + NLM_F_ACK, 7, index);
    var req, len := NewRequest(h, 64);
    var a := Attr(IFLA_IFNAME, newname + [0]);
    EmptyBody(h);
    RenameStoresInside(|newname|);
    if len + 4 + |a.payload| > req.Length {
      return Overrun;
    }
    len := AddAttr(req, len, a, h, []);
    DecodeMessage(h, [] + [a]);
    SentIsMessage(req, Message(h, EncodeAttrs([] + [a])));
    assert [] + [a] == [a];
    OneAttrAt(5, 7, index, a);
    return Sent(req[..len]);
  }

  /** nl_move_to_ns: the descriptor of the target namespace. */
  method BuildMove(index: int, nsFd: int) returns (req: array<Byte>, len: nat)
    requires 0 <= index < 0x8000_0000 && 0 <= nsFd < 0x8000_0000
    ensures len <= req.Length == 96
    ensures Decode(req[..len], 16) ==
            Some((LinkHead(NLM_F_REQUEST + NLM_F_ACK, 6, index), [Attr(IFLA_NET_NS_FD, Le32(nsFd))]))
    ensures len == 40 && LinkBytes(req[..len], 5, 6, index) && AttrBytes(req[..len], 32, 28, Le32(nsFd))
  {
    hide Decode, EncodeAttrs;
    var h := LinkHead(NLM_F_REQUEST + NLM_F_ACK, 6, index);
    req, len := NewRequest(h, 64);
    var a := Attr(IFLA_NET_NS_FD, Le32(nsFd));
    EmptyBody(h);
    len := AddAttr(req, len, a, h, []);
    DecodeMessage(h, [] + [a]);
    SentIsMessage(req, Message(h, EncodeAttrs([] + [a])));
    assert [] + [a] == [a];
    OneAttrAt(5, 6, index, a);
  }

  /** A link request with one attribute. */
  lemma OneAttrAt(flags: int, seqno: int, index: int, a: Attr)
    requires 0 <= flags < 0x1_0000 && 0 <= seqno < 0x1_0000_0000 && 0 <= index < 0x8000_0000 && a.Ok()
    requires |a.payload| < 0x1000
    ensures |EncodeAttrs([a])| == Align(4 + |a.payload|)
    ensures var m := Message(LinkHead(flags, seqno, index), EncodeAttrs([a]));
            && |m| == 32 + Align(4 + |a.payload|)
            && LinkBytes(m, flags, seqno, index) && AttrBytes(m, 32, a.kind, a.payload)
  {
    hide EncodeAttr, LinkBytes;
    OneAttr(a);
    LinkAt(flags, seqno, index, EncodeAttrs([a]));
    MessageBytes(LinkHead(flags, seqno, index), EncodeAttrs([a]));
    assert EncodeAttr(a) + [] == EncodeAttr(a);
    AttrAt(Message(LinkHead(flags, seqno, index), EncodeAttrs([a])), 32, a, []);
  }

  lemma OneAttr(a: Attr)
    requires a.Ok()
    ensures EncodeAttrs([a]) == EncodeAttr(a)
  {
    assert EncodeAttrs([a][1..]) == [];
  }

  lemma MoreAttrs(a: Attr, rest: seq<Attr>)
    requires a.Ok() && forall i :: 0 <= i < |rest| ==> rest[i].Ok()
    ensures EncodeAttrs([a] + rest) == EncodeAttr(a) + EncodeAttrs(rest)
  {
    assert ([a] + rest)[1..] == rest;
  }

  /** nl_add_addr: the same address as local and as peer address. */
  method BuildAddr(index: int, ip: seq<Byte>, plen: Byte) returns (req: array<Byte>, len: nat)
    requires 0 <= index < 0x8000_0000 && |ip| == 4
    ensures len <= req.Length == 88
    ensures Decode(req[..len], 8) ==
            Some((Head(RTM_NEWADDR, NLM_F_REQUEST + NLM_F_CREATE + NLM_F_REPLACE + NLM_F_ACK, 3,
                       [2, plen, 0, 0] + Le32(index)),
                  [Attr(IFA_LOCAL, ip), Attr(IFA_ADDRESS, ip)]))
    ensures len == 40 && AddrBytes(req[..len], index, plen, ip)
  {
    hide Decode, EncodeAttrs;
    var h := Head(RTM_NEWADDR, NLM_F_REQUEST + NLM_F_CREATE + NLM_F_REPLACE + NLM_F_ACK, 3,
                  [2, plen, 0, 0] + Le32(index));
    req, len := NewRequest(h, 64);
    var a, b := Attr(IFA_LOCAL, ip), Attr(IFA_ADDRESS, ip);
    EmptyBody(h);
    EncodeAppend([], a);
    len := AddAttr(req, len, a, h, []);
    len := AddAttr(req, len, b, h, [] + [a]);
    DecodeMessage(h, [] + [a] + [b]);
    SentIsMessage(req, Message(h, EncodeAttrs([] + [a] + [b])));
    assert [] + [a] + [b] == [a, b];
    AddrAt(index, plen, ip);
  }

  /** An address request: IPv4, prefix length, no flags, universe scope, the interface index; the address as
      the local one and as the peer's. */
  predicate AddrBytes(m: seq<Byte>, index: int, plen: Byte, ip: seq<Byte>) {
    && HeaderBytes(m, 20, 0x505, 3) && |m| >= 24
    && m[16] == 2 && m[17] == plen && m[18] == 0 && m[19] == 0 && U32(m, 20) == index
    && AttrBytes(m, 24, 2, ip) && AttrBytes(m, 32, 1, ip)
  }

  lemma AddrAt(index: int, plen: Byte, ip: seq<Byte>)
    requires 0 <= index < 0x8000_0000 && |ip| == 4
    ensures var h := Head(RTM_NEWADDR, NLM_F_REQUEST + NLM_F_CREATE + NLM_F_REPLACE + NLM_F_ACK, 3,
                          [2, plen, 0, 0] + Le32(index));
            var body := EncodeAttrs([Attr(IFA_LOCAL, ip), Attr(IFA_ADDRESS, ip)]);
            |body| == 16 && AddrBytes(Message(h, body), index, plen, ip)
  {
    hide EncodeAttr, U16, U32, Le32;
    var h := Head(RTM_NEWADDR, NLM_F_REQUEST + NLM_F_CREATE + NLM_F_REPLACE + NLM_F_ACK, 3,
                  [2, plen, 0, 0] + Le32(index));
    var a, b := Attr(IFA_LOCAL, ip), Attr(IFA_ADDRESS, ip);
    OneAttr(b);
    MoreAttrs(a, [b]);
    assert [a] + [b] == [a, b];
    var body := EncodeAttrs([a, b]);
    var m := Message(h, body);
    MessageBytes(h, body);
    AttrAt(m, 24, a, EncodeAttr(b));
    assert EncodeAttr(b) + [] == EncodeAttr(b);
    AttrAt(m, 32, b, []);
    var f := m[16..24];
    assert m[16] == f[0] && m[17] == f[1] && m[18] == f[2] && m[19] == f[3] && m[20..24] == f[4..8] == Le32(index);
    U32OfLe32(m, 20, index);
  }

  lemma EmptyBody(h: Head)
    requires h.Ok()
    ensures EncodeAttrs([]) == [] && |Message(h, EncodeAttrs([]))| == 16 + |h.fixed|
  {
  }

  const RT_SCOPE_UNIVERSE: Byte := 0
  const RT_SCOPE_LINK: Byte := 253

  function RouteHead(plen: Byte, scope: Byte): Head {
    Head(RTM_NEWROUTE, NLM_F_REQUEST + NLM_F_CREATE + NLM_F_EXCL + NLM_F_ACK, 5,
         [2, plen, 0, 0, 254, 4, scope, 1, 0, 0, 0, 0])
  }

  /** The attributes of a route: destination, then gateway and device when given. */
  function RouteAttrs(dst: seq<Byte>, gateway: Option<seq<Byte>>, dev: Option<int>): seq<Attr>
    requires dev.Some? ==> 0 <= dev.value < 0x8000_0000
  {
    [Attr(RTA_DST, dst)] + (if gateway.Some? then [Attr(RTA_GATEWAY, gateway.value)] else [])
    + (if dev.Some? then [Attr(RTA_OIF, Le32(dev.value))] else [])
  }

  /** nl_add_route. */
  method BuildRoute(dst: seq<Byte>, plen: Byte, gateway: Option<seq<Byte>>, dev: Option<int>)
    returns (req: array<Byte>, len: nat)
    requires |dst| == 4 && (gateway.Some? ==> |gateway.value| == 4) && (dev.Some? ==> 0 <= dev.value < 0x8000_0000)
    ensures len <= req.Length == 540
    ensures Decode(req[..len], 12) ==
            Some((RouteHead(plen, if gateway.Some? then RT_SCOPE_UNIVERSE else RT_SCOPE_LINK),
                  RouteAttrs(dst, gateway, dev)))
    ensures RouteBytes(req[..len], plen, dst, gateway, dev)
  {
    hide Decode, EncodeAttrs;
    var h := RouteHead(plen, if gateway.Some? then RT_SCOPE_UNIVERSE else RT_SCOPE_LINK);
    req, len := NewRequest(h, 512);
    ghost var attrs: seq<Attr> := [];
    EmptyBody(h);
    var a := Attr(RTA_DST, dst);
    EncodeAppend(attrs, a);
    len := AddAttr(req, len, a, h, attrs);
    attrs := attrs + [a];
    if gateway.Some? {
      a := Attr(RTA_GATEWAY, gateway.value);
      EncodeAppend(attrs, a);
      len := AddAttr(req, len, a, h, attrs);
      attrs := attrs + [a];
    }
    if dev.Some? {
      a := Attr(RTA_OIF, Le32(dev.value));
      len := AddAttr(req, len, a, h, attrs);
      attrs := attrs + [a];
    }
    assert attrs == RouteAttrs(dst, gateway, dev);
    DecodeMessage(h, attrs);
    SentIsMessage(req, Message(h, EncodeAttrs(attrs)));
    RouteAt(plen, dst, gateway, dev);
  }

  /** A route request: IPv4, destination prefix length, no source, no TOS, main table, static, universe scope
      with a gateway and link scope without, unicast, no flags; then destination, gateway and device. */
  predicate RouteBytes(m: seq<Byte>, plen: Byte, dst: seq<Byte>, gateway: Option<seq<Byte>>, dev: Option<int>)
    requires dev.Some? ==> 0 <= dev.value < 0x8000_0000
  {
    && HeaderBytes(m, 24, 0x605, 5) && |m| >= 28
    && m[16] == 2 && m[17] == plen && m[18] == 0 && m[19] == 0 && m[20] == 254 && m[21] == 4
    && m[22] == (if gateway.Some? then 0 else 253) && m[23] == 1 && U32(m, 24) == 0
    && AttrBytes(m, 28, 1, dst)
    && (gateway.Some? ==> AttrBytes(m, 36, 5, gateway.value))
    && (dev.Some? ==> AttrBytes(m, if gateway.Some? then 44 else 36, 4, Le32(dev.value)))
    && |m| == 36 + (if gateway.Some? then 8 else 0) + if dev.Some? then 8 else 0
  }

  lemma RouteAt(plen: Byte, dst: seq<Byte>, gateway: Option<seq<Byte>>, dev: Option<int>)
    requires |dst| == 4 && (gateway.Some? ==> |gateway.value| == 4) && (dev.Some? ==> 0 <= dev.value < 0x8000_0000)
    ensures var h := RouteHead(plen, if gateway.Some? then RT_SCOPE_UNIVERSE else RT_SCOPE_LINK);
            var body := EncodeAttrs(RouteAttrs(dst, gateway, dev));
            |body| < 0x1_0000 && RouteBytes(Message(h, body), plen, dst, gateway, dev)
  {
    hide EncodeAttr, EncodeAttrs, U16, U32, Le32, Le16, AttrBytes, Bytes, HeaderBytes;
    var h := RouteHead(plen, if gateway.Some? then RT_SCOPE_UNIVERSE else RT_SCOPE_LINK);
    var g := if gateway.Some? then [Attr(RTA_GATEWAY, gateway.value)] else [];
    var d := if dev.Some? then [Attr(RTA_OIF, Le32(dev.value))] else [];
    var attrs := RouteAttrs(dst, gateway, dev);
    assert attrs == [Attr(RTA_DST, dst)] + (g + d);
    MoreAttrs(Attr(RTA_DST, dst), g + d);
    GatewayAndDevice(gateway, dev);
    MessageBytes(h, EncodeAttrs(attrs));
    var m := Message(h, EncodeAttrs(attrs));
    RouteAttrsAt(m, dst, gateway, dev);
    RouteFixed(m, h);
  }

  lemma RouteAttrsAt(m: seq<Byte>, dst: seq<Byte>, gateway: Option<seq<Byte>>, dev: Option<int>)
    requires |dst| == 4 && (gateway.Some? ==> |gateway.value| == 4) && (dev.Some? ==> 0 <= dev.value < 0x8000_0000)
    requires |m| >= 28
    requires var g := if gateway.Some? then [Attr(RTA_GATEWAY, gateway.value)] else [];
             var d := if dev.Some? then [Attr(RTA_OIF, Le32(dev.value))] else [];
             m[28..] == EncodeAttr(Attr(RTA_DST, dst)) + EncodeAttrs(g + d)
    ensures AttrBytes(m, 28, 1, dst)
    ensures gateway.Some? ==> AttrBytes(m, 36, 5, gateway.value)
    ensures dev.Some? ==> AttrBytes(m, if gateway.Some? then 44 else 36, 4, Le32(dev.value))
  {
    hide EncodeAttr, EncodeAttrs, Le32, AttrBytes;
    GatewayAndDevice(gateway, dev);
    var g := if gateway.Some? then [Attr(RTA_GATEWAY, gateway.value)] else [];
    var d := if dev.Some? then [Attr(RTA_OIF, Le32(dev.value))] else [];
    AttrAt(m, 28, Attr(RTA_DST, dst), EncodeAttrs(g + d));
    if gateway.Some? {
      AttrAt(m, 36, g[0], EncodeAttrs(d));
    }
    if dev.Some? {
      AttrAt(m, if gateway.Some? then 44 else 36, d[0], []);
    }
  }

  lemma GatewayAndDevice(gateway: Option<seq<Byte>>, dev: Option<int>)
    requires (gateway.Some? ==> |gateway.value| == 4) && (dev.Some? ==> 0 <= dev.value < 0x8000_0000)
    ensures var g := if gateway.Some? then [Attr(RTA_GATEWAY, gateway.value)] else [];
            var d := if dev.Some? then [Attr(RTA_OIF, Le32(dev.value))] else [];
            && EncodeAttrs(d) == (if dev.Some? then EncodeAttr(d[0]) + [] else [])
            && EncodeAttrs(g + d) == (if gateway.Some? then EncodeAttr(g[0]) else []) + EncodeAttrs(d)
            && |EncodeAttrs(g + d)| == (if gateway.Some? then 8 else 0) + if dev.Some? then 8 else 0
  {
    hide EncodeAttr, Le32;
    var g := if gateway.Some? then [Attr(RTA_GATEWAY, gateway.value)] else [];
    var d := if dev.Some? then [Attr(RTA_OIF, Le32(dev.value))] else [];
    if dev.Some? {
      OneAttr(d[0]);
    }
    if gateway.Some? {
      MoreAttrs(g[0], d);
    } else {
      assert g + d == d;
    }
  }

  lemma RouteFixed(m: seq<Byte>, h: Head)
    requires |m| >= 28 && |h.fixed| == 12 && m[16..28] == h.fixed && h.fixed[8..12] == [0, 0, 0, 0]
    ensures m[16] == h.fixed[0] && m[17] == h.fixed[1] && m[18] == h.fixed[2] && m[19] == h.fixed[3]
    ensures m[20] == h.fixed[4] && m[21] == h.fixed[5] && m[22] == h.fixed[6] && m[23] == h.fixed[7]
    ensures U32(m, 24) == 0
  {
    assert forall i :: 0 <= i < 12 ==> m[16 + i] == m[16..28][i];
    assert m[24..28] == h.fixed[8..12];
    ZeroFields();
    U32OfLe32(m, 24, 0);
  }
}
