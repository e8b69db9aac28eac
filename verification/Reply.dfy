/** The walk over a netlink reply, looking for the acknowledgement of a request. */
module Reply {
  import opened Common
  import opened Netlink

  const NLMSG_ERROR := 2
  const NLMSG_DONE := 3

  /** A message of a reply: its type, its sequence number, the bytes behind its header, and the four bytes
      of the buffer behind its header, where an error message has its code. */
  datatype Msg = Msg(kind: int, seqno: int, payload: seq<Byte>, field: seq<Byte>)

  /** The messages of a reply, as long as headers and lengths are sound; `behind` is what the buffer holds
      behind the reply. */
  function Messages(s: seq<Byte>, behind: seq<Byte>): seq<Msg>
    decreases |s|
  {
    if |s| < 16 then []
    else
      var len := U32(s, 0);
      if len < 16 || len > |s| then []
      else
        [Msg(U16(s, 4), U32(s, 8), s[16..len], Cut(s[16..] + behind, 4))]
        + Messages(s[if Align(len) <= |s| then Align(len) else |s|..], behind)
  }

  /** A message that carries four bytes has them there; only a shorter one borrows from what follows it. */
  lemma {:induction false} FieldOfPayload(s: seq<Byte>, behind: seq<Byte>)
    ensures forall m :: m in Messages(s, behind) && |m.payload| >= 4 ==> m.field == m.payload[..4]
    decreases |s|
  {
    if |s| >= 16 && 16 <= U32(s, 0) <= |s| {
      var len := U32(s, 0);
      FieldOfPayload(s[if Align(len) <= |s| then Align(len) else |s|..], behind);
      if len >= 20 {
        assert (s[16..] + behind)[..4] == s[16..len][..4];
      }
    }
  }

  /** A message that settles the request. */
  predicate Decisive(m: Msg, seqno: int, kind: int) {
    m.seqno == seqno && (m.kind == NLMSG_ERROR || m.kind == kind || m.kind == NLMSG_DONE)
  }

  /** The error code of an error message can be read: four bytes of the buffer follow its header. */
  predicate Readable(m: Msg) {
    m.kind == NLMSG_ERROR ==> |m.field| == 4
  }

  /** The first decisive message is readable, if there is one. */
  predicate FirstReadable(ms: seq<Msg>, seqno: int, kind: int) {
    ms != [] ==> if Decisive(ms[0], seqno, kind) then Readable(ms[0]) else FirstReadable(ms[1..], seqno, kind)
  }

  /** Success: not an error message, or one with code 0, which is an acknowledgement. */
  predicate Good(m: Msg) {
    m.kind == NLMSG_ERROR ==> |m.field| == 4 && U32(m.field, 0) == 0
  }

  /** The first decisive message decides; without one the request has failed. */
  ghost predicate Succeeds(ms: seq<Msg>, seqno: int, kind: int) {
    exists i :: 0 <= i < |ms| && Decisive(ms[i], seqno, kind) && Good(ms[i]) &&
                forall j :: 0 <= j < i ==> !Decisive(ms[j], seqno, kind)
  }

  /** A reply that leaves four bytes of the buffer free is always readable. */
  lemma {:induction false} RoomIsEnough(s: seq<Byte>, behind: seq<Byte>, seqno: int, kind: int)
    requires |behind| >= 4
    ensures FirstReadable(Messages(s, behind), seqno, kind)
    decreases |s|
  {
    if |s| >= 16 && 16 <= U32(s, 0) <= |s| {
      var len := U32(s, 0);
      var rest := Messages(s[if Align(len) <= |s| then Align(len) else |s|..], behind);
      RoomIsEnough(s[if Align(len) <= |s| then Align(len) else |s|..], behind, seqno, kind);
      assert Messages(s, behind)[1..] == rest;
    }
  }

  lemma SucceedsUnfold(ms: seq<Msg>, seqno: int, kind: int)
    requires ms != []
    ensures Succeeds(ms, seqno, kind) ==
            if Decisive(ms[0], seqno, kind) then Good(ms[0]) else Succeeds(ms[1..], seqno, kind)
  {
  }

  lemma U32Slice(s: seq<Byte>, a: nat, b: nat, i: nat)
    requires a <= b <= |s| && i + 4 <= b - a
    ensures U32(s[a..b], i) == U32(s, a + i) && U16(s[a..b], i) == U16(s, a + i)
  {
  }

  /** NLMSG_OK at offset off, with what is left of the reply from there. */
  predicate HeaderOk(s: seq<Byte>, off: nat, len: int)
    requires len >= 0 ==> off + len == |s|
  {
    len >= 16 && U32(s, off) >= 16 && U32(s, off) <= len
  }

  /** The messages from offset off on: one step of the walk. */
  lemma NextMessage(s: seq<Byte>, behind: seq<Byte>, off: nat)
    requires off <= |s|
    ensures !HeaderOk(s, off, |s| - off) ==> Messages(s[off..], behind) == []
    ensures HeaderOk(s, off, |s| - off) ==>
      var mlen := U32(s, off);
      Messages(s[off..], behind)
      == [Msg(U16(s, off + 4), U32(s, off + 8), s[off + 16..off + mlen], Cut(s[off + 16..] + behind, 4))]
         + (if off + Align(mlen) <= |s| then Messages(s[off + Align(mlen)..], behind) else [])
  {
    hide U16, U32;
    var tail := s[off..];
    assert tail == s[off..|s|];
    if |tail| >= 16 {
      U32Slice(s, off, |s|, 0);
      U32Slice(s, off, |s|, 4);
      U32Slice(s, off, |s|, 8);
      var mlen := U32(s, off);
      if 16 <= mlen <= |tail| {
        assert tail[16..mlen] == s[off + 16..off + mlen] && tail[16..] == s[off + 16..];
        if Align(mlen) <= |tail| {
          assert tail[Align(mlen)..] == s[off + Align(mlen)..];
        } else {
          assert tail[|tail|..] == [];
        }
      }
    }
  }

  /** The loop of nl_send_recv over the first `received` bytes of its buffer: `off` is the message
      pointer, `len` what NLMSG_NEXT leaves, possibly negative. Every header it reads lies in the received
      bytes, and the error code in the buffer. */
  method Acknowledged(buf: array<Byte>, received: nat, seqno: int, kind: int) returns (ok: bool)
    requires received <= buf.Length
    requires FirstReadable(Messages(buf[..received], buf[received..]), seqno, kind)
    ensures ok <==> Succeeds(Messages(buf[..received], buf[received..]), seqno, kind)
  {
    hide Messages, U32, U16, Succeeds, Cut;
    var s := buf[..received];
    ghost var behind := buf[received..];
    var off: nat, len: int := 0, received;
    ghost var ms := Messages(s, behind);
    assert s[0..] == s;
    NextMessage(s, behind, 0);
    while HeaderOk(s, off, len)
      invariant len >= 0 ==> off + len == |s| && ms == Messages(s[off..], behind)
      invariant len < 0 ==> ms == []
      invariant !HeaderOk(s, off, len) ==> ms == []
      invariant FirstReadable(ms, seqno, kind)
      invariant Succeeds(ms, seqno, kind) == Succeeds(Messages(s, behind), seqno, kind)
      decreases len
    {
      NextMessage(s, behind, off);
      SucceedsUnfold(ms, seqno, kind);
      var mlen := U32(s, off);
      if U32(s, off + 8) == seqno {
        var t := U16(s, off + 4);
        if t == NLMSG_ERROR {
          FieldInBuffer(buf[..], received, off);
          return U32(buf[..], off + 16) == 0;
        }
        if t == kind || t == NLMSG_DONE {
          return true;
        }
      }
      ms := ms[1..];
      off, len := off + Align(mlen), len - Align(mlen);
      if len >= 0 {
        NextMessage(s, behind, off);
      }
    }
    NothingSucceeds(seqno, kind);
    return false;
  }

  /** The error field is read from the buffer, at its place behind the header. */
  lemma FieldInBuffer(buf: seq<Byte>, received: nat, off: nat)
    requires off + 16 <= received <= |buf|
    requires |Cut(buf[..received][off + 16..] + buf[received..], 4)| == 4
    ensures off + 20 <= |buf| && U32(Cut(buf[..received][off + 16..] + buf[received..], 4), 0) == U32(buf, off + 16)
  {
    assert buf[..received][off + 16..] + buf[received..] == buf[off + 16..];
  }

  lemma NothingSucceeds(seqno: int, kind: int)
    ensures !Succeeds([], seqno, kind)
  {
  }

  // ---------- Replies as bytes ----------

  /** A 20-byte message of type 2 for sequence number 6, with these four bytes behind its header: the request
      has succeeded exactly when they are zero. */
  lemma ErrorReply(code: seq<Byte>, behind: seq<Byte>, kind: int)
    requires |code| == 4
    ensures var s := [20, 0, 0, 0, 2, 0, 0, 0, 6, 0, 0, 0, 9, 0, 0, 0] + code;
            Succeeds(Messages(s, behind), 6, kind) <==> code == [0, 0, 0, 0]
  {
    var s := [20, 0, 0, 0, 2, 0, 0, 0, 6, 0, 0, 0, 9, 0, 0, 0] + code;
    assert s[16..] == code && s[20..] == [];
    assert Cut(s[16..] + behind, 4) == code;
    OneMessage(s, behind, 6, kind, 20);
  }

  /** A bare 16-byte message of another type for sequence number 6: success exactly for type 3 and the type
      asked for. */
  lemma OtherReply(t: Byte, behind: seq<Byte>, kind: int)
    requires t != 2
    ensures var s := [16, 0, 0, 0, t, 0, 0, 0, 6, 0, 0, 0, 9, 0, 0, 0];
            Succeeds(Messages(s, behind), 6, kind) <==> t == 3 || t as int == kind
  {
    OneMessage([16, 0, 0, 0, t, 0, 0, 0, 6, 0, 0, 0, 9, 0, 0, 0], behind, 6, kind, 16);
  }

  /** A message with another sequence number settles nothing. */
  lemma ForeignReply(t: Byte, code: seq<Byte>, behind: seq<Byte>, kind: int)
    requires |code| == 4
    ensures var s := [20, 0, 0, 0, t, 0, 0, 0, 7, 0, 0, 0, 9, 0, 0, 0] + code;
            !Succeeds(Messages(s, behind), 6, kind)
  {
    var s := [20, 0, 0, 0, t, 0, 0, 0, 7, 0, 0, 0, 9, 0, 0, 0] + code;
    assert s[20..] == [];
    OneMessage(s, behind, 6, kind, 20);
  }

  /** A reply of a single message. */
  lemma OneMessage(s: seq<Byte>, behind: seq<Byte>, seqno: int, kind: int, len: nat)
    requires |s| == len >= 16 && len % 4 == 0 && U32(s, 0) == len
    ensures var m := Msg(U16(s, 4), U32(s, 8), s[16..len], Cut(s[16..] + behind, 4));
            Messages(s, behind) == [m] && (Succeeds([m], seqno, kind) <==> Decisive(m, seqno, kind) && Good(m))
  {
    hide U16, U32, Succeeds, Cut;
    var m := Msg(U16(s, 4), U32(s, 8), s[16..len], Cut(s[16..] + behind, 4));
    assert Messages([], behind) == [] && s[len..] == [];
    SucceedsUnfold([m], seqno, kind);
    assert [m][1..] == [];
    NothingSucceeds(seqno, kind);
  }
}
