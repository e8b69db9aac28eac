/** The growing string buffer. Appending copies bytes without a terminator and relies on everything
    behind the text being zero already. */
module DString {
  import opened Common

  const DSTR_SIZE := 200
  const START_VSNBUFF := 16

  // ---------- C strings in character arrays ----------

  /** The characters before the first NUL. */
  function Text(s: seq<char>): (t: string)
    ensures |t| <= |s| && t == s[..|t|] && NUL !in t
    ensures NUL in s ==> |t| < |s| && s[|t|] == NUL
    ensures NUL !in s ==> t == s
  {
    if s == [] || s[0] == NUL then [] else [s[0]] + Text(s[1..])
  }

  /** The text is what precedes the first NUL, however found. */
  lemma TextIs(s: seq<char>, n: nat)
    requires n < |s| && s[n] == NUL && NUL !in s[..n]
    ensures Text(s) == s[..n]
  {
  }

  /** The length of the text from index `at` on. */
  method StrLen(a: array<char>, at: nat := 0) returns (n: nat)
    requires at <= a.Length && NUL in a[at..]
    ensures n == |Text(a[at..])| && at + n < a.Length
    ensures at == 0 ==> n == |Text(a[..])|
  {
    n := 0;
    ghost var s := a[at..];
    while a[at + n] != NUL
      invariant at + n < a.Length && forall i :: 0 <= i < n ==> s[i] != NUL
      decreases a.Length - n
    {
      n := n + 1;
    }
    TextIs(s, n);
    assert a[0..] == a[..];
  }

  /** s with the characters from `at` on replaced by str. */
  function Overwritten(s: seq<char>, at: nat, str: string): (r: seq<char>)
    requires at + |str| <= |s|
    ensures |r| == |s|
  {
    s[..at] + str + s[at + |str|..]
  }

  /** memcpy of a text into an array, without a terminator. */
  method CopyIn(a: array<char>, at: nat, str: string)
    requires at + |str| <= a.Length
    modifies a
    ensures a[..] == Overwritten(old(a[..]), at, str)
  {
    for i := 0 to |str|
      invariant a[..] == old(a[..at]) + str[..i] + old(a[at + i..])
    {
      a[at + i] := str[i];
    }
  }

  /** All bytes from index n on are zero. */
  ghost predicate ZeroFrom(s: seq<char>, n: nat) {
    forall i :: n <= i < |s| ==> s[i] == NUL
  }

  /** Writing text over zeros, with a zero left behind it, appends it. */
  lemma AppendedText(s: seq<char>, str: string)
    requires NUL in s && NUL !in str && ZeroFrom(s, |Text(s)|) && |Text(s)| + |str| < |s|
    ensures var n := |Text(s)|;
            var s' := Overwritten(s, n, str);
            Text(s') == Text(s) + str && ZeroFrom(s', |Text(s')|) && NUL in s'
  {
    var n := |Text(s)|;
    var s' := Overwritten(s, n, str);
    var m := n + |str|;
    assert s'[m] == s[m] == NUL;
    assert s'[..m] == Text(s) + str;
    TextIs(s', m);
  }

  // ---------- The buffer ----------

  /** What to do with `data` when it is replaced: nothing, free it, or call a user's function. */
  datatype FreeProc = Static | Dynamic | Custom

  class Dstr {
    const sbuf: array<char>
    var data: array<char>
    var freeProc: FreeProc
    var appendData: array?<char>
    var appendDataSize: nat
    var appendUsed: nat
    ghost var owned: set<array<char>>      // blocks this buffer still has to release

    ghost predicate Valid()
      reads this, data, appendData
    {
      && sbuf.Length == DSTR_SIZE + 1 && NUL in data[..]
      && (appendData == null ==> appendDataSize == 0)
      && (appendData != null ==>
            && data == appendData && appendData != sbuf && freeProc == Static
            && appendDataSize == data.Length && appendUsed <= |Text(data[..])|
            && ZeroFrom(data[..], |Text(data[..])|))
      && (freeProc != Static ==> data != sbuf)
      && owned == (if appendData != null then {appendData} else {}) + (if freeProc != Static then {data} else {})
    }

    /** What arg_dstr_cstr shows. */
    ghost function Contents(): string
      reads this, data
    {
      Text(data[..])
    }

    constructor ()
      ensures Valid() && Contents() == "" && owned == {} && fresh(sbuf) && data == sbuf && appendData == null
    {
      sbuf := new char[DSTR_SIZE + 1](_ => NUL);
      data := sbuf;
      freeProc, appendData, appendDataSize, appendUsed, owned := Static, null, 0, 0, {};
      new;
      assert data[..][0] == NUL;
    }

    /** Releases one owned block, which must still be owned. */
    ghost method Release(p: array<char>)
      requires p in owned
      modifies this`owned
      ensures owned == old(owned) - {p}
    {
      owned := owned - {p};
    }

    /** Releases `data` by its free procedure. */
    method Free()
      requires freeProc != Static ==> data in owned
      modifies this`owned, this`freeProc
      ensures freeProc == Static && owned == old(owned) - (if old(freeProc) != Static then {data} else {})
    {
      if freeProc != Static {
        Release(data);
        freeProc := Static;
      }
    }

    method ReleaseAppend()
      requires appendData != null ==> appendData in owned
      modifies this`owned, this`appendData, this`appendDataSize
      ensures old(appendData) != null && old(appendDataSize) > 0 ==> appendData == null && appendDataSize == 0
      ensures !(old(appendData) != null && old(appendDataSize) > 0) ==>
        appendData == old(appendData) && appendDataSize == old(appendDataSize) && owned == old(owned)
      ensures old(appendData) != null && old(appendDataSize) > 0 ==> owned == old(owned) - {old(appendData)}
    {
      if appendData != null && appendDataSize > 0 {
        Release(appendData);
        appendData := null;
        appendDataSize := 0;
      }
    }

    method Reset()
      requires Valid()
      modifies this, sbuf
      ensures Valid() && Contents() == "" && owned == {} && appendData == null
    {
      Free();
      ReleaseAppend();
      data := sbuf;
      sbuf[0] := NUL;
      assert data[..][0] == NUL;
    }

    /** Makes the append buffer the data, with room for `space` more bytes. */
    method SetupAppendBuf(space: nat)
      requires Valid() && space >= 1
      modifies this
      ensures Valid() && Contents() == old(Contents())
      ensures appendData != null && (appendData == old(appendData) || fresh(appendData))
      ensures |Contents()| + space <= data.Length
    {
      hide Text, ZeroFrom;
      Measure();
      var total := space + appendUsed;
      if total >= appendDataSize {
        Grow(if total < 100 then 200 else total * 2);
      } else if data != appendData {
        assert false;                    // without an append buffer its size is 0
      }
    }

    /** Sets appendUsed to the length of the text, measuring only when it may be stale. */
    method Measure()
      requires Valid()
      modifies this`appendUsed
      ensures Valid() && appendUsed == |Contents()|
    {
      if data != appendData {
        if appendDataSize > 500 {
          assert false;                  // there is no append buffer to give up: it is always the data
        }
        appendUsed := StrLen(data);
      } else if data[appendUsed] != NUL {
        appendUsed := StrLen(data);
      }
    }

    /** Moves the text to a new append buffer of `total` bytes and makes that the data. */
    method Grow(total: nat)
      requires Valid() && appendUsed == |Contents()| < total
      modifies this
      ensures Valid() && Contents() == old(Contents())
      ensures appendData != null && fresh(appendData) && data.Length == total
    {
      hide Text, ZeroFrom, Overwritten;
      var newbuf := new char[total](_ => NUL);
      ghost var zeros := newbuf[..];
      AllZero(zeros);
      CopyIn(newbuf, 0, data[..appendUsed]);
      CopyOverZeros(zeros, newbuf[..], data[..], appendUsed);
      if appendData != null {
        Release(appendData);
      }
      appendData, appendDataSize := newbuf, total;
      owned := owned + {newbuf};
      Free();
      data := appendData;
    }

    method Cat(str: string)
      requires Valid() && NUL !in str
      modifies this, appendData
      ensures Valid() && Contents() == old(Contents()) + str
      ensures appendData != null && (appendData == old(appendData) || fresh(appendData))
    {
      hide Text, ZeroFrom, Overwritten;
      SetupAppendBuf(|str| + 1);
      var n := StrLen(data);
      AppendedText(data[..], str);
      CopyIn(data, n, str);
    }

    /** Appending the character NUL changes nothing. */
    method CatChar(c: char)
      requires Valid()
      modifies this, appendData
      ensures Valid() && Contents() == old(Contents()) + if c == NUL then "" else [c]
      ensures appendData != null && (appendData == old(appendData) || fresh(appendData))
    {
      hide Text, ZeroFrom, Overwritten;
      SetupAppendBuf(2);
      var n := StrLen(data);
      if c == NUL {
        SameByte(data[..], n);
      } else {
        AppendedText(data[..], [c]);
      }
      CopyIn(data, n, [c]);
    }

    /** Appends formatted output, found by printing into ever larger buffers; nothing without a format.
        `formatted` is what the format produces; a NUL in it ends what is appended. */
    method CatFormat(fmt: Option<string>, formatted: string)
      requires Valid()
      modifies this, appendData
      ensures Valid() && Contents() == old(Contents()) + if fmt.None? then "" else Text(formatted)
      ensures fmt.Some? ==> appendData != null
      ensures appendData == old(appendData) || fresh(appendData)
    {
      hide Text;
      if fmt.None? {
        return;
      }
      var n := if 2 * |fmt.value| < START_VSNBUFF then START_VSNBUFF else 2 * |fmt.value|;
      var r := |formatted|;
      var buff := Text(Printed(formatted, n));
      PrintedText(formatted, n);
      while |buff| >= n
        invariant n >= START_VSNBUFF && buff == Text(Printed(formatted, n))
        invariant |buff| < n ==> buff == Text(formatted)
        invariant |buff| >= n ==> n <= |Text(formatted)|
        modifies {}
        decreases |Text(formatted)| - n
      {
        n := if r > n then r else n + n;
        buff := Text(Printed(formatted, n));
        PrintedText(formatted, n);
      }
      Cat(buff);
    }

    /** What a set to `next` releases at its end: the old data, unless it is the new, and the append buffer. */
    ghost function ReleasedBySet(next: array<char>): set<array<char>>
      reads this
    {
      (if freeProc != Static && data != next then {data} else {}) + (if appendData != null then {appendData} else {})
    }

    /** An adopted buffer outlives the set exactly when it is not the append buffer. */
    lemma AdoptedSurvivesIff(str: array<char>)
      requires Valid()
      ensures str !in ReleasedBySet(str) <==> (str == data ==> appendData == null)
    {
    }

    /** The string at index `at` may be given to Set. A volatile one in the static buffer must not meet its own
        copy; an adopted one must outlive the set, and the static buffer can only be adopted as static. */
    ghost predicate MaySet(str: array<char>, at: nat, volatile: bool, proc: FreeProc)
      reads this, str
    {
      && at <= str.Length && NUL in str[at..]
      && (volatile && str == sbuf ==> !Overlap(at, |Text(str[at..])|))
      && (!volatile ==> at == 0 && str !in ReleasedBySet(str) && (str == sbuf ==> proc == Static))
    }

    /** Replaces the contents: by nothing, by a private copy of a volatile string, which may be part of the
        old contents, or by the caller's own buffer with the given way to free it, even the one it has. The
        string starts at index `at` of its array. */
    method Set(str: array?<char>, at: nat, volatile: bool, proc: FreeProc)
      requires Valid() && (str != null ==> MaySet(str, at, volatile, proc))
      modifies this, sbuf
      ensures Valid() && Contents() == if str == null then "" else old(Text(str[at..]))
      ensures str != null && !volatile ==> data == str && freeProc == proc
      ensures appendData == null
    {
      hide Text, ZeroFrom, Overwritten;
      var oldProc, oldResult := freeProc, data;
      if str == null {
        sbuf[0] := NUL;
        data, freeProc := sbuf, Static;
        assert data[..][0] == NUL;
        EmptyText(data[..]);
      } else if volatile {
        var dynamic;
        data, dynamic := Copied(str, at);
        freeProc := if dynamic then Dynamic else Static;
        owned := owned + if dynamic then {data} else {};
      } else {
        assert str[0..] == str[..];
        data, freeProc := str, proc;
        owned := owned - {str} + if proc != Static then {str} else {};
      }
      if oldProc != Static && oldResult != data {
        Release(oldResult);
      }
      ReleaseAppend();
    }

    /** A copy of a text, in the static buffer if that is large enough. */
    method Copied(str: array<char>, at: nat) returns (to: array<char>, dynamic: bool)
      requires at <= str.Length && NUL in str[at..] && sbuf.Length == DSTR_SIZE + 1
      requires str == sbuf ==> !Overlap(at, |Text(str[at..])|)
      modifies sbuf
      ensures if dynamic then fresh(to) else to == sbuf
      ensures NUL in to[..] && Text(to[..]) == old(Text(str[at..]))
    {
      hide Text, Overwritten;
      var length := StrLen(str, at);
      dynamic := length > DSTR_SIZE;
      if dynamic {
        to := new char[length + 1];
      } else {
        to := sbuf;
      }
      CopyString(to, str, at, length);
    }

    /** strcpy: the text and its terminator. */
    method CopyString(to: array<char>, from: array<char>, at: nat, length: nat)
      requires at <= from.Length && NUL in from[at..] && length == |Text(from[at..])| < to.Length
      requires to == from ==> !Overlap(at, length)
      modifies to
      ensures NUL in to[..] && Text(to[..]) == old(Text(from[at..]))
    {
      hide Text, Overwritten;
      ghost var t := from[at..][..length];
      assert t == from[at..at + length];
      CopyIn(to, 0, from[at..at + length] + [NUL]);
      assert to[..][length] == NUL && to[..][..length] == t by {
        StringPrefix(t, to[..], old(to[..]));
      }
      TextIs(to[..], length);
    }
  }

  /** Copying a text of n characters and its terminator from index `at` of a buffer to its start meets
      what is still to be copied. */
  ghost predicate Overlap(at: nat, n: nat) {
    exists i: nat :: Within(i, at, at + n) && Within(i, 0, n)
  }

  predicate Within(i: nat, first: nat, last: nat) {
    first <= i <= last
  }

  lemma OverlapIff(at: nat, n: nat)
    ensures Overlap(at, n) <==> at <= n
  {
    assert at <= n ==> Within(at, at, at + n) && Within(at, 0, n);
  }

  // ---------- Any sequence of operations ----------

  datatype Op =
    | CatOp(s: string) | CharOp(c: char) | FormatOp(fmt: Option<string>, formatted: string)
    | NullOp | CopyOp(s: string) | AdoptOp(s: string, proc: FreeProc)      // the three ways to set
    | ResetOp
  {
    /** C strings have no NUL inside. */
    predicate Ok() {
      CatOp? || CopyOp? || AdoptOp? ==> NUL !in s
    }

    function Apply(t: string): string {
      match this
      case CatOp(s) => t + s
      case CharOp(c) => t + if c == NUL then "" else [c]
      case FormatOp(fmt, formatted) => t + if fmt.None? then "" else Text(formatted)
      case NullOp => ""
      case CopyOp(s) => s
      case AdoptOp(s, _) => s
      case ResetOp => ""
    }
  }

  /** What the buffer should show after the operations. */
  function Meaning(ops: seq<Op>): string {
    if ops == [] then "" else ops[|ops| - 1].Apply(Meaning(ops[..|ops| - 1]))
  }

  method PerformOne(d: Dstr, op: Op)
    requires d.Valid() && op.Ok()
    modifies d, d.sbuf, d.appendData
    ensures d.Valid() && d.Contents() == op.Apply(old(d.Contents()))
    ensures d.appendData == old(d.appendData) || d.appendData == null || fresh(d.appendData)
  {
    hide Text, Dstr.Valid;
    match op
    case CatOp(s) => d.Cat(s);
    case CharOp(c) => d.CatChar(c);
    case FormatOp(fmt, formatted) => d.CatFormat(fmt, formatted);
    case NullOp => d.Set(null, 0, false, Static);
    case CopyOp(s) =>
      var str := CString(s);
      d.Set(str, 0, true, Static);
    case AdoptOp(s, proc) =>
      var str := CString(s);
      d.Set(str, 0, false, proc);
    case ResetOp => d.Reset();
  }

  /** A fresh array holding a text. */
  method CString(s: string) returns (str: array<char>)
    requires NUL !in s
    ensures fresh(str) && NUL in str[0..] && Text(str[0..]) == s
  {
    hide Text;
    str := new char[|s| + 1](i requires 0 <= i <= |s| => if i < |s| then s[i] else NUL);
    assert str[0..][|s|] == NUL && str[0..][..|s|] == s;
    TextIs(str[0..], |s|);
  }

  /** After any operations on a new buffer, it shows what they mean. */
  method Perform(ops: seq<Op>) returns (d: Dstr)
    requires forall i :: 0 <= i < |ops| ==> ops[i].Ok()
    ensures d.Valid() && d.Contents() == Meaning(ops)
  {
    hide Text, Dstr.Valid;
    d := new Dstr();
    for i := 0 to |ops|
      invariant fresh(d) && fresh(d.sbuf) && (d.appendData == null || fresh(d.appendData))
      invariant d.Valid() && d.Contents() == Meaning(ops[..i])
    {
      assert ops[..i + 1][..i] == ops[..i];
      PerformOne(d, ops[i]);
    }
    assert ops[..|ops|] == ops;
  }

  lemma StringPrefix(t: string, s': seq<char>, s: seq<char>)
    requires |t| < |s| && s' == Overwritten(s, 0, t + [NUL])
    ensures s'[|t|] == NUL && s'[..|t|] == t
  {
  }

  lemma EmptyText(s: seq<char>)
    requires s != [] && s[0] == NUL
    ensures Text(s) == ""
  {
  }

  /** What a buffer for n characters receives. */
  function Printed(formatted: string, n: nat): string {
    if |formatted| <= n then formatted else formatted[..n]
  }

  /** A buffer that is not filled to the brim holds the whole text. */
  lemma PrintedText(formatted: string, n: nat)
    ensures var t := Text(Printed(formatted, n));
            (|t| < n ==> t == Text(formatted)) && (|t| >= n ==> n <= |Text(formatted)|)
  {
    if n < |formatted| {
      PrefixText(formatted, n);
    }
  }

  lemma PrefixText(s: seq<char>, n: nat)
    requires n <= |s|
    ensures Text(s[..n]) == if |Text(s)| <= n then Text(s) else Text(s)[..n]
  {
    hide Text;
    var k := |Text(s)|;
    if k < n {
      assert s[..n][..k] == s[..k];
      TextIs(s[..n], k);
    } else {
      assert s[..n] == Text(s)[..n];
    }
  }

  lemma SameByte(s: seq<char>, n: nat)
    requires n < |s| && s[n] == NUL
    ensures Overwritten(s, n, [NUL]) == s
  {
  }

  lemma AllZero(s: seq<char>)
    requires forall i :: 0 <= i < |s| ==> s[i] == NUL
    ensures ZeroFrom(s, 0)
  {
  }

  /** A zeroed buffer into which a text was copied holds it, with zeros behind. */
  lemma CopyOverZeros(zeros: seq<char>, buf: seq<char>, s: seq<char>, n: nat)
    requires NUL in s && n == |Text(s)| < |zeros| && ZeroFrom(zeros, 0)
    requires buf == Overwritten(zeros, 0, s[..n])
    ensures NUL in buf && Text(buf) == Text(s) && ZeroFrom(buf, n)
  {
    assert buf[n] == NUL;
    assert buf[..n] == s[..n] == Text(s);
    TextIs(buf, n);
  }
}
