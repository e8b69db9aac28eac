/** Writing an option's syntax into a fixed buffer. The buffer holds one byte more than the bound `end`
    that the pieces are given, because the bounded strncat may put its terminator there. */
module CatOption {
  import opened Common

  /** The buffer shows text t: t, then a terminator. */
  ghost predicate Shows(buf: array<char>, t: string)
    reads buf
  {
    NUL !in t && |t| < buf.Length && buf[..|t|] == t && buf[|t|] == NUL
  }

  lemma CutKeepsText(s: string, n: nat)
    requires NUL !in s
    ensures NUL !in Cut(s, n)
  {
  }

  /** arg_cat: finds the end of the text from `pos` on, appends what fits below end - 1, terminates. */
  method Cat(buf: array<char>, pos: nat, end: nat, src: string, ghost t: string) returns (pos': nat)
    requires pos < end < buf.Length && Shows(buf, t) && pos <= |t| <= end && NUL !in src
    modifies buf
    ensures Shows(buf, Cut(t + src, end - 1)) && pos' == |Cut(t + src, end - 1)|
  {
    pos' := pos;
    while pos' < end - 1 && buf[pos'] != NUL
      invariant pos <= pos' <= end - 1 && pos' <= |t|
    {
      assert pos' < |t|;
      pos' := pos' + 1;
    }
    assert pos' == if |t| <= end - 1 then |t| else end - 1 by {
      assert pos' < |t| ==> buf[pos'] == t[pos'];
    }
    ghost var base := t[..pos'];
    assert buf[..pos'] == base;
    var i := 0;
    while pos' < end - 1 && i < |src|
      invariant i <= |src| && pos' == |base| + i <= end - 1
      invariant buf[..pos'] == base + src[..i]
    {
      buf[pos'] := src[i];
      pos', i := pos' + 1, i + 1;
    }
    buf[pos'] := NUL;
    assert buf[..pos'] == base + src[..i] == Cut(t + src, end - 1);
    CutKeepsText(t + src, end - 1);
  }

  /** strncat at the end of the text, at most end - pos characters: the terminator may land on `end`. */
  method Strncat(buf: array<char>, pos: nat, end: nat, src: string, ghost t: string)
    requires Shows(buf, t) && pos == |t| < end < buf.Length && NUL !in src
    modifies buf
    ensures Shows(buf, Cut(t + src, end))
  {
    var n := if |src| < end - pos then |src| else end - pos;
    for i := 0 to n
      invariant buf[..pos + i] == t + src[..i]
    {
      buf[pos + i] := src[i];
    }
    buf[pos + n] := NUL;
    assert buf[..pos + n] == t + src[..n] == Cut(t + src, end);
  }

  // ---------- What the text should be ----------

  /** "-a|-b" */
  function ShortList(s: string, sep: string): string {
    if s == "" then "" else ['-', s[0]] + (if |s| == 1 then "" else sep) + ShortList(s[1..], sep)
  }

  /** "--alpha|--beta": the separator stands for each comma. */
  function LongList(s: string, sep: string): string
    decreases |s|
  {
    if s == "" then ""
    else
      match IndexOf(s, ',')
      case None => "--" + s
      case Some(k) => "--" + s[..k] + sep + LongList(s[k + 1..], sep)
  }

  function Bracketed(d: string, optvalue: bool): string {
    if optvalue then "[" + d + "]" else d
  }

  function ValuePart(shorts: Option<string>, longs: Option<string>, datatype_: Option<string>, optvalue: bool): string {
    if datatype_.None? then ""
    else (if longs.Some? then "=" else if shorts.Some? then " " else "")
         + Bracketed(datatype_.value, optvalue)
  }

  /** The joined short options, long options and value of an entry. */
  function Syntax(shorts: Option<string>, longs: Option<string>, datatype_: Option<string>, optvalue: bool,
                  sep: string): string {
    (if shorts.Some? then ShortList(shorts.value, sep) else "")
    + (if shorts.Some? && longs.Some? then sep else "")
    + (if longs.Some? then LongList(longs.value, sep) else "")
    + ValuePart(shorts, longs, datatype_, optvalue)
  }

  /** How entries are written: all their options with the separator between them, and the value behind an
      equals sign after a long option, a space after a short one, in brackets when optional. */
  lemma SyntaxOfBoth()
    ensures Syntax(Some("ab"), Some("alpha,beta"), Some("<n>"), false, "|") == "-a|-b|--alpha|--beta=<n>"
  {
    hide ShortList, LongList, ValuePart;
    ShortPair();
    LongPair();
    assert ValuePart(Some("ab"), Some("alpha,beta"), Some("<n>"), false) == "=<n>" by {
      ValueExamples();
    }
  }

  lemma ValueExamples()
    ensures ValuePart(Some("ab"), Some("alpha,beta"), Some("<n>"), false) == "=<n>"
    ensures ValuePart(Some("a"), None, Some("<n>"), false) == " <n>"
    ensures ValuePart(None, Some("alpha"), Some("<n>"), true) == "=[<n>]"
    ensures ValuePart(None, None, Some("<n>"), false) == "<n>"
  {
  }

  lemma SyntaxOfOne()
    ensures Syntax(Some("a"), None, Some("<n>"), false, "|") == "-a <n>"
    ensures Syntax(None, Some("alpha"), Some("<n>"), true, "|") == "--alpha=[<n>]"
    ensures Syntax(None, None, Some("<n>"), false, "|") == "<n>"
  {
    hide ShortList, LongList, ValuePart;
    ShortPair();
    LongPair();
    ValueExamples();
  }

  lemma ShortPair()
    ensures ShortList("ab", "|") == "-a|-b" && ShortList("a", "|") == "-a"
  {
    assert "ab"[1..] == "b" && "b"[1..] == "" && "a"[1..] == "";
    assert ShortList("b", "|") == "-b";
  }

  lemma LongPair()
    ensures LongList("alpha,beta", "|") == "--alpha|--beta" && LongList("alpha", "|") == "--alpha"
  {
    hide IndexOf;
    CommaPlaces();
    assert "alpha,beta"[..5] == "alpha" && "alpha,beta"[6..] == "beta";
    assert LongList("beta", "|") == "--beta";
  }

  lemma CommaPlaces()
    ensures IndexOf("alpha,beta", ',') == Some(5) && IndexOf("beta", ',') == None && IndexOf("alpha", ',') == None
  {
    assert "alpha,beta"[0..][5] == ',';
  }

  /** The text is the wanted one while that fits; once it does not, all but the last place are right.
      (The last place can hold a character of a later name.) */
  ghost predicate Agrees(t: string, want: string, end: nat) {
    end > 0 && (|want| < end ==> t == want) && Cut(t, end - 1) == Cut(want, end - 1)
  }

  /** The buffer shows the wanted text as far as it fits, and `pos` is not behind its end. */
  ghost predicate Tracks(buf: array<char>, pos: nat, end: nat, t: string, want: string)
    reads buf
  {
    Shows(buf, t) && pos <= |t| <= end && pos < end && Agrees(t, want, end)
  }

  /** Appending keeps track: what fits so far fits exactly. */
  lemma CutTracks(t: string, want: string, src: string, end: nat)
    requires Agrees(t, want, end)
    ensures Agrees(Cut(t + src, end - 1), want + src, end) && Agrees(Cut(t + src, end), want + src, end)
  {
  }

  method Add(buf: array<char>, pos: nat, end: nat, src: string, ghost t: string, ghost want: string)
    returns (pos': nat, ghost t': string)
    requires end < buf.Length && Tracks(buf, pos, end, t, want) && NUL !in src
    modifies buf
    ensures Tracks(buf, pos', end, t', want + src) && pos' == |t'| < end
  {
    hide Cut, Agrees;
    CutTracks(t, want, src, end);
    pos' := Cat(buf, pos, end, src, t);
    t' := Cut(t + src, end - 1);
  }

  method AddName(buf: array<char>, pos: nat, end: nat, src: string, ghost t: string, ghost want: string)
    returns (ghost t': string)
    requires end < buf.Length && Tracks(buf, pos, end, t, want) && pos == |t| && NUL !in src
    modifies buf
    ensures Tracks(buf, pos, end, t', want + src)
  {
    hide Cut, Agrees;
    CutTracks(t, want, src, end);
    CutGrows(t, src, end);
    Strncat(buf, pos, end, src, t);
    t' := Cut(t + src, end);
  }

  lemma CutGrows(t: string, src: string, end: nat)
    requires |t| <= end
    ensures |t| <= |Cut(t + src, end)|
  {
  }

  // ---------- The code ----------

  predicate TextOk(s: Option<string>) {
    s.Some? ==> NUL !in s.value
  }

  method AddShorts(buf: array<char>, end: nat, s: string, sep: string, pos0: nat, ghost t0: string, ghost want0: string)
    returns (pos: nat, ghost t: string)
    requires end < buf.Length && Tracks(buf, pos0, end, t0, want0) && NUL !in s && NUL !in sep
    modifies buf
    ensures Tracks(buf, pos, end, t, want0 + ShortList(s, sep))
  {
    hide Tracks;
    pos, t := pos0, t0;
    ghost var want := want0;
    assert s[0..] == s;
    for i := 0 to |s|
      invariant Tracks(buf, pos, end, t, want)
      invariant want + ShortList(s[i..], sep) == want0 + ShortList(s, sep)
    {
      ghost var more := ShortList(s[i + 1..], sep);
      assert s[i..][1..] == s[i + 1..];
      assert s[i] in s;
      pos, t := Add(buf, pos, end, ['-', s[i]], t, want);
      ghost var want1 := want + ['-', s[i]];
      if i + 1 < |s| {
        pos, t := Add(buf, pos, end, sep, t, want1);
        assert want + ShortList(s[i..], sep) == (want1 + sep) + more;
        want := want1 + sep;
      } else {
        assert want + ShortList(s[i..], sep) == want1 + more;
        want := want1;
      }
    }
    assert want + ShortList(s[|s|..], sep) == want;
  }

  /** The name at the front of a comma-separated list. */
  function FirstName(s: string): (name: string)
    ensures name <= s
  {
    match IndexOf(s, ',')
    case None => s
    case Some(k) => s[..k]
  }

  /** What is left behind the first name and its comma. */
  function Behind(s: string): (rest: string)
    ensures s != "" ==> |rest| < |s|
    ensures NUL !in s ==> NUL !in rest
  {
    match IndexOf(s, ',')
    case None => ""
    case Some(k) => s[k + 1..]
  }

  /** The list is the first name, the separator if a comma follows it, and the list of the rest. */
  lemma LongListUnfolds(s: string, sep: string, want: string)
    requires s != ""
    ensures want + LongList(s, sep)
         == (want + "--" + FirstName(s) + if IndexOf(s, ',').Some? then sep else "") + LongList(Behind(s), sep)
  {
    LongListStep(s, sep);
    hide LongList, Behind, FirstName;
    Regroup(want, "--", FirstName(s), if IndexOf(s, ',').Some? then sep else "", LongList(Behind(s), sep));
  }

  lemma LongListStep(s: string, sep: string)
    requires s != ""
    ensures LongList(s, sep)
         == "--" + FirstName(s) + (if IndexOf(s, ',').Some? then sep else "") + LongList(Behind(s), sep)
  {
    if IndexOf(s, ',').None? {
      assert LongList(Behind(s), sep) == "";
    }
  }

  lemma Regroup(want: string, a: string, b: string, c: string, d: string)
    ensures want + (a + b + c + d) == (want + a + b + c) + d
  {
  }

  /** One name of the list: tag, name, and the separator in place of a comma. */
  method AddOneLong(buf: array<char>, end: nat, s: string, sep: string, pos0: nat, ghost t0: string, ghost want: string)
    returns (pos: nat, ghost t: string, ghost want': string)
    requires end < buf.Length && Tracks(buf, pos0, end, t0, want) && NUL !in s && NUL !in sep && s != ""
    modifies buf
    ensures Tracks(buf, pos, end, t, want')
    ensures want' + LongList(Behind(s), sep) == want + LongList(s, sep)
  {
    hide Tracks, LongList, Behind;
    LongListUnfolds(s, sep, want);
    var name := FirstName(s);
    pos, t := Add(buf, pos0, end, "--", t0, want);
    t := AddName(buf, pos, end, name, t, want + "--");
    want' := want + "--" + name;
    if IndexOf(s, ',').Some? {
      pos, t := Add(buf, pos, end, sep, t, want');
      want' := want' + sep;
    } else {
      assert want' + "" == want';
    }
  }

  method AddLongs(buf: array<char>, end: nat, s: string, sep: string, pos0: nat, ghost t0: string, ghost want0: string)
    returns (pos: nat, ghost t: string)
    requires end < buf.Length && Tracks(buf, pos0, end, t0, want0) && NUL !in s && NUL !in sep
    modifies buf
    ensures Tracks(buf, pos, end, t, want0 + LongList(s, sep))
  {
    hide Tracks, LongList, Behind;
    pos, t := pos0, t0;
    ghost var want := want0;
    var c := s;
    while c != ""
      invariant NUL !in c && Tracks(buf, pos, end, t, want)
      invariant want + LongList(c, sep) == want0 + LongList(s, sep)
      decreases |c|
    {
      pos, t, want := AddOneLong(buf, end, c, sep, pos, t, want);
      c := Behind(c);
    }
    NoNames(sep, want);
  }

  lemma NoNames(sep: string, want: string)
    ensures want + LongList("", sep) == want
  {
  }

  method AddBracketed(buf: array<char>, end: nat, d: string, optvalue: bool, pos0: nat, ghost t0: string,
                      ghost want: string)
    returns (pos: nat, ghost t: string)
    requires end < buf.Length && Tracks(buf, pos0, end, t0, want) && NUL !in d
    modifies buf
    ensures Tracks(buf, pos, end, t, want + Bracketed(d, optvalue))
  {
    hide Tracks;
    if optvalue {
      pos, t := Add(buf, pos0, end, "[", t0, want);
      pos, t := Add(buf, pos, end, d, t, want + "[");
      pos, t := Add(buf, pos, end, "]", t, want + "[" + d);
      assert want + "[" + d + "]" == want + Bracketed(d, optvalue);
    } else {
      pos, t := Add(buf, pos0, end, d, t0, want);
    }
  }

  method AddValue(buf: array<char>, end: nat, shorts: Option<string>, longs: Option<string>, datatype_: Option<string>,
                  optvalue: bool, pos0: nat, ghost t0: string, ghost want0: string)
    returns (pos: nat, ghost t: string)
    requires end < buf.Length && Tracks(buf, pos0, end, t0, want0) && TextOk(datatype_)
    modifies buf
    ensures Tracks(buf, pos, end, t, want0 + ValuePart(shorts, longs, datatype_, optvalue))
  {
    hide Tracks, Bracketed;
    pos, t := pos0, t0;
    ghost var want := want0;
    if datatype_.None? {
      assert want + "" == want;
      return;
    }
    if longs.Some? {
      pos, t := Add(buf, pos, end, "=", t, want);
      want := want + "=";
    } else if shorts.Some? {
      pos, t := Add(buf, pos, end, " ", t, want);
      want := want + " ";
    }
    pos, t := AddBracketed(buf, end, datatype_.value, optvalue, pos, t, want);
    assert want + Bracketed(datatype_.value, optvalue) == want0 + ValuePart(shorts, longs, datatype_, optvalue);
  }

  lemma EmptyTracks(buf: array<char>, end: nat)
    requires 0 < end < buf.Length && buf[0] == NUL
    ensures Tracks(buf, 0, end, "", "")
  {
  }

  lemma TracksMeans(buf: array<char>, pos: nat, end: nat, t: string, want: string)
    requires Tracks(buf, pos, end, t, want)
    ensures Shows(buf, t) && |t| <= end && Agrees(t, want, end)
  {
  }

  lemma SyntaxJoined(shorts: Option<string>, longs: Option<string>, datatype_: Option<string>, optvalue: bool,
                     sep: string, want: string)
    requires var a := if shorts.Some? then "" + ShortList(shorts.value, sep) else "";
             var b := if shorts.Some? && longs.Some? then a + sep else a;
             var c := if longs.Some? then b + LongList(longs.value, sep) else b;
             want == c + ValuePart(shorts, longs, datatype_, optvalue)
    ensures want == Syntax(shorts, longs, datatype_, optvalue, sep)
  {
  }

  /** arg_cat_optionv on an empty buffer of more than `end` bytes: no write leaves the buffer, whatever the
      strings; when the syntax is shorter than `end`, the buffer shows exactly it, and otherwise its first
      end - 1 characters are in place. */
  method CatOptionv(buf: array<char>, end: nat, shorts: Option<string>, longs: Option<string>,
                    datatype_: Option<string>, optvalue: bool, separator: Option<string>) returns (ghost t: string)
    requires 0 < end < buf.Length && buf[0] == NUL
    requires TextOk(shorts) && TextOk(longs) && TextOk(datatype_) && TextOk(separator)
    modifies buf
    ensures Shows(buf, t) && |t| <= end
    ensures var sep := if separator.Some? then separator.value else "";
            var want := Syntax(shorts, longs, datatype_, optvalue, sep);
            (|want| < end ==> t == want) && Cut(t, end - 1) == Cut(want, end - 1)
  {
    hide ShortList, LongList, ValuePart, Tracks, Shows, Syntax;
    EmptyTracks(buf, end);
    var sep := if separator.Some? then separator.value else "";
    var pos := 0;
    t := "";
    ghost var want := "";
    if shorts.Some? {
      pos, t := AddShorts(buf, end, shorts.value, sep, pos, t, want);
      want := want + ShortList(shorts.value, sep);
    }
    if shorts.Some? && longs.Some? {
      pos, t := Add(buf, pos, end, sep, t, want);
      want := want + sep;
    }
    if longs.Some? {
      pos, t := AddLongs(buf, end, longs.value, sep, pos, t, want);
      want := want + LongList(longs.value, sep);
    }
    pos, t := AddValue(buf, end, shorts, longs, datatype_, optvalue, pos, t, want);
    want := want + ValuePart(shorts, longs, datatype_, optvalue);
    SyntaxJoined(shorts, longs, datatype_, optvalue, sep, want);
    TracksMeans(buf, pos, end, t, want);
  }
}
