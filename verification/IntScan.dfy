/** Reading an integer argument: hexadecimal, octal, binary or decimal, with a KB, MB or GB suffix. */
module IntScan {
  import opened Common

  const INT_MAX := 0x7FFF_FFFF
  const INT_MIN := -0x8000_0000
  const LONG_MAX := 0x7FFF_FFFF_FFFF_FFFF
  const LONG_MIN := -0x8000_0000_0000_0000

  predicate IsSpace(c: char) {
    c == ' ' || '\t' <= c <= '\r'
  }

  /** Tab, newline, vertical tab, form feed, carriage return and space. */
  lemma SpacesAre(c: char)
    ensures IsSpace(c) <==> c as int in {9, 10, 11, 12, 13, 32}
  {
  }

  function Upper(c: char): char {
    if 'a' <= c <= 'z' then (c as int - 32) as char else c
  }

  /** A digit's value, at least 36 when it is none. */
  function DigitOf(c: char): nat {
    if '0' <= c <= '9' then c as int - '0' as int
    else if 'A' <= Upper(c) <= 'Z' then Upper(c) as int - 'A' as int + 10
    else 36
  }

  // ---------- strtol ----------

  function SkipSpace(s: string): string {
    if s != "" && IsSpace(s[0]) then SkipSpace(s[1..]) else s
  }

  /** The number of leading digits of the base. */
  function Span(s: string, base: nat): (n: nat)
    ensures n <= |s|
  {
    if s != "" && DigitOf(s[0]) < base then 1 + Span(s[1..], base) else 0
  }

  function Value(digits: string, base: nat): nat {
    if digits == "" then 0 else Value(digits[..|digits| - 1], base) * base + DigitOf(digits[|digits| - 1])
  }

  function Saturated(v: int): int {
    if v > LONG_MAX then LONG_MAX else if v < LONG_MIN then LONG_MIN else v
  }

  /** An optional sign and the text behind it. */
  function Sign(s: string): (int, string) {
    if s != "" && s[0] == '-' then (-1, s[1..]) else if s != "" && s[0] == '+' then (1, s[1..]) else (1, s)
  }

  function SkipHexPrefix(u: string, base: nat): string {
    if base == 16 && |u| >= 3 && u[0] == '0' && Upper(u[1]) == 'X' && DigitOf(u[2]) < 16 then u[2..] else u
  }

  /** strtol: the number read and the rest, or None without a number. */
  function Strtol(s: string, base: nat): Option<(int, string)> {
    var (sign, u) := Sign(SkipSpace(s));
    var t := SkipHexPrefix(u, base);
    var n := Span(t, base);
    if n == 0 then None else Some((Saturated(sign * Value(t[..n], base)), t[n..]))
  }

  /** strtol0X: an optional sign, '0', the letter X, then what strtol reads. */
  function Prefixed(s: string, x: char, base: nat): Option<(int, string)> {
    var (sign, u) := Sign(SkipSpace(s));
    if |u| < 2 || u[0] != '0' || Upper(u[1]) != x then None
    else
      match Strtol(u[2..], base)
      case None => None
      case Some((v, rest)) => Some((sign * v, rest))
  }

  /** The reading pointer's way through the prefix. */
  method Strtol0X(s: string, x: char, base: nat) returns (r: Option<(int, string)>)
    ensures r == Prefixed(s, x, base)
  {
    hide Strtol;
    var ptr := 0;
    assert s[0..] == s;
    while ptr < |s| && IsSpace(s[ptr])
      invariant ptr <= |s| && SkipSpace(s[ptr..]) == SkipSpace(s)
    {
      assert s[ptr..][1..] == s[ptr + 1..];
      ptr := ptr + 1;
    }
    ghost var t := s[ptr..];
    assert SkipSpace(s) == t;
    var sign := 1;
    if ptr < |s| && s[ptr] == '+' {
      ptr := ptr + 1;
    } else if ptr < |s| && s[ptr] == '-' {
      ptr, sign := ptr + 1, -1;
    }
    assert Sign(t) == (sign, s[ptr..]);
    if ptr + 2 > |s| || s[ptr] != '0' || Upper(s[ptr + 1]) != x {
      return None;
    }
    assert s[ptr..][2..] == s[ptr + 2..];
    r := Strtol(s[ptr + 2..], base);
    if r.Some? {
      r := Some((sign * r.value.0, r.value.1));
    }
  }

  // ---------- The scan function ----------

  /** `text` is the suffix in any case, with white space behind it. */
  predicate Suffixed(text: string, suffix: string) {
    && |suffix| <= |text|
    && (forall i :: 0 <= i < |suffix| ==> Upper(text[i]) == Upper(suffix[i]))
    && (forall i :: |suffix| <= i < |text| ==> IsSpace(text[i]))
  }

  /** detectsuffix's two loops. */
  method DetectSuffix(text: string, suffix: string) returns (found: bool)
    ensures found == Suffixed(text, suffix)
  {
    var i := 0;
    while i < |text| && i < |suffix| && Upper(text[i]) == Upper(suffix[i])
      invariant i <= |text| && i <= |suffix|
      invariant forall j :: 0 <= j < i ==> Upper(text[j]) == Upper(suffix[j])
    {
      i := i + 1;
    }
    if i < |suffix| {
      return false;
    }
    while i < |text| && IsSpace(text[i])
      invariant |suffix| <= i <= |text|
      invariant forall j :: |suffix| <= j < i ==> IsSpace(text[j])
    {
      i := i + 1;
    }
    return i == |text|;
  }

  datatype Scan = Ok(value: int) | BadInt | Overflow

  /** The value times the multiplier when that stays inside a 32-bit int. */
  function Scaled(v: int, m: int): Scan
    requires m == 1024 || m == 1048576 || m == 1073741824
  {
    if v > INT_MAX / m || v < -(-INT_MIN / m) then Overflow else Ok(v * m)
  }

  /** The first notation that fits. */
  function Read(s: string): Option<(int, string)> {
    var hex, oct, bin, dec := Prefixed(s, 'X', 16), Prefixed(s, 'O', 8), Prefixed(s, 'B', 2), Strtol(s, 10);
    if hex.Some? then hex else if oct.Some? then oct else if bin.Some? then bin else dec
  }

  /** What arg_int_scanfn makes of a value: the first notation that fits, then the suffix. */
  function ScanInt(s: string): Scan {
    match Read(s)
    case None => BadInt
    case Some((v, rest)) =>
      if Suffixed(rest, "KB") then Scaled(v, 1024)
      else if Suffixed(rest, "MB") then Scaled(v, 1048576)
      else if Suffixed(rest, "GB") then Scaled(v, 1073741824)
      else if !Suffixed(rest, "") then BadInt
      else if v > INT_MAX || v < INT_MIN then Overflow
      else Ok(v)
  }

  // ---------- Well-formed numerals ----------

  datatype Radix = Hex | Oct | Bin | Dec {
    function Base(): nat { match this case Hex => 16 case Oct => 8 case Bin => 2 case Dec => 10 }
    function Letter(): char { match this case Hex => 'X' case Oct => 'O' case Bin => 'B' case Dec => ' ' }
  }

  datatype Unit = One | Kilo | Mega | Giga {
    function Name(): string { match this case One => "" case Kilo => "KB" case Mega => "MB" case Giga => "GB" }
    function Factor(): int { match this case One => 1 case Kilo => 1024 case Mega => 1048576 case Giga => 1073741824 }
  }

  predicate Spaces(s: string) {
    forall i :: 0 <= i < |s| ==> IsSpace(s[i])
  }

  predicate IsSign(s: string) {
    s == "" || s == "+" || s == "-"
  }

  function SignOf(sign: string): int {
    if sign == "-" then -1 else 1
  }

  predicate AreDigits(s: string, base: nat) {
    s != "" && forall i :: 0 <= i < |s| ==> DigitOf(s[i]) < base
  }

  /** strtol takes one more hexadecimal prefix of its own. */
  predicate IsAgain(s: string, base: nat) {
    s == "" || (base == 16 && |s| == 2 && s[0] == '0' && Upper(s[1]) == 'X')
  }

  /** A numeral: leading space, a sign, a notation, digits of its base, a suffix in any case, trailing
      space. `mark` is the prefix letter in either case. Behind a prefix there may be space, a second sign
      and, in hexadecimal, a second prefix. */
  datatype Numeral = Numeral(lead: string, sign: string, radix: Radix, mark: char,
                             lead2: string, sign2: string, again: string, digits: string,
                             unit: Unit, suffix: string, trail: string) {
    predicate Ok() {
      && Spaces(lead) && Spaces(lead2) && Spaces(trail) && IsSign(sign) && IsSign(sign2)
      && (radix != Dec ==> Upper(mark) == radix.Letter())
      && (radix == Dec ==> lead2 == sign2 == again == "")
      && IsAgain(again, radix.Base()) && AreDigits(digits, radix.Base())
      && |suffix| == |unit.Name()| && (forall i :: 0 <= i < |suffix| ==> Upper(suffix[i]) == unit.Name()[i])
    }

    function Tail(): string { suffix + trail }

    function Inner(): string { lead2 + (sign2 + (again + (digits + Tail()))) }

    function Body(): string { (if radix == Dec then "" else ['0', mark]) + Inner() }

    function Text(): string { lead + (sign + Body()) }

    function Number(): int { SignOf(sign) * (SignOf(sign2) * Value(digits, radix.Base())) }
  }

  lemma {:induction false} SpaceSkipped(lead: string, s: string)
    requires Spaces(lead) && s != "" && !IsSpace(s[0])
    ensures SkipSpace(lead + s) == s
  {
    if lead == "" {
      assert lead + s == s;
    } else {
      assert (lead + s)[1..] == lead[1..] + s;
      SpaceSkipped(lead[1..], s);
    }
  }

  lemma {:induction false} SpanOf(digits: string, rest: string, base: nat)
    requires digits == "" || AreDigits(digits, base)
    requires rest == "" || DigitOf(rest[0]) >= base
    ensures Span(digits + rest, base) == |digits|
  {
    if digits == "" {
      assert digits + rest == rest;
    } else {
      assert (digits + rest)[1..] == digits[1..] + rest;
      SpanOf(digits[1..], rest, base);
    }
  }

  /** The tail of a numeral starts with no digit of its base, and with no second prefix letter. */
  lemma TailStart(n: Numeral)
    requires n.Ok()
    ensures n.Tail() != "" ==> var c := n.Tail()[0];
              DigitOf(c) >= n.radix.Base() && Upper(c) != 'X' && Upper(c) != 'O' && Upper(c) != 'B'
  {
  }

  lemma FirstDigit(c: char)
    requires DigitOf(c) < 36
    ensures !IsSpace(c) && c != '-' && c != '+'
  {
  }

  /** Leading space and sign are read off, and nothing else. */
  lemma ReadSign(lead: string, sign: string, u: string)
    requires Spaces(lead) && IsSign(sign) && u != "" && DigitOf(u[0]) < 36
    ensures Sign(SkipSpace(lead + (sign + u))) == (SignOf(sign), u)
  {
    FirstDigit(u[0]);
    SpaceSkipped(lead, sign + u);
    if sign == "" {
      assert sign + u == u;
    } else {
      assert (sign + u)[1..] == u;
    }
  }

  /** What strtol reads: space, sign, in hexadecimal perhaps a prefix, and all the digits. */
  lemma ReadStrtol(lead: string, sign: string, again: string, digits: string, rest: string, base: nat)
    requires Spaces(lead) && IsSign(sign) && base <= 16 && IsAgain(again, base) && AreDigits(digits, base)
    requires rest != "" ==> DigitOf(rest[0]) >= base && Upper(rest[0]) != 'X'
    ensures Strtol(lead + (sign + (again + (digits + rest))), base) ==
            Some((Saturated(SignOf(sign) * Value(digits, base)), rest))
  {
    hide SkipSpace, Sign, Value, Saturated;
    var t := digits + rest;
    var u := again + t;
    ReadSign(lead, sign, u);
    SpanOf(digits, rest, base);
    assert t[..|digits|] == digits && t[|digits|..] == rest;
    if again == "" {
      assert u == t;
      NoHexPrefix(digits, rest, base);
    } else {
      assert u[2..] == t && u[2] == digits[0];
    }
  }

  /** The digits themselves do not start with a hexadecimal prefix. */
  lemma NoHexPrefix(digits: string, rest: string, base: nat)
    requires AreDigits(digits, base) && base <= 16 && (rest != "" ==> Upper(rest[0]) != 'X')
    ensures var t := digits + rest; !(|t| >= 2 && Upper(t[1]) == 'X')
  {
    var t := digits + rest;
    if |digits| >= 2 {
      assert t[1] == digits[1] && DigitOf(digits[1]) < base;
    } else if |t| >= 2 {
      assert t[1] == rest[0];
    }
  }

  /** A prefixed numeral is read in its own notation, and in no other. */
  lemma ReadPrefixed(n: Numeral, x: char, base: nat)
    requires n.Ok() && n.radix != Dec
    ensures x == n.radix.Letter() && base == n.radix.Base() ==>
      Prefixed(n.Text(), x, base) ==
      Some((SignOf(n.sign) * Saturated(SignOf(n.sign2) * Value(n.digits, base)), n.Tail()))
    ensures x != n.radix.Letter() ==> Prefixed(n.Text(), x, base) == None
  {
    hide SkipSpace, Value, Sign, Strtol, Saturated;
    var u := n.Body();
    assert u[0] == '0' && u[1] == n.mark && u[2..] == n.Inner();
    ReadSign(n.lead, n.sign, u);
    TailStart(n);
    ReadStrtol(n.lead2, n.sign2, n.again, n.digits, n.Tail(), n.radix.Base());
  }

  lemma DecimalBody(n: Numeral)
    requires n.Ok() && n.radix == Dec
    ensures n.Body() == n.digits + n.Tail() == "" + (n.digits + n.Tail())
    ensures n.Text() == n.lead + (n.sign + ("" + (n.digits + n.Tail())))
  {
    hide Spaces, IsSign, AreDigits;
    var t := n.digits + n.Tail();
    assert "" + t == t;
    assert n.Inner() == t;
    assert n.Body() == t;
  }

  /** A decimal numeral has no prefix. */
  lemma ReadUnprefixed(n: Numeral, x: char, base: nat)
    requires n.Ok() && n.radix == Dec && (x == 'X' || x == 'O' || x == 'B')
    ensures Prefixed(n.Text(), x, base) == None
  {
    hide SkipSpace, Value, Sign, Strtol;
    DecimalBody(n);
    var u := n.Body();
    ReadSign(n.lead, n.sign, u);
    TailStart(n);
    if |n.digits| >= 2 {
      assert u[1] == n.digits[1] && DigitOf(n.digits[1]) < 10;
    } else if |u| >= 2 {
      assert u[1] == n.Tail()[0];
    }
  }

  /** A decimal numeral is read with its sign. */
  lemma ReadDecimal(n: Numeral)
    requires n.Ok() && n.radix == Dec
    ensures Strtol(n.Text(), 10) == Some((Saturated(n.Number()), n.Tail()))
  {
    hide Strtol, Value;
    DecimalBody(n);
    TailStart(n);
    ReadStrtol(n.lead, n.sign, "", n.digits, n.Tail(), 10);
  }

  /** The tail names its own unit and no other. */
  lemma ReadUnit(n: Numeral, u: Unit)
    requires n.Ok()
    ensures u != One ==> (Suffixed(n.Tail(), u.Name()) <==> u == n.unit)
    ensures n.unit == One ==> Suffixed(n.Tail(), "")
  {
    var t := n.Tail();
    if u == n.unit {
      assert forall i :: 0 <= i < |n.suffix| ==> t[i] == n.suffix[i];
      assert forall i :: |n.suffix| <= i < |t| ==> t[i] == n.trail[i - |n.suffix|];
    } else if u != One && t != "" {
      if n.unit == One {
        assert t[0] == n.trail[0] && IsSpace(t[0]);
      } else {
        assert t[0] == n.suffix[0] && Upper(t[0]) == n.unit.Name()[0];
      }
      assert Upper(t[0]) != Upper(u.Name()[0]);
    }
    if n.unit == One {
      assert t == n.trail;
    }
  }

  predicate Fits(v: int) {
    INT_MIN <= v <= INT_MAX
  }

  /** What was read is the number, or lies beyond every 32-bit range on the same side. */
  predicate ReadAs(v: int, number: int) {
    v == number || (v >= LONG_MAX && number >= LONG_MAX) || (v <= -LONG_MAX && number <= -LONG_MAX)
  }

  lemma ScalingFits(v: int, number: int, unit: Unit)
    requires ReadAs(v, number) && unit != One
    ensures Scaled(v, unit.Factor()) == if Fits(number * unit.Factor()) then Ok(number * unit.Factor()) else Overflow
  {
  }

  /** A numeral is accepted exactly when number times multiplier fits a 32-bit int, and that product is its
      value. */
  lemma AcceptsIffFits(n: Numeral)
    requires n.Ok()
    ensures var product := n.Number() * n.unit.Factor();
            ScanInt(n.Text()) == if Fits(product) then Ok(product) else Overflow
  {
    hide Strtol, Prefixed, Value, Suffixed, Scaled;
    var m := Value(n.digits, n.radix.Base());
    var v := if n.radix == Dec then Saturated(n.Number()) else SignOf(n.sign) * Saturated(SignOf(n.sign2) * m);
    if n.radix == Dec {
      ReadUnprefixed(n, 'X', 16);
      ReadUnprefixed(n, 'O', 8);
      ReadUnprefixed(n, 'B', 2);
      ReadDecimal(n);
    } else {
      ReadPrefixed(n, 'X', 16);
      ReadPrefixed(n, 'O', 8);
      ReadPrefixed(n, 'B', 2);
    }
    ReadUnit(n, Kilo);
    ReadUnit(n, Mega);
    ReadUnit(n, Giga);
    assert ReadAs(v, n.Number());
    if n.unit != One {
      ScalingFits(v, n.Number(), n.unit);
    }
  }

  // ---------- Nothing else is accepted ----------

  lemma {:induction false} SpaceSplit(s: string) returns (lead: string)
    ensures Spaces(lead) && s == lead + SkipSpace(s)
  {
    if s != "" && IsSpace(s[0]) {
      lead := SpaceSplit(s[1..]);
      lead := [s[0]] + lead;
    } else {
      lead := "";
    }
  }

  lemma SignSplit(s: string) returns (lead: string, sign: string)
    ensures Spaces(lead) && IsSign(sign)
    ensures var (value, u) := Sign(SkipSpace(s)); s == lead + (sign + u) && SignOf(sign) == value
  {
    hide SkipSpace, Spaces, Sign, IsSign;
    lead := SpaceSplit(s);
    sign := SignOff(SkipSpace(s));
  }

  lemma SignOff(t: string) returns (sign: string)
    ensures IsSign(sign) && t == sign + Sign(t).1 && SignOf(sign) == Sign(t).0
  {
    sign := if t != "" && (t[0] == '-' || t[0] == '+') then [t[0]] else "";
  }

  lemma {:induction false} SpanDigits(s: string, base: nat)
    ensures forall i :: 0 <= i < Span(s, base) ==> DigitOf(s[i]) < base
  {
    if s != "" && DigitOf(s[0]) < base {
      SpanDigits(s[1..], base);
    }
  }

  /** Whatever strtol reads has the parts of a numeral. */
  lemma StrtolSplit(s: string, base: nat) returns (lead: string, sign: string, again: string, digits: string)
    requires Strtol(s, base).Some?
    ensures Spaces(lead) && IsSign(sign) && IsAgain(again, base) && AreDigits(digits, base)
    ensures s == lead + (sign + (again + (digits + Strtol(s, base).value.1)))
  {
    hide SkipSpace, Sign, Span, SkipHexPrefix, IsAgain, IsSign, Spaces, Value, Saturated;
    lead, sign := SignSplit(s);
    var u := Sign(SkipSpace(s)).1;
    again := PrefixSplit(u, base);
    var t := SkipHexPrefix(u, base);
    SpanDigits(t, base);
    digits := t[..Span(t, base)];
    assert t == digits + Strtol(s, base).value.1;
  }

  lemma PrefixSplit(u: string, base: nat) returns (again: string)
    ensures IsAgain(again, base) && u == again + SkipHexPrefix(u, base)
  {
    again := u[..|u| - |SkipHexPrefix(u, base)|];
  }

  /** A suffix that was recognised is one. */
  lemma SuffixSplit(rest: string, unit: Unit) returns (suffix: string, trail: string)
    requires Suffixed(rest, unit.Name())
    ensures rest == suffix + trail && Spaces(trail) && |suffix| == |unit.Name()|
    ensures forall i :: 0 <= i < |suffix| ==> Upper(suffix[i]) == unit.Name()[i]
  {
    suffix, trail := rest[..|unit.Name()|], rest[|unit.Name()|..];
  }

  lemma UnitOf(s: string, v: int, rest: string) returns (unit: Unit)
    requires Read(s) == Some((v, rest)) && ScanInt(s) != BadInt
    ensures Suffixed(rest, unit.Name())
  {
    hide Read, Suffixed;
    unit := if Suffixed(rest, "KB") then Kilo else if Suffixed(rest, "MB") then Mega
            else if Suffixed(rest, "GB") then Giga else One;
  }

  /** Whatever is not rejected as malformed is a numeral. */
  lemma OnlyNumerals(s: string) returns (n: Numeral)
    requires ScanInt(s) != BadInt
    ensures n.Ok() && n.Text() == s
  {
    hide Strtol, Suffixed, ScanInt, SkipSpace, Sign;
    ReadSome(s);
    var (v, rest) := Read(s).value;
    var unit := UnitOf(s, v, rest);
    var suffix, trail := SuffixSplit(rest, unit);
    var radix := if Prefixed(s, 'X', 16).Some? then Hex else if Prefixed(s, 'O', 8).Some? then Oct
                 else if Prefixed(s, 'B', 2).Some? then Bin else Dec;
    if radix == Dec {
      var lead, sign, again, digits := StrtolSplit(s, 10);
      n := Numeral(lead, sign, Dec, ' ', "", "", "", digits, unit, suffix, trail);
      DecimalBody(n);
    } else {
      var lead, sign := SignSplit(s);
      var u := Sign(SkipSpace(s)).1;
      var lead2, sign2, again, digits := StrtolSplit(u[2..], radix.Base());
      n := Numeral(lead, sign, radix, u[1], lead2, sign2, again, digits, unit, suffix, trail);
      assert n.Inner() == u[2..];
      assert n.Body() == ['0', u[1]] + u[2..] == u;
    }
  }

  lemma ReadSome(s: string)
    requires ScanInt(s) != BadInt
    ensures Read(s).Some?
  {
  }

  /** The whole of arg_int_scanfn: a text is malformed exactly when it is no numeral, and a numeral is
      accepted, with its value, exactly when that fits. */
  lemma ScanExactly(s: string)
    ensures ScanInt(s) == BadInt <==> !exists n: Numeral :: n.Ok() && n.Text() == s
    ensures forall n: Numeral :: n.Ok() && n.Text() == s ==>
              var product := n.Number() * n.unit.Factor();
              ScanInt(s) == if Fits(product) then Ok(product) else Overflow
  {
    hide ScanInt;
    if ScanInt(s) != BadInt {
      var n := OnlyNumerals(s);
    }
    forall n: Numeral | n.Ok() && n.Text() == s
      ensures var product := n.Number() * n.unit.Factor();
              ScanInt(s) == if Fits(product) then Ok(product) else Overflow
    {
      AcceptsIffFits(n);
    }
  }

  // ---------- Printing and reading back ----------

  const DIGITS := "0123456789abcdef"

  /** A number divided by its base. */
  function Quotient(n: nat, radix: Radix): (q: nat)
    ensures q <= n && (n > 0 ==> q < n)
  {
    match radix case Hex => n / 16 case Oct => n / 8 case Bin => n / 2 case Dec => n / 10
  }

  function Remainder(n: nat, radix: Radix): (r: nat)
    ensures r < radix.Base() && Quotient(n, radix) * radix.Base() + r == n
  {
    match radix case Hex => n % 16 case Oct => n % 8 case Bin => n % 2 case Dec => n % 10
  }

  /** The usual digits of a number. */
  function Digits(n: nat, radix: Radix): (s: string)
    ensures s != ""
    decreases n
  {
    var q := Quotient(n, radix);
    (if q == 0 then "" else Digits(q, radix)) + [DIGITS[Remainder(n, radix)]]
  }

  lemma DigitValue(d: nat)
    requires d < 16
    ensures DigitOf(DIGITS[d]) == d
  {
  }

  lemma {:induction false} ValueOfDigits(n: nat, radix: Radix)
    ensures AreDigits(Digits(n, radix), radix.Base()) && Value(Digits(n, radix), radix.Base()) == n
    decreases n
  {
    hide Value, AreDigits, DigitOf, Quotient, Remainder;
    var q, d := Quotient(n, radix), Remainder(n, radix);
    DigitValue(d);
    if q > 0 {
      ValueOfDigits(q, radix);
    } else {
      EmptyValue(radix.Base());
    }
    OneMoreDigit(if q == 0 then "" else Digits(q, radix), DIGITS[d], radix.Base());
  }

  lemma EmptyValue(base: nat)
    ensures Value("", base) == 0
  {
  }

  lemma OneMoreDigit(more: string, c: char, base: nat)
    requires (more == "" || AreDigits(more, base)) && DigitOf(c) < base
    ensures AreDigits(more + [c], base) && Value(more + [c], base) == Value(more, base) * base + DigitOf(c)
  {
    assert (more + [c])[..|more|] == more;
  }

  /** A number as a numeral, with or without a plus sign: %d, or 0x, 0o or 0b with its digits. */
  function Printed(v: int, plus: bool, radix: Radix): string {
    (if v < 0 then "-" else if plus then "+" else "")
    + (match radix case Hex => "0x" case Oct => "0o" case Bin => "0b" case Dec => "")
    + Digits(if v < 0 then -v else v, radix)
  }

  /** Printing any number in any of the four notations, with any of the three suffixes or none, and scanning
      it gives the number times 1, 2^10, 2^20 or 2^30, or an overflow when that leaves a 32-bit int. */
  lemma PrintThenScan(v: int, plus: bool, radix: Radix, suffix: string)
    requires suffix == "" || suffix == "KB" || suffix == "MB" || suffix == "GB"
    ensures var product := v * (if suffix == "KB" then 1024 else if suffix == "MB" then 1048576
                                else if suffix == "GB" then 1073741824 else 1);
            ScanInt(Printed(v, plus, radix) + suffix)
            == if -2147483648 <= product <= 2147483647 then Ok(product) else Overflow
  {
    hide ScanInt, Value, Digits, IsSpace;
    var d := Digits(if v < 0 then -v else v, radix);
    ValueOfDigits(if v < 0 then -v else v, radix);
    var unit := if suffix == "KB" then Kilo else if suffix == "MB" then Mega else if suffix == "GB" then Giga else One;
    var mark := match radix case Hex => 'x' case Oct => 'o' case Bin => 'b' case Dec => ' ';
    var n := Numeral("", if v < 0 then "-" else if plus then "+" else "", radix, mark, "", "", "", d, unit, suffix, "");
    PrintedText(n, v, plus);
    AcceptsIffFits(n);
  }

  lemma PrintedText(n: Numeral, v: int, plus: bool)
    requires n.lead == n.lead2 == n.sign2 == n.again == n.trail == ""
    requires n.sign == if v < 0 then "-" else if plus then "+" else ""
    requires n.mark == (match n.radix case Hex => 'x' case Oct => 'o' case Bin => 'b' case Dec => ' ')
    requires n.digits == Digits(if v < 0 then -v else v, n.radix)
    ensures n.Text() == Printed(v, plus, n.radix) + n.suffix
  {
    hide Digits;
    assert n.Tail() == n.suffix;
    assert n.Inner() == n.digits + n.suffix;
    assert n.radix != Dec ==> n.Body() == ['0', n.mark] + (n.digits + n.suffix);
    assert n.radix == Dec ==> n.Body() == n.digits + n.suffix;
  }

  // ---------- The table entry ----------

  const ERR_BADINT := 3
  const ERR_OVERFLOW := 4

  /** An integer entry: how many values it has taken, and the values. */
  class ArgInt {
    const maxcount: nat
    var count: nat
    const ival: array<int>

    ghost predicate Valid()
      reads this
    {
      count <= maxcount == ival.Length
    }

    constructor (maxcount: nat)
      ensures Valid() && count == 0 && this.maxcount == maxcount && fresh(ival)
    {
      this.maxcount, count := maxcount, 0;
      ival := new int[maxcount];
    }

    /** arg_int_scanfn: a missing value is counted without being stored. */
    method Scan(argval: Option<string>) returns (code: int)
      requires Valid()
      modifies this, ival
      ensures Valid()
      ensures old(count) == maxcount ==> code == ERR_MAXCOUNT
      ensures old(count) < maxcount && argval.None? ==> code == 0
      ensures old(count) < maxcount && argval.Some? ==>
        match ScanInt(argval.value)
        case Ok(v) => code == 0 && ival[old(count)] == v
        case BadInt => code == ERR_BADINT
        case Overflow => code == ERR_OVERFLOW
      ensures count == old(count) + if code == 0 then 1 else 0
      ensures forall i :: 0 <= i < maxcount && (i != old(count) || code != 0 || argval.None?) ==>
              ival[i] == old(ival[i])
    {
      hide Strtol, Prefixed, Suffixed;
      if count == maxcount {
        return ERR_MAXCOUNT;
      }
      if argval.None? {
        count := count + 1;
        return 0;
      }
      var s := argval.value;
      var read := Strtol0X(s, 'X', 16);
      if read.None? {
        read := Strtol0X(s, 'O', 8);
        if read.None? {
          read := Strtol0X(s, 'B', 2);
          if read.None? {
            read := Strtol(s, 10);
            if read.None? {
              return ERR_BADINT;
            }
          }
        }
      }
      var (val, end) := read.value;
      code := if val > INT_MAX || val < INT_MIN then ERR_OVERFLOW else 0;
      var kb := DetectSuffix(end, "KB");
      var mb := DetectSuffix(end, "MB");
      var gb := DetectSuffix(end, "GB");
      var none := DetectSuffix(end, "");
      if kb || mb || gb {
        var m := if kb then 1024 else if mb then 1048576 else 1073741824;
        if val > INT_MAX / m || val < -(-INT_MIN / m) {
          code := ERR_OVERFLOW;
        } else {
          val := val * m;
        }
      } else if !none {
        code := ERR_BADINT;
      }
      if code == 0 {
        ival[count] := val;
        count := count + 1;
      }
    }
  }
}
