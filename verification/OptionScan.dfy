/** How one option is read: the long-option lookup and the short-option cluster. */
module OptionScan {
  import opened Common

  datatype HasArg = NoArgument | RequiredArgument | OptionalArgument

  /** `flag` names the int variable a match is stored in, if any. */
  datatype LongOption = LongOption(name: string, hasArg: HasArg, flag: Option<nat>, val: int)

  /** What one getopt call reports: its return value, optarg, the assignment it makes to optopt
      and the store it makes through an option's flag pointer. */
  datatype Outcome = Outcome(code: int, arg: Option<string>, opt: Option<int>, store: Option<(nat, int)>)

  /** The option string (leading '+' or '-' removed) and the long-option table. A match that
      returns its own val must not return -1, which means "no more options". */
  datatype Config = Config(options: string, longs: seq<LongOption>) {
    ghost predicate Ok() {
      forall i :: 0 <= i < |longs| && longs[i].flag.None? ==> longs[i].val != -1
    }

    function BadArg(): (code: int)
      ensures options != "" && options[0] == ':' ==> code == ':' as int
      ensures options == "" || options[0] != ':' ==> code == '?' as int
    {
      if options != "" && options[0] == ':' then ':' as int else '?' as int
    }
  }

  const BADCH: int := '?' as int

  // ---------- Long options ----------

  datatype Match = NoMatch | Ambiguous | Matched(index: nat)

  predicate Abbreviates(key: string, o: LongOption) {
    key <= o.name
  }

  predicate Conflict(a: LongOption, b: LongOption) {
    a.hasArg != b.hasArg || a.flag != b.flag || a.val != b.val
  }

  /** The lookup rule: the first exact name wins; otherwise the first abbreviated name, provided
      every other abbreviated name means the same. */
  function Lookup(longs: seq<LongOption>, key: string): (m: Match)
    ensures m.Matched? ==> m.index < |longs| && Abbreviates(key, longs[m.index])
  {
    match First(longs, (o: LongOption) => o.name == key)
    case Some(i) => Matched(i)
    case None =>
      match First(longs, (o: LongOption) => Abbreviates(key, o))
      case None => NoMatch
      case Some(i) =>
        if exists j :: i < j < |longs| && Abbreviates(key, longs[j]) && Conflict(longs[j], longs[i])
        then Ambiguous else Matched(i)
  }

  /** Entry i is the first of that name. */
  predicate FirstNamed(longs: seq<LongOption>, key: string, i: nat) {
    i < |longs| && longs[i].name == key && forall j :: 0 <= j < i ==> longs[j].name != key
  }

  predicate Unnamed(longs: seq<LongOption>, key: string) {
    forall j :: 0 <= j < |longs| ==> longs[j].name != key
  }

  /** Entry i is the first that the key is a prefix of. */
  predicate FirstPrefixed(longs: seq<LongOption>, key: string, i: nat) {
    i < |longs| && key <= longs[i].name && forall j :: 0 <= j < i ==> !(key <= longs[j].name)
  }

  /** All later entries that the key is a prefix of mean the same as entry i. */
  predicate AllMeanSame(longs: seq<LongOption>, key: string, i: nat)
    requires i < |longs|
  {
    forall j :: i < j < |longs| && key <= longs[j].name ==>
      longs[j].hasArg == longs[i].hasArg && longs[j].flag == longs[i].flag && longs[j].val == longs[i].val
  }

  /** When a key is matched, and by which entry; when it is ambiguous; and when it is unknown. */
  lemma LookupIff(longs: seq<LongOption>, key: string)
    ensures forall i: nat :: Lookup(longs, key) == Matched(i) <==>
              || FirstNamed(longs, key, i)
              || (Unnamed(longs, key) && FirstPrefixed(longs, key, i) && AllMeanSame(longs, key, i))
    ensures Lookup(longs, key) == Ambiguous <==>
            Unnamed(longs, key) && exists i: nat :: FirstPrefixed(longs, key, i) && !AllMeanSame(longs, key, i)
    ensures Lookup(longs, key) == NoMatch <==> forall j :: 0 <= j < |longs| ==> !(key <= longs[j].name)
  {
    var exact := First(longs, (o: LongOption) => o.name == key);
    var prefixed := First(longs, (o: LongOption) => Abbreviates(key, o));
    if exact.Some? {
      assert FirstNamed(longs, key, exact.value);
    } else if prefixed.Some? {
      assert FirstPrefixed(longs, key, prefixed.value);
    }
  }

  /** The table search, as the scanner's loop runs it. */
  method FindLong(longs: seq<LongOption>, key: string) returns (m: Match)
    ensures m == Lookup(longs, key)
  {
    var candidate := -1;
    var conflict := false;
    for i := 0 to |longs|
      invariant candidate == -1 ==> !conflict && forall j :: 0 <= j < i ==> !Abbreviates(key, longs[j])
      invariant candidate != -1 ==> 0 <= candidate < i && Abbreviates(key, longs[candidate])
      invariant forall j :: 0 <= j < candidate ==> !Abbreviates(key, longs[j])
      invariant forall j :: 0 <= j < i ==> longs[j].name != key
      invariant candidate != -1 ==> (conflict <==>
        exists j :: candidate < j < i && Abbreviates(key, longs[j]) && Conflict(longs[j], longs[candidate]))
    {
      if !(key <= longs[i].name) {
        continue;
      }
      if |longs[i].name| == |key| {
        return Matched(i);
      }
      if candidate == -1 {
        candidate := i;
      } else if longs[i].hasArg != longs[candidate].hasArg || longs[i].flag != longs[candidate].flag ||
                longs[i].val != longs[candidate].val {
        conflict := true;
      }
    }
    if conflict {
      return Ambiguous;
    }
    return if candidate == -1 then NoMatch else Matched(candidate);
  }

  /** What follows a lookup: `eq` is the text after '=', if any, and `next` the arguments after the
      option's own. The second component counts how many of `next` are consumed. */
  function LongOutcome(cfg: Config, m: Match, eq: Option<string>, next: seq<string>): (r: (Outcome, nat))
    requires m.Matched? ==> m.index < |cfg.longs|
    ensures r.1 <= |next| && r.1 <= 1
    ensures cfg.Ok() ==> r.0.code != -1
  {
    if !m.Matched? then (Outcome(BADCH, None, Some(0), None), 0)
    else
      var o := cfg.longs[m.index];
      var opt := Some(if o.flag.None? then o.val else 0);
      if o.hasArg.NoArgument? && eq.Some? then (Outcome(BADCH, None, opt, None), 0)
      else if o.hasArg.RequiredArgument? && eq.None? && next == [] then (Outcome(cfg.BadArg(), None, opt, None), 0)
      else
        var takesNext := o.hasArg.RequiredArgument? && eq.None?;
        var arg := if takesNext then Some(next[0]) else eq;
        var out := if o.flag.Some? then Outcome(0, arg, None, Some((o.flag.value, o.val)))
                   else Outcome(o.val, arg, None, None);
        (out, if takesNext then 1 else 0)
  }

  function LongScan(cfg: Config, text: string, next: seq<string>): (r: (Outcome, nat))
    ensures r.1 <= |next|
    ensures cfg.Ok() ==> r.0.code != -1
  {
    match IndexOf(text, '=')
    case None => LongOutcome(cfg, Lookup(cfg.longs, text), None, next)
    case Some(k) => LongOutcome(cfg, Lookup(cfg.longs, text[..k]), Some(text[k + 1..]), next)
  }

  // ---------- One scan ----------

  /** The result of scanning at `place`: the report, the text left in this argument, and how far
      optind moves. */
  datatype Scan = Scan(out: Outcome, place: string, taken: nat)

  datatype ArgMode = Plain | NeedsArg | MayHaveArg | LongW | Unknown

  /** What the option string says about a letter: the first place it is listed decides. */
  function LetterMode(options: string, c: char): ArgMode {
    if c == ':' then Unknown
    else
      match IndexOf(options, c)
      case None => Unknown
      case Some(k) =>
        var after := options[k + 1..];
        if c == 'W' && after != "" && after[0] == ';' then LongW
        else if after == "" || after[0] != ':' then Plain
        else if |after| >= 2 && after[1] == ':' then MayHaveArg
        else NeedsArg
  }

  /** A long option written in one argument, or after -W in the next one. */
  function ScanLong(cfg: Config, text: string, tail: seq<string>, own: nat): (r: Scan)
    requires own <= |tail|
    ensures own <= r.taken <= |tail| && r.place == ""
    ensures cfg.Ok() ==> r.out.code != -1
  {
    var (out, extra) := LongScan(cfg, text, tail[own..]);
    Scan(out, "", own + extra)
  }

  function ScanShort(cfg: Config, c: char, more: string, tail: seq<string>): (r: Scan)
    requires tail != []
    ensures r.taken <= |tail|
    ensures if r.taken == 0 then r.place == more else r.place == ""
    ensures r.taken == 0 ==> more != ""
    ensures cfg.Ok() ==> r.out.code != -1
  {
    var code := c as int;
    match LetterMode(cfg.options, c)
    case Unknown => Scan(Outcome(BADCH, None, Some(code), None), more, if more == "" then 1 else 0)
    case Plain => Scan(Outcome(code, None, None, None), more, if more == "" then 1 else 0)
    case MayHaveArg =>
      Scan(Outcome(code, if more == "" then None else Some(more), None, None), "", 1)
    case NeedsArg =>
      if more != "" then Scan(Outcome(code, Some(more), None, None), "", 1)
      else if |tail| == 1 then Scan(Outcome(cfg.BadArg(), None, Some(code), None), "", 1)
      else Scan(Outcome(code, Some(tail[1]), None, None), "", 2)
    case LongW =>
      if more != "" then ScanLong(cfg, more, tail, 1)
      else if |tail| == 1 then Scan(Outcome(cfg.BadArg(), None, Some(code), None), "", 1)
      else ScanLong(cfg, tail[1], tail, 2)
  }

  /** Scans one option at `place` (not empty), where tail is argv from the current argument on. */
  function ScanOne(cfg: Config, place: string, tail: seq<string>): (r: Scan)
    requires place != "" && tail != []
    ensures r.taken <= |tail|
    ensures r.taken == 0 ==> |r.place| < |place|
    ensures r.taken > 0 ==> r.place == ""
    ensures cfg.Ok() ==> r.out.code != -1
  {
    if place[0] != '-' then ScanShort(cfg, place[0], place[1..], tail)
    else if |place| == 1 then Scan(Outcome(cfg.BadArg(), None, None, None), "", 0)
    else ScanLong(cfg, place[1..], tail, 1)
  }

  // ---------- A whole argument ----------

  /** Everything one dashed argument yields: its reports in order, the number of argv elements it
      takes, and whether the scanner gets stuck on it. */
  datatype Group = Group(events: seq<Outcome>, taken: nat, stuck: bool)

  function Items(cfg: Config, place: string, tail: seq<string>): (g: Group)
    requires place != "" && tail != []
    ensures g.taken <= |tail| && (!g.stuck ==> g.taken > 0) && |g.events| > 0
    decreases |place|
  {
    var s := ScanOne(cfg, place, tail);
    if s.taken > 0 then Group([s.out], s.taken, false)
    else if s.place == "" then Group([s.out], 0, true)
    else
      var g := Items(cfg, s.place, tail);
      Group([s.out] + g.events, g.taken, g.stuck)
  }

  /** A letter after which the scanner goes on to the next letter of the same argument. */
  predicate PassesThrough(cfg: Config, c: char) {
    c != '-' && (LetterMode(cfg.options, c).Plain? || LetterMode(cfg.options, c).Unknown?)
  }

  /** The arguments on which getopt_long never advances: a final '-' after letters that all pass
      through. */
  predicate StuckText(cfg: Config, place: string) {
    place != "" && place[|place| - 1] == '-' && forall k :: 0 <= k < |place| - 1 ==> PassesThrough(cfg, place[k])
  }

  lemma {:induction false} StuckExactly(cfg: Config, place: string, tail: seq<string>)
    requires place != "" && tail != []
    ensures Items(cfg, place, tail).stuck <==> StuckText(cfg, place)
    decreases |place|
  {
    var s := ScanOne(cfg, place, tail);
    if |place| > 1 && PassesThrough(cfg, place[0]) {
      var more := place[1..];
      assert s.taken == 0 && s.place == more;
      StuckExactly(cfg, more, tail);
      if StuckText(cfg, more) {
        forall k | 0 <= k < |place| - 1
          ensures PassesThrough(cfg, place[k])
        {
          assert k > 0 ==> place[k] == more[k - 1];
        }
      }
    } else if |place| > 1 {
      assert s.taken > 0;
      assert !PassesThrough(cfg, place[0]);
    }
  }
}
