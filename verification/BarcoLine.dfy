/** Command lines of barco's own: what its table makes of options with values. */
module BarcoLine {
  import opened Common
  import opened OptionScan
  import opened OptionTables
  import opened OptionMeaning
  import opened Getopt
  import opened ArgParse
  import opened IntScan

  // ---------- Options with values, anywhere on a line ----------

  /** -c value: both arguments are options, and the value is reported with the letter. */
  lemma ShortValue(names: seq<Names>, c: char, v: string, rest: seq<string>)
    requires AllShortOk(names) && c != ':' && c != '-' && FindShort(names, c).Some?
    requires var n := names[FindShort(names, c).value]; n.hasValue && !n.hasOptValue
    ensures var cfg := Config(ShortString(names), LongTable(names));
            var l := LayoutOf(cfg, rest);
            !l.stuck ==> LayoutOf(cfg, [['-', c], v] + rest) ==
                         l.(opts := [['-', c], v] + l.opts,
                            events := [Outcome(c as int, Some(v), None, None)] + l.events)
  {
    hide FindShort, ShortString, LongTable, ScanOne;
    var args := [['-', c], v] + rest;
    ShortOption(names, LongTable(names), c, "", args);
    assert [c] + "" == [c] && args[0][1..] == [c];
    assert args[2..] == rest && args[..2] == [['-', c], v];
  }

  /** --name=value: one argument, and the value is reported with the entry's index. */
  lemma LongValue(names: seq<Names>, name: string, v: string, i: nat, rest: seq<string>)
    requires '=' !in name && Lookup(LongTable(names), name) == Matched(i) && i < |LongTable(names)|
    requires 0 <= LongTable(names)[i].val < |names|
    requires var n := names[LongTable(names)[i].val]; n.hasValue && !n.hasOptValue
    ensures var cfg, arg := Config(ShortString(names), LongTable(names)), "--" + (name + "=" + v);
            var l := LayoutOf(cfg, rest);
            var ev := Outcome(0, Some(v), None, Some((GETOPTVAL, LongTable(names)[i].val)));
            !l.stuck ==> LayoutOf(cfg, [arg] + rest) == l.(opts := [arg] + l.opts, events := [ev] + l.events)
  {
    hide ShortString, LongTable, ScanOne, Lookup;
    var arg := "--" + (name + "=" + v);
    var args := [arg] + rest;
    LongOptionMeans(names, name, Some(v), i, args);
    assert arg[1..] == "-" + Written(name, Some(v));
    assert args[1..] == rest && args[..1] == [arg];
    assert |arg| > 2;
  }

  // ---------- barco's table ----------

  /** arg_int_scanfn's verdict on a text. */
  function IntVerdict(s: string): int {
    match ScanInt(s)
    case Ok(_) => 0
    case BadInt => ERR_BADINT
    case Overflow => ERR_OVERFLOW
  }

  /** The table with its counts: uid, mnt and cmd once each, the others at most once. Strings and flags
      accept everything. */
  function BarcoEntries(): (r: seq<Entry>)
    ensures |r| == |BarcoTable()|
  {
    seq(|BarcoTable()|, t requires 0 <= t < |BarcoTable()| =>
          Entry(BarcoTable()[t], if 2 <= t <= 4 then 1 else 0, 1,
                Some(if t == 2 then IntVerdict else ((_: string) => 0))))
  }

  lemma BarcoNamesOf()
    ensures NamesOf(BarcoEntries()) == BarcoTable() && TableOk(BarcoEntries()) && AllShortOk(BarcoTable())
    ensures TablesFit(BarcoEntries()) && |BarcoTable()| == 13
  {
    hide BarcoTable;
    BarcoSize();
    BarcoOptions();
  }

  lemma BarcoSize()
    ensures |BarcoTable()| == 13
  {
  }

  lemma BarcoLetter(c: char, t: nat)
    requires (c == 'u' && t == 2) || (c == 'm' && t == 3) || (c == 'c' && t == 4)
    ensures FindShort(BarcoTable(), c) == Some(t)
  {
    hide FindShort;
    assert c in BarcoTable()[t].shortopts.value;
  }

  /** A letter whose option requires a value. */
  predicate TakesValue(names: seq<Names>, c: char) {
    && c != ':' && c != '-' && FindShort(names, c).Some?
    && var n := names[FindShort(names, c).value]; n.hasValue && !n.hasOptValue
  }

  /** A long name that matches option i of the array, which belongs to entry t and requires a value. */
  predicate LongTakesValue(names: seq<Names>, name: string, i: nat, t: nat) {
    && '=' !in name && Lookup(LongTable(names), name) == Matched(i) && i < |LongTable(names)|
    && LongTable(names)[i].val == t && t < |names| && names[t].hasValue && !names[t].hasOptValue
  }

  /** A line of two short options and a long one, all with values. */
  lemma ThreeOptions(names: seq<Names>, a: char, x: string, b: char, y: string, name: string, v: string, i: nat, t: nat)
    requires AllShortOk(names) && TakesValue(names, a) && TakesValue(names, b) && LongTakesValue(names, name, i, t)
    ensures var args := [['-', a], x, ['-', b], y, "--" + (name + "=" + v)];
            LayoutOf(Config(ShortString(names), LongTable(names)), args)
            == Layout(args, [], [], [Outcome(a as int, Some(x), None, None), Outcome(b as int, Some(y), None, None),
                                     Outcome(0, Some(v), None, Some((GETOPTVAL, t)))], false)
  {
    hide LayoutOf, LongTable, ShortString, FindShort, Lookup, TakesValue, LongTakesValue;
    var arg := "--" + (name + "=" + v);
    var last := [Outcome(0, Some(v), None, Some((GETOPTVAL, t)))];
    OneOption(names, name, v, i, t);
    var flagA, flagB := ['-', a], ['-', b];
    InFront(flagB, y, arg, flagA, x);
    OneMore(names, b, y, [arg], last, [flagB, y, arg]);
    var two := [Outcome(b as int, Some(y), None, None)] + last;
    OneMore(names, a, x, [flagB, y, arg], two, [flagA, x, flagB, y, arg]);
  }

  lemma InFront(b: string, y: string, arg: string, a: string, x: string)
    ensures [b, y, arg] == [b, y] + [arg] && [a, x, b, y, arg] == [a, x] + [b, y, arg]
  {
  }

  lemma OneOption(names: seq<Names>, name: string, v: string, i: nat, t: nat)
    requires LongTakesValue(names, name, i, t)
    ensures var arg := "--" + (name + "=" + v);
            LayoutOf(Config(ShortString(names), LongTable(names)), [arg])
            == Layout([arg], [], [], [Outcome(0, Some(v), None, Some((GETOPTVAL, t)))], false)
  {
    hide LayoutOf, LongTable, ShortString, Lookup;
    NothingLeft(Config(ShortString(names), LongTable(names)));
    LongValue(names, name, v, i, []);
    assert ["--" + (name + "=" + v)] + [] == ["--" + (name + "=" + v)];
  }

  /** A short option with its value in front of a line that is all options. */
  lemma OneMore(names: seq<Names>, c: char, v: string, rest: seq<string>, evs: seq<Outcome>, args: seq<string>)
    requires AllShortOk(names) && TakesValue(names, c) && args == [['-', c], v] + rest
    requires LayoutOf(Config(ShortString(names), LongTable(names)), rest) == Layout(rest, [], [], evs, false)
    ensures LayoutOf(Config(ShortString(names), LongTable(names)), args)
         == Layout(args, [], [], [Outcome(c as int, Some(v), None, None)] + evs, false)
  {
    hide LayoutOf, LongTable, ShortString, FindShort;
    ShortValue(names, c, v, rest);
  }

  /** What getopt reports for "-u 0 -m / --cmd=<cmd>". */
  lemma BarcoReports(cmd: string)
    ensures LayoutOf(ConfigOf(BarcoEntries()), Line(cmd)) == Layout(Line(cmd), [], [], Reports3(cmd), false)
  {
    hide LayoutOf, LongTable, ShortString, FindShort, Lookup, BarcoTable;
    BarcoNamesOf();
    BarcoLetter('u', 2);
    BarcoLetter('m', 3);
    BarcoFlags(2);
    BarcoFlags(3);
    CmdMatched();
    ThreeOptions(BarcoTable(), 'u', "0", 'm', "/", "cmd", cmd, 4, 4);
    assert Line(cmd) == [['-', 'u'], "0", ['-', 'm'], "/", "--" + ("cmd" + "=" + cmd)] by {
      assert "--cmd=" + cmd == "--" + ("cmd" + "=" + cmd);
    }
  }

  function Line(cmd: string): seq<string> {
    ["-u", "0", "-m", "/", "--cmd=" + cmd]
  }

  function Reports3(cmd: string): seq<Outcome> {
    [Outcome('u' as int, Some("0"), None, None), Outcome('m' as int, Some("/"), None, None),
     Outcome(0, Some(cmd), None, Some((GETOPTVAL, 4)))]
  }

  lemma NothingLeft(cfg: Config)
    ensures LayoutOf(cfg, []) == Layout([], [], [], [], false)
  {
  }

  lemma BarcoFlags(t: nat)
    requires 2 <= t <= 4
    ensures BarcoTable()[t].hasValue && !BarcoTable()[t].hasOptValue
  {
  }

  lemma CmdMatched()
    ensures var longs := LongTable(BarcoTable());
            |longs| == |BarcoTable()| == 13 && Lookup(longs, "cmd") == Matched(4) && longs[4].val == 4
    ensures BarcoTable()[4].hasValue && !BarcoTable()[4].hasOptValue
  {
    hide Lookup, LongTable;
    BarcoNames();
    var longs := LongTable(BarcoTable());
    LookupIff(longs, "cmd");
    assert FirstNamed(longs, "cmd", 4);
  }

  function Counts3(a: nat, b: nat, c: nat): seq<nat> {
    [0, 0, a, b, c, 0, 0, 0, 0, 0, 0, 0, 0]
  }

  lemma ReportsOk(cmd: string)
    ensures EventsOk(BarcoEntries(), Reports3(cmd))
  {
  }

  lemma ScanZero()
    ensures IntVerdict("0") == 0
  {
    PrintThenScan(0, false, Dec, "");
    assert Printed(0, false, Dec) + "" == "0";
  }

  /** A report of letter c, whose entry t still takes a value. */
  lemma LetterCounts(counts: seq<nat>, c: char, v: string, t: nat)
    requires |counts| == 13 && (c == 'u' || c == 'm') && FindShort(BarcoTable(), c) == Some(t) && counts[t] == 0
    requires BarcoEntries()[t].scan.Some? && BarcoEntries()[t].scan.value(v) == 0
    ensures |BarcoEntries()| == 13 && EventOk(BarcoEntries(), Outcome(c as int, Some(v), None, None))
    ensures OnEvent(BarcoEntries(), Tally(counts, 0), Outcome(c as int, Some(v), None, None))
         == Tally(counts[t := 1], 0)
  {
    hide FindShort, OnEvent, BarcoTable, IntVerdict;
    BarcoNamesOf();
    EventMeans(BarcoEntries(), Tally(counts, 0), Outcome(c as int, Some(v), None, None));
  }

  lemma FirstTwo(cmd: string)
    requires EventsOk(BarcoEntries(), Reports3(cmd))
    ensures var table := BarcoEntries();
            var s1 := OnEvent(table, Zero(table), Reports3(cmd)[0]);
            s1 == Tally(Counts3(1, 0, 0), 0) && OnEvent(table, s1, Reports3(cmd)[1]) == Tally(Counts3(1, 1, 0), 0)
  {
    hide FindShort, OnEvent, BarcoTable, IntVerdict;
    BarcoSize();
    ScanZero();
    BarcoLetter('u', 2);
    BarcoLetter('m', 3);
    assert Zero(BarcoEntries()).counts == Counts3(0, 0, 0);
    LetterCounts(Counts3(0, 0, 0), 'u', "0", 2);
    assert Counts3(0, 0, 0)[2 := 1] == Counts3(1, 0, 0);
    LetterCounts(Counts3(1, 0, 0), 'm', "/", 3);
    assert Counts3(1, 0, 0)[3 := 1] == Counts3(1, 1, 0);
  }

  lemma Third(cmd: string)
    requires EventsOk(BarcoEntries(), Reports3(cmd))
    ensures OnEvent(BarcoEntries(), Tally(Counts3(1, 1, 0), 0), Reports3(cmd)[2])
         == Tally(Counts3(1, 1, 1), if cmd == "" then 1 else 0)
  {
    hide OnEvent, IntVerdict;
    BarcoNamesOf();
    EventMeans(BarcoEntries(), Tally(Counts3(1, 1, 0), 0), Reports3(cmd)[2]);
    assert Counts3(1, 1, 0)[4 := 1] == Counts3(1, 1, 1);
  }

  lemma BarcoTally(cmd: string)
    requires EventsOk(BarcoEntries(), Reports3(cmd))
    ensures OnEvents(BarcoEntries(), Zero(BarcoEntries()), Reports3(cmd))
         == Tally(Counts3(1, 1, 1), if cmd == "" then 1 else 0)
  {
    hide OnEvent, OnEvents, BarcoTable, EventOk;
    var table, evs := BarcoEntries(), Reports3(cmd);
    FirstTwo(cmd);
    Third(cmd);
    OneEvent(table, Zero(table), evs);
    OneEvent(table, Tally(Counts3(1, 0, 0), 0), evs[1..]);
    OneEvent(table, Tally(Counts3(1, 1, 0), 0), evs[1..][1..]);
    NoEvents(table, Tally(Counts3(1, 1, 1), if cmd == "" then 1 else 0));
    assert evs[1..][1..][1..] == [];
  }

  /** "barco -u 0 -m / --cmd=<cmd>" parses without error exactly when the command is not empty. */
  lemma BarcoParses(cmd: string)
    ensures var table := BarcoEntries();
            var l := LayoutOf(ConfigOf(table), Line(cmd));
            && !l.stuck && EventsOk(table, l.events) && TablesFit(table)
            && (Parsed(table, l.events, l.nonopts + l.rest).errors == 0 <==> cmd != "")
  {
    hide LayoutOf, LongTable, ShortString, FindShort, BarcoTable, OnEvents, OnWords, Missing, EventOk;
    var table := BarcoEntries();
    BarcoNamesOf();
    BarcoReports(cmd);
    ReportsOk(cmd);
    BarcoTally(cmd);
    NoWords(table, Tally(Counts3(1, 1, 1), if cmd == "" then 1 else 0));
    NothingMissing(table, Counts3(1, 1, 1), |table|);
  }
}
