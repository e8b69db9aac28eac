/** What an option on the command line takes as its value, from the flags of its table entry. */
module OptionMeaning {
  import opened Common
  import opened OptionScan
  import opened OptionTables

  predicate AllShortOk(table: seq<Names>) {
    forall t :: 0 <= t < |table| ==> ShortOk(table[t])
  }

  // ---------- Short options ----------

  /** An unknown letter is reported as such. */
  lemma UnknownLetter(table: seq<Names>, longs: seq<LongOption>, c: char, more: string, tail: seq<string>)
    requires AllShortOk(table) && c != ':' && c != '-' && FindShort(table, c).None? && tail != []
    ensures var s := ScanOne(Config(ShortString(table), longs), [c] + more, tail);
            s.out == Outcome('?' as int, None, Some(c as int), None) && s.taken == if more == "" then 1 else 0
  {
    hide ShortString, FindShort, LetterMode;
    EncodedModes(table, c);
    assert ([c] + more)[1..] == more;
  }

  /** A letter of the table: without a value, the scan goes on behind it; a required value is the rest of
      the argument or else the next argument, and is reported missing when there is none; an optional
      value can only be the rest of the argument. */
  lemma ShortOption(table: seq<Names>, longs: seq<LongOption>, c: char, more: string, tail: seq<string>)
    requires AllShortOk(table) && c != ':' && c != '-' && FindShort(table, c).Some? && tail != []
    ensures var n := table[FindShort(table, c).value];
            var s := ScanOne(Config(ShortString(table), longs), [c] + more, tail);
            var code := c as int;
            && (!n.hasValue ==>
                  s == Scan(Outcome(code, None, None, None), more, if more == "" then 1 else 0))
            && (n.hasValue && !n.hasOptValue && more != "" ==>
                  s == Scan(Outcome(code, Some(more), None, None), "", 1))
            && (n.hasValue && !n.hasOptValue && more == "" && |tail| > 1 ==>
                  s == Scan(Outcome(code, Some(tail[1]), None, None), "", 2))
            && (n.hasValue && !n.hasOptValue && more == "" && |tail| == 1 ==>
                  s == Scan(Outcome(':' as int, None, Some(code), None), "", 1))
            && (n.hasOptValue ==>
                  s == Scan(Outcome(code, if more == "" then None else Some(more), None, None), "", 1))
  {
    hide FindShort, LetterMode, ShortBody;
    EncodedModes(table, c);
    assert ([c] + more)[1..] == more;
    assert ShortOk(table[FindShort(table, c).value]);
  }

  /** In a cluster, a letter without a value is reported and the scan goes on with the letters behind it. */
  lemma Cluster(table: seq<Names>, longs: seq<LongOption>, c: char, more: string, tail: seq<string>)
    requires AllShortOk(table) && c != ':' && c != '-' && FindShort(table, c).Some? && tail != [] && more != ""
    requires !table[FindShort(table, c).value].hasValue
    ensures var cfg := Config(ShortString(table), longs);
            var g := Items(cfg, more, tail);
            Items(cfg, [c] + more, tail) == Group([Outcome(c as int, None, None, None)] + g.events, g.taken, g.stuck)
  {
    hide FindShort, ShortString, ScanOne;
    ShortOption(table, longs, c, more, tail);
  }

  /** Where the option string has "W;", the text behind -W, or else the next argument, is a long option. */
  lemma LongAfterW(cfg: Config, k: nat, more: string, tail: seq<string>)
    requires IndexOf(cfg.options, 'W') == Some(k) && k + 1 < |cfg.options| && cfg.options[k + 1] == ';' && tail != []
    ensures more != "" ==>
      var (out, extra) := LongScan(cfg, more, tail[1..]); ScanOne(cfg, "W" + more, tail) == Scan(out, "", 1 + extra)
    ensures more == "" && |tail| > 1 ==>
      var (out, extra) := LongScan(cfg, tail[1], tail[2..]); ScanOne(cfg, "W", tail) == Scan(out, "", 2 + extra)
  {
    hide LongScan;
    assert ("W" + more)[1..] == more && "W"[1..] == "";
    assert cfg.options[k + 1..][0] == ';';
  }

  // ---------- Long options ----------

  /** An option written --name or --name=v. */
  function Written(name: string, eq: Option<string>): string {
    match eq
    case None => name
    case Some(v) => name + "=" + v
  }

  lemma WrittenParts(name: string, eq: Option<string>)
    requires '=' !in name
    ensures match eq
            case None => Written(name, eq) == name && IndexOf(name, '=') == None
            case Some(v) =>
              && IndexOf(Written(name, eq), '=') == Some(|name|)
              && Written(name, eq)[..|name|] == name && Written(name, eq)[|name| + 1..] == v
  {
    var s := Written(name, eq);
    if eq.None? {
      assert s[0..] == s;
      NoIndex(s, '=');
    } else {
      assert s[0..|name|] == name;
      IndexIs(s, '=', 0, |name|);
    }
  }

  lemma {:induction false} IndexIs(s: string, c: char, from: nat, k: nat)
    requires from <= k < |s| && s[k] == c && c !in s[from..k]
    ensures IndexOf(s, c, from) == Some(k)
    decreases k - from
  {
    if from < k {
      assert s[from] in s[from..k];
      assert forall x :: x in s[from + 1..k] ==> x in s[from..k];
      IndexIs(s, c, from + 1, k);
    }
  }

  lemma NoIndex(s: string, c: char)
    requires c !in s
    ensures IndexOf(s, c) == None
  {
  }

  /** A long option of the table: a required value is what follows the equals sign or else the next
      argument, and is reported missing when there is none; an optional value can only follow the equals
      sign; without a value an equals sign is an error. */
  lemma LongOptionMeans(table: seq<Names>, name: string, eq: Option<string>, i: nat, tail: seq<string>)
    requires '=' !in name && tail != [] && Written(name, eq) != "" && Lookup(LongTable(table), name) == Matched(i)
    ensures i < |LongTable(table)|
    ensures var t := LongTable(table)[i].val;
            && 0 <= t < |table|
            && var cfg := Config(ShortString(table), LongTable(table));
               var n, s := table[t], ScanOne(cfg, "-" + Written(name, eq), tail);
               var store := Some((GETOPTVAL, t));
               && (n.hasValue && !n.hasOptValue && eq.Some? ==> s == Scan(Outcome(0, eq, None, store), "", 1))
               && (n.hasValue && !n.hasOptValue && eq.None? && |tail| > 1 ==>
                     s == Scan(Outcome(0, Some(tail[1]), None, store), "", 2))
               && (n.hasValue && !n.hasOptValue && eq.None? && |tail| == 1 ==>
                     s == Scan(Outcome(':' as int, None, Some(0), None), "", 1))
               && (n.hasOptValue ==> s == Scan(Outcome(0, eq, None, store), "", 1))
               && (!n.hasValue && !n.hasOptValue && eq.None? ==> s == Scan(Outcome(0, None, None, store), "", 1))
               && (!n.hasValue && !n.hasOptValue && eq.Some? ==>
                     s == Scan(Outcome('?' as int, None, Some(0), None), "", 1))
  {
    hide Lookup, LongTable, ShortBody, Written, NamesIn;
    LongKinds(table, i);
    WrittenParts(name, eq);
    var place := "-" + Written(name, eq);
    assert place[0] == '-' && place[1..] == Written(name, eq);
    assert |tail| == 1 ==> tail[1..] == [];
    assert |tail| > 1 ==> tail[1..][0] == tail[1];
  }

  // ---------- barco's own long options ----------

  /** A table in which every entry has one plain long name. */
  predicate OneNameEach(table: seq<Names>) {
    forall t :: 0 <= t < |table| ==>
      table[t].longopts.Some? && table[t].longopts.value != "" && ',' !in table[t].longopts.value
  }

  lemma {:induction false} OneNameTable(table: seq<Names>)
    requires OneNameEach(table)
    ensures |LongTable(table)| == |table|
    ensures forall t :: 0 <= t < |table| ==>
              LongTable(table)[t].name == table[t].longopts.value && LongTable(table)[t].val == t
  {
    if table != [] {
      var m := |table| - 1;
      OneNameTable(table[..m]);
      var s := table[m].longopts.value;
      assert s[0..] == s;
      assert NamesIn(table[m]) == [s];
    }
  }

  /** "veth" is the eighth entry, though it is a prefix of "veth-peer" too; "veth-" is the ninth; "ve" is
      ambiguous and "x" is unknown. */
  lemma BarcoVeth()
    ensures var longs := LongTable(BarcoTable());
            && |longs| == 13 && longs[7].name == "veth" && longs[8].name == "veth-peer"
            && Lookup(longs, "veth") == Matched(7) && Lookup(longs, "veth-") == Matched(8)
            && Lookup(longs, "ve") == Ambiguous && Lookup(longs, "x") == NoMatch
  {
    hide LongTable, Lookup;
    BarcoNames();
    var longs := LongTable(BarcoTable());
    BarcoExact(longs);
    BarcoPrefix(longs);
    BarcoAmbiguous(longs);
    BarcoUnknown(longs);
  }

  const BARCO_NAMES: seq<string> := ["help", "version", "uid", "mnt", "cmd", "arg", "verbosity", "veth", "veth-peer",
                                     "container-ip", "host-ip", "nat", "dns"]

  predicate HasBarcoNames(longs: seq<LongOption>) {
    |longs| == 13 && forall t :: 0 <= t < 13 ==> longs[t].name == BARCO_NAMES[t] && longs[t].val == t
  }

  lemma BarcoNames()
    ensures HasBarcoNames(LongTable(BarcoTable()))
  {
    hide LongTable;
    OneNameTable(BarcoTable());
  }

  lemma BarcoExact(longs: seq<LongOption>)
    requires HasBarcoNames(longs)
    ensures Lookup(longs, "veth") == Matched(7)
  {
    hide Lookup;
    LookupIff(longs, "veth");
    assert FirstNamed(longs, "veth", 7);
  }

  lemma NotPrefix(key: string, name: string, i: nat)
    requires i < |key| && (i < |name| ==> key[i] != name[i])
    ensures !(key <= name)
  {
  }

  lemma BarcoPrefix(longs: seq<LongOption>)
    requires HasBarcoNames(longs)
    ensures Lookup(longs, "veth-") == Matched(8)
  {
    hide Lookup;
    LookupIff(longs, "veth-");
    assert "veth-peer"[..5] == "veth-";
    forall j | 0 <= j < 13 && j != 8
      ensures !("veth-" <= longs[j].name)
    {
      NotPrefix("veth-", longs[j].name, if j == 7 then 4 else if j == 1 || j == 6 then 2 else 0);
    }
    assert FirstPrefixed(longs, "veth-", 8) && AllMeanSame(longs, "veth-", 8) && Unnamed(longs, "veth-");
  }

  lemma BarcoAmbiguous(longs: seq<LongOption>)
    requires HasBarcoNames(longs)
    ensures Lookup(longs, "ve") == Ambiguous
  {
    hide Lookup;
    LookupIff(longs, "ve");
    assert "version"[..2] == "ve" && "veth"[..2] == "ve";
    NotPrefix("ve", longs[0].name, 0);
    assert longs[7].name == "veth" && longs[7].val != longs[1].val;
    assert FirstPrefixed(longs, "ve", 1) && !AllMeanSame(longs, "ve", 1) && Unnamed(longs, "ve");
  }

  lemma BarcoUnknown(longs: seq<LongOption>)
    requires HasBarcoNames(longs)
    ensures Lookup(longs, "x") == NoMatch
  {
    hide Lookup;
    LookupIff(longs, "x");
    forall j | 0 <= j < 13
      ensures !("x" <= longs[j].name)
    {
      NotPrefix("x", longs[j].name, 0);
    }
  }
}
