/** The parse pipeline: tagged options, untagged arguments, final checks, and the capped error list. */
module ArgParse {
  import opened Common
  import opened OptionScan
  import opened OptionTables
  import opened Getopt

  const ELIMIT := 1
  const ENOMATCH := 3
  const ELONGOPT := 4
  const EMISSARG := 5

  /** A table entry. `scan` is what its scan function says about a value, 0 for acceptance; entries
      without one are skipped by every phase. */
  datatype Entry = Entry(names: Names, mincount: nat, maxcount: nat, scan: Option<string -> int>) {
    predicate Tagged() { names.longopts.Some? || names.shortopts.Some? }

    /** Constructors keep mincount <= maxcount and give every option a scan function. */
    predicate Ok() {
      mincount <= maxcount && (Tagged() ==> scan.Some?)
    }
  }

  predicate TableOk(table: seq<Entry>) {
    forall t :: 0 <= t < |table| ==> table[t].Ok()
  }

  function NamesOf(table: seq<Entry>): (r: seq<Names>)
    ensures |r| == |table| && forall t :: 0 <= t < |table| ==> r[t] == table[t].names
  {
    seq(|table|, t requires 0 <= t < |table| => table[t].names)
  }

  /** getopt's tables for an argument table. */
  function ConfigOf(table: seq<Entry>): Config {
    Config(ShortString(NamesOf(table)), LongTable(NamesOf(table)))
  }

  /** The option array that is counted for the table has room for its options. */
  predicate TablesFit(table: seq<Entry>) {
    AllLongOk(NamesOf(table)) && SlotsCovered(NamesOf(table))
  }

  // ---------- The meaning of a parse ----------

  /** How often each entry was accepted, and how many errors were registered. */
  datatype Tally = Tally(counts: seq<nat>, errors: nat)

  /** A scan function's verdict on an entry that was accepted `count` times already. */
  function Verdict(e: Entry, count: nat, arg: Option<string>): int
    requires e.scan.Some?
  {
    if count == e.maxcount then ERR_MAXCOUNT
    else if arg.None? then 0
    else e.scan.value(arg.value)
  }

  function Scanned(table: seq<Entry>, s: Tally, t: nat, arg: Option<string>): (r: Tally)
    requires t < |table| == |s.counts|
    ensures |r.counts| == |table|
  {
    if table[t].scan.None? then s
    else if Verdict(table[t], s.counts[t], arg) == 0 then s.(counts := s.counts[t := s.counts[t] + 1])
    else s.(errors := s.errors + 1)
  }

  /** The entry an option report belongs to, if it is not an error report. */
  function TargetOf(table: seq<Entry>, ev: Outcome): (r: Option<nat>)
    requires EventOk(table, ev)
    ensures r.Some? ==> r.value < |table| && table[r.value].Tagged()
  {
    if ev.code == 0 then Some(ev.store.value.1)
    else if ev.code == '?' as int || ev.code == ':' as int then None
    else FindShort(NamesOf(table), ev.code as char)
  }

  /** What getopt reports over this table: a long option with its entry's index, or a character. */
  predicate EventOk(table: seq<Entry>, ev: Outcome) {
    && (ev.code == 0 ==> ev.store.Some? && ev.store.value.0 == GETOPTVAL && 0 <= ev.store.value.1 < |table| &&
                         table[ev.store.value.1].Tagged())
    && (ev.code != 0 ==> IsChar(ev.code))
  }

  predicate EventsOk(table: seq<Entry>, evs: seq<Outcome>) {
    forall i :: 0 <= i < |evs| ==> EventOk(table, evs[i])
  }

  predicate IsChar(n: int) {
    0 <= n < 0xD800 || 0xE000 <= n < 0x11_0000
  }

  /** A long option with an explicit empty value, where a value is expected. */
  predicate EmptyValue(table: seq<Entry>, ev: Outcome)
    requires EventOk(table, ev)
  {
    ev.code == 0 && ev.arg == Some("") && table[ev.store.value.1].names.hasValue
  }

  function OnEvent(table: seq<Entry>, s: Tally, ev: Outcome): (r: Tally)
    requires |s.counts| == |table| && EventOk(table, ev)
    ensures |r.counts| == |table|
  {
    match TargetOf(table, ev)
    case None => s.(errors := s.errors + 1)
    case Some(t) => Scanned(table, if EmptyValue(table, ev) then s.(errors := s.errors + 1) else s, t, ev.arg)
  }

  function OnEvents(table: seq<Entry>, s: Tally, evs: seq<Outcome>): (r: Tally)
    requires |s.counts| == |table| && EventsOk(table, evs)
    ensures |r.counts| == |table|
    decreases |evs|
  {
    if evs == [] then s else OnEvents(table, OnEvent(table, s, evs[0]), evs[1..])
  }

  /** The untagged phase from table entry t on: each entry takes words as long as it accepts them; words
      left over when the table is exhausted are one error each. */
  function OnWords(table: seq<Entry>, s: Tally, t: nat, words: seq<string>): (r: Tally)
    requires t <= |table| == |s.counts|
    ensures |r.counts| == |table|
    decreases |table| - t + |words|
  {
    if t == |table| then s.(errors := s.errors + |words|)
    else if words == [] then s
    else if table[t].Tagged() || table[t].scan.None? then OnWords(table, s, t + 1, words)
    else if Verdict(table[t], s.counts[t], Some(words[0])) == 0 then
      OnWords(table, s.(counts := s.counts[t := s.counts[t] + 1]), t, words[1..])
    else OnWords(table, s, t + 1, words)
  }

  /** The check phase over the first n entries: one error for each accepted too rarely. */
  function Missing(table: seq<Entry>, counts: seq<nat>, n: nat): nat
    requires n <= |table| == |counts|
  {
    if n == 0 then 0
    else
      Missing(table, counts, n - 1)
      + (if table[n - 1].scan.Some? && counts[n - 1] < table[n - 1].mincount then 1 else 0)
  }

  function Zero(table: seq<Entry>): Tally {
    Tally(seq(|table|, _ => 0), 0)
  }

  /** The whole parse: checks are made only when nothing has gone wrong before. */
  function Parsed(table: seq<Entry>, evs: seq<Outcome>, words: seq<string>): Tally
    requires EventsOk(table, evs)
  {
    var s := OnWords(table, OnEvents(table, Zero(table), evs), 0, words);
    if s.errors > 0 then s else s.(errors := Missing(table, s.counts, |table|))
  }

  // ---------- What success means ----------

  function Sum(s: seq<nat>): nat {
    if s == [] then 0 else s[0] + Sum(s[1..])
  }

  lemma {:induction false} SumPlusOne(s: seq<nat>, t: nat)
    requires t < |s|
    ensures Sum(s[t := s[t] + 1]) == Sum(s) + 1
  {
    var s' := s[t := s[t] + 1];
    if t > 0 {
      SumPlusOne(s[1..], t - 1);
      assert s'[1..] == s[1..][t - 1 := s[1..][t - 1] + 1];
    } else {
      assert s'[1..] == s[1..];
    }
  }

  /** No entry is counted beyond its maximum. */
  predicate Bounded(table: seq<Entry>, counts: seq<nat>) {
    |counts| == |table| && forall t :: 0 <= t < |table| ==> counts[t] <= table[t].maxcount
  }

  /** How many reports belong to entry t. */
  function Hits(table: seq<Entry>, evs: seq<Outcome>, t: nat): nat
    requires EventsOk(table, evs)
  {
    if evs == [] then 0 else (if TargetOf(table, evs[0]) == Some(t) then 1 else 0) + Hits(table, evs[1..], t)
  }

  lemma {:induction false} EventsCounted(table: seq<Entry>, s: Tally, evs: seq<Outcome>)
    requires TableOk(table) && Bounded(table, s.counts) && EventsOk(table, evs)
    ensures var r := OnEvents(table, s, evs);
            && Bounded(table, r.counts) && r.errors >= s.errors
            && (r.errors == s.errors ==> Sum(r.counts) == Sum(s.counts) + |evs| &&
                                         forall t :: 0 <= t < |table| ==>
                                           r.counts[t] == s.counts[t] + Hits(table, evs, t))
    decreases |evs|
  {
    if evs != [] {
      var s1 := OnEvent(table, s, evs[0]);
      EventCounted(table, s, evs[0]);
      EventsCounted(table, s1, evs[1..]);
    }
  }

  lemma EventCounted(table: seq<Entry>, s: Tally, ev: Outcome)
    requires TableOk(table) && Bounded(table, s.counts) && EventOk(table, ev)
    ensures var r := OnEvent(table, s, ev);
            && Bounded(table, r.counts) && r.errors >= s.errors
            && (r.errors == s.errors ==>
                  var t := TargetOf(table, ev);
                  && t.Some? && Sum(r.counts) == Sum(s.counts) + 1
                  && r.counts == s.counts[t.value := s.counts[t.value] + 1])
  {
    var t := TargetOf(table, ev);
    if t.Some? {
      assert table[t.value].Ok();
      SumPlusOne(s.counts, t.value);
    }
  }

  lemma {:induction false} WordsCounted(table: seq<Entry>, s: Tally, t: nat, words: seq<string>)
    requires Bounded(table, s.counts) && t <= |table|
    ensures var r := OnWords(table, s, t, words);
            && Bounded(table, r.counts) && r.errors >= s.errors
            && (r.errors == s.errors ==> Sum(r.counts) == Sum(s.counts) + |words|)
            && (forall u :: 0 <= u < |table| && table[u].Tagged() ==> r.counts[u] == s.counts[u])
    decreases |table| - t + |words|
  {
    if t < |table| && words != [] {
      if table[t].Tagged() || table[t].scan.None? {
        WordsCounted(table, s, t + 1, words);
      } else if Verdict(table[t], s.counts[t], Some(words[0])) == 0 {
        SumPlusOne(s.counts, t);
        WordsCounted(table, s.(counts := s.counts[t := s.counts[t] + 1]), t, words[1..]);
      } else {
        WordsCounted(table, s, t + 1, words);
      }
    }
  }

  /** Every word is taken by an entry or is an error, never both. */
  lemma {:induction false} WordsBalance(table: seq<Entry>, s: Tally, t: nat, words: seq<string>)
    requires t <= |table| == |s.counts|
    ensures var r := OnWords(table, s, t, words);
            Sum(r.counts) + r.errors == Sum(s.counts) + s.errors + |words|
    decreases |table| - t + |words|
  {
    if t < |table| && words != [] {
      if table[t].Tagged() || table[t].scan.None? {
        WordsBalance(table, s, t + 1, words);
      } else if Verdict(table[t], s.counts[t], Some(words[0])) == 0 {
        SumPlusOne(s.counts, t);
        WordsBalance(table, s.(counts := s.counts[t := s.counts[t] + 1]), t, words[1..]);
      } else {
        WordsBalance(table, s, t + 1, words);
      }
    }
  }

  /** An untagged entry stays in turn for as many words as it accepts below its maximum, and then the next
      entry is in turn. */
  lemma {:induction false} TakesRun(table: seq<Entry>, s: Tally, t: nat, words: seq<string>, k: nat)
    requires t < |table| == |s.counts| && !table[t].Tagged() && table[t].scan.Some?
    requires k <= |words| && s.counts[t] + k <= table[t].maxcount
    requires forall i :: 0 <= i < k ==> table[t].scan.value(words[i]) == 0
    requires k < |words| ==> s.counts[t] + k == table[t].maxcount || table[t].scan.value(words[k]) != 0
    ensures OnWords(table, s, t, words) ==
            var s' := s.(counts := s.counts[t := s.counts[t] + k]);
            if k == |words| then s' else OnWords(table, s', t + 1, words[k..])
    decreases k
  {
    var e := table[t];
    if k == 0 {
      assert s.counts[t := s.counts[t]] == s.counts && words[0..] == words;
    } else {
      var s1 := s.(counts := s.counts[t := s.counts[t] + 1]);
      assert Verdict(e, s.counts[t], Some(words[0])) == 0;
      TakesRun(table, s1, t, words[1..], k - 1);
      assert s1.counts[t := s1.counts[t] + (k - 1)] == s.counts[t := s.counts[t] + k];
      assert k < |words| ==> words[1..][k - 1..] == words[k..];
    }
  }

  lemma {:induction false} NothingMissing(table: seq<Entry>, counts: seq<nat>, n: nat)
    requires n <= |table| == |counts|
    ensures Missing(table, counts, n) == 0 <==>
            forall t :: 0 <= t < n && table[t].scan.Some? ==> counts[t] >= table[t].mincount
  {
    if n > 0 {
      NothingMissing(table, counts, n - 1);
    }
  }

  lemma {:induction false} SumZero(s: seq<nat>)
    requires forall i :: 0 <= i < |s| ==> s[i] == 0
    ensures Sum(s) == 0
  {
    if s != [] {
      SumZero(s[1..]);
    }
  }

  /** A parse without errors accepted every report and every word exactly once, counted each tagged entry
      as often as it was named, and left every entry between its minimum and its maximum. */
  lemma SuccessMeans(table: seq<Entry>, evs: seq<Outcome>, words: seq<string>)
    requires TableOk(table) && EventsOk(table, evs)
    ensures var r := Parsed(table, evs, words);
            r.errors == 0 ==>
              && (forall t :: 0 <= t < |table| && table[t].scan.Some? ==>
                  table[t].mincount <= r.counts[t] <= table[t].maxcount)
              && Sum(r.counts) == |evs| + |words|
              && (forall t :: 0 <= t < |table| && table[t].Tagged() ==> r.counts[t] == Hits(table, evs, t))
  {
    hide OnEvents, OnWords, Missing, Hits, Sum;
    SumZero(Zero(table).counts);
    EventsCounted(table, Zero(table), evs);
    var s := OnEvents(table, Zero(table), evs);
    WordsCounted(table, s, 0, words);
    NothingMissing(table, OnWords(table, s, 0, words).counts, |table|);
  }

  // ---------- When there are no errors ----------

  /** The report names an entry, has no explicit empty value, and its value is accepted. */
  predicate EventFine(table: seq<Entry>, ev: Outcome)
    requires EventOk(table, ev)
  {
    var t := TargetOf(table, ev);
    && t.Some? && table[t.value].scan.Some?
    && !(ev.code == 0 && ev.arg == Some("") && table[t.value].names.hasValue)
    && (ev.arg.Some? ==> table[t.value].scan.value(ev.arg.value) == 0)
  }

  /** What one report does, by its code. An error report is one error. A long option is for the entry whose
      index it stores; an explicit empty value where a value is expected is an error of its own, and the
      value is scanned all the same. A letter is for the first entry that lists it. */
  lemma EventMeans(table: seq<Entry>, s: Tally, ev: Outcome)
    requires TableOk(table) && |s.counts| == |table| && EventOk(table, ev)
    ensures var r := OnEvent(table, s, ev);
      && (ev.code == '?' as int || ev.code == ':' as int ==> r == s.(errors := s.errors + 1))
      && (ev.code == 0 ==>
            var t := ev.store.value.1;
            && r.counts == (if Taken(table[t], s.counts[t], ev.arg) then s.counts[t := s.counts[t] + 1] else s.counts)
            && r.errors == s.errors + (if Taken(table[t], s.counts[t], ev.arg) then 0 else 1)
                           + (if ev.arg == Some("") && table[t].names.hasValue then 1 else 0))
      && (ev.code != 0 && ev.code != '?' as int && ev.code != ':' as int ==>
            match FindShort(NamesOf(table), ev.code as char)
            case None => r == s.(errors := s.errors + 1)
            case Some(t) =>
              && r.counts == (if Taken(table[t], s.counts[t], ev.arg) then s.counts[t := s.counts[t] + 1] else s.counts)
              && r.errors == s.errors + (if Taken(table[t], s.counts[t], ev.arg) then 0 else 1))
  {
    var t := TargetOf(table, ev);
    if t.Some? {
      assert table[t.value].Ok();
    }
  }

  /** An entry takes a value that its scan function accepts, or none at all, below its maximum. */
  predicate Taken(e: Entry, count: nat, arg: Option<string>)
    requires e.scan.Some?
  {
    count != e.maxcount && (arg.None? || e.scan.value(arg.value) == 0)
  }

  /** So an explicit empty value always raises the number of errors. */
  lemma EmptyValueCounts(table: seq<Entry>, s: Tally, ev: Outcome)
    requires TableOk(table) && |s.counts| == |table| && EventOk(table, ev)
    requires ev.code == 0 && ev.arg == Some("") && table[ev.store.value.1].names.hasValue
    ensures OnEvent(table, s, ev).errors > s.errors
  {
    EventMeans(table, s, ev);
  }

  /** Reports with an explicit empty value where a value is expected. */
  function Empties(table: seq<Entry>, evs: seq<Outcome>): nat
    requires EventsOk(table, evs)
  {
    if evs == [] then 0
    else
      var ev := evs[0];
      (if ev.code == 0 && ev.arg == Some("") && table[ev.store.value.1].names.hasValue then 1 else 0)
      + Empties(table, evs[1..])
  }

  /** Every report is counted for an entry or is an error, and an explicit empty value is an error besides. */
  lemma {:induction false} EventsBalance(table: seq<Entry>, s: Tally, evs: seq<Outcome>)
    requires TableOk(table) && |s.counts| == |table| && EventsOk(table, evs)
    ensures var r := OnEvents(table, s, evs);
            Sum(r.counts) + r.errors == Sum(s.counts) + s.errors + |evs| + Empties(table, evs)
    decreases |evs|
  {
    if evs != [] {
      OneEventBalance(table, s, evs[0]);
      EventsBalance(table, OnEvent(table, s, evs[0]), evs[1..]);
    }
  }

  lemma OneEventBalance(table: seq<Entry>, s: Tally, ev: Outcome)
    requires TableOk(table) && |s.counts| == |table| && EventOk(table, ev)
    ensures var r := OnEvent(table, s, ev);
            Sum(r.counts) + r.errors == Sum(s.counts) + s.errors + 1
              + if ev.code == 0 && ev.arg == Some("") && table[ev.store.value.1].names.hasValue then 1 else 0
  {
    hide OnEvent, Sum;
    EventMeans(table, s, ev);
    forall t: nat | t < |s.counts|
      ensures Sum(s.counts[t := s.counts[t] + 1]) == Sum(s.counts) + 1
    {
      SumPlusOne(s.counts, t);
    }
  }

  /** Minimums are checked only when nothing has gone wrong before. */
  lemma ChecksOnlyWhenClean(table: seq<Entry>, evs: seq<Outcome>, words: seq<string>)
    requires EventsOk(table, evs)
    ensures var s := OnWords(table, OnEvents(table, Zero(table), evs), 0, words);
            && Parsed(table, evs, words).counts == s.counts
            && (s.errors > 0 ==> Parsed(table, evs, words).errors == s.errors)
  {
  }

  /** Every report is fine, and no entry is named more often than it may be. */
  predicate TaggedFine(table: seq<Entry>, counts: seq<nat>, evs: seq<Outcome>)
    requires |counts| == |table| && EventsOk(table, evs)
  {
    && (forall i :: 0 <= i < |evs| ==> EventFine(table, evs[i]))
    && forall t :: 0 <= t < |table| ==> counts[t] + Hits(table, evs, t) <= table[t].maxcount
  }

  /** The option phase registers no error exactly then. */
  lemma {:induction false} TaggedCleanIff(table: seq<Entry>, s: Tally, evs: seq<Outcome>)
    requires TableOk(table) && Bounded(table, s.counts) && EventsOk(table, evs)
    ensures OnEvents(table, s, evs).errors == s.errors <==> TaggedFine(table, s.counts, evs)
    decreases |evs|
  {
    if evs != [] {
      var s1 := OnEvent(table, s, evs[0]);
      EventCounted(table, s, evs[0]);
      EventsCounted(table, s1, evs[1..]);
      OneEventClean(table, s, evs[0]);
      TaggedFineUnfolds(table, s.counts, evs);
      if s1.errors == s.errors {
        TaggedCleanIff(table, s1, evs[1..]);
      }
    }
  }

  lemma OneEventClean(table: seq<Entry>, s: Tally, ev: Outcome)
    requires TableOk(table) && Bounded(table, s.counts) && EventOk(table, ev)
    ensures OnEvent(table, s, ev).errors == s.errors <==>
            EventFine(table, ev) && var t := TargetOf(table, ev).value; s.counts[t] < table[t].maxcount
  {
    var t := TargetOf(table, ev);
    if t.Some? {
      assert table[t.value].Ok();
    }
  }

  lemma TaggedFineUnfolds(table: seq<Entry>, counts: seq<nat>, evs: seq<Outcome>)
    requires |counts| == |table| && EventsOk(table, evs) && evs != []
    ensures TaggedFine(table, counts, evs) <==>
            && EventFine(table, evs[0])
            && var t := TargetOf(table, evs[0]).value;
               counts[t] < table[t].maxcount && TaggedFine(table, counts[t := counts[t] + 1], evs[1..])
  {
    var rest := evs[1..];
    if EventFine(table, evs[0]) {
      var t := TargetOf(table, evs[0]).value;
      var next := counts[t := counts[t] + 1];
      assert forall u :: 0 <= u < |table| ==> next[u] + Hits(table, rest, u) == counts[u] + Hits(table, evs, u);
      if TaggedFine(table, next, rest) {
        forall i | 0 <= i < |evs|
          ensures EventFine(table, evs[i])
        {
          assert i > 0 ==> evs[i] == rest[i - 1];
        }
      }
      if TaggedFine(table, counts, evs) {
        assert counts[t] + Hits(table, evs, t) <= table[t].maxcount;
        assert forall i :: 0 <= i < |rest| ==> rest[i] == evs[i + 1];
      }
    }
  }

  /** A parse registers no error exactly when the options are fine, the words are all taken, and no entry
      is short of its minimum. */
  lemma SuccessIff(table: seq<Entry>, evs: seq<Outcome>, words: seq<string>)
    requires TableOk(table) && EventsOk(table, evs)
    ensures var s := OnEvents(table, Zero(table), evs);
            var r := OnWords(table, s, 0, words);
            Parsed(table, evs, words).errors == 0 <==>
              && TaggedFine(table, Zero(table).counts, evs)
              && r.errors == s.errors
              && forall t :: 0 <= t < |table| && table[t].scan.Some? ==> r.counts[t] >= table[t].mincount
  {
    hide OnEvents, OnWords, Missing, Hits, TaggedFine;
    var s := OnEvents(table, Zero(table), evs);
    TaggedCleanIff(table, Zero(table), evs);
    EventsCounted(table, Zero(table), evs);
    WordsCounted(table, s, 0, words);
    NothingMissing(table, OnWords(table, s, 0, words).counts, |table|);
  }

  // ---------- Everything getopt reports has a target ----------

  /** Every long option stores the index of a tagged entry. */
  lemma {:induction false} LongTargets(names: seq<Names>, i: nat)
    requires i < |LongTable(names)|
    ensures var o := LongTable(names)[i];
            o.flag == Some(GETOPTVAL) && 0 <= o.val < |names| && names[o.val].longopts.Some?
  {
    hide Pieces;
    var t := |names| - 1;
    var prefix := names[..t];
    if i < |LongTable(prefix)| {
      LongTargets(prefix, i);
      var o := LongTable(prefix)[i];
      assert prefix[o.val] == names[o.val];
    }
  }

  predicate NulFree(args: seq<string>) {
    forall i :: 0 <= i < |args| ==> '\0' !in args[i]
  }

  lemma LongReports(table: seq<Entry>, text: string, next: seq<string>)
    ensures EventOk(table, LongScan(ConfigOf(table), text, next).0)
  {
    hide LongTable, ShortString, Lookup;
    var cfg := ConfigOf(table);
    var eq := IndexOf(text, '=');
    var m := Lookup(cfg.longs, if eq.None? then text else text[..eq.value]);
    if m.Matched? {
      LongTargets(NamesOf(table), m.index);
    }
  }

  lemma ScanReports(table: seq<Entry>, place: string, tail: seq<string>)
    requires place != "" && tail != [] && '\0' !in place
    ensures EventOk(table, ScanOne(ConfigOf(table), place, tail).out)
  {
    hide LongScan, LetterMode, ConfigOf;
    assert place[0] in place;
    LongReports(table, place[1..], tail[1..]);
    if |tail| > 1 {
      LongReports(table, tail[1], tail[2..]);
    }
  }

  lemma {:induction false} ItemsReport(table: seq<Entry>, place: string, tail: seq<string>)
    requires place != "" && tail != [] && '\0' !in place
    ensures EventsOk(table, Items(ConfigOf(table), place, tail).events)
    decreases |place|
  {
    hide ConfigOf, EventOk;
    ScanReports(table, place, tail);
    var s := ScanOne(ConfigOf(table), place, tail);
    if s.taken == 0 && s.place != "" {
      assert s.place == place[1..];
      ItemsReport(table, s.place, tail);
    }
  }

  lemma {:induction false} LayoutReports(table: seq<Entry>, args: seq<string>)
    requires NulFree(args)
    ensures EventsOk(table, LayoutOf(ConfigOf(table), args).events)
    decreases |args|
  {
    hide ConfigOf, EventOk, Items;
    if args != [] && args[0] != "--" {
      if IsNonOption(args[0]) {
        LayoutReports(table, args[1..]);
        assert LayoutOf(ConfigOf(table), args).events == LayoutOf(ConfigOf(table), args[1..]).events;
      } else {
        var place := args[0][1..];
        ItemsReport(table, place, args);
        var g := Items(ConfigOf(table), place, args);
        if !g.stuck {
          LayoutReports(table, args[g.taken..]);
        }
      }
    }
  }

  // ---------- A table that does not fit ----------

  function CommaTable(scan: string -> int): seq<Entry> {
    [Entry(Names(None, Some(",a"), false, false), 0, 1, Some(scan))]
  }

  /** The long names ",a" and the argument --a: read as the table means it, the command line has no error,
      but the option array has no room for the table. So the parse needs TablesFit. */
  lemma CommaTableExample(scan: string -> int)
    ensures var table := CommaTable(scan);
            && AllLongOk(NamesOf(table)) && !TablesFit(table)
            && var l := LayoutOf(ConfigOf(table), ["--a"]);
               !l.stuck && EventsOk(table, l.events) && Parsed(table, l.events, l.nonopts + l.rest).errors == 0
  {
    hide LayoutOf, ConfigOf, Parsed, SlotsCovered, Items;
    var table := CommaTable(scan);
    var names := NamesOf(table)[0];
    CoverExamples(names, Names(None, Some("b,"), false, false));
    assert NamesOf(table) == [names];
    CommaLayout(scan);
    var l := LayoutOf(ConfigOf(table), ["--a"]);
    CommaParsed(scan, l.events);
  }

  lemma CommaConfig(scan: string -> int)
    ensures var c := ConfigOf(CommaTable(scan)).longs;
            && |c| == 2 && c[0] == LongOption("", NoArgument, Some(GETOPTVAL), 0)
            && c[1] == LongOption("a", NoArgument, Some(GETOPTVAL), 0)
  {
    CommaFirstExample();
    var n := NamesOf(CommaTable(scan));
    assert n[..0] == [];
    assert LongTable(n) == LongTable([]) + OptionsOf(n[0], 0, NamesIn(n[0]));
  }

  const COMMA_EVENT: Outcome := Outcome(0, None, None, Some((GETOPTVAL, 0)))

  lemma CommaLayout(scan: string -> int)
    ensures LayoutOf(ConfigOf(CommaTable(scan)), ["--a"]) == Layout(["--a"], [], [], [COMMA_EVENT], false)
  {
    var cfg, args := ConfigOf(CommaTable(scan)), ["--a"];
    hide ConfigOf;
    CommaConfig(scan);
    assert args[0][1..] == "-a" && "-a"[1..] == "a";
    assert IndexOf("a", '=', 1) == None && IndexOf("a", '=') == None;
    assert Lookup(cfg.longs, "a") == Matched(1);
    assert args[1..] == [] && LayoutOf(cfg, []) == Layout([], [], [], [], false);
    assert Items(cfg, "-a", args) == Group([COMMA_EVENT], 1, false);
  }

  lemma CommaParsed(scan: string -> int, evs: seq<Outcome>)
    requires evs == [COMMA_EVENT]
    ensures var table := CommaTable(scan); EventsOk(table, evs) && Parsed(table, evs, [] + []).errors == 0
  {
    var table := CommaTable(scan);
    assert evs[1..] == [];
    var s := OnEvent(table, Zero(table), evs[0]);
    assert OnEvents(table, Zero(table), evs) == s && s.errors == 0;
    assert OnWords(table, s, 0, [] + []) == s;
    assert Missing(table, s.counts, 0) == 0 && Missing(table, s.counts, 1) == 0;
  }

  // ---------- The code ----------

  function Min(a: nat, b: nat): nat {
    if a <= b then a else b
  }

  /** The argument table with its counters and the error list of its end marker, which holds at most
      maxErrors codes. `registered` counts every error, kept or not. */
  class Parser {
    const table: seq<Entry>
    const maxErrors: nat
    var counts: seq<nat>
    var errors: seq<int>
    ghost var registered: nat

    constructor (table: seq<Entry>, maxErrors: nat)
      ensures this.table == table && this.maxErrors == maxErrors && counts == Zero(table).counts && errors == []
      ensures registered == 0
    {
      this.table, this.maxErrors := table, maxErrors;
      counts, errors, registered := Zero(table).counts, [], 0;
    }

    ghost predicate Valid()
      reads this
    {
      |counts| == |table| && maxErrors >= 1 && |errors| == Min(registered, maxErrors)
    }

    ghost function Now(): Tally
      reads this
    {
      Tally(counts, registered)
    }

    /** Keeps the error while there is room; beyond that the last slot says that the limit was hit. */
    method RegisterError(code: int)
      requires Valid()
      modifies this`errors, this`registered
      ensures Valid() && registered == old(registered) + 1
      ensures old(|errors|) < maxErrors ==> errors == old(errors) + [code]
      ensures old(|errors|) == maxErrors ==> errors == old(errors)[maxErrors - 1 := ELIMIT]
    {
      if |errors| < maxErrors {
        errors := errors + [code];
      } else {
        errors := errors[maxErrors - 1 := ELIMIT];
      }
      registered := registered + 1;
    }

    /** An entry's scan function. */
    method Scan(t: nat, arg: Option<string>) returns (code: int)
      requires Valid() && t < |table| && table[t].scan.Some?
      modifies this`counts
      ensures Valid() && code == Verdict(table[t], old(counts)[t], arg)
      ensures counts == if code == 0 then old(counts)[t := old(counts)[t] + 1] else old(counts)
    {
      var e := table[t];
      if counts[t] == e.maxcount {
        return ERR_MAXCOUNT;
      }
      code := if arg.None? then 0 else e.scan.value(arg.value);
      if code == 0 {
        counts := counts[t := counts[t] + 1];
      }
    }

    method ScanAndRegister(t: nat, arg: Option<string>)
      requires Valid() && t < |table|
      modifies this`counts, this`errors, this`registered
      ensures Valid() && Now() == Scanned(table, old(Now()), t, arg)
    {
      if table[t].scan.Some? {
        var code := Scan(t, arg);
        if code != 0 {
          RegisterError(code);
        }
      }
    }

    /** Acts on one getopt report; `index` is the variable long options store into. */
    method HandleOption(code: int, arg: Option<string>, optopt: int, index: int, ghost ev: Outcome)
      requires Valid() && EventOk(table, ev) && code == ev.code && arg == ev.arg
      requires code == 0 ==> index == ev.store.value.1
      modifies this`counts, this`errors, this`registered
      ensures Valid() && Now() == OnEvent(table, old(Now()), ev)
    {
      if code == 0 {
        if arg == Some("") && table[index].names.hasValue {
          RegisterError(EMISSARG);
        }
        ScanAndRegister(index, arg);
      } else if code == '?' as int {
        RegisterError(if optopt == 0 then ELONGOPT else optopt);
      } else if code == ':' as int {
        RegisterError(EMISSARG);
      } else {
        var t := FindShortOption(NamesOf(table), code as char);
        if t.None? {
          RegisterError(code);
        } else {
          ScanAndRegister(t.value, arg);
        }
      }
    }

    /** Allocates getopt's tables: the option string and the long options. */
    method BuildTables() returns (cfg: Config)
      requires TablesFit(table)
      ensures cfg == ConfigOf(table)
    {
      hide LongTable, ShortString, SlotsCovered;
      var options, noptions := AllocLong(NamesOf(table));
      var shorts, nshorts := AllocShort(NamesOf(table));
      return Config(shorts[..nshorts], options[..noptions]);
    }

    /** Fetches and processes options until getopt_long returns -1. */
    method ParseTagged(g: Scanner, argv: array<string>)
      requires Valid() && argv.Length >= 1 && NulFree(argv[..]) && TablesFit(table)
      requires !LayoutOf(ConfigOf(table), argv[..][1..]).stuck
      modifies this, g, argv
      ensures Valid()
      ensures var l := LayoutOf(ConfigOf(table), old(argv[..])[1..]);
              && EventsOk(table, l.events) && Now() == OnEvents(table, old(Now()), l.events)
              && argv[..] == [old(argv[..])[0]] + l.opts + l.nonopts + l.rest && g.optind == 1 + |l.opts|
    {
      hide LayoutOf, ConfigOf, Getopt.Valid, Heading, OnEvents, OnEvent, EventOk, TablesFit;
      var cfg := BuildTables();
      ghost var argv0 := argv[..];
      ghost var l := LayoutOf(cfg, argv0[1..]);
      ConfigIsOk(table);
      LayoutReports(table, argv0[1..]);
      StartHeading(cfg, argv0);
      g.optind := 0;
      ghost var ahead, start := l.events, Now();
      while true
        invariant Valid() && Getopt.Valid(cfg, g.Begun(argv))
        invariant Heading(cfg, g.Begun(argv)) == l.(opts := [argv0[0]] + l.opts, events := ahead)
        invariant EventsOk(table, ahead) && OnEvents(table, Now(), ahead) == OnEvents(table, start, l.events)
        decreases |ahead|
      {
        var code;
        ghost var out;
        code, out := g.Advance(argv, cfg);
        if code == -1 {
          break;
        }
        OneEvent(table, Now(), ahead);
        var index := if GETOPTVAL in g.flags then g.flags[GETOPTVAL] else 0;
        HandleOption(code, g.optarg, g.optopt, index, out);
        ahead := ahead[1..];
      }
      NoEvents(table, Now());
    }

    /** Offers the remaining arguments to the untagged entries, in table order. */
    method ParseUntagged(g: Scanner, argv: array<string>)
      requires Valid() && 1 <= g.optind <= argv.Length
      modifies this, g`optind
      ensures Valid() && Now() == OnWords(table, old(Now()), 0, argv[..][old(g.optind)..])
      ensures registered == old(registered) ==> g.optind == argv.Length
    {
      hide OnWords, Verdict;
      ghost var s := argv[..];
      ghost var goal := OnWords(table, Now(), 0, s[g.optind..]);
      var t, errorlast := 0, 0;
      while t < |table|
        invariant Valid() && t <= |table| && 1 <= g.optind <= argv.Length && registered == old(registered)
        invariant OnWords(table, Now(), t, s[g.optind..]) == goal
        invariant errorlast != 0 ==> g.optind < argv.Length
        decreases |table| - t + (argv.Length - g.optind)
      {
        WordsUnfold(table, Now(), t, s, g.optind);
        if g.optind >= argv.Length {
          return;
        }
        if table[t].names.longopts.Some? || table[t].names.shortopts.Some? || table[t].scan.None? {
          t := t + 1;
          continue;
        }
        var code := Scan(t, Some(argv[g.optind]));
        if code == 0 {
          g.optind := g.optind + 1;
          errorlast := 0;
        } else {
          t := t + 1;
          errorlast := code;
        }
      }
      WordsUnfold(table, Now(), t, s, g.optind);
      ghost var left := argv.Length - g.optind;
      if errorlast != 0 {
        RegisterError(errorlast);
        g.optind := g.optind + 1;
      }
      while g.optind < argv.Length
        invariant Valid() && g.optind <= argv.Length && counts == goal.counts
        invariant registered == old(registered) + (left - (argv.Length - g.optind))
      {
        RegisterError(ENOMATCH);
        g.optind := g.optind + 1;
      }
    }

    /** Runs the check function of every entry. */
    method ParseCheck()
      requires Valid()
      modifies this`errors, this`registered
      ensures Valid() && registered == old(registered) + Missing(table, counts, |table|)
    {
      for t := 0 to |table|
        invariant Valid() && registered == old(registered) + Missing(table, counts, t)
      {
        if table[t].scan.Some? && counts[t] < table[t].mincount {
          RegisterError(ERR_MINCOUNT);
        }
      }
    }

    /** arg_parse: the number of errors kept. It is 0 exactly when none was registered in any phase. */
    method Parse(g: Scanner, argv: seq<string>) returns (n: nat)
      requires maxErrors >= 1 && NulFree(argv)
      requires argv != [] ==> TablesFit(table) && !LayoutOf(ConfigOf(table), argv[1..]).stuck
      modifies this, g
      ensures Valid()
      ensures var l := if argv == [] then Layout([], [], [], [], false) else LayoutOf(ConfigOf(table), argv[1..]);
              && EventsOk(table, l.events)
              && Now() == Parsed(table, l.events, l.nonopts + l.rest)
      ensures n == Min(registered, maxErrors) && (n == 0 <==> registered == 0)
    {
      hide LayoutOf, ConfigOf, OnEvents, OnWords, EventOk, Missing, TablesFit;
      counts, errors, registered := Zero(table).counts, [], 0;
      if argv == [] {
        NoEvents(table, Now());
        NoWords(table, Now());
        ParseCheck();
        return |errors|;
      }
      var copy := new string[|argv|](i requires 0 <= i < |argv| => argv[i]);
      assert copy[..] == argv;
      ParseTagged(g, copy);
      ghost var l := LayoutOf(ConfigOf(table), argv[1..]);
      assert copy[..][g.optind..] == l.nonopts + l.rest;
      ParseUntagged(g, copy);
      if |errors| == 0 {
        ParseCheck();
      }
      return |errors|;
    }
  }

  lemma ConfigIsOk(table: seq<Entry>)
    ensures ConfigOf(table).Ok()
  {
    forall i | 0 <= i < |LongTable(NamesOf(table))|
      ensures LongTable(NamesOf(table))[i].flag.Some?
    {
      LongTargets(NamesOf(table), i);
    }
  }

  lemma OneEvent(table: seq<Entry>, s: Tally, evs: seq<Outcome>)
    requires |s.counts| == |table| && EventsOk(table, evs) && evs != []
    ensures EventOk(table, evs[0]) && EventsOk(table, evs[1..])
    ensures evs[0].code == 0 ==> evs[0].store.Some? && evs[0].store.value.0 == GETOPTVAL
    ensures OnEvents(table, s, evs) == OnEvents(table, OnEvent(table, s, evs[0]), evs[1..])
  {
  }

  lemma NoEvents(table: seq<Entry>, s: Tally)
    requires |s.counts| == |table|
    ensures OnEvents(table, s, []) == s
  {
  }

  lemma NoWords(table: seq<Entry>, s: Tally)
    requires |s.counts| == |table|
    ensures OnWords(table, s, 0, [] + []) == s
  {
  }

  lemma WordsUnfold(table: seq<Entry>, s: Tally, t: nat, argv: seq<string>, i: nat)
    requires t <= |table| == |s.counts| && i <= |argv|
    ensures OnWords(table, s, t, argv[i..]) ==
            if t == |table| then s.(errors := s.errors + (|argv| - i))
            else if i == |argv| then s
            else if table[t].Tagged() || table[t].scan.None? then OnWords(table, s, t + 1, argv[i..])
            else if Verdict(table[t], s.counts[t], Some(argv[i])) == 0 then
              OnWords(table, s.(counts := s.counts[t := s.counts[t] + 1]), t, argv[i + 1..])
            else OnWords(table, s, t + 1, argv[i..])
  {
  }
}
