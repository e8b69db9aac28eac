/** Turning an argument table into getopt's tables: the long-option array and the short-option string,
    both built by a counting pass and a filling pass. */
module OptionTables {
  import opened Common
  import opened OptionScan

  /** The parts of an argument-table entry that name its options. */
  datatype Names = Names(shortopts: Option<string>, longopts: Option<string>, hasValue: bool, hasOptValue: bool)

  // ---------- Long options ----------

  /** The comma-separated names, as the filling pass cuts them. */
  function Pieces(s: string): (r: seq<string>)
    ensures s == "" <==> r == []
    decreases |s|
  {
    if s == "" then []
    else
      match IndexOf(s, ',')
      case None => [s]
      case Some(k) => [s[..k]] + Pieces(s[k + 1..])
  }

  function Joined(ps: seq<string>): string {
    if ps == [] then "" else if |ps| == 1 then ps[0] else ps[0] + "," + Joined(ps[1..])
  }

  /** The names are the comma-split: none contains a comma, and with commas between them they are the
      string again, but for a comma at its very end. */
  lemma PiecesSplit(s: string)
    ensures forall p :: p in Pieces(s) ==> ',' !in p
    ensures s == Joined(Pieces(s)) + if s != "" && s[|s| - 1] == ',' then "," else ""
  {
    PiecesBare(s);
    PiecesJoin(s);
  }

  lemma {:induction false} PiecesBare(s: string)
    ensures forall p :: p in Pieces(s) ==> ',' !in p
    decreases |s|
  {
    if s != "" {
      match IndexOf(s, ',')
      case None => assert s[0..] == s;
      case Some(k) =>
        assert s[0..k] == s[..k];
        PiecesBare(s[k + 1..]);
    }
  }

  lemma {:induction false} PiecesJoin(s: string)
    ensures s == Joined(Pieces(s)) + if s != "" && s[|s| - 1] == ',' then "," else ""
    decreases |s|
  {
    hide Joined;
    JoinedUnfolds(Pieces(s));
    if s != "" {
      match IndexOf(s, ',')
      case None => assert s[0..] == s;
      case Some(k) =>
        CommaAt(s, k);
        PiecesJoin(s[k + 1..]);
    }
  }

  lemma CommaAt(s: string, k: nat)
    requires k < |s| && s[k] == ','
    ensures s == s[..k] + "," + s[k + 1..]
    ensures s[k + 1..] != "" ==> s[|s| - 1] == s[k + 1..][|s| - k - 2]
  {
  }

  lemma JoinedUnfolds(ps: seq<string>)
    ensures Joined(ps) == if ps == [] then "" else if |ps| == 1 then ps[0] else ps[0] + "," + Joined(ps[1..])
  {
  }

  /** What the counting pass counts: one, and one more for every comma after the first character. */
  function Counted(s: string): nat
    requires s != ""
  {
    1 + Commas(s[1..])
  }

  function Commas(s: string): nat {
    if s == "" then 0 else (if s[0] == ',' then 1 else 0) + Commas(s[1..])
  }

  lemma {:induction false} CommasConcat(a: string, b: string)
    ensures Commas(a + b) == Commas(a) + Commas(b)
  {
    if a == "" {
      assert a + b == b;
    } else {
      assert (a + b)[1..] == a[1..] + b;
      CommasConcat(a[1..], b);
    }
  }

  lemma {:induction false} NoCommas(s: string)
    requires ',' !in s
    ensures Commas(s) == 0
  {
    if s != "" {
      NoCommas(s[1..]);
    }
  }

  /** The bytes the filled names take, terminators included. */
  function Stored(ps: seq<string>): nat {
    if ps == [] then 0 else |ps[0]| + 1 + Stored(ps[1..])
  }

  /** How many names there are, and how many bytes they take. */
  lemma {:induction false} PieceSizes(s: string)
    ensures s != "" ==> |Pieces(s)| == Commas(s) + (if s[|s| - 1] == ',' then 0 else 1)
    ensures Stored(Pieces(s)) <= |s| + 1
    decreases |s|
  {
    if s != "" {
      match IndexOf(s, ',')
      case None =>
        NoCommas(s);
        assert Stored([s][1..]) == 0;
      case Some(k) =>
        assert s == s[..k] + ([','] + s[k + 1..]);
        CommasConcat(s[..k], [','] + s[k + 1..]);
        CommasConcat([','], s[k + 1..]);
        assert Commas([',']) == 1 by {
          assert [','][1..] == "";
        }
        assert s[0..k] == s[..k];
        NoCommas(s[..k]);
        PieceSizes(s[k + 1..]);
        assert Pieces(s)[1..] == Pieces(s[k + 1..]);
    }
  }

  /** The counting pass allows for the names of an entry exactly when they do not begin with a comma,
      or also end with one. */
  lemma CountCoversIff(s: string)
    requires s != ""
    ensures |Pieces(s)| <= Counted(s) <==> !(s[0] == ',' && s[|s| - 1] != ',')
  {
    EntryBalance(s);
  }

  /** ",a" is counted as one name but filled as two. */
  lemma CommaFirstExample()
    ensures Counted(",a") == 1 && Pieces(",a") == ["", "a"]
  {
    var s := ",a";
    assert s[1..] == "a" && "a"[1..] == "";
    assert IndexOf("a", ',', 1) == None && IndexOf("a", ',') == None;
    assert IndexOf(s, ',') == Some(0) && s[..0] == "";
  }

  /** Where the counting pass starts to read in a string of names, whose terminator is at index |s|: behind
      the first character, whatever that is, and behind every comma found. */
  function ReadStarts(s: string): seq<nat> {
    [1] + if s == "" then [] else BehindCommas(s, 1)
  }

  function BehindCommas(s: string, at: nat): (r: seq<nat>)
    requires at <= |s|
    ensures forall i :: 0 <= i < |r| ==> at < r[i] <= |s|
    decreases |s| - at
  {
    match IndexOf(s, ',', at)
    case None => []
    case Some(k) => [k + 1] + BehindCommas(s, k + 1)
  }

  /** It starts behind the terminator exactly for empty names. */
  lemma ReadsInsideIff(s: string)
    ensures (forall i :: 0 <= i < |ReadStarts(s)| ==> ReadStarts(s)[i] <= |s|) <==> s != ""
  {
    assert ReadStarts(s)[0] == 1;
  }

  /** Names are missing or not empty; the counting pass would read past the end of empty ones. */
  predicate LongOk(n: Names) {
    n.longopts.Some? ==> n.longopts.value != ""
  }

  predicate AllLongOk(table: seq<Names>) {
    forall t :: 0 <= t < |table| ==> LongOk(table[t])
  }

  /** Names with a comma at the front only are one slot short; with one at the end only, one too long. */
  predicate OnlyBegins(n: Names) {
    n.longopts.Some? && var s := n.longopts.value; s != "" && s[0] == ',' && s[|s| - 1] != ','
  }

  predicate OnlyEnds(n: Names) {
    n.longopts.Some? && var s := n.longopts.value; s != "" && s[0] != ',' && s[|s| - 1] == ','
  }

  function Tallied(table: seq<Names>, p: Names -> bool): nat {
    if table == [] then 0
    else Tallied(table[..|table| - 1], p) + if p(table[|table| - 1]) then 1 else 0
  }

  lemma TalliedMore(table: seq<Names>, n: Names, p: Names -> bool)
    ensures Tallied(table + [n], p) == Tallied(table, p) + if p(n) then 1 else 0
  {
    assert (table + [n])[..|table|] == table;
  }

  /** The condition under which the array is large enough. */
  predicate SlotsCovered(table: seq<Names>) {
    Tallied(table, OnlyBegins) <= Tallied(table, OnlyEnds)
  }

  function ArgKind(n: Names): (k: HasArg)
    ensures k == OptionalArgument <==> n.hasOptValue
    ensures k == RequiredArgument <==> n.hasValue && !n.hasOptValue
    ensures k == NoArgument <==> !n.hasValue && !n.hasOptValue
  {
    if n.hasOptValue then OptionalArgument else if n.hasValue then RequiredArgument else NoArgument
  }

  /** The variable every long option stores its table index in. */
  const GETOPTVAL: nat := 0

  function OptionsOf(n: Names, t: nat, ps: seq<string>): (r: seq<LongOption>)
    ensures |r| == |ps|
    ensures forall i :: 0 <= i < |r| ==> r[i] == LongOption(ps[i], ArgKind(n), Some(GETOPTVAL), t)
  {
    seq(|ps|, i requires 0 <= i < |ps| => LongOption(ps[i], ArgKind(n), Some(GETOPTVAL), t))
  }

  function NamesIn(n: Names): seq<string> {
    if n.longopts.Some? then Pieces(n.longopts.value) else []
  }

  /** The option array: for each entry in order, one option per name, carrying the entry's index. */
  function LongTable(table: seq<Names>): seq<LongOption> {
    if table == [] then []
    else
      var t := |table| - 1;
      LongTable(table[..t]) + OptionsOf(table[t], t, NamesIn(table[t]))
  }

  /** The counting pass, over the entries and the terminator, which has no names: slots and bytes. */
  function SlotsFor(table: seq<Names>): nat
    requires AllLongOk(table)
  {
    if table == [] then 1
    else
      var n := table[|table| - 1];
      assert LongOk(n);
      SlotsFor(table[..|table| - 1]) + (if n.longopts.Some? then Counted(n.longopts.value) else 0)
  }

  function BytesFor(table: seq<Names>): nat {
    if table == [] then 1
    else
      var n := table[|table| - 1];
      BytesFor(table[..|table| - 1]) + (if n.longopts.Some? then |n.longopts.value| else 0) + 1
  }

  method CountLong(table: seq<Names>) returns (slots: nat, bytes: nat)
    requires AllLongOk(table)
    ensures slots == SlotsFor(table) && bytes == BytesFor(table)
  {
    slots, bytes := 1, 1;
    for t := 0 to |table|
      invariant slots == SlotsFor(table[..t]) && bytes == BytesFor(table[..t])
    {
      assert table[..t + 1][..t] == table[..t];
      var longopts := table[t].longopts;
      bytes := bytes + (if longopts.Some? then |longopts.value| else 0) + 1;
      if longopts.Some? {
        var count := CountNames(longopts.value);
        slots := slots + count;
      }
    }
    assert table[..|table|] == table;
  }

  /** strchr from the second character on, then from behind each comma found. */
  method CountNames(s: string) returns (count: nat)
    requires s != ""
    ensures count == Counted(s)
  {
    count := 1;
    var at := 1;
    var comma := IndexOf(s, ',', at);
    while comma.Some?
      invariant 1 <= at <= |s| && comma == IndexOf(s, ',', at)
      invariant count + Commas(s[at..]) == Counted(s)
      decreases |s| - at
    {
      SkipComma(s, at, comma.value);
      count, at := count + 1, comma.value + 1;
      comma := IndexOf(s, ',', at);
    }
    NoCommas(s[at..]);
  }

  lemma SkipComma(s: string, at: nat, k: nat)
    requires at <= k < |s| && s[k] == ',' && ',' !in s[at..k]
    ensures Commas(s[at..]) == 1 + Commas(s[k + 1..])
  {
    assert s[at..] == s[at..k] + s[k..];
    CommasConcat(s[at..k], s[k..]);
    NoCommas(s[at..k]);
    assert s[k..][1..] == s[k + 1..];
  }

  /** The slots the filling pass uses, terminator included, are those counted, one more for every entry
      that only begins with a comma and one less for every entry that only ends with one. */
  lemma {:induction false} SlotsBalance(table: seq<Names>)
    requires AllLongOk(table)
    ensures |LongTable(table)| + 1 + Tallied(table, OnlyEnds) == SlotsFor(table) + Tallied(table, OnlyBegins)
  {
    hide Pieces, Commas;
    if table != [] {
      var n := table[|table| - 1];
      assert LongOk(n);
      SlotsBalance(table[..|table| - 1]);
      if n.longopts.Some? {
        EntryBalance(n.longopts.value);
      }
    }
  }

  lemma EntryBalance(s: string)
    requires s != ""
    ensures |Pieces(s)| + (if s[|s| - 1] == ',' then 1 else 0) == Counted(s) + if s[0] == ',' then 1 else 0
  {
    PieceSizes(s);
    assert s == [s[0]] + s[1..];
    CommasConcat([s[0]], s[1..]);
    assert [s[0]][1..] == "";
  }

  /** The counted array has room for every option and the terminator exactly when the entries that only
      begin with a comma are at most as many as those that only end with one. */
  lemma CountCoversFill(table: seq<Names>)
    requires AllLongOk(table)
    ensures |LongTable(table)| + 1 <= SlotsFor(table) <==> SlotsCovered(table)
  {
    SlotsBalance(table);
  }

  /** The counted bytes always suffice. */
  lemma {:induction false} BytesCoverFill(table: seq<Names>)
    ensures UsedBytes(table) + 1 <= BytesFor(table)
  {
    hide Pieces, Stored;
    if table != [] {
      var n := table[|table| - 1];
      BytesCoverFill(table[..|table| - 1]);
      if n.longopts.Some? {
        PieceSizes(n.longopts.value);
      } else {
        NoOptions(n, 0);
      }
    }
  }

  /** One entry ",a" overruns the array; with an entry "b," beside it, it does not. */
  lemma CoverExamples(a: Names, b: Names)
    requires a.longopts == Some(",a") && b.longopts == Some("b,")
    ensures !SlotsCovered([a]) && SlotsCovered([a, b])
  {
    assert [] + [a] == [a] && [a] + [b] == [a, b];
    forall p: Names -> bool
      ensures Tallied([a], p) == if p(a) then 1 else 0
      ensures Tallied([a, b], p) == (if p(a) then 1 else 0) + if p(b) then 1 else 0
    {
      TalliedMore([], a, p);
      TalliedMore([a], b, p);
    }
  }

  function UsedBytes(table: seq<Names>): nat {
    if table == [] then 0 else UsedBytes(table[..|table| - 1]) + Stored(NamesIn(table[|table| - 1]))
  }

  lemma {:induction false} StoredConcat(a: seq<string>, b: seq<string>)
    ensures Stored(a + b) == Stored(a) + Stored(b)
  {
    if a == [] {
      assert a + b == b;
    } else {
      assert (a + b)[1..] == a[1..] + b;
      StoredConcat(a[1..], b);
    }
  }

  /** Copies one name and its terminator; every byte written lies in the store. */
  method CopyName(s: string, at: nat, store: array<char>, pos: nat) returns (next: nat, end: nat)
    requires at < |s| && pos + Stored(Pieces(s[at..])) <= store.Length
    modifies store
    ensures var p := Pieces(s[at..])[0];
            && end == pos + |p| + 1 <= store.Length && store[pos..end - 1] == p
            && at < next <= |s| && Pieces(s[at..]) == [p] + Pieces(s[next..])
  {
    hide Pieces, Stored;
    ghost var p := Pieces(s[at..])[0];
    FirstPiece(s, at);
    next, end := at, pos;
    while next < |s| && s[next] != ','
      invariant at <= next <= at + |p| && end == pos + (next - at)
      invariant store[pos..end] == s[at..next]
    {
      store[end] := s[next];
      next, end := next + 1, end + 1;
    }
    store[end] := '\0';
    end := end + 1;
    if next < |s| && s[next] == ',' {
      next := next + 1;
    }
  }

  /** The first name runs up to the next comma, or to the end. */
  lemma FirstPiece(s: string, at: nat)
    requires at < |s|
    ensures var ps := Pieces(s[at..]);
            var p := ps[0];
            && at + |p| <= |s| && p == s[at..at + |p|] && ',' !in p && Stored(ps) >= |p| + 1
            && (at + |p| < |s| ==> s[at + |p|] == ',' && ps == [p] + Pieces(s[at + |p| + 1..]))
            && (at + |p| == |s| ==> ps == [p] + Pieces(s[|s|..]))
  {
    var u := s[at..];
    match IndexOf(u, ',')
    case None =>
      assert s[|s|..] == "";
    case Some(k) =>
      assert u[k + 1..] == s[at + k + 1..];
      assert u[..k] == s[at..at + k] == u[0..k];
  }

  /** Fills in the options of one entry. */
  method FillEntry(n: Names, t: nat, options: array<LongOption>, oi: nat, store: array<char>, pos: nat)
    returns (oi': nat, pos': nat)
    requires oi + |NamesIn(n)| <= options.Length && pos + Stored(NamesIn(n)) <= store.Length
    modifies options, store
    ensures oi' == oi + |NamesIn(n)| && pos' == pos + Stored(NamesIn(n))
    ensures options[..oi'] == old(options[..oi]) + OptionsOf(n, t, NamesIn(n))
  {
    hide Pieces, Stored, OptionsOf;
    oi', pos' := oi, pos;
    ghost var done: seq<string> := [];
    NoOptions(n, t);
    if n.longopts.None? {
      return;
    }
    var s := n.longopts.value;
    var at := 0;
    assert s[0..] == s;
    while at < |s|
      invariant at <= |s| && Pieces(s) == done + Pieces(s[at..])
      invariant oi' == oi + |done| && pos' == pos + Stored(done)
      invariant options[..oi'] == old(options[..oi]) + OptionsOf(n, t, done)
    {
      ghost var ps := Pieces(s[at..]);
      StoredConcat(done, ps);
      PiecesNotNone(s, at);
      at, pos' := FillName(n, t, s, at, options, oi', store, pos');
      OneMoreName(n, t, done, ps);
      done, oi' := done + [ps[0]], oi' + 1;
    }
    assert s[at..] == "" && done + [] == done;
  }

  lemma PiecesNotNone(s: string, at: nat)
    requires at < |s|
    ensures |Pieces(s[at..])| > 0
  {
  }

  /** The options and the storage for the names done grow by the next name. */
  lemma OneMoreName(n: Names, t: nat, done: seq<string>, ps: seq<string>)
    requires ps != []
    ensures OptionsOf(n, t, done + [ps[0]])
         == OptionsOf(n, t, done) + [LongOption(ps[0], ArgKind(n), Some(GETOPTVAL), t)]
    ensures Stored(done + [ps[0]]) == Stored(done) + |ps[0]| + 1
    ensures done + ps == (done + [ps[0]]) + ps[1..]
  {
    StoredOne(done, ps[0]);
  }

  /** Copies the name at `at` and adds the option for it. */
  method FillName(n: Names, t: nat, s: string, at: nat, options: array<LongOption>, oi: nat, store: array<char>,
                  pos: nat)
    returns (next: nat, pos': nat)
    requires at < |s| && oi < options.Length && pos + Stored(Pieces(s[at..])) <= store.Length
    modifies options, store
    ensures var ps := Pieces(s[at..]);
            && |ps| > 0 && pos' == pos + |ps[0]| + 1 <= store.Length && at < next <= |s| && ps[1..] == Pieces(s[next..])
            && options[..oi + 1] == old(options[..oi]) + [LongOption(ps[0], ArgKind(n), Some(GETOPTVAL), t)]
  {
    hide Pieces, Stored;
    PiecesNotNone(s, at);
    next, pos' := CopyName(s, at, store, pos);
    AddOption(options, oi, LongOption(store[pos..pos' - 1], ArgKind(n), Some(GETOPTVAL), t));
  }

  method AddOption(options: array<LongOption>, oi: nat, o: LongOption)
    requires oi < options.Length
    modifies options
    ensures options[..oi + 1] == old(options[..oi]) + [o]
  {
    options[oi] := o;
  }

  lemma NoOptions(n: Names, t: nat)
    ensures OptionsOf(n, t, []) == [] && Stored([]) == 0 && Pieces("") == []
  {
  }

  lemma StoredOne(done: seq<string>, p: string)
    ensures Stored(done + [p]) == Stored(done) + |p| + 1
  {
    StoredConcat(done, [p]);
    assert Stored([p][1..]) == 0;
  }

  lemma {:induction false} SlotsFit(table: seq<Names>, t: nat)
    requires t < |table|
    ensures |LongTable(table[..t])| + |NamesIn(table[t])| <= |LongTable(table)|
    decreases |table|
  {
    hide NamesIn, OptionsOf;
    var m := |table| - 1;
    if t < m {
      var prefix := table[..m];
      SlotsFit(prefix, t);
      assert prefix[..t] == table[..t] && prefix[t] == table[t];
    }
  }

  lemma {:induction false} BytesFit(table: seq<Names>, t: nat)
    requires t < |table|
    ensures UsedBytes(table[..t]) + Stored(NamesIn(table[t])) <= UsedBytes(table)
    decreases |table|
  {
    hide NamesIn, Stored;
    var m := |table| - 1;
    if t < m {
      var prefix := table[..m];
      BytesFit(prefix, t);
      assert prefix[..t] == table[..t] && prefix[t] == table[t];
    }
  }

  /** The filled array, place by place: the k-th name of entry t comes behind the names of the entries
      before it, stores t, and says of its value what the entry's flags say. */
  lemma {:induction false} LongTableAt(table: seq<Names>, t: nat, k: nat)
    requires t < |table| && k < |NamesIn(table[t])|
    ensures var i := |LongTable(table[..t])| + k;
            && i < |LongTable(table)|
            && var o, n := LongTable(table)[i], table[t];
               && o.name == NamesIn(n)[k] && o.flag == Some(GETOPTVAL) && o.val == t
               && (o.hasArg == OptionalArgument <==> n.hasOptValue)
               && (o.hasArg == RequiredArgument <==> n.hasValue && !n.hasOptValue)
               && (o.hasArg == NoArgument <==> !n.hasValue && !n.hasOptValue)
    decreases |table|
  {
    hide NamesIn;
    var m := |table| - 1;
    if t < m {
      var prefix := table[..m];
      LongTableAt(prefix, t, k);
      assert prefix[..t] == table[..t] && prefix[t] == table[t];
    }
  }

  /** And every place is one of those. */
  lemma {:induction false} LongTablePlace(table: seq<Names>, i: nat) returns (t: nat, k: nat)
    requires i < |LongTable(table)|
    ensures t < |table| && k < |NamesIn(table[t])| && i == |LongTable(table[..t])| + k
    decreases |table|
  {
    hide NamesIn;
    var m := |table| - 1;
    var prefix := table[..m];
    if i < |LongTable(prefix)| {
      t, k := LongTablePlace(prefix, i);
      assert prefix[..t] == table[..t] && prefix[t] == table[t];
    } else {
      t, k := m, i - |LongTable(prefix)|;
    }
  }

  /** Every option of the array has the argument kind of its entry's flags. */
  lemma LongKinds(table: seq<Names>, i: nat)
    requires i < |LongTable(table)|
    ensures var o := LongTable(table)[i];
            && o.flag == Some(GETOPTVAL) && 0 <= o.val < |table| && o.name in NamesIn(table[o.val])
            && (o.hasArg == OptionalArgument <==> table[o.val].hasOptValue)
            && (o.hasArg == RequiredArgument <==> table[o.val].hasValue && !table[o.val].hasOptValue)
            && (o.hasArg == NoArgument <==> !table[o.val].hasValue && !table[o.val].hasOptValue)
  {
    var t, k := LongTablePlace(table, i);
    LongTableAt(table, t, k);
  }

  /** alloc_longoptions: the array filled is exactly the long-option table, with a slot left for the
      terminating entry, and no write leaves the counted storage, on every table
      whose slots are covered. */
  method AllocLong(table: seq<Names>) returns (options: array<LongOption>, n: nat)
    requires AllLongOk(table) && SlotsCovered(table)
    ensures n < options.Length == SlotsFor(table) && options[..n] == LongTable(table)
    ensures forall i :: 0 <= i < n ==>
      var o := options[i];
      && o.flag == Some(GETOPTVAL) && 0 <= o.val < |table| && o.name in NamesIn(table[o.val])
      && (o.hasArg == OptionalArgument <==> table[o.val].hasOptValue)
      && (o.hasArg == RequiredArgument <==> table[o.val].hasValue && !table[o.val].hasOptValue)
  {
    hide Pieces, Stored, OptionsOf, NamesIn, SlotsFor, BytesFor, LongTable, UsedBytes, SlotsCovered;
    var slots, bytes := CountLong(table);
    NoEntries();
    CountCoversFill(table);
    BytesCoverFill(table);
    options := new LongOption[slots](_ => LongOption("", NoArgument, None, 0));
    var store := new char[bytes];
    n := 0;
    var pos := 0;
    for t := 0 to |table|
      invariant n == |LongTable(table[..t])| && pos == UsedBytes(table[..t])
      invariant n <= options.Length && options[..n] == LongTable(table[..t])
    {
      SlotsFit(table, t);
      BytesFit(table, t);
      OneMoreEntry(table, t);
      n, pos := FillEntry(table[t], t, options, n, store, pos);
    }
    assert table[..|table|] == table;
    options[n] := LongOption("", NoArgument, None, 0);
    forall i | 0 <= i < n
      ensures var o := options[i];
              && o.flag == Some(GETOPTVAL) && 0 <= o.val < |table| && o.name in NamesIn(table[o.val])
              && (o.hasArg == OptionalArgument <==> table[o.val].hasOptValue)
              && (o.hasArg == RequiredArgument <==> table[o.val].hasValue && !table[o.val].hasOptValue)
    {
      LongKinds(table, i);
      assert options[i] == options[..n][i];
    }
  }

  lemma NoEntries()
    ensures LongTable([]) == [] && UsedBytes([]) == 0
  {
  }

  lemma OneMoreEntry(table: seq<Names>, t: nat)
    requires t < |table|
    ensures LongTable(table[..t + 1]) == LongTable(table[..t]) + OptionsOf(table[t], t, NamesIn(table[t]))
    ensures UsedBytes(table[..t + 1]) == UsedBytes(table[..t]) + Stored(NamesIn(table[t]))
  {
    assert table[..t + 1][..t] == table[..t];
  }

  // ---------- Short options ----------

  /** The letters of one entry, each followed by its colons. */
  function Letters(s: string, n: Names): string {
    if s == "" then ""
    else [s[0]] + (if n.hasValue then ":" else "") + (if n.hasOptValue then ":" else "") + Letters(s[1..], n)
  }

  function LettersOf(n: Names): string {
    if n.shortopts.Some? then Letters(n.shortopts.value, n) else ""
  }

  /** The option string without its leading colon. */
  function ShortBody(table: seq<Names>): string {
    if table == [] then "" else LettersOf(table[0]) + ShortBody(table[1..])
  }

  function ShortString(table: seq<Names>): string {
    ":" + ShortBody(table)
  }

  predicate Lists(n: Names, c: char) {
    n.shortopts.Some? && c in n.shortopts.value
  }

  /** The first entry whose letters contain c. */
  function FindShort(table: seq<Names>, c: char): (r: Option<nat>)
    ensures r.Some? ==> r.value < |table| && Lists(table[r.value], c)
    ensures forall t :: 0 <= t < (if r.Some? then r.value else |table|) ==> !Lists(table[t], c)
  {
    if table == [] then None
    else if Lists(table[0], c) then Some(0)
    else match FindShort(table[1..], c) case None => None case Some(t) => Some(t + 1)
  }

  /** find_shortoption's loop. */
  method FindShortOption(table: seq<Names>, c: char) returns (r: Option<nat>)
    ensures r == FindShort(table, c)
  {
    for t := 0 to |table|
      invariant forall i :: 0 <= i < t ==> !Lists(table[i], c)
    {
      if table[t].shortopts.Some? && c in table[t].shortopts.value {
        return Some(t);
      }
    }
    return None;
  }

  /** Option letters are not ':' or ';', and an optional value only qualifies a value. */
  predicate ShortOk(n: Names) {
    && (n.shortopts.Some? ==> ':' !in n.shortopts.value && ';' !in n.shortopts.value)
    && (n.hasOptValue ==> n.hasValue)
  }

  function ModeOf(n: Names): ArgMode {
    if n.hasOptValue then MayHaveArg else if n.hasValue then NeedsArg else Plain
  }

  /** What follows the first c, if there is one. */
  function After(s: string, c: char): Option<string> {
    if s == "" then None else if s[0] == c then Some(s[1..]) else After(s[1..], c)
  }

  lemma {:induction false} AfterSkips(a: string, b: string, c: char)
    requires c !in a
    ensures After(a + b, c) == After(b, c)
  {
    if a == "" {
      assert a + b == b;
    } else {
      assert (a + b)[1..] == a[1..] + b;
      AfterSkips(a[1..], b, c);
    }
  }

  lemma {:induction false} AfterIndex(s: string, c: char)
    ensures After(s, c) == match IndexOf(s, c) case None => None case Some(k) => Some(s[k + 1..])
  {
    match IndexOf(s, c)
    case None =>
      assert s[0..] == s && s + "" == s;
      AfterSkips(s, "", c);
    case Some(k) =>
      assert s[0..k] == s[..k] && s == s[..k] + s[k..];
      AfterSkips(s[..k], s[k..], c);
      assert s[k..][1..] == s[k + 1..];
  }

  /** Neither a colon nor a semicolon comes first. */
  predicate StartsFresh(s: string) {
    s == "" || (s[0] != ':' && s[0] != ';')
  }

  lemma LettersStart(s: string, n: Names, rest: string)
    requires ':' !in s && ';' !in s && StartsFresh(rest)
    ensures StartsFresh(Letters(s, n) + rest)
  {
    if s != "" {
      assert (Letters(s, n) + rest)[0] == s[0] && s[0] in s;
    } else {
      assert Letters(s, n) + rest == rest;
    }
  }

  lemma {:induction false} BodyStart(table: seq<Names>)
    requires forall t :: 0 <= t < |table| ==> ShortOk(table[t])
    ensures StartsFresh(ShortBody(table))
  {
    if table != [] {
      BodyStart(table[1..]);
      assert ShortOk(table[0]);
      LettersStart(if table[0].shortopts.Some? then table[0].shortopts.value else "", table[0], ShortBody(table[1..]));
    }
  }

  function Colons(n: Names): string {
    (if n.hasValue then ":" else "") + (if n.hasOptValue then ":" else "")
  }

  /** What follows a letter in one entry's string, and where the search goes on without it. */
  lemma {:induction false} AfterLetters(s: string, n: Names, rest: string, c: char)
    requires ShortOk(n) && c != ':' && ':' !in s && ';' !in s && StartsFresh(rest)
    ensures c in s ==> exists more :: After(Letters(s, n) + rest, c) == Some(Colons(n) + more) && StartsFresh(more)
    ensures c !in s ==> After(Letters(s, n) + rest, c) == After(rest, c)
  {
    hide Letters, After;
    if s == "" {
      NoLetters(s, n, rest);
    } else {
      var more := Letters(s[1..], n) + rest;
      assert s[0..] == s;
      LettersUnfold(s, 0, n, rest);
      LettersStart(s[1..], n, rest);
      AfterOne(s[0], Colons(n) + more, c);
      if s[0] != c {
        AfterSkips(Colons(n), more, c);
        AfterLetters(s[1..], n, rest, c);
        assert c in s <==> c in s[1..];
      }
    }
  }

  lemma AfterOne(x: char, rest: string, c: char)
    ensures After([x] + rest, c) == if x == c then Some(rest) else After(rest, c)
  {
  }

  /** In the whole option string, a letter is followed by the colons of the first entry that lists it. */
  lemma {:induction false} AfterBody(table: seq<Names>, c: char)
    requires (forall t :: 0 <= t < |table| ==> ShortOk(table[t])) && c != ':'
    ensures match FindShort(table, c)
            case None => After(ShortBody(table), c) == None
            case Some(t) =>
              exists more :: After(ShortBody(table), c) == Some(Colons(table[t]) + more) && StartsFresh(more)
  {
    if table != [] {
      var n := table[0];
      assert ShortOk(n);
      BodyStart(table[1..]);
      AfterLetters(if n.shortopts.Some? then n.shortopts.value else "", n, ShortBody(table[1..]), c);
      AfterBody(table[1..], c);
    }
  }

  /** getopt's reading of the encoded string agrees with the table: a letter is known exactly when some
      entry lists it, with the argument mode of the first entry that does. */
  lemma EncodedModes(table: seq<Names>, c: char)
    requires (forall t :: 0 <= t < |table| ==> ShortOk(table[t])) && c != ':'
    ensures LetterMode(ShortString(table), c) ==
            match FindShort(table, c) case None => Unknown case Some(t) => ModeOf(table[t])
  {
    hide ShortBody, After;
    AfterBody(table, c);
    AfterSkips(":", ShortBody(table), c);
    AfterIndex(ShortString(table), c);
    if FindShort(table, c).Some? {
      var t := FindShort(table, c).value;
      var more :| After(ShortBody(table), c) == Some(Colons(table[t]) + more) && StartsFresh(more);
      ColonsMode(table[t], more);
    }
  }

  /** barco's own table, up to its end marker: help, version, uid, mnt, cmd, arg, verbosity, veth,
      veth-peer, container-ip, host-ip, nat and dns. */
  function BarcoTable(): seq<Names> {
    [Names(None, Some("help"), false, false), Names(None, Some("version"), false, false),
     Names(Some("u"), Some("uid"), true, false), Names(Some("m"), Some("mnt"), true, false),
     Names(Some("c"), Some("cmd"), true, false), Names(Some("a"), Some("arg"), true, false),
     Names(Some("v"), Some("verbosity"), false, false),
     Names(None, Some("veth"), true, false), Names(None, Some("veth-peer"), true, false),
     Names(None, Some("container-ip"), true, false), Names(None, Some("host-ip"), true, false),
     Names(None, Some("nat"), false, false), Names(None, Some("dns"), true, false)]
  }

  /** Its option string, and that both of its option tables are sound. */
  lemma BarcoOptions()
    ensures ShortString(BarcoTable()) == ":u:m:c:a:v"
    ensures AllLongOk(BarcoTable()) && SlotsCovered(BarcoTable())
    ensures forall t :: 0 <= t < |BarcoTable()| ==> ShortOk(BarcoTable()[t])
  {
    var table := BarcoTable();
    BarcoLetters();
    forall t | 0 <= t < |table|
      ensures LongOk(table[t]) && ShortOk(table[t]) && !OnlyBegins(table[t])
    {
      BarcoEntry(t);
    }
    NoneTallied(table, OnlyBegins);
  }

  lemma BarcoEntry(t: nat)
    requires t < |BarcoTable()|
    ensures var n := BarcoTable()[t]; LongOk(n) && ShortOk(n) && !OnlyBegins(n)
  {
  }

  lemma BarcoLetters()
    ensures ShortString(BarcoTable()) == ":u:m:c:a:v"
  {
    hide ShortBody, LettersOf;
    var table := BarcoTable();
    NoLetterLeft(table[7..]);
    assert table[0..] == table;
    BodyStep(table, 6);
    BodyStep(table, 5);
    BodyStep(table, 4);
    BodyStep(table, 3);
    BodyStep(table, 2);
    BodyStep(table, 1);
    BodyStep(table, 0);
    NotLettered(table[0]);
    NotLettered(table[1]);
    OneLetter('u', Some("uid"), true);
    OneLetter('m', Some("mnt"), true);
    OneLetter('c', Some("cmd"), true);
    OneLetter('a', Some("arg"), true);
    OneLetter('v', Some("verbosity"), false);
  }

  lemma NotLettered(n: Names)
    requires n.shortopts.None?
    ensures LettersOf(n) == ""
  {
  }

  lemma BodyStep(table: seq<Names>, t: nat)
    requires t < |table|
    ensures ShortBody(table[t..]) == LettersOf(table[t]) + ShortBody(table[t + 1..])
  {
    assert table[t..][1..] == table[t + 1..];
  }

  lemma OneLetter(c: char, longopts: Option<string>, hasValue: bool)
    ensures LettersOf(Names(Some([c]), longopts, hasValue, false)) == [c] + if hasValue then ":" else ""
  {
    var n := Names(Some([c]), longopts, hasValue, false);
    assert [c][1..] == "";
    assert Letters([c], n) == [c] + if hasValue then ":" else "";
  }

  lemma {:induction false} NoLetterLeft(others: seq<Names>)
    requires forall i :: 0 <= i < |others| ==> others[i].shortopts.None?
    ensures ShortBody(others) == ""
  {
    if others != [] {
      NoLetterLeft(others[1..]);
    }
  }

  lemma {:induction false} NoneTallied(table: seq<Names>, p: Names -> bool)
    requires forall t :: 0 <= t < |table| ==> !p(table[t])
    ensures Tallied(table, p) == 0
  {
    if table != [] {
      NoneTallied(table[..|table| - 1], p);
    }
  }

  lemma ColonsMode(n: Names, more: string)
    requires StartsFresh(more) && (n.hasOptValue ==> n.hasValue)
    ensures var after := Colons(n) + more;
            && !(after != "" && after[0] == ';')
            && ModeOf(n) == if after == "" || after[0] != ':' then Plain
                            else if |after| >= 2 && after[1] == ':' then MayHaveArg else NeedsArg
  {
  }

  /** The buffer the counting pass asks for: a leading colon, three bytes a letter, a terminator. */
  function ShortBytes(table: seq<Names>): nat {
    if table == [] then 2
    else ShortBytes(table[1..]) + 3 * (if table[0].shortopts.Some? then |table[0].shortopts.value| else 0)
  }

  lemma {:induction false} LettersFit(s: string, n: Names)
    ensures |Letters(s, n)| <= 3 * |s|
  {
    if s != "" {
      LettersFit(s[1..], n);
    }
  }

  /** The filling pass never overruns it, whatever the flags. */
  lemma {:induction false} ShortFits(table: seq<Names>)
    ensures |ShortString(table)| + 1 <= ShortBytes(table)
  {
    if table != [] {
      ShortFits(table[1..]);
      if table[0].shortopts.Some? {
        LettersFit(table[0].shortopts.value, table[0]);
      }
    }
  }

  /** The buffer's first n characters, followed by `rest`, make up `whole`. */
  ghost predicate Completes(buf: array<char>, n: nat, rest: string, whole: string)
    reads buf
  {
    n + |rest| == |whole| && n <= buf.Length && buf[..n] + rest == whole
  }

  method Put(buf: array<char>, n: nat, c: char, ghost rest: string, ghost whole: string) returns (n': nat)
    requires Completes(buf, n, [c] + rest, whole) && |whole| < buf.Length
    modifies buf
    ensures n' == n + 1 && Completes(buf, n', rest, whole)
  {
    buf[n] := c;
    n' := n + 1;
    assert buf[..n'] == old(buf[..n]) + [c];
    assert (old(buf[..n]) + [c]) + rest == old(buf[..n]) + ([c] + rest);
  }

  /** Writes one letter and its colons. */
  method PutLetter(h: Names, c: char, buf: array<char>, n: nat, ghost more: string, ghost whole: string)
    returns (n': nat)
    requires Completes(buf, n, [c] + (Colons(h) + more), whole) && |whole| < buf.Length
    modifies buf
    ensures n' <= |whole| && Completes(buf, n', more, whole)
  {
    ghost var o := if h.hasOptValue then ":" else "";
    ghost var v := Colons(h) + more;
    n' := Put(buf, n, c, v, whole);
    if h.hasValue {
      assert v == [':'] + (o + more);
      n' := Put(buf, n', ':', o + more, whole);
    } else {
      assert v == o + more;
    }
    if h.hasOptValue {
      assert o + more == [':'] + more;
      n' := Put(buf, n', ':', more, whole);
    } else {
      assert o + more == more;
    }
  }

  lemma LettersUnfold(s: string, i: nat, h: Names, rest: string)
    requires i < |s|
    ensures Letters(s[i..], h) + rest == [s[i]] + (Colons(h) + (Letters(s[i + 1..], h) + rest))
  {
  }

  /** Writes the letters of one entry. */
  method PutLetters(h: Names, s: string, buf: array<char>, n: nat, ghost rest: string, ghost whole: string)
    returns (n': nat)
    requires Completes(buf, n, Letters(s, h) + rest, whole) && |whole| < buf.Length
    modifies buf
    ensures n' <= |whole| && Completes(buf, n', rest, whole)
  {
    hide Letters, Colons;
    n' := n;
    assert s[0..] == s;
    for i := 0 to |s|
      invariant n' <= |whole| && Completes(buf, n', Letters(s[i..], h) + rest, whole)
    {
      LettersUnfold(s, i, h, rest);
      n' := PutLetter(h, s[i], buf, n', Letters(s[i + 1..], h) + rest, whole);
    }
    NoLetters(s[|s|..], h, rest);
  }

  lemma NoLetters(s: string, h: Names, rest: string)
    requires s == ""
    ensures Letters(s, h) + rest == rest
  {
  }

  /** alloc_shortoptions: the zero-terminated option string, inside the buffer that was counted. */
  method AllocShort(table: seq<Names>) returns (result: array<char>, n: nat)
    ensures n < result.Length == ShortBytes(table)
    ensures result[..n] == ShortString(table) && result[n] == '\0'
  {
    hide Letters;
    var len := 2;
    assert table[0..] == table;
    for t := 0 to |table|
      invariant len + ShortBytes(table[t..]) == ShortBytes(table) + 2
    {
      assert table[t..][1..] == table[t + 1..];
      len := len + 3 * (if table[t].shortopts.Some? then |table[t].shortopts.value| else 0);
    }
    ShortFits(table);
    result := new char[len](_ => '\0');
    ghost var whole := ShortString(table);
    assert result[..0] + ([':'] + ShortBody(table)) == whole;
    n := Put(result, 0, ':', ShortBody(table), whole);
    for t := 0 to |table|
      invariant n <= |whole| && Completes(result, n, ShortBody(table[t..]), whole)
    {
      assert table[t..][1..] == table[t + 1..];
      if table[t].shortopts.Some? {
        n := PutLetters(table[t], table[t].shortopts.value, result, n, ShortBody(table[t + 1..]), whole);
      } else {
        assert ShortBody(table[t..]) == "" + ShortBody(table[t + 1..]) == ShortBody(table[t + 1..]);
      }
    }
    assert ShortBody(table[|table|..]) == "" && result[..n] + "" == result[..n];
    result[n] := '\0';
  }
}
