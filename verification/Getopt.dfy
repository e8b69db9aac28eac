/** The permuting getopt_long state machine and what driving it to -1 does to argv. */
module Getopt {
  import opened Common
  import opened OptionScan
  import opened Rotation

  /** The scanner between calls. `place` is the unread text of the current argument. nonopts are
      argv[nonoptStart..nonoptEnd], -1 meaning "not known yet". */
  datatype State = State(argv: seq<string>, optind: int, place: string, nonoptStart: int, nonoptEnd: int)

  predicate IsNonOption(arg: string) {
    arg == "" || arg[0] != '-' || |arg| == 1
  }

  const END: Outcome := Outcome(-1, None, None, None)

  // ---------- The reference meaning of a command line ----------

  /** The arguments after the program name, sorted out in one left-to-right pass: options with their
      arguments, skipped non-options, what follows "--", and the reports of all option scans. */
  datatype Layout = Layout(opts: seq<string>, nonopts: seq<string>, rest: seq<string>,
                           events: seq<Outcome>, stuck: bool)

  function LayoutOf(cfg: Config, args: seq<string>): (l: Layout)
    ensures !l.stuck ==> multiset(l.opts) + multiset(l.nonopts) + multiset(l.rest) == multiset(args)
    decreases |args|
  {
    if args == [] then Layout([], [], [], [], false)
    else if IsNonOption(args[0]) then
      var l := LayoutOf(cfg, args[1..]);
      assert args == [args[0]] + args[1..];
      l.(nonopts := [args[0]] + l.nonopts)
    else if args[0] == "--" then
      assert args == ["--"] + args[1..];
      Layout(["--"], [], args[1..], [], false)
    else Grouped(cfg, args[0][1..], args)
  }

  /** The layout when the scanner stands at `place` inside the first of `tail`. */
  function Grouped(cfg: Config, place: string, tail: seq<string>): (l: Layout)
    requires place != "" && tail != []
    ensures !l.stuck ==> multiset(l.opts) + multiset(l.nonopts) + multiset(l.rest) == multiset(tail)
    decreases |tail|, 0
  {
    var g := Items(cfg, place, tail);
    if g.stuck then Layout([], [], [], g.events, true)
    else
      var l := LayoutOf(cfg, tail[g.taken..]);
      assert tail == tail[..g.taken] + tail[g.taken..];
      l.(opts := tail[..g.taken] + l.opts, events := g.events + l.events)
  }

  /** What becomes of each argument. */
  datatype Label = Opt | Non | Rest

  function Labels(cfg: Config, args: seq<string>): (r: seq<Label>)
    decreases |args|
  {
    if args == [] then []
    else if IsNonOption(args[0]) then [Non] + Labels(cfg, args[1..])
    else if args[0] == "--" then [Opt] + Repeated(Rest, |args| - 1)
    else
      var g := Items(cfg, args[0][1..], args);
      if g.stuck then [] else Repeated(Opt, g.taken) + Labels(cfg, args[g.taken..])
  }

  function Repeated(l: Label, n: nat): (r: seq<Label>)
    ensures |r| == n && forall i :: 0 <= i < n ==> r[i] == l
  {
    seq(n, _ => l)
  }

  /** The arguments with a label, in order. */
  function Picked(args: seq<string>, labels: seq<Label>, l: Label): seq<string>
    requires |args| == |labels|
  {
    if args == [] then [] else (if labels[0] == l then [args[0]] else []) + Picked(args[1..], labels[1..], l)
  }

  lemma {:induction false} PickedConcat(a: seq<string>, la: seq<Label>, b: seq<string>, lb: seq<Label>, l: Label)
    requires |a| == |la| && |b| == |lb|
    ensures Picked(a + b, la + lb, l) == Picked(a, la, l) + Picked(b, lb, l)
  {
    if a == [] {
      assert a + b == b && la + lb == lb;
    } else {
      assert (a + b)[1..] == a[1..] + b && (la + lb)[1..] == la[1..] + lb;
      PickedConcat(a[1..], la[1..], b, lb, l);
    }
  }

  lemma {:induction false} PickedSame(a: seq<string>, la: seq<Label>, l: Label, m: Label)
    requires |a| == |la| && forall i :: 0 <= i < |la| ==> la[i] == m
    ensures Picked(a, la, l) == if l == m then a else []
  {
    if a != [] {
      PickedSame(a[1..], la[1..], l, m);
      assert a == [a[0]] + a[1..];
    }
  }

  /** Each part of a layout is made of the arguments with one label, in their original order. */
  lemma {:induction false} LayoutInOrder(cfg: Config, args: seq<string>)
    requires !LayoutOf(cfg, args).stuck
    ensures InOrderAt(cfg, args)
    decreases |args|
  {
    hide Items, Picked;
    if args == [] {
      NonePicked();
    } else if IsNonOption(args[0]) {
      LayoutInOrder(cfg, args[1..]);
      FirstPicked(args, Labels(cfg, args));
    } else if args[0] == "--" {
      var rest := Repeated(Rest, |args| - 1);
      FirstPicked(args, Labels(cfg, args));
      PickedSame(args[1..], rest, Opt, Rest);
      PickedSame(args[1..], rest, Non, Rest);
      PickedSame(args[1..], rest, Rest, Rest);
    } else {
      LabelsOfGroup(cfg, args);
      LayoutInOrder(cfg, args[Items(cfg, args[0][1..], args).taken..]);
      GroupInOrder(cfg, args);
    }
  }

  /** The group case, given the claim for what follows the group. */
  lemma GroupInOrder(cfg: Config, args: seq<string>)
    requires !LayoutOf(cfg, args).stuck && args != [] && !IsNonOption(args[0]) && args[0] != "--"
    requires var g := Items(cfg, args[0][1..], args); !g.stuck ==> InOrderAt(cfg, args[g.taken..])
    ensures InOrderAt(cfg, args)
  {
    hide Items, Picked, Labels, LayoutOf;
    LabelsOfGroup(cfg, args);
    var g := Items(cfg, args[0][1..], args);
    var a, b, la, lb := args[..g.taken], args[g.taken..], Repeated(Opt, g.taken), Labels(cfg, args[g.taken..]);
    assert args == a + b;
    GroupPicked(a, la, b, lb, Opt);
    GroupPicked(a, la, b, lb, Non);
    GroupPicked(a, la, b, lb, Rest);
  }

  lemma LabelsOfGroup(cfg: Config, args: seq<string>)
    requires !LayoutOf(cfg, args).stuck && args != [] && !IsNonOption(args[0]) && args[0] != "--"
    ensures var g := Items(cfg, args[0][1..], args);
            && !g.stuck && Labels(cfg, args) == Repeated(Opt, g.taken) + Labels(cfg, args[g.taken..])
            && var l := LayoutOf(cfg, args[g.taken..]);
               && !l.stuck && LayoutOf(cfg, args).opts == args[..g.taken] + l.opts
               && LayoutOf(cfg, args).nonopts == l.nonopts && LayoutOf(cfg, args).rest == l.rest
  {
    hide Items;
  }

  predicate InOrderAt(cfg: Config, args: seq<string>) {
    var l, labels := LayoutOf(cfg, args), Labels(cfg, args);
    && |labels| == |args|
    && l.opts == Picked(args, labels, Opt) && l.nonopts == Picked(args, labels, Non)
    && l.rest == Picked(args, labels, Rest)
  }

  lemma NonePicked()
    ensures forall l :: Picked([], [], l) == []
  {
  }

  lemma FirstPicked(args: seq<string>, labels: seq<Label>)
    requires |args| == |labels| > 0
    ensures forall l :: Picked(args, labels, l)
                     == (if labels[0] == l then [args[0]] else []) + Picked(args[1..], labels[1..], l)
  {
  }

  lemma GroupPicked(a: seq<string>, la: seq<Label>, b: seq<string>, lb: seq<Label>, l: Label)
    requires |a| == |la| && |b| == |lb| && forall i :: 0 <= i < |la| ==> la[i] == Opt
    ensures Picked(a + b, la + lb, l) == (if l == Opt then a else []) + Picked(b, lb, l)
  {
    PickedConcat(a, la, b, lb, l);
    PickedSame(a, la, l, Opt);
  }

  /** A text that is no option by itself. */
  predicate Bare(arg: string) {
    arg == "" || arg[0] != '-' || arg == "-"
  }

  /** What the labels say of the texts: non-options are bare, an option that is bare is the argument of the
      option before it, and the rest is what follows a double dash. */
  predicate LabelsFit(args: seq<string>, labels: seq<Label>) {
    && |labels| == |args|
    && (forall i :: 0 <= i < |args| && labels[i] == Non ==> Bare(args[i]))
    && (forall i :: 0 <= i < |args| && labels[i] == Opt && Bare(args[i]) ==> i > 0 && labels[i - 1] == Opt)
    && (forall i :: 0 <= i < |args| && labels[i] == Rest ==>
          && i > 0 && (labels[i - 1] == Rest || (labels[i - 1] == Opt && args[i - 1] == "--"))
          && (i + 1 < |args| ==> labels[i + 1] == Rest))
  }

  lemma {:induction false} LabelsMean(cfg: Config, args: seq<string>)
    requires !LayoutOf(cfg, args).stuck
    ensures LabelsFit(args, Labels(cfg, args))
    decreases |args|
  {
    hide Items, LabelsFit;
    if args == [] || (!IsNonOption(args[0]) && args[0] == "--") {
      FitEnd(args, Labels(cfg, args));
    } else if IsNonOption(args[0]) {
      LabelsMean(cfg, args[1..]);
      FitAfterOne(args, Labels(cfg, args[1..]));
    } else {
      LabelsOfGroup(cfg, args);
      LabelsMean(cfg, args[Items(cfg, args[0][1..], args).taken..]);
      GroupFits(cfg, args);
    }
  }

  lemma FitAfterOne(args: seq<string>, labels: seq<Label>)
    requires args != [] && Bare(args[0]) && LabelsFit(args[1..], labels)
    ensures LabelsFit(args, [Non] + labels)
  {
    hide LabelsFit;
    FitAfter([args[0]], [Non], args[1..], labels);
    assert args == [args[0]] + args[1..];
  }

  lemma GroupFits(cfg: Config, args: seq<string>)
    requires !LayoutOf(cfg, args).stuck && args != [] && !IsNonOption(args[0]) && args[0] != "--"
    requires var g := Items(cfg, args[0][1..], args);
             !g.stuck ==> LabelsFit(args[g.taken..], Labels(cfg, args[g.taken..]))
    ensures LabelsFit(args, Labels(cfg, args))
  {
    hide Items, LabelsFit, Labels, LayoutOf;
    LabelsOfGroup(cfg, args);
    var k := Items(cfg, args[0][1..], args).taken;
    FitAfter(args[..k], Repeated(Opt, k), args[k..], Labels(cfg, args[k..]));
    assert args == args[..k] + args[k..];
  }

  lemma FitEnd(args: seq<string>, labels: seq<Label>)
    requires args == [] ==> labels == []
    requires args != [] ==> args[0] == "--" && labels == [Opt] + Repeated(Rest, |args| - 1)
    ensures LabelsFit(args, labels)
  {
  }

  lemma FitAfter(a: seq<string>, la: seq<Label>, b: seq<string>, lb: seq<Label>)
    requires |a| == |la| > 0 && LabelsFit(b, lb)
    requires (la == [Non] && Bare(a[0])) || (!Bare(a[0]) && forall i :: 0 <= i < |la| ==> la[i] == Opt)
    ensures LabelsFit(a + b, la + lb)
  {
    var args, labels := a + b, la + lb;
    assert forall i :: |a| <= i < |args| ==> args[i] == b[i - |a|] && labels[i] == lb[i - |a|];
  }

  // ---------- One call ----------

  /** The bookkeeping indices are in order. */
  predicate InOrder(st: State) {
    && 1 <= st.optind <= |st.argv|
    && (st.nonoptStart == -1 ==> st.nonoptEnd == -1)
    && (st.nonoptStart != -1 ==> 1 <= st.nonoptStart < (if st.nonoptEnd == -1 then st.optind else st.nonoptEnd))
    && (st.nonoptEnd != -1 ==> st.nonoptEnd <= st.optind)
  }

  ghost predicate Valid(cfg: Config, st: State) {
    && InOrder(st)
    && (st.place != "" || st.nonoptEnd == st.optind ==> AtOption(st))
    && (st.place != "" ==>
          && (st.nonoptStart != -1 ==> st.nonoptEnd != -1)
          && SameFate(cfg, st.place, st.argv[st.optind..]))
  }

  /** Scanning on at `place` gets stuck just when scanning the argument from its start would. */
  predicate SameFate(cfg: Config, place: string, tail: seq<string>) {
    && tail != [] && place != "" && |tail[0]| > 1
    && Items(cfg, tail[0][1..], tail).stuck == Items(cfg, place, tail).stuck
  }

  predicate AtOption(st: State) {
    0 <= st.optind < |st.argv| && !IsNonOption(st.argv[st.optind]) && st.argv[st.optind] != "--"
  }

  /** The pending non-options go behind the options scanned since. */
  function Swapped(st: State): State
    requires 0 <= st.nonoptStart <= st.nonoptEnd <= st.optind <= |st.argv|
  {
    st.(argv := Exchanged(st.argv, st.nonoptStart, st.nonoptEnd, st.optind))
  }

  /** Steps over the non-option at optind. */
  function SkipOne(cfg: Config, st: State): State
    requires Valid(cfg, st) && st.optind < |st.argv|
  {
    if st.nonoptStart == -1 then st.(nonoptStart := st.optind, optind := st.optind + 1)
    else if st.nonoptEnd != -1 then
      Swapped(st).(nonoptStart := st.optind - (st.nonoptEnd - st.nonoptStart), nonoptEnd := -1, optind := st.optind + 1)
    else st.(optind := st.optind + 1)
  }

  /** An option at optind ends the current run of non-options. */
  function Marked(st: State): State {
    if st.nonoptStart != -1 && st.nonoptEnd == -1 then st.(nonoptEnd := st.optind) else st
  }

  /** The scan is over at optind. */
  function Ended(st: State): State
    requires 0 <= st.optind <= |st.argv|
    requires st.nonoptEnd != -1 ==> 0 <= st.nonoptStart <= st.nonoptEnd <= st.optind
  {
    if st.nonoptEnd != -1 then
      Swapped(st).(optind := st.optind - (st.nonoptEnd - st.nonoptStart), nonoptStart := -1, nonoptEnd := -1,
                   place := "")
    else st.(optind := if st.nonoptStart != -1 then st.nonoptStart else st.optind,
             nonoptStart := -1, nonoptEnd := -1, place := "")
  }

  function ScanAt(cfg: Config, st: State, place: string): (State, Outcome)
    requires 0 <= st.optind < |st.argv| && place != ""
  {
    var s := ScanOne(cfg, place, st.argv[st.optind..]);
    (st.(place := s.place, optind := st.optind + s.taken), s.out)
  }

  /** One getopt_long call in permuting mode, from a state with optind set. */
  function Call(cfg: Config, st: State): (r: (State, Outcome))
    requires Valid(cfg, st)
    decreases |st.argv| - st.optind
  {
    if st.place != "" then ScanAt(cfg, st, st.place)
    else if st.optind == |st.argv| then (Ended(st), END)
    else if IsNonOption(st.argv[st.optind]) then
      SkipKeeps(cfg, st);
      Call(cfg, SkipOne(cfg, st))
    else
      if st.argv[st.optind] == "--" then (Ended(Marked(st).(optind := st.optind + 1)), END)
      else ScanAt(cfg, Marked(st), st.argv[st.optind][1..])
  }

  lemma CallUnfolds(cfg: Config, st: State)
    requires Valid(cfg, st)
    ensures 1 <= st.optind <= |st.argv|
    ensures st.place != "" ==> st.optind < |st.argv| && Call(cfg, st) == ScanAt(cfg, st, st.place)
    ensures st.place == "" && st.optind == |st.argv| ==> Call(cfg, st) == (Ended(st), END)
    ensures st.place == "" && st.optind < |st.argv| ==>
      var arg := st.argv[st.optind];
      if IsNonOption(arg) then
        Valid(cfg, SkipOne(cfg, st)) && Call(cfg, st) == Call(cfg, SkipOne(cfg, st))
      else if arg == "--" then Call(cfg, st) == (Ended(Marked(st).(optind := st.optind + 1)), END)
      else Call(cfg, st) == ScanAt(cfg, Marked(st), arg[1..])
  {
  }

  // ---------- What a call keeps ----------

  /** Options passed so far, in order. */
  function Kept(st: State): seq<string>
    requires 0 <= st.optind <= |st.argv|
    requires st.nonoptStart == -1 || 0 <= st.nonoptStart <= st.optind
    requires st.nonoptEnd == -1 || 0 <= st.nonoptEnd <= st.optind
  {
    if st.nonoptStart == -1 then st.argv[..st.optind]
    else if st.nonoptEnd == -1 then st.argv[..st.nonoptStart]
    else st.argv[..st.nonoptStart] + st.argv[st.nonoptEnd..st.optind]
  }

  /** Non-options skipped so far, in order. */
  function Skipped(st: State): seq<string>
    requires 0 <= st.optind <= |st.argv|
    requires st.nonoptStart == -1 || 0 <= st.nonoptStart <= (if st.nonoptEnd == -1 then st.optind else st.nonoptEnd)
    requires st.nonoptEnd == -1 || 0 <= st.nonoptEnd <= st.optind
  {
    if st.nonoptStart == -1 then []
    else st.argv[st.nonoptStart..if st.nonoptEnd == -1 then st.optind else st.nonoptEnd]
  }

  /** What has been placed, followed by what is still to come. */
  function Joined(st: State, l: Layout): Layout
    requires 0 <= st.optind <= |st.argv|
    requires st.nonoptStart == -1 || 0 <= st.nonoptStart <= (if st.nonoptEnd == -1 then st.optind else st.nonoptEnd)
    requires st.nonoptEnd == -1 || 0 <= st.nonoptEnd <= st.optind
  {
    l.(opts := Kept(st) + l.opts, nonopts := Skipped(st) + l.nonopts)
  }

  function Ahead(cfg: Config, place: string, tail: seq<string>): Layout
    requires place != "" ==> tail != []
  {
    if place == "" then LayoutOf(cfg, tail) else Grouped(cfg, place, tail)
  }

  /** The final layout a state is heading for. */
  function Heading(cfg: Config, st: State): Layout
    requires Valid(cfg, st)
  {
    Joined(st, Ahead(cfg, st.place, st.argv[st.optind..]))
  }

  lemma SkipKeeps(cfg: Config, st: State)
    requires Valid(cfg, st) && st.place == "" && st.optind < |st.argv| && IsNonOption(st.argv[st.optind])
    ensures Valid(cfg, SkipOne(cfg, st))
  {
  }

  lemma Snoc<T>(s: seq<T>, i: nat, j: nat)
    requires i <= j < |s|
    ensures s[i..j + 1] == s[i..j] + [s[j]]
  {
  }

  lemma SkipMoves(cfg: Config, st: State)
    requires Valid(cfg, st) && st.place == "" && st.optind < |st.argv| && IsNonOption(st.argv[st.optind])
    ensures var st' := SkipOne(cfg, st);
            && Kept(st') == Kept(st) && Skipped(st') == Skipped(st) + [st.argv[st.optind]]
            && st'.argv[st'.optind..] == st.argv[st.optind..][1..]
  {
    hide SameFate, IsNonOption;
    if st.nonoptEnd != -1 {
      SkipSwaps(st);
    } else {
      SkipPasses(st);
    }
    assert SkipOne(cfg, st).argv[st.optind + 1..] == st.argv[st.optind..][1..];
  }

  lemma SkipSwaps(st: State)
    requires InOrder(st) && st.nonoptEnd != -1 && st.optind < |st.argv|
    ensures var k := st.optind - (st.nonoptEnd - st.nonoptStart);
            var st' := Swapped(st).(nonoptStart := k, nonoptEnd := -1, optind := st.optind + 1);
            && Kept(st') == Kept(st) && Skipped(st') == Skipped(st) + [st.argv[st.optind]]
            && st'.argv[st.optind + 1..] == st.argv[st.optind..][1..]
  {
    SwapMoves(st.argv, st.nonoptStart, st.nonoptEnd, st.optind);
  }

  lemma SkipPasses(st: State)
    requires InOrder(st) && st.nonoptEnd == -1 && st.optind < |st.argv|
    ensures var first := if st.nonoptStart == -1 then st.optind else st.nonoptStart;
            var st' := st.(nonoptStart := first, optind := st.optind + 1);
            Kept(st') == Kept(st) && Skipped(st') == Skipped(st) + [st.argv[st.optind]]
  {
    Snoc(st.argv, if st.nonoptStart == -1 then st.optind else st.nonoptStart, st.optind);
  }

  lemma SwapMoves(s: seq<string>, lo: nat, mid: nat, hi: nat)
    requires lo <= mid <= hi < |s|
    ensures var e, k := Exchanged(s, lo, mid, hi), hi - (mid - lo);
            && e[..k] == s[..lo] + s[mid..hi] && e[k..hi + 1] == s[lo..mid] + [s[hi]]
            && e[hi + 1..] == s[hi..][1..]
  {
    var e, k := Exchanged(s, lo, mid, hi), hi - (mid - lo);
    ExchangedParts(s, lo, mid, hi);
    assert e[..k] == e[..lo] + e[lo..k];
    assert e[hi] == e[hi..][0] == s[hi..][0] == s[hi];
    Snoc(e, k, hi);
    assert e[hi + 1..] == e[hi..][1..];
  }

  lemma SkipHeading(cfg: Config, st: State)
    requires Valid(cfg, st) && st.place == "" && st.optind < |st.argv| && IsNonOption(st.argv[st.optind])
    ensures Valid(cfg, SkipOne(cfg, st)) && Heading(cfg, SkipOne(cfg, st)) == Heading(cfg, st)
  {
    var st' := SkipOne(cfg, st);
    var tail := st.argv[st.optind..];
    SkipMoves(cfg, st);
    var l := LayoutOf(cfg, tail[1..]);
    assert Skipped(st) + ([tail[0]] + l.nonopts) == Skipped(st') + l.nonopts;
  }

  /** A scan peels one report off the layout, and the arguments it takes off the options. */
  lemma GroupedStep(cfg: Config, place: string, tail: seq<string>, s: Scan)
    requires SameFate(cfg, place, tail) && !IsNonOption(tail[0]) && tail[0] != "--"
    requires s == ScanOne(cfg, place, tail)
    ensures s.place != "" ==> s.taken == 0 && SameFate(cfg, s.place, tail)
    ensures Peels(Grouped(cfg, place, tail), s, tail, Ahead(cfg, s.place, tail[s.taken..]))
  {
    hide ScanOne;
    var g := Items(cfg, place, tail);
    if s.taken == 0 {
      assert tail[s.taken..] == tail;
      if s.place != "" {
        var g' := Items(cfg, s.place, tail);
        if !g.stuck {
          var l := LayoutOf(cfg, tail[g.taken..]);
          assert g.events + l.events == [s.out] + (g'.events + l.events);
          assert tail[..0] + (tail[..g.taken] + l.opts) == tail[..g.taken] + l.opts;
        }
      } else {
        AheadAtOption(cfg, "", tail[0][1..], tail);
        assert Grouped(cfg, tail[0][1..], tail).stuck;
      }
    }
  }

  predicate Peels(l: Layout, s: Scan, tail: seq<string>, l': Layout)
    requires s.taken <= |tail|
  {
    && l.stuck == l'.stuck
    && (!l.stuck ==> l == l'.(opts := tail[..s.taken] + l'.opts, events := [s.out] + l'.events))
  }

  lemma ScanHeading(cfg: Config, st: State, place: string)
    requires Valid(cfg, st) && AtOption(st) && SameFate(cfg, place, st.argv[st.optind..])
    requires st.nonoptStart != -1 ==> st.nonoptEnd != -1
    requires place == st.place || (st.place == "" && place == st.argv[st.optind][1..])
    ensures Valid(cfg, ScanAt(cfg, st, place).0)
    ensures Reports(Heading(cfg, st), ScanAt(cfg, st, place).1, Heading(cfg, ScanAt(cfg, st, place).0))
  {
    hide ScanOne, LayoutOf, Items, Grouped, Ahead, IsNonOption, Joined, Peels, Reports;
    var tail := st.argv[st.optind..];
    var s := ScanOne(cfg, place, tail);
    var st' := st.(place := s.place, optind := st.optind + s.taken);
    GroupedStep(cfg, place, tail, s);
    assert st'.argv[st'.optind..] == tail[s.taken..];
    assert Valid(cfg, st') by {
      assert s.taken == 0 ==> tail[s.taken..] == tail;
    }
    AheadAtOption(cfg, st.place, place, tail);
    JoinedStep(st, s, Grouped(cfg, place, tail), Ahead(cfg, s.place, tail[s.taken..]));
  }

  lemma AheadAtOption(cfg: Config, place0: string, place: string, tail: seq<string>)
    requires tail != [] && place != "" && !IsNonOption(tail[0]) && tail[0] != "--"
    requires place == place0 || (place0 == "" && place == tail[0][1..])
    ensures Ahead(cfg, place0, tail) == Grouped(cfg, place, tail)
  {
  }

  /** `out` is the next report of layout h, and h' is h with that report done. */
  predicate Reports(h: Layout, out: Outcome, h': Layout) {
    && h.stuck == h'.stuck
    && (!h.stuck ==> h.events == [out] + h'.events && h' == h.(events := h'.events))
  }

  lemma JoinedStep(st: State, s: Scan, l: Layout, l': Layout)
    requires InOrder(st) && (st.nonoptStart != -1 ==> st.nonoptEnd != -1)
    requires s.taken <= |st.argv| - st.optind && Peels(l, s, st.argv[st.optind..], l')
    ensures Reports(Joined(st, l), s.out, Joined(st.(place := s.place, optind := st.optind + s.taken), l'))
  {
    var tail := st.argv[st.optind..];
    var st' := st.(place := s.place, optind := st.optind + s.taken);
    KeptGrows(st, st', s.taken);
    assert (Kept(st) + tail[..s.taken]) + l'.opts == Kept(st) + (tail[..s.taken] + l'.opts);
  }

  lemma KeptGrows(st: State, st': State, k: nat)
    requires 0 <= st.optind <= |st.argv| && st'.optind == st.optind + k <= |st.argv|
    requires st'.argv == st.argv && st'.nonoptStart == st.nonoptStart && st'.nonoptEnd == st.nonoptEnd
    requires st.nonoptStart == -1 || 0 <= st.nonoptStart <= st.nonoptEnd <= st.optind
    requires st.nonoptEnd == -1 || 0 <= st.nonoptEnd <= st.optind
    ensures Kept(st') == Kept(st) + st.argv[st.optind..][..k]
  {
  }

  /** The run is over: argv has its final layout and optind is at the first non-option. */
  predicate Final(h: Layout, st: State, out: Outcome) {
    && !h.stuck && h.events == [] && out == END
    && st.argv == h.opts + h.nonopts + h.rest && st.optind == |h.opts|
    && st.place == "" && st.nonoptStart == st.nonoptEnd == -1
  }

  /** Every call either ends the run with argv in its final layout, or reports the next event and
      keeps heading for the same layout. A stuck scanner stays stuck. */
  lemma CallKeeps(cfg: Config, st: State)
    requires Valid(cfg, st) && cfg.Ok()
    ensures var (st', out) := Call(cfg, st);
            if out.code == -1 then Final(Heading(cfg, st), st', out)
            else Valid(cfg, st') && Reports(Heading(cfg, st), out, Heading(cfg, st'))
    decreases |st.argv| - st.optind
  {
    if st.place != "" {
      ScanHeading(cfg, st, st.place);
    } else if st.optind == |st.argv| {
      EndHeading(cfg, st);
    } else if IsNonOption(st.argv[st.optind]) {
      SkipHeading(cfg, st);
      CallKeeps(cfg, SkipOne(cfg, st));
    } else {
      OptionKeeps(cfg, st);
    }
  }

  lemma OptionKeeps(cfg: Config, st: State)
    requires Valid(cfg, st) && cfg.Ok() && st.place == ""
    requires st.optind < |st.argv| && !IsNonOption(st.argv[st.optind])
    ensures var (st', out) := Call(cfg, st);
            if out.code == -1 then Final(Heading(cfg, st), st', out)
            else Valid(cfg, st') && Reports(Heading(cfg, st), out, Heading(cfg, st'))
  {
    hide ScanOne, Heading;
    if st.argv[st.optind] == "--" {
      DashDashHeading(cfg, st);
    } else {
      var at := Marked(st);
      MarkedHeading(cfg, st);
      ScanHeading(cfg, at, st.argv[st.optind][1..]);
    }
  }

  lemma MarkedHeading(cfg: Config, st: State)
    requires Valid(cfg, st) && st.place == "" && AtOption(st)
    ensures Valid(cfg, Marked(st)) && Heading(cfg, Marked(st)) == Heading(cfg, st)
  {
    assert Kept(Marked(st)) == Kept(st) && Skipped(Marked(st)) == Skipped(st);
  }

  lemma EndHeading(cfg: Config, st: State)
    requires Valid(cfg, st) && st.place == "" && st.optind == |st.argv|
    ensures Final(Heading(cfg, st), Ended(st), END)
  {
    assert st.argv[st.optind..] == [];
    EndedArgv(st);
    assert Kept(st) + [] == Kept(st) && Skipped(st) + [] == Skipped(st);
    assert st.nonoptEnd == -1 || st.nonoptEnd < st.optind;
  }

  lemma DashDashHeading(cfg: Config, st: State)
    requires Valid(cfg, st) && st.place == "" && st.optind < |st.argv| && st.argv[st.optind] == "--"
    ensures Final(Heading(cfg, st), Ended(Marked(st).(optind := st.optind + 1)), END)
  {
    hide ScanOne;
    var at := Marked(st).(optind := st.optind + 1);
    var tail := st.argv[st.optind..];
    assert tail[0] == "--" && tail[1..] == at.argv[at.optind..];
    EndedArgv(at);
    assert Kept(at) == Kept(st) + ["--"];
    assert Skipped(at) == Skipped(st) + [];
  }

  lemma EndedArgv(at: State)
    requires 0 <= at.optind <= |at.argv|
    requires at.nonoptStart == -1 ==> at.nonoptEnd == -1
    requires at.nonoptStart != -1 ==> 0 <= at.nonoptStart <= (if at.nonoptEnd == -1 then at.optind else at.nonoptEnd)
    requires at.nonoptEnd != -1 ==> 0 <= at.nonoptStart <= at.nonoptEnd <= at.optind
    ensures Ended(at).argv == Kept(at) + Skipped(at) + at.argv[at.optind..]
    ensures Ended(at).optind == |Kept(at)|
  {
  }

  // ---------- Whole runs ----------

  function Start(argv: seq<string>): State {
    State(argv, 1, "", -1, -1)
  }

  lemma StartHeading(cfg: Config, argv: seq<string>)
    requires |argv| >= 1
    ensures Valid(cfg, Start(argv))
    ensures var l := LayoutOf(cfg, argv[1..]);
            Heading(cfg, Start(argv)) == l.(opts := [argv[0]] + l.opts)
  {
    assert argv[..1] == [argv[0]];
    assert Skipped(Start(argv)) + LayoutOf(cfg, argv[1..]).nonopts == LayoutOf(cfg, argv[1..]).nonopts;
  }

  /** Calling getopt_long again and again from st, the n-th further call is the one that returns -1. */
  ghost predicate EndsAfter(cfg: Config, st: State, n: nat)
    requires Valid(cfg, st) && cfg.Ok()
    decreases n
  {
    CallKeeps(cfg, st);
    var (st', out) := Call(cfg, st);
    if out.code == -1 then n == 0 else n > 0 && EndsAfter(cfg, st', n - 1)
  }

  lemma {:induction false} EndsIffUnstuck(cfg: Config, st: State, n: nat)
    requires Valid(cfg, st) && cfg.Ok()
    ensures EndsAfter(cfg, st, n) <==> !Heading(cfg, st).stuck && n == |Heading(cfg, st).events|
    decreases n
  {
    hide Call, Heading;
    CallKeeps(cfg, st);
    var (st', out) := Call(cfg, st);
    if out.code != -1 && n > 0 {
      EndsIffUnstuck(cfg, st', n - 1);
    }
  }

  /** A run over a command line ends exactly when no scanned argument is stuck; it then takes one call
      per event and one more. */
  lemma TerminatesExactly(cfg: Config, argv: seq<string>)
    requires |argv| >= 1 && cfg.Ok() && Valid(cfg, Start(argv))
    ensures (exists n :: EndsAfter(cfg, Start(argv), n)) <==> !LayoutOf(cfg, argv[1..]).stuck
    ensures !LayoutOf(cfg, argv[1..]).stuck ==> EndsAfter(cfg, Start(argv), |LayoutOf(cfg, argv[1..]).events|)
  {
    hide LayoutOf, EndsAfter, Heading;
    StartHeading(cfg, argv);
    forall n: nat
      ensures EndsAfter(cfg, Start(argv), n) <==>
              !LayoutOf(cfg, argv[1..]).stuck && n == |LayoutOf(cfg, argv[1..]).events|
    {
      EndsIffUnstuck(cfg, Start(argv), n);
    }
    if !LayoutOf(cfg, argv[1..]).stuck {
      assert EndsAfter(cfg, Start(argv), |LayoutOf(cfg, argv[1..]).events|);
    }
  }

  /** The arguments that the scan reaches as options. */
  predicate ReachesStuck(cfg: Config, args: seq<string>)
    decreases |args|
  {
    if args == [] || args[0] == "--" then false
    else if IsNonOption(args[0]) then ReachesStuck(cfg, args[1..])
    else if StuckText(cfg, args[0][1..]) then true
    else
      var g := Items(cfg, args[0][1..], args);
      StuckExactly(cfg, args[0][1..], args);
      ReachesStuck(cfg, args[g.taken..])
  }

  /** The condition a caller can check: some argument in option position is '-' followed by letters
      without arguments and a final '-'. */
  lemma {:induction false} StuckReached(cfg: Config, args: seq<string>)
    ensures LayoutOf(cfg, args).stuck <==> ReachesStuck(cfg, args)
    decreases |args|
  {
    if args != [] && args[0] != "--" {
      if IsNonOption(args[0]) {
        StuckReached(cfg, args[1..]);
      } else {
        StuckExactly(cfg, args[0][1..], args);
        var g := Items(cfg, args[0][1..], args);
        if !g.stuck {
          StuckReached(cfg, args[g.taken..]);
        }
      }
    }
  }

  const BARCO_OPTIONS := ":u:m:c:a:v"      // barco's own short options

  /** "barco -v-" never finishes: no call is the one that returns -1. */
  lemma StuckExample(longs: seq<LongOption>)
    requires Config(BARCO_OPTIONS, longs).Ok()
    ensures var cfg, argv := Config(BARCO_OPTIONS, longs), ["barco", "-v-"];
            Valid(cfg, Start(argv)) && !exists n :: EndsAfter(cfg, Start(argv), n)
  {
    var cfg, argv := Config(BARCO_OPTIONS, longs), ["barco", "-v-"];
    hide EndsAfter, LayoutOf, Valid, Heading, Items;
    StartHeading(cfg, argv);
    TerminatesExactly(cfg, argv);
    PlainV();
    assert argv[1..] == ["-v-"] && "-v-"[1..] == "v-";
    assert StuckText(cfg, "v-");
    StuckReached(cfg, ["-v-"]);
  }

  lemma PlainV()
    ensures LetterMode(BARCO_OPTIONS, 'v') == Plain
  {
    var s := BARCO_OPTIONS;
    assert forall i :: 0 <= i < 9 ==> s[i] != 'v';
    assert s[0..][9] == 'v';
  }

  // ---------- The scanner's static variables ----------

  /** getopt_long's static and external variables. flags holds what options stored. */
  class Scanner {
    var optind: int
    var optreset: bool
    var place: string
    var nonoptStart: int
    var nonoptEnd: int
    var optarg: Option<string>
    var optopt: int
    var flags: map<nat, int>

    constructor ()
      ensures optind == 1 && !optreset && place == "" && nonoptStart == nonoptEnd == -1
    {
      optind, optreset, place, nonoptStart, nonoptEnd := 1, false, "", -1, -1;
      optarg, optopt, flags := None, '?' as int, map[];
    }

    function View(argv: array<string>): State
      reads this, argv
    {
      State(argv[..], optind, place, nonoptStart, nonoptEnd)
    }

    /** The call's report is `out`, given optopt and flags as they were. */
    ghost predicate Shows(out: Outcome, code: int, optopt0: int, flags0: map<nat, int>)
      reads this
    {
      && code == out.code && optarg == out.arg
      && optopt == (if out.opt.Some? then out.opt.value else optopt0)
      && flags == (if out.store.Some? then flags0[out.store.value.0 := out.store.value.1] else flags0)
    }

    /** Reads the long option at `place`, whose argument is argv[optind]. */
    method ParseLongOptions(argv: array<string>, cfg: Config) returns (code: int)
      requires 0 <= optind < argv.Length && optarg == None
      modifies this`optind, this`optarg, this`optopt, this`flags
      ensures var (out, extra) := LongScan(cfg, place, argv[old(optind) + 1..]);
              Shows(out, code, old(optopt), old(flags)) && optind == old(optind) + 1 + extra
    {
      hide Lookup;
      optind := optind + 1;
      var eq := IndexOf(place, '=');
      var key := if eq.Some? then place[..eq.value] else place;
      var value := if eq.Some? then Some(place[eq.value + 1..]) else None;
      var m := FindLong(cfg.longs, key);
      code := ApplyLong(argv, cfg, m, value);
    }

    /** Acts on the long option found. */
    method ApplyLong(argv: array<string>, cfg: Config, m: Match, value: Option<string>) returns (code: int)
      requires 0 <= optind <= argv.Length && optarg == None && (m.Matched? ==> m.index < |cfg.longs|)
      modifies this`optind, this`optarg, this`optopt, this`flags
      ensures var (out, extra) := LongOutcome(cfg, m, value, argv[old(optind)..]);
              Shows(out, code, old(optopt), old(flags)) && optind == old(optind) + extra
    {
      if !m.Matched? {
        optopt := 0;
        return BADCH;
      }
      var o := cfg.longs[m.index];
      if o.hasArg.NoArgument? && value.Some? {
        optopt := if o.flag.None? then o.val else 0;
        return BADCH;
      }
      if o.hasArg.RequiredArgument? || o.hasArg.OptionalArgument? {
        if value.Some? {
          optarg := value;
        } else if o.hasArg.RequiredArgument? {
          optarg := if optind < argv.Length then Some(argv[optind]) else None;
          optind := optind + 1;
        }
      }
      if o.hasArg.RequiredArgument? && optarg == None {
        optopt := if o.flag.None? then o.val else 0;
        optind := optind - 1;
        return cfg.BadArg();
      }
      if o.flag.Some? {
        flags := flags[o.flag.value := o.val];
        return 0;
      }
      return o.val;
    }

    /** Scans one option at `place`, not empty, inside argv[optind]. */
    method ScanOption(argv: array<string>, cfg: Config) returns (code: int)
      requires 0 <= optind < argv.Length && place != "" && optarg == None
      modifies this`optind, this`place, this`optarg, this`optopt, this`flags
      ensures var s := ScanOne(cfg, old(place), argv[old(optind)..]);
              Shows(s.out, code, old(optopt), old(flags)) && optind == old(optind) + s.taken && place == s.place
    {
      hide LongScan, LetterMode, ScanShort;
      if place[0] == '-' {
        place := place[1..];
        if place == "" {
          return cfg.BadArg();
        }
        assert argv[optind..][1..] == argv[optind + 1..];
        code := ParseLongOptions(argv, cfg);
        place := "";
      } else {
        var c := place[0];
        place := place[1..];
        code := ScanLetter(argv, cfg, c);
      }
    }

    /** Scans the option letter c, with `place` the text after it. */
    method ScanLetter(argv: array<string>, cfg: Config, c: char) returns (code: int)
      requires 0 <= optind < argv.Length && optarg == None
      modifies this`optind, this`place, this`optarg, this`optopt, this`flags
      ensures var s := ScanShort(cfg, c, old(place), argv[old(optind)..]);
              Shows(s.out, code, old(optopt), old(flags)) && optind == old(optind) + s.taken && place == s.place
    {
      hide LongScan, IndexOf;
      ghost var tail := argv[optind..];
      var oli := IndexOf(cfg.options, c);
      if c == ':' || oli.None? {
        if place == "" {
          optind := optind + 1;
        }
        optopt := c as int;
        return BADCH;
      }
      var after := cfg.options[oli.value + 1..];
      if c == 'W' && after != "" && after[0] == ';' {
        code := ScanAfterW(argv, cfg);
        return;
      }
      if after == "" || after[0] != ':' {
        if place == "" {
          optind := optind + 1;
        }
      } else {
        if place != "" {
          optarg := Some(place);
        } else if |after| < 2 || after[1] != ':' {
          optind := optind + 1;
          if optind >= argv.Length {
            optopt := c as int;
            return cfg.BadArg();
          }
          optarg := Some(argv[optind]);
          assert tail[1] == argv[optind];
        }
        place := "";
        optind := optind + 1;
      }
      return c as int;
    }

    /** The letter was W and announces a long option, here or in the next argument. */
    method ScanAfterW(argv: array<string>, cfg: Config) returns (code: int)
      requires 0 <= optind < argv.Length && optarg == None
      modifies this`optind, this`place, this`optarg, this`optopt, this`flags
      ensures var tail := argv[old(optind)..];
              var s := if old(place) != "" then ScanLong(cfg, old(place), tail, 1)
                       else if |tail| == 1 then Scan(Outcome(cfg.BadArg(), None, Some('W' as int), None), "", 1)
                       else ScanLong(cfg, tail[1], tail, 2);
              Shows(s.out, code, old(optopt), old(flags)) && optind == old(optind) + s.taken && place == s.place
    {
      hide LongScan;
      ghost var tail := argv[optind..];
      if place == "" {
        optind := optind + 1;
        if optind >= argv.Length {
          optopt := 'W' as int;
          return cfg.BadArg();
        }
        place := argv[optind];
        assert tail[1] == argv[optind] && tail[2..] == argv[optind + 1..];
      } else {
        assert tail[1..] == argv[optind + 1..];
      }
      code := ParseLongOptions(argv, cfg);
      place := "";
    }

    /** The state a call works from: optind 0 asks for a fresh start, and so does optreset, from optind on. */
    function Begun(argv: array<string>): State
      reads this, argv
    {
      if optind == 0 then Start(argv[..])
      else if optreset then State(argv[..], optind, "", -1, -1)
      else View(argv)
    }

    /** Moves on to the next argument that is an option, skipping and permuting non-options; `done`
        when there is none. */
    method FindOption(argv: array<string>, cfg: Config) returns (done: bool)
      requires Valid(cfg, View(argv)) && place == ""
      modifies this`optind, this`place, this`nonoptStart, this`nonoptEnd, argv
      ensures done ==> (View(argv), END) == Call(cfg, old(View(argv)))
      ensures !done ==> 0 <= optind < argv.Length && place != "" &&
                        Call(cfg, old(View(argv))) == ScanAt(cfg, View(argv), place)
    {
      hide Call, ScanOne, SameFate, Exchanged;
      while true
        invariant Valid(cfg, View(argv)) && place == "" && Call(cfg, View(argv)) == Call(cfg, old(View(argv)))
        decreases argv.Length - optind
      {
        CallUnfolds(cfg, View(argv));
        if optind >= argv.Length {
          EndArgs(argv);
          return true;
        }
        place := argv[optind];
        if place == "" || place[0] != '-' || |place| == 1 {
          place := "";
          SkipArg(argv, cfg);
          continue;
        }
        if nonoptStart != -1 && nonoptEnd == -1 {
          nonoptEnd := optind;
        }
        place := place[1..];
        if place == "-" {
          optind := optind + 1;
          place := "";
          EndArgs(argv);
          return true;
        }
        return false;
      }
    }

    /** Ends the scan at optind, moving pending non-options behind the options. */
    method EndArgs(argv: array<string>)
      requires 1 <= optind <= argv.Length && place == ""
      requires nonoptEnd != -1 ==> 0 <= nonoptStart < nonoptEnd < optind
      modifies this`optind, this`nonoptStart, this`nonoptEnd, argv
      ensures View(argv) == Ended(old(View(argv)))
    {
      if nonoptEnd != -1 {
        PermuteArgs(argv, nonoptStart, nonoptEnd, optind);
        optind := optind - (nonoptEnd - nonoptStart);
      } else if nonoptStart != -1 {
        optind := nonoptStart;
      }
      nonoptStart, nonoptEnd := -1, -1;
    }

    /** Steps over the non-option at optind. */
    method SkipArg(argv: array<string>, cfg: Config)
      requires Valid(cfg, View(argv)) && optind < argv.Length && place == "" && IsNonOption(argv[optind])
      modifies this`optind, this`nonoptStart, this`nonoptEnd, argv
      ensures View(argv) == SkipOne(cfg, old(View(argv)))
    {
      if nonoptStart == -1 {
        nonoptStart := optind;
      } else if nonoptEnd != -1 {
        PermuteArgs(argv, nonoptStart, nonoptEnd, optind);
        nonoptStart := optind - (nonoptEnd - nonoptStart);
        nonoptEnd := -1;
      }
      optind := optind + 1;
    }

    /** The start of a call: no optarg yet, and a fresh start when optind is 0. */
    method Prepare(argv: array<string>)
      modifies this`optind, this`optreset, this`place, this`nonoptStart, this`nonoptEnd, this`optarg
      ensures View(argv) == old(Begun(argv)) && optarg == None && !optreset
    {
      if optind == 0 {
        optind, optreset := 1, true;
      }
      optarg := None;
      if optreset {
        nonoptStart, nonoptEnd := -1, -1;
        optreset, place := false, "";
      }
    }

    /** One getopt_long call. */
    method GetoptLong(argv: array<string>, cfg: Config) returns (code: int, ghost out: Outcome)
      requires argv.Length >= 1 && Valid(cfg, Begun(argv))
      modifies this, argv
      ensures (View(argv), out) == Call(cfg, old(Begun(argv)))
      ensures Shows(out, code, old(optopt), old(flags)) && !optreset
    {
      hide Call, ScanOne, Valid, Ended, SkipOne, IsNonOption;
      CallUnfolds(cfg, Begun(argv));
      Prepare(argv);
      if place == "" {
        var done := FindOption(argv, cfg);
        if done {
          return -1, END;
        }
      }
      out := ScanOne(cfg, place, argv[optind..]).out;
      code := ScanOption(argv, cfg);
    }

    /** One call, seen from the layout the run is heading for. */
    method Advance(argv: array<string>, cfg: Config) returns (code: int, ghost out: Outcome)
      requires cfg.Ok() && argv.Length >= 1 && Valid(cfg, Begun(argv))
      modifies this, argv
      ensures code == out.code && optarg == out.arg && !optreset
      ensures out.store.Some? ==> out.store.value.0 in flags && flags[out.store.value.0] == out.store.value.1
      ensures if code == -1 then Final(old(Heading(cfg, Begun(argv))), View(argv), out)
              else Valid(cfg, Begun(argv)) && Reports(old(Heading(cfg, Begun(argv))), out, Heading(cfg, Begun(argv)))
    {
      hide Call, Valid, Heading, LayoutOf, Final, Reports;
      CallKeeps(cfg, Begun(argv));
      code, out := GetoptLong(argv, cfg);
      if code != -1 {
        CallUnfolds(cfg, View(argv));
      }
    }

    /** The caller's loop: a fresh start, then calls until -1. Collects each call's value and optarg. */
    method ScanAll(argv: array<string>, cfg: Config) returns (codes: seq<int>, args: seq<Option<string>>)
      requires cfg.Ok() && argv.Length >= 1
      requires !LayoutOf(cfg, argv[1..]).stuck
      modifies this, argv
      ensures var l := LayoutOf(cfg, old(argv[1..]));
              && argv[..] == [old(argv[0])] + l.opts + l.nonopts + l.rest
              && optind == 1 + |l.opts| && SameReports(l.events, codes, args)
      ensures multiset(argv[..]) == multiset(old(argv[..]))
    {
      hide Call, Valid, Heading, LayoutOf, SameReports;
      ghost var argv0 := argv[..];
      ghost var l := LayoutOf(cfg, argv0[1..]);
      assert argv[1..] == argv0[1..];
      StartHeading(cfg, argv0);
      LayoutPermutes(cfg, argv0);
      codes, args := [], [];
      optind := 0;
      ghost var seen: seq<Outcome>, ahead := [], l.events;
      assert SameReports(seen, codes, args) by {
        NoReports();
      }
      while true
        invariant Valid(cfg, Begun(argv))
        invariant Heading(cfg, Begun(argv)) == l.(opts := [argv0[0]] + l.opts, events := ahead)
        invariant l.events == seen + ahead && SameReports(seen, codes, args)
        decreases |ahead|
      {
        var code;
        ghost var out;
        code, out := Advance(argv, cfg);
        if code == -1 {
          break;
        }
        ReportsGrow(seen, ahead, codes, args, out);
        codes, args := codes + [code], args + [optarg];
        seen, ahead := seen + [out], ahead[1..];
      }
      assert seen == l.events;
    }
  }

  predicate SameReports(outs: seq<Outcome>, codes: seq<int>, args: seq<Option<string>>) {
    && |codes| == |args| == |outs|
    && forall k :: 0 <= k < |outs| ==> codes[k] == outs[k].code && args[k] == outs[k].arg
  }

  lemma NoReports()
    ensures SameReports([], [], [])
  {
  }

  lemma ReportsGrow(seen: seq<Outcome>, ahead: seq<Outcome>, codes: seq<int>, args: seq<Option<string>>, out: Outcome)
    requires SameReports(seen, codes, args) && ahead != [] && ahead[0] == out
    ensures SameReports(seen + [out], codes + [out.code], args + [out.arg])
    ensures seen + ahead == (seen + [out]) + ahead[1..]
  {
  }

  lemma LayoutPermutes(cfg: Config, argv: seq<string>)
    requires |argv| >= 1 && !LayoutOf(cfg, argv[1..]).stuck
    ensures var l := LayoutOf(cfg, argv[1..]);
            multiset([argv[0]] + l.opts + l.nonopts + l.rest) == multiset(argv)
  {
    assert argv == [argv[0]] + argv[1..];
  }
}
