/** Whole runs of the start-up protocol: when every call succeeds the command is executed, and after a
    failure that matters it never is. */
module StartupRuns {
  import opened Common
  import opened Startup

  // ---------- When nothing fails ----------

  /** One step in which the call succeeds and the child does not give up polling. */
  ghost predicate GoodStep(net: bool, s: State, s': State) {
    (exists who :: Act(net, s, who, true) == Some(s')) && (s'.child.CPoll? ==> s'.child.waited < TIMEOUT_MS)
  }

  /** A run of such steps. */
  ghost predicate GoodRun(net: bool, run: seq<State>) {
    run != [] && run[0] == INIT && forall i :: 0 <= i < |run| - 1 ==> GoodStep(net, run[i], run[i + 1])
  }

  lemma GoodRunIsRun(net: bool, run: seq<State>)
    requires GoodRun(net, run)
    ensures IsRun(net, run)
  {
    forall i | 0 <= i < |run| - 1
      ensures Step(net, run[i], run[i + 1])
    {
      assert GoodStep(net, run[i], run[i + 1]);
    }
  }

  /** Nobody has failed, and a child that has ended ran the command before. */
  predicate GoodFacts(s: State) {
    && !s.killed && !s.lost && !s.child.CFailing? && !s.child.CExiting?
    && !s.parent.PReplyFail? && !s.parent.PKill? && !s.parent.PReap? && !s.parent.PBroken?
    && (s.child.CPoll? ==> s.child.waited < TIMEOUT_MS)
    && (s.child == CNone ==> s.parent.PClone?)
    && (s.child.CRunning? || s.child.CZombie? ==> RepliedOk in s.done && Executed in s.done)
    && (10 <= Stage(s.child) <= 14 ==> RepliedOk in s.done)
    && (|s.toChild| != 0 ==> Holds(s.toChild, 0))
    && (s.parent.PCleanup? || s.parent.PDone? ==> s.reaped)
  }

  lemma GoodParentKeeps(net: bool, s: State)
    requires Inv(net, s) && GoodFacts(s) && ParentStep(net, s, true).Some?
    ensures GoodFacts(ParentStep(net, s, true).value)
  {
    hide LogFacts;
  }

  lemma GoodChildKeeps(net: bool, s: State)
    requires Inv(net, s) && GoodFacts(s) && ChildStep(net, s, true).Some?
    requires var s' := ChildStep(net, s, true).value; s'.child.CPoll? ==> s'.child.waited < TIMEOUT_MS
    ensures GoodFacts(ChildStep(net, s, true).value)
  {
    hide Inv, GoodFacts;
    if Isolating(s.child) {
      GoodIsolateKeeps(net, s);
    } else if InUserNs(s.child) {
      GoodUserNsKeeps(net, s);
    } else {
      GoodLaunchKeeps(net, s);
    }
  }

  lemma GoodIsolateKeeps(net: bool, s: State)
    requires Inv(net, s) && GoodFacts(s) && Isolating(s.child)
    requires var s' := IsolateStep(net, s, true); s'.child.CPoll? ==> s'.child.waited < TIMEOUT_MS
    ensures GoodFacts(IsolateStep(net, s, true))
  {
    hide LogFacts, SocketFacts;
  }

  lemma GoodUserNsKeeps(net: bool, s: State)
    requires Inv(net, s) && GoodFacts(s) && InUserNs(s.child) && UserNsStep(s, true).Some?
    ensures GoodFacts(UserNsStep(s, true).value)
  {
    hide LogFacts;
  }

  lemma GoodLaunchKeeps(net: bool, s: State)
    requires Inv(net, s) && GoodFacts(s) && !Isolating(s.child) && !InUserNs(s.child) && LaunchStep(s, true).Some?
    ensures GoodFacts(LaunchStep(s, true).value)
  {
    hide LogFacts, SocketFacts;
  }

  lemma GoodStepKeeps(net: bool, s: State, s': State)
    requires Inv(net, s) && GoodFacts(s) && GoodStep(net, s, s')
    ensures GoodFacts(s')
  {
    hide Inv, GoodFacts;
    var who :| Act(net, s, who, true) == Some(s');
    match who
    case Parent => GoodParentKeeps(net, s);
    case Child => GoodChildKeeps(net, s);
    case Kernel => NotKilled(s);
  }

  lemma {:induction false} GoodRunKeeps(net: bool, run: seq<State>, i: nat)
    requires GoodRun(net, run) && i < |run|
    ensures GoodFacts(run[i])
    decreases i
  {
    hide Inv, GoodFacts, GoodStep;
    if i > 0 {
      GoodRunKeeps(net, run, i - 1);
      GoodRunIsRun(net, run);
      RunKeeps(net, run, i - 1);
      assert GoodStep(net, run[i - 1], run[i - 1 + 1]);
      GoodStepKeeps(net, run[i - 1], run[i]);
    } else {
      GoodStart();
    }
  }

  lemma GoodStart()
    ensures GoodFacts(INIT)
  {
  }

  lemma NotKilled(s: State)
    requires GoodFacts(s)
    ensures KernelStep(s).None?
  {
  }

  /** Where no successful step is left. */
  predicate NoGoodStep(net: bool, s: State) {
    forall who :: Act(net, s, who, true).None?
  }

  /** When every call succeeds and the child's poll does not run out, the command is executed: every such run
      that cannot go on has it on record, with the parent done and the child reaped. */
  lemma GoodRunExecutes(net: bool, run: seq<State>)
    requires GoodRun(net, run) && NoGoodStep(net, run[|run| - 1])
    ensures var s := run[|run| - 1];
            Executed in s.log && s.parent.PDone? && s.child.CZombie? && s.reaped
  {
    var k := |run| - 1;
    GoodRunIsRun(net, run);
    GoodRunKeeps(net, run, k);
    RunKeeps(net, run, k);
    hide IsRun, GoodRun, Act;
    if !Ended(run[k].parent) {
      SomebodyMoves(net, run, k);
      assert false;
    }
  }

  lemma GoodGrows(net: bool, run: seq<State>, who: Actor) returns (run': seq<State>)
    requires GoodRun(net, run) && Act(net, run[|run| - 1], who, true).Some?
    requires var s' := Act(net, run[|run| - 1], who, true).value; s'.child.CPoll? ==> s'.child.waited < TIMEOUT_MS
    ensures GoodRun(net, run') && run'[|run'| - 1] == Act(net, run[|run| - 1], who, true).value
  {
    hide Act;
    var s := run[|run| - 1];
    run' := run + [Act(net, s, who, true).value];
    forall i | 0 <= i < |run'| - 1
      ensures GoodStep(net, run'[i], run'[i + 1])
    {
      if i < |run| - 1 {
        assert GoodStep(net, run[i], run[i + 1]);
      }
    }
  }

  /** There is such a run, with and without networking. */
  lemma GoodRunExists(net: bool) returns (run: seq<State>)
    ensures GoodRun(net, run) && NoGoodStep(net, run[|run| - 1])
  {
    hide GoodRun;
    run := GoodUnshared(net);
    run := GoodReplied(net, run);
    run := GoodSwitched(net, run);
    run := GoodExecuted(net, run);
    run := GoodGrows(net, run, Parent);      // waitpid
    run := GoodGrows(net, run, Parent);      // clean-up
  }

  lemma GoodSwitched(net: bool, run0: seq<State>) returns (run: seq<State>)
    requires GoodRun(net, run0)
    requires var s := run0[|run0| - 1]; s.parent.PWait? && s.child.CAwait? && s.toChild == [0] && !s.killed
    ensures GoodRun(net, run)
    ensures var s := run[|run| - 1]; s.parent.PWait? && s.child.CCloseFd? && !s.killed
  {
    hide GoodRun;
    run := GoodGrows(net, run0, Child);      // reads the reply
    run := GoodGrows(net, run, Child);       // switches user
    run := GoodGrows(net, run, Child);       // restrictions
  }

  lemma GoodExecuted(net: bool, run0: seq<State>) returns (run: seq<State>)
    requires GoodRun(net, run0)
    requires var s := run0[|run0| - 1]; s.parent.PWait? && s.child.CCloseFd? && !s.killed
    ensures GoodRun(net, run)
    ensures var s := run[|run| - 1]; s.parent.PWait? && s.child.CZombie? && !s.killed
  {
    hide GoodRun;
    run := GoodGrows(net, run0, Child);      // closes the socket
    run := GoodGrows(net, run, Child);       // exec
    run := GoodGrows(net, run, Child);       // the command ends
  }

  lemma GoodUnshared(net: bool) returns (run: seq<State>)
    ensures GoodRun(net, run)
    ensures var s := run[|run| - 1];
            && s.parent.PReadStatus? && s.child.CAwait? && s.toParent == [0] && s.toChild == [] && s.childEnd
            && !s.killed
  {
    hide GoodRun;
    run := GoodPrepared(net);
    run := GoodGrows(net, run, Child);       // host name
    run := GoodGrows(net, run, Child);       // mounts
    if net {
      run := GoodNetwork(run);
    }
    run := GoodGrows(net, run, Child);       // unshare
    run := GoodGrows(net, run, Child);       // announces it
  }

  /** The parent waits for the child's status before the child has done anything. */
  lemma GoodPrepared(net: bool) returns (run: seq<State>)
    ensures GoodRun(net, run)
    ensures var s := run[|run| - 1];
            && s.parent.PReadStatus? && s.child.CHostname? && s.toParent == s.toChild == [] && s.childEnd && !s.killed
            && (net ==> Moved in s.done)
  {
    hide GoodRun;
    run := GoodCloned(net);
    if net {
      run := GoodMoved(run);
    }
    run := GoodGrows(net, run, Parent);      // cgroups
  }

  lemma GoodCloned(net: bool) returns (run: seq<State>)
    ensures GoodRun(net, run)
    ensures run[|run| - 1]
         == State(if net then PMove else PCgroups, CHostname, [], [], true, false, false, false, [], {})
  {
    run := [INIT];
    assert GoodRun(net, run);
    hide GoodRun;
    run := GoodGrows(net, run, Parent);      // clone
    run := GoodGrows(net, run, Parent);      // the child is there
  }

  lemma GoodMoved(run0: seq<State>) returns (run: seq<State>)
    requires GoodRun(true, run0)
    requires run0[|run0| - 1] == State(PMove, CHostname, [], [], true, false, false, false, [], {})
    ensures GoodRun(true, run)
    ensures run[|run| - 1] == State(PCgroups, CHostname, [], [], true, false, false, false, [Moved], {Moved})
  {
    hide GoodRun;
    run := GoodGrows(true, run0, Parent);    // moves the interface
    run := GoodGrows(true, run, Parent);     // and sees it acknowledged
  }

  lemma GoodNetwork(run0: seq<State>) returns (run: seq<State>)
    requires GoodRun(true, run0) && run0[|run0| - 1].child == CPoll(0) && Moved in run0[|run0| - 1].done
    ensures GoodRun(true, run) && run[|run| - 1].child.CUnshare?
    ensures var s, s0 := run[|run| - 1], run0[|run0| - 1];
            && s.parent == s0.parent && s.toParent == s0.toParent && s.toChild == s0.toChild
            && s.childEnd == s0.childEnd && s.killed == s0.killed
  {
    hide GoodRun;
    run := GoodGrows(true, run0, Child);     // the interface is visible
    run := GoodGrows(true, run, Child);      // renames it
    run := GoodGrows(true, run, Child);      // address
    run := GoodGrows(true, run, Child);      // up
  }

  lemma GoodReplied(net: bool, run0: seq<State>) returns (run: seq<State>)
    requires GoodRun(net, run0)
    requires var s := run0[|run0| - 1];
             && s.parent.PReadStatus? && s.child.CAwait? && s.toParent == [0] && s.toChild == [] && s.childEnd
             && !s.killed
    ensures GoodRun(net, run)
    ensures var s := run[|run| - 1]; s.parent.PWait? && s.child.CAwait? && s.toChild == [0] && !s.killed
  {
    hide GoodRun;
    run := GoodGrows(net, run0, Parent);     // reads the status
    run := GoodGrows(net, run, Parent);      // setgroups
    run := GoodGrows(net, run, Parent);      // uid_map
    run := GoodGrows(net, run, Parent);      // gid_map
    run := GoodGrows(net, run, Parent);      // replies
  }

  // ---------- When something fails ----------

  /** The child's calls whose failure matters: not the poll, not the restrictions, whose failures nobody
      notices, and not what comes after exec. */
  predicate ChildMatters(c: ChildPc) {
    c != CNone && !c.CPoll? && !c.CRestrict? && !c.CRunning? && !c.CFailing? && !c.CExiting? && !c.CZombie?
  }

  /** The parent's calls whose failure matters. */
  predicate ParentMatters(p: ParentPc) {
    p.PMove? || p.PMoveAck? || p.PReadStatus? || p.PSetgroups? || p.PUidMap? || p.PGidMap? || p.PReplyOk?
  }

  /** The command has not been executed, and the child or the parent is on its way out. */
  predicate Lost(s: State) {
    && Executed !in s.done
    && (s.child.CFailing? || s.child.CExiting? || s.child.CZombie?
        || (RepliedOk !in s.done && (s.parent.PReplyFail? || s.parent.PKill? || s.parent.PReap? || s.parent.PCleanup?
                                     || s.parent.PDone? || s.parent.PBroken?)))
  }

  lemma LostStays(net: bool, s: State, s': State)
    requires Inv(net, s) && Lost(s) && Step(net, s, s')
    ensures Lost(s')
  {
    hide LogFacts;
    var who, ok :| Act(net, s, who, ok) == Some(s');
    match who
    case Parent => LostParent(net, s, ok);
    case Child => LostChild(net, s, ok);
    case Kernel =>
  }

  lemma LostParent(net: bool, s: State, ok: bool)
    requires Inv(net, s) && Lost(s) && ParentStep(net, s, ok).Some?
    ensures Lost(ParentStep(net, s, ok).value)
  {
    hide Inv, Lost;
    if InMappings(s.parent) {
      LostMappings(net, s, ok);
    } else {
      LostMain(net, s, ok);
    }
  }

  lemma LostMappings(net: bool, s: State, ok: bool)
    requires Inv(net, s) && Lost(s) && InMappings(s.parent) && MappingsStep(s, ok).Some?
    ensures Lost(MappingsStep(s, ok).value)
  {
    hide LogFacts, ChildFacts;
  }

  lemma LostMain(net: bool, s: State, ok: bool)
    requires Inv(net, s) && Lost(s) && !InMappings(s.parent) && MainStep(net, s, ok).Some?
    ensures Lost(MainStep(net, s, ok).value)
  {
    hide LogFacts, ChildFacts, SocketFacts;
  }

  lemma LostChild(net: bool, s: State, ok: bool)
    requires Inv(net, s) && Lost(s) && ChildStep(net, s, ok).Some?
    ensures Lost(ChildStep(net, s, ok).value)
  {
    hide LogFacts;
  }

  /** A failed call of the child that matters puts it on its way out. */
  lemma ChildFailure(net: bool, s: State)
    requires Inv(net, s) && ChildMatters(s.child) && Executed !in s.done
    requires ChildStep(net, s, false).Some?
    ensures Lost(ChildStep(net, s, false).value)
  {
    hide LogFacts, SocketFacts, ParentFacts;
  }

  /** So does a failed call of the parent. */
  lemma ParentFailure(net: bool, s: State)
    requires Inv(net, s) && ParentMatters(s.parent) && Executed !in s.done && ParentStep(net, s, false).Some?
    ensures Lost(ParentStep(net, s, false).value)
  {
    hide LogFacts, SocketFacts, ChildFacts;
  }

  /** The command has been executed only when the child is running it or has ended. */
  predicate ExecutedFits(s: State) {
    && (Executed in s.done ==> RepliedOk in s.done && (s.child.CRunning? || s.child.CZombie?))
    && (RepliedOk in s.done ==> s.parent.PWait? || s.parent.PCleanup? || s.parent.PDone?)
  }

  lemma ExecutedKeeps(net: bool, s: State, s': State)
    requires Inv(net, s) && ExecutedFits(s) && Step(net, s, s')
    ensures ExecutedFits(s')
  {
    hide LogFacts;
    StepKeeps(net, s, s');
    var who, ok :| Act(net, s, who, ok) == Some(s');
    match who
    case Parent => ExecutedParent(net, s, ok);
    case Child => ExecutedChild(net, s, ok);
    case Kernel =>
  }

  lemma ExecutedParent(net: bool, s: State, ok: bool)
    requires Inv(net, s) && ExecutedFits(s) && ParentStep(net, s, ok).Some?
    ensures ExecutedFits(ParentStep(net, s, ok).value)
  {
    hide Inv, ExecutedFits;
    if InMappings(s.parent) {
      ExecutedMappings(s, ok);
    } else {
      ExecutedMain(net, s, ok);
    }
  }

  lemma ExecutedMappings(s: State, ok: bool)
    requires ExecutedFits(s) && InMappings(s.parent) && MappingsStep(s, ok).Some?
    ensures ExecutedFits(MappingsStep(s, ok).value)
  {
  }

  lemma ExecutedMain(net: bool, s: State, ok: bool)
    requires Inv(net, s) && ExecutedFits(s) && !InMappings(s.parent) && MainStep(net, s, ok).Some?
    ensures ExecutedFits(MainStep(net, s, ok).value)
  {
    hide LogFacts, ChildFacts, SocketFacts;
  }

  lemma ExecutedChild(net: bool, s: State, ok: bool)
    requires Inv(net, s) && ExecutedFits(s) && ChildStep(net, s, ok).Some?
    ensures ExecutedFits(ChildStep(net, s, ok).value)
  {
    hide Inv, ExecutedFits;
    if Isolating(s.child) {
      ExecutedIsolate(net, s, ok);
    } else if InUserNs(s.child) {
      ExecutedUserNs(s, ok);
    } else {
      ExecutedLaunch(net, s, ok);
    }
  }

  lemma ExecutedIsolate(net: bool, s: State, ok: bool)
    requires ExecutedFits(s) && Isolating(s.child)
    ensures ExecutedFits(IsolateStep(net, s, ok))
  {
  }

  lemma ExecutedUserNs(s: State, ok: bool)
    requires ExecutedFits(s) && InUserNs(s.child) && UserNsStep(s, ok).Some?
    ensures ExecutedFits(UserNsStep(s, ok).value)
  {
  }

  lemma ExecutedLaunch(net: bool, s: State, ok: bool)
    requires Inv(net, s) && ExecutedFits(s) && !Isolating(s.child) && !InUserNs(s.child) && LaunchStep(s, ok).Some?
    ensures ExecutedFits(LaunchStep(s, ok).value)
  {
    hide LogFacts, SocketFacts, ParentFacts;
  }

  lemma {:induction false} ExecutedRun(net: bool, run: seq<State>, i: nat)
    requires IsRun(net, run) && i < |run|
    ensures ExecutedFits(run[i])
    decreases i
  {
    hide Inv, ExecutedFits;
    if i > 0 {
      ExecutedRun(net, run, i - 1);
      RunKeeps(net, run, i - 1);
      assert Step(net, run[i - 1], run[i - 1 + 1]);
      ExecutedKeeps(net, run[i - 1], run[i]);
    } else {
      NothingExecuted();
    }
  }

  lemma NothingExecuted()
    ensures ExecutedFits(INIT)
  {
  }

  lemma {:induction false} LostRun(net: bool, run: seq<State>, i: nat, j: nat)
    requires IsRun(net, run) && i <= j < |run| && Lost(run[i])
    ensures Lost(run[j])
    decreases j
  {
    hide Inv, Lost;
    if i < j {
      LostRun(net, run, i, j - 1);
      RunKeeps(net, run, j - 1);
      assert Step(net, run[j - 1], run[j - 1 + 1]);
      LostStays(net, run[j - 1], run[j]);
    }
  }

  /** After a failed call that matters, of either process, the command is never executed. */
  lemma FailurePreventsExec(net: bool, run: seq<State>, i: nat, j: nat)
    requires IsRun(net, run) && i < j < |run|
    requires || (ChildMatters(run[i].child) && Act(net, run[i], Child, false) == Some(run[i + 1]))
             || (ParentMatters(run[i].parent) && Act(net, run[i], Parent, false) == Some(run[i + 1]))
    ensures Executed !in run[j].log
  {
    RunKeeps(net, run, i);
    RunKeeps(net, run, j);
    ExecutedRun(net, run, i);
    hide IsRun, Inv, Lost;
    var s := run[i];
    if ChildMatters(s.child) && Act(net, s, Child, false) == Some(run[i + 1]) {
      NotYet(s);
      ChildFailure(net, s);
    } else {
      NotYetReplied(s);
      ParentFailure(net, s);
    }
    LostRun(net, run, i + 1, j);
    LostMeans(net, run[j]);
  }

  lemma NotYet(s: State)
    requires ExecutedFits(s) && ChildMatters(s.child)
    ensures Executed !in s.done
  {
  }

  lemma NotYetReplied(s: State)
    requires ExecutedFits(s) && ParentMatters(s.parent)
    ensures Executed !in s.done
  {
  }

  lemma LostMeans(net: bool, s: State)
    requires Inv(net, s) && Lost(s)
    ensures Executed !in s.log
  {
  }

  /** Once the child has announced itself, the parent kills it only after it has replied or tried to; a reply
      about a failure is -1. */
  lemma KillAfterReply(net: bool, run: seq<State>, i: nat)
    requires IsRun(net, run) && i + 1 < |run| && Mapping(run[i].parent) && run[i + 1].parent.PKill?
    ensures run[i].parent.PReplyOk? || run[i].parent.PReplyFail?
    ensures run[i + 1].toChild == [] || run[i + 1].toChild == [-1]
  {
    RunKeeps(net, run, i);
    assert Step(net, run[i], run[i + 1]);
  }
}
