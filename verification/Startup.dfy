/** The two-process start-up protocol: the parent's steps from clone to clean-up, the child's steps from
    its entry to execve, the veth move and the two-message socket handshake between them. Any system
    call may fail; the two processes interleave in any order. */
module Startup {
  import opened Common

  const TIMEOUT_MS := 5000
  const POLL_MS := 100

  datatype ParentPc =
    | PClone | PProbe | PMove | PMoveAck | PCgroups // create the child, hand it the interface
    | PReadStatus | PSetgroups | PUidMap | PGidMap  // user_namespace_prepare_mappings
    | PReplyOk | PReplyFail
    | PKill | PReap                                 // container_stop
    | PWait                                         // the waitpid loop
    | PCleanup | PDone
    | PBroken                                       // ended by SIGPIPE, without clean-up

  datatype ChildPc =
    | CNone                                         // not cloned
    | CHostname | CMount                            // basic isolation
    | CPoll(waited: nat) | CRename | CAddr | CLinkUp // network, when configured
    | CUnshare | CNotify | CAwait | CSwitch         // user_namespace_init
    | CRestrict | CCloseFd | CExecve
    | CRunning                                      // the user's command
    | CFailing | CExiting | CZombie                 // the fail path: close the socket, return

  /** The effects whose order matters, recorded as they happen. */
  datatype Event = Moved | Renamed | Unshared | Denied | UidMapped | GidMapped | RepliedOk | Executed

  /** `childEnd`: some copy of sockets[1] is still open (the parent closed its own right after clone).
      `toParent` and `toChild` are the queued socket messages. `lost`: the child's read of the reply failed
      before there was one. `done` collects the events of `log`. */
  datatype State = State(parent: ParentPc, child: ChildPc, toParent: seq<int>, toChild: seq<int>,
                         childEnd: bool, killed: bool, reaped: bool, lost: bool,
                         log: seq<Event>, done: set<Event>)

  const INIT := State(PClone, CNone, [], [], false, false, false, false, [], {})

  predicate Alive(c: ChildPc) {
    c != CNone && c != CZombie
  }

  datatype Actor = Parent | Child | Kernel

  // ---------- Steps ----------

  /** The parent inside user_namespace_prepare_mappings. */
  predicate InMappings(p: ParentPc) {
    p.PReadStatus? || Mapping(p)
  }

  predicate Mapping(p: ParentPc) {
    p.PSetgroups? || p.PUidMap? || p.PGidMap? || p.PReplyOk? || p.PReplyFail?
  }

  function Did(s: State, e: Event): State {
    s.(log := s.log + [e], done := s.done + {e})
  }

  /** One step there; `ok` is the outcome of the system call. None when it is blocked. */
  function MappingsStep(s: State, ok: bool): Option<State>
    requires InMappings(s.parent)
  {
    match s.parent
    case PReadStatus =>
      if !ok then Some(s.(parent := PKill))
      else if |s.toParent| > 0 then
        Some(s.(toParent := s.toParent[1..], parent := if s.toParent[0] == 0 then PSetgroups else PReplyFail))
      else if !s.childEnd then Some(s.(parent := PKill))         // end of file
      else None
    case PSetgroups => Some(if ok then Did(s, Denied).(parent := PUidMap) else s.(parent := PReplyFail))
    case PUidMap => Some(if ok then Did(s, UidMapped).(parent := PGidMap) else s.(parent := PReplyFail))
    case PGidMap => Some(if ok then Did(s, GidMapped).(parent := PReplyOk) else s.(parent := PReplyFail))
    case PReplyOk =>
      Some(if !s.childEnd then s.(parent := PBroken)             // a write to a closed socket raises SIGPIPE
           else if ok then Did(s, RepliedOk).(parent := PWait, toChild := s.toChild + [0])
           else s.(parent := PKill))
    case PReplyFail =>
      Some(if !s.childEnd then s.(parent := PBroken)
           else s.(parent := PKill, toChild := if ok then s.toChild + [-1] else s.toChild))
  }

  /** One step of the parent's main function and of container_stop. */
  function MainStep(net: bool, s: State, ok: bool): Option<State>
    requires !InMappings(s.parent)
  {
    match s.parent
    case PClone =>
      Some(if ok then s.(parent := PProbe, child := CHostname, childEnd := true) else s.(parent := PCleanup))
    case PProbe =>          // kill(pid, 0) succeeds on an unreaped child, alive or not
      Some(if s.reaped then s.(parent := PCleanup) else s.(parent := if net then PMove else PCgroups))
    case PMove => Some(if ok then Did(s, Moved).(parent := PMoveAck) else s.(parent := PKill))
    case PMoveAck => Some(s.(parent := if ok then PCgroups else PKill))   // the acknowledgement may be lost
    case PCgroups => Some(s.(parent := PReadStatus))
    case PKill => Some(s.(parent := PReap, killed := true))
    case PReap => if s.child == CZombie then Some(s.(parent := PCleanup, reaped := true)) else None
    case PWait => if s.child == CZombie then Some(s.(parent := PCleanup, reaped := true)) else None
    case PCleanup => Some(s.(parent := PDone))
    case PDone => None
    case PBroken => None
  }

  function ParentStep(net: bool, s: State, ok: bool): Option<State> {
    if InMappings(s.parent) then MappingsStep(s, ok) else MainStep(net, s, ok)
  }

  function ChildOr(s: State, ok: bool, next: ChildPc): State {
    s.(child := if ok then next else CFailing)
  }

  /** The child before user_namespace_init. */
  predicate Isolating(c: ChildPc) {
    c.CHostname? || c.CMount? || c.CPoll? || c.CRename? || c.CAddr? || c.CLinkUp?
  }

  function IsolateStep(net: bool, s: State, ok: bool): State
    requires Isolating(s.child)
  {
    match s.child
    case CHostname => ChildOr(s, ok, CMount)
    case CMount => ChildOr(s, ok, if net then CPoll(0) else CUnshare)
    case CPoll(waited) =>
      var visible := ok && Moved in s.done;
      if !visible && waited < TIMEOUT_MS then s.(child := CPoll(waited + POLL_MS))
      else ChildOr(s, waited < TIMEOUT_MS, CRename)
    case CRename => if ok then Did(s, Renamed).(child := CAddr) else s.(child := CFailing)
    case CAddr => ChildOr(s, ok, CLinkUp)
    case CLinkUp => ChildOr(s, ok, CUnshare)
  }

  /** The child in user_namespace_init. Short of an error, its read can only be released by a reply: it holds
      a copy of the parent's end of the socket itself, so it never sees an end of file. */
  predicate InUserNs(c: ChildPc) {
    c.CUnshare? || c.CNotify? || c.CAwait? || c.CSwitch?
  }

  function UserNsStep(s: State, ok: bool): Option<State>
    requires InUserNs(s.child)
  {
    match s.child
    case CUnshare => Some(if ok then Did(s, Unshared).(child := CNotify) else s.(child := CFailing))
    case CNotify => Some(if ok then s.(child := CAwait, toParent := s.toParent + [0]) else s.(child := CFailing))
    case CAwait =>
      if |s.toChild| == 0 then if ok then None else Some(s.(child := CFailing, lost := true))
      else Some(s.(toChild := s.toChild[1..], child := if ok && s.toChild[0] == 0 then CSwitch else CFailing))
    case CSwitch => Some(ChildOr(s, ok, CRestrict))
  }

  /** The child after that, up to its end. */
  function LaunchStep(s: State, ok: bool): Option<State>
    requires !Isolating(s.child) && !InUserNs(s.child)
  {
    match s.child
    case CNone => None
    case CRestrict => Some(s.(child := CCloseFd))   // a failure there is reported as 1, the caller tests < 0
    case CCloseFd => Some(if ok then s.(child := CExecve, childEnd := false) else s.(child := CFailing))
    case CExecve => Some(if ok then Did(s, Executed).(child := CRunning) else s.(child := CFailing))
    case CRunning => Some(s.(child := CZombie, childEnd := false))
    case CFailing => Some(s.(child := CExiting, childEnd := false))
    case CExiting => Some(s.(child := CZombie))
    case CZombie => None
  }

  function ChildStep(net: bool, s: State, ok: bool): Option<State> {
    if Isolating(s.child) then Some(IsolateStep(net, s, ok))
    else if InUserNs(s.child) then UserNsStep(s, ok)
    else LaunchStep(s, ok)
  }

  /** SIGKILL arrives: at once, or after any number of further steps of the child. */
  function KernelStep(s: State): Option<State> {
    if s.killed && Alive(s.child) then Some(s.(child := CZombie, childEnd := false)) else None
  }

  function Act(net: bool, s: State, who: Actor, ok: bool): Option<State> {
    match who
    case Parent => ParentStep(net, s, ok)
    case Child => ChildStep(net, s, ok)
    case Kernel => KernelStep(s)
  }

  ghost predicate Step(net: bool, s: State, s': State) {
    exists who, ok :: Act(net, s, who, ok) == Some(s')
  }

  /** A run: states from the initial one, each a step from the one before. */
  ghost predicate IsRun(net: bool, run: seq<State>) {
    run != [] && run[0] == INIT && forall i :: 0 <= i < |run| - 1 ==> Step(net, run[i], run[i + 1])
  }

  // ---------- What every reachable state satisfies ----------

  /** What must have happened before an event. */
  function Needs(net: bool, e: Event): set<Event> {
    match e
    case Moved => {}
    case Renamed => {Moved}
    case Unshared => if net then {Renamed} else {}
    case Denied => {Unshared}
    case UidMapped => {Denied}
    case GidMapped => {UidMapped}
    case RepliedOk => {GidMapped}
    case Executed => {RepliedOk}
  }

  ghost predicate Ordered(net: bool, log: seq<Event>) {
    forall k, e :: 0 <= k < |log| && e in Needs(net, log[k]) ==> e in log[..k]
  }

  /** The log respects the order, and `done` is its set of events. */
  ghost predicate LogFacts(net: bool, log: seq<Event>, done: set<Event>) {
    Ordered(net, log) && forall e :: e in done <==> e in log
  }

  lemma LogGrows(net: bool, log: seq<Event>, done: set<Event>, e: Event)
    requires LogFacts(net, log, done) && Needs(net, e) <= done
    ensures LogFacts(net, log + [e], done + {e})
  {
    var l := log + [e];
    forall k, d | 0 <= k < |l| && d in Needs(net, l[k])
      ensures d in l[..k]
    {
      if k < |log| {
        assert l[..k] == log[..k];
      } else {
        assert l[..k] == log;
      }
    }
  }

  /** How far the child has come. */
  function Stage(c: ChildPc): nat {
    match c
    case CNone => 0 case CHostname => 1 case CMount => 2 case CPoll(_) => 3 case CRename => 4
    case CAddr => 5 case CLinkUp => 6 case CUnshare => 7 case CNotify => 8 case CAwait => 9
    case CSwitch => 10 case CRestrict => 11 case CCloseFd => 12 case CExecve => 13
    case CRunning => 14 case CFailing => 15 case CExiting => 16 case CZombie => 17
  }

  predicate BeforeRead(p: ParentPc) {
    p.PProbe? || p.PMove? || p.PMoveAck? || p.PCgroups? || p.PReadStatus?
  }

  /** What the child's position says about the log. */
  predicate ChildFacts(net: bool, s: State) {
    && (s.child.CPoll? ==> s.child.waited <= TIMEOUT_MS && s.child.waited % POLL_MS == 0)
    && (s.child.CRename? ==> Moved in s.done)
    && (net && 5 <= Stage(s.child) <= 14 ==> Renamed in s.done)
    && (8 <= Stage(s.child) <= 14 ==> Unshared in s.done)
    && (10 <= Stage(s.child) <= 14 ==> RepliedOk in s.done)
    && (s.child.CRunning? ==> Executed in s.done)
  }

  /** What the parent's position says about the log and about the child. */
  predicate ParentFacts(s: State) {
    && (s.parent.PClone? ==> s.child == CNone)
    && (s.child == CNone ==> s.parent.PClone? || s.parent.PCleanup? || s.parent.PDone?)
    && (s.parent.PUidMap? ==> Denied in s.done)
    && (s.parent.PGidMap? ==> UidMapped in s.done)
    && (s.parent.PReplyOk? ==> GidMapped in s.done)
    && (RepliedOk in s.done ==> s.parent.PWait? || s.parent.PCleanup? || s.parent.PDone?)
    && (s.parent.PReap? ==> s.killed)
    && (s.killed ==> s.parent.PReap? || s.parent.PCleanup? || s.parent.PDone?)
    && (s.reaped ==> s.child == CZombie && (s.parent.PCleanup? || s.parent.PDone?))
    && (s.parent.PCleanup? || s.parent.PDone? ==> s.child == CNone || s.reaped)
  }

  /** The queue holds exactly the message m. */
  predicate Holds(q: seq<int>, m: int) {
    |q| == 1 && q[0] == m
  }

  /** The socket: at most one message each way, and who is where when one is in flight. */
  predicate SocketFacts(s: State) {
    && (s.childEnd ==> Alive(s.child) && !s.child.CExiting?) && (1 <= Stage(s.child) <= 12 ==> s.childEnd)
    && (|s.toParent| == 0 || Holds(s.toParent, 0)) && |s.toChild| <= 1
    && (|s.toParent| != 0 ==> Unshared in s.done)
    && (Stage(s.child) < 9 ==> |s.toParent| == |s.toChild| == 0 && !Mapping(s.parent) && !s.parent.PWait?)
    && (s.lost ==> (s.child.CFailing? && s.childEnd) || s.child.CExiting? || s.child.CZombie?)
    && (BeforeRead(s.parent) ==> |s.toChild| == 0 && !(10 <= Stage(s.child) <= 14))
    && (BeforeRead(s.parent) ==> (s.child.CAwait? || (s.lost && |s.toParent| > 0) <==> |s.toParent| == 1))
    && (Mapping(s.parent) ==> (s.child.CAwait? || s.lost) && |s.toChild| == |s.toParent| == 0 && Unshared in s.done)
    && (s.parent.PBroken? ==> s.lost && !s.childEnd && !s.killed)
    && (s.parent.PWait? && s.child.CAwait? ==> Holds(s.toChild, 0))
    && (Holds(s.toChild, 0) ==> RepliedOk in s.done)
  }

  ghost predicate Inv(net: bool, s: State) {
    LogFacts(net, s.log, s.done) && ChildFacts(net, s) && ParentFacts(s) && SocketFacts(s)
  }

  /** Each kind of step keeps the invariant. */
  lemma ReadKeeps(net: bool, s: State, ok: bool)
    requires Inv(net, s) && s.parent.PReadStatus? && MappingsStep(s, ok).Some?
    ensures Inv(net, MappingsStep(s, ok).value)
  {
    hide LogFacts;
  }

  lemma WriteKeeps(net: bool, s: State)
    requires Inv(net, s) && (s.parent.PSetgroups? || s.parent.PUidMap? || s.parent.PGidMap?)
    ensures Inv(net, MappingsStep(s, true).value)
  {
    hide LogFacts;
    LogGrows(net, s.log, s.done,
             match s.parent case PSetgroups => Denied case PUidMap => UidMapped case PGidMap => GidMapped);
  }

  lemma WriteFails(net: bool, s: State)
    requires Inv(net, s) && (s.parent.PSetgroups? || s.parent.PUidMap? || s.parent.PGidMap?)
    ensures Inv(net, MappingsStep(s, false).value)
  {
    hide LogFacts;
  }

  lemma ReplyKeeps(net: bool, s: State, ok: bool)
    requires Inv(net, s) && (s.parent.PReplyOk? || s.parent.PReplyFail?)
    ensures Inv(net, MappingsStep(s, ok).value)
  {
    hide LogFacts;
    if ok && s.parent.PReplyOk? {
      LogGrows(net, s.log, s.done, RepliedOk);
    }
  }

  lemma PrepareKeeps(net: bool, s: State, ok: bool)
    requires Inv(net, s) && (s.parent.PClone? || s.parent.PProbe? || s.parent.PMoveAck? || s.parent.PCgroups?)
    ensures Inv(net, MainStep(net, s, ok).value)
  {
    hide LogFacts;
  }

  lemma MoveKeeps(net: bool, s: State, ok: bool)
    requires Inv(net, s) && s.parent.PMove?
    ensures Inv(net, MainStep(net, s, ok).value)
  {
    hide LogFacts;
    if ok {
      LogGrows(net, s.log, s.done, Moved);
    }
  }

  lemma FinishKeeps(net: bool, s: State, ok: bool)
    requires Inv(net, s) && !InMappings(s.parent) && MainStep(net, s, ok).Some?
    requires s.parent.PKill? || s.parent.PReap? || s.parent.PWait? || s.parent.PCleanup?
    ensures Inv(net, MainStep(net, s, ok).value)
  {
    hide LogFacts;
  }

  lemma IsolateKeeps(net: bool, s: State, ok: bool)
    requires Inv(net, s) && Isolating(s.child)
    ensures Inv(net, IsolateStep(net, s, ok))
  {
    hide LogFacts;
    if ok && s.child.CRename? {
      LogGrows(net, s.log, s.done, Renamed);
    }
  }

  lemma UserNsKeeps(net: bool, s: State, ok: bool)
    requires Inv(net, s) && InUserNs(s.child) && UserNsStep(s, ok).Some?
    ensures Inv(net, UserNsStep(s, ok).value)
  {
    hide LogFacts;
    if ok && s.child.CUnshare? {
      LogGrows(net, s.log, s.done, Unshared);
    }
  }

  lemma ExecKeeps(net: bool, s: State, ok: bool)
    requires Inv(net, s) && s.child.CExecve?
    ensures Inv(net, LaunchStep(s, ok).value)
  {
    hide LogFacts;
    if ok {
      LogGrows(net, s.log, s.done, Executed);
    }
  }

  lemma LaunchKeeps(net: bool, s: State, ok: bool)
    requires Inv(net, s) && (s.child.CRestrict? || s.child.CCloseFd?)
    ensures Inv(net, LaunchStep(s, ok).value)
  {
    hide LogFacts;
  }

  lemma ExitKeeps(net: bool, s: State, ok: bool)
    requires Inv(net, s) && (s.child.CRunning? || s.child.CFailing? || s.child.CExiting?)
    ensures Inv(net, LaunchStep(s, ok).value)
  {
    hide LogFacts;
  }

  lemma StepKeeps(net: bool, s: State, s': State)
    requires Inv(net, s) && Step(net, s, s')
    ensures Inv(net, s') && Left(s') < Left(s)
  {
    StepNearer(net, s, s');
    hide Inv, Left;
    var who, ok :| Act(net, s, who, ok) == Some(s');
    match who
    case Parent =>
      match s.parent {
        case PReadStatus => ReadKeeps(net, s, ok);
        case PSetgroups | PUidMap | PGidMap =>
          if ok {
            WriteKeeps(net, s);
          } else {
            WriteFails(net, s);
          }
        case PReplyOk | PReplyFail => ReplyKeeps(net, s, ok);
        case PMove => MoveKeeps(net, s, ok);
        case PClone | PProbe | PMoveAck | PCgroups => PrepareKeeps(net, s, ok);
        case _ => FinishKeeps(net, s, ok);
      }
    case Child =>
      if Isolating(s.child) {
        IsolateKeeps(net, s, ok);
      } else if InUserNs(s.child) {
        UserNsKeeps(net, s, ok);
      } else if s.child.CExecve? {
        ExecKeeps(net, s, ok);
      } else if s.child.CRestrict? || s.child.CCloseFd? {
        LaunchKeeps(net, s, ok);
      } else {
        ExitKeeps(net, s, ok);
      }
    case Kernel => KernelKeeps(net, s);
  }

  lemma KernelKeeps(net: bool, s: State)
    requires Inv(net, s) && KernelStep(s).Some?
    ensures Inv(net, KernelStep(s).value)
  {
  }

  lemma {:induction false} RunKeeps(net: bool, run: seq<State>, i: nat)
    requires IsRun(net, run) && i < |run|
    ensures Inv(net, run[i])
    decreases i
  {
    if i > 0 {
      RunKeeps(net, run, i - 1);
      assert Step(net, run[i - 1], run[i - 1 + 1]);
      StepKeeps(net, run[i - 1], run[i]);
    }
  }

  // ---------- Safety ----------

  lemma {:induction false} NeedsBefore(net: bool, log: seq<Event>, k: nat, d: Event) returns (j: nat)
    requires Ordered(net, log) && k < |log| && d in Needs(net, log[k])
    ensures j < k && log[j] == d
  {
    assert d in log[..k];
    j :| 0 <= j < k && log[..k][j] == d;
  }

  /** In every interleaving and failure pattern, the command is executed only after the child's
      unshare, the parent's setgroups deny, uid_map, gid_map and reply, in that order; with networking
      also after the parent moved the interface and the child renamed it. */
  lemma ExecIsLast(net: bool, run: seq<State>, i: nat, k: nat)
    returns (moved: nat, renamed: nat, unshared: nat, denied: nat, uid: nat, gid: nat, replied: nat)
    requires IsRun(net, run) && i < |run| && k < |run[i].log| && run[i].log[k] == Executed
    ensures unshared < denied < uid < gid < replied < k
    ensures var log := run[i].log;
            && log[unshared] == Unshared && log[denied] == Denied && log[uid] == UidMapped
            && log[gid] == GidMapped && log[replied] == RepliedOk
            && (net ==> moved < renamed < unshared && log[moved] == Moved && log[renamed] == Renamed)
  {
    RunKeeps(net, run, i);
    assert Ordered(net, run[i].log);
    moved, renamed, unshared, denied, uid, gid, replied := ExecNeeds(net, run[i].log, k);
  }

  /** In an ordered log, everything that exec needs, directly or not, comes before it. */
  lemma ExecNeeds(net: bool, log: seq<Event>, k: nat)
    returns (moved: nat, renamed: nat, unshared: nat, denied: nat, uid: nat, gid: nat, replied: nat)
    requires Ordered(net, log) && k < |log| && log[k] == Executed
    ensures unshared < denied < uid < gid < replied < k
    ensures && log[unshared] == Unshared && log[denied] == Denied && log[uid] == UidMapped
            && log[gid] == GidMapped && log[replied] == RepliedOk
            && (net ==> moved < renamed < unshared && log[moved] == Moved && log[renamed] == Renamed)
  {
    hide Ordered;
    moved, renamed := 0, 0;
    replied := NeedsBefore(net, log, k, RepliedOk);
    gid := NeedsBefore(net, log, replied, GidMapped);
    uid := NeedsBefore(net, log, gid, UidMapped);
    denied := NeedsBefore(net, log, uid, Denied);
    unshared := NeedsBefore(net, log, denied, Unshared);
    if net {
      renamed := NeedsBefore(net, log, unshared, Renamed);
      moved := NeedsBefore(net, log, renamed, Moved);
    }
  }

  /** Whenever the command runs, its execution is on record, so ExecIsLast applies. */
  lemma RunningWasExecuted(net: bool, run: seq<State>, i: nat)
    requires IsRun(net, run) && i < |run| && run[i].child.CRunning?
    ensures Executed in run[i].log
  {
    RunKeeps(net, run, i);
  }

  /** While the parent writes the maps or a reply, the child is blocked in its read, with its end of the
      socket open, exactly when that read has not failed beforehand. */
  lemma ReplyMeetsReader(net: bool, run: seq<State>, i: nat)
    requires IsRun(net, run) && i < |run| && Mapping(run[i].parent)
    ensures run[i].child.CAwait? <==> !run[i].lost
    ensures !run[i].lost ==> run[i].childEnd && |run[i].toChild| == 0
  {
    RunKeeps(net, run, i);
  }

  /** If the read failed and the child has closed its end, the reply raises SIGPIPE and ends the parent before
      its clean-up; that is the only way to this end, and the command is not executed then. */
  lemma BrokenReply(net: bool, run: seq<State>, i: nat)
    requires IsRun(net, run) && i < |run| && run[i].parent.PBroken?
    ensures run[i].lost && !run[i].childEnd && !run[i].reaped && (run[i].child.CExiting? || run[i].child.CZombie?)
    ensures Executed !in run[i].log
  {
    RunKeeps(net, run, i);
    var log := run[i].log;
    if Executed in log {
      var k :| 0 <= k < |log| && log[k] == Executed;
      var j := NeedsBefore(net, log, k, RepliedOk);
      assert false;
    }
  }

  lemma RunGrows(net: bool, run: seq<State>, who: Actor, ok: bool) returns (run': seq<State>)
    requires IsRun(net, run) && Act(net, run[|run| - 1], who, ok).Some?
    ensures run' == run + [Act(net, run[|run| - 1], who, ok).value] && IsRun(net, run')
  {
    hide Act;
    var s := run[|run| - 1];
    var s' := Act(net, s, who, ok).value;
    run' := run + [s'];
    assert Step(net, s, s');
    forall i | 0 <= i < |run'| - 1
      ensures Step(net, run'[i], run'[i + 1])
    {
      if i < |run| - 1 {
        assert Step(net, run[i], run[i + 1]);
      }
    }
  }

  /** It can happen: the child announces itself, its read fails, it closes its end, and the parent replies. */
  lemma BrokenExample() returns (run: seq<State>)
    ensures IsRun(false, run) && run[|run| - 1].parent.PBroken?
  {
    hide IsRun;
    run := ChildAway();
    run := RunGrows(false, run, Parent, true);     // clone returned, the child is there
    run := RunGrows(false, run, Parent, true);     // cgroups
    run := RunGrows(false, run, Parent, true);     // reads the status
    run := RunGrows(false, run, Parent, false);    // cannot write setgroups
    run := RunGrows(false, run, Parent, true);     // replies
  }

  lemma ChildAway() returns (run: seq<State>)
    ensures IsRun(false, run)
    ensures run[|run| - 1] == State(PProbe, CExiting, [0], [], false, false, false, true, [Unshared], {Unshared})
  {
    run := [INIT];
    assert IsRun(false, run);
    hide IsRun;
    run := RunGrows(false, run, Parent, true);     // clone
    run := RunGrows(false, run, Child, true);      // host name
    run := RunGrows(false, run, Child, true);      // mounts
    run := RunGrows(false, run, Child, true);      // unshare
    run := RunGrows(false, run, Child, true);      // announces it
    run := RunGrows(false, run, Child, false);     // its read fails
    run := RunGrows(false, run, Child, true);      // closes its end
  }

  /** However the parent finished, no child is left behind: it was never created, or it is dead and
      reaped. */
  lemma NoChildLeft(net: bool, run: seq<State>, i: nat)
    requires IsRun(net, run) && i < |run| && run[i].parent.PDone?
    ensures run[i].child == CNone || (run[i].child == CZombie && run[i].reaped)
  {
    RunKeeps(net, run, i);
  }

  // ---------- Progress ----------

  predicate Ended(p: ParentPc) {
    p.PDone? || p.PBroken?
  }

  /** No deadlock: short of the parent's end, somebody can move, whatever the outcome of the call. */
  lemma SomebodyMoves(net: bool, run: seq<State>, i: nat)
    requires IsRun(net, run) && i < |run| && !Ended(run[i].parent)
    ensures exists who :: CanMove(net, run[i], who)
  {
    RunKeeps(net, run, i);
    hide IsRun, LogFacts;
    var s := run[i];
    if !CanMove(net, s, Parent) && !CanMove(net, s, Child) {
      assert CanMove(net, s, Kernel);
    }
  }

  predicate CanMove(net: bool, s: State, who: Actor) {
    Act(net, s, who, true).Some? && Act(net, s, who, false).Some?
  }

  function ParentLeft(p: ParentPc): nat {
    match p
    case PClone => 14 case PProbe => 13 case PMove => 12 case PMoveAck => 11 case PCgroups => 10 case PReadStatus => 9
    case PSetgroups => 8 case PUidMap => 7 case PGidMap => 6 case PReplyOk => 5 case PReplyFail => 5
    case PKill => 4 case PReap => 3 case PWait => 3 case PCleanup => 1 case PDone => 0 case PBroken => 0
  }

  function ChildLeft(c: ChildPc): nat {
    match c
    case CNone => 66 case CHostname => 65 case CMount => 64
    case CPoll(waited) => 13 + (if waited < TIMEOUT_MS then (TIMEOUT_MS - waited) / POLL_MS else 0)
    case CRename => 12 case CAddr => 11 case CLinkUp => 10 case CUnshare => 9 case CNotify => 8
    case CAwait => 7 case CSwitch => 6 case CRestrict => 5 case CCloseFd => 4 case CExecve => 3
    case CRunning => 2 case CFailing => 2 case CExiting => 1 case CZombie => 0
  }

  function Left(s: State): nat {
    ParentLeft(s.parent) + ChildLeft(s.child)
  }

  lemma StepNearer(net: bool, s: State, s': State)
    requires Inv(net, s) && Step(net, s, s')
    ensures Left(s') < Left(s)
  {
    hide LogFacts, SocketFacts;
    var who, ok :| Act(net, s, who, ok) == Some(s');
    match who
    case Parent =>
      if InMappings(s.parent) {
        MappingsNearer(s, ok);
      } else {
        MainNearer(net, s, ok);
      }
    case Child =>
      if Isolating(s.child) {
        IsolateNearer(net, s, ok);
      } else if InUserNs(s.child) {
        UserNsNearer(s, ok);
      } else {
        LaunchNearer(s, ok);
      }
    case Kernel =>
  }

  lemma MappingsNearer(s: State, ok: bool)
    requires InMappings(s.parent) && MappingsStep(s, ok).Some?
    ensures Left(MappingsStep(s, ok).value) < Left(s)
  {
    hide ChildLeft;
  }

  lemma MainNearer(net: bool, s: State, ok: bool)
    requires !InMappings(s.parent) && MainStep(net, s, ok).Some? && (s.parent.PClone? ==> s.child == CNone)
    ensures Left(MainStep(net, s, ok).value) < Left(s)
  {
    hide ChildLeft, ParentLeft, MainStep;
    MainParentNearer(net, s, ok);
    MainChildSame(net, s, ok);
    CloneLeft();
  }

  lemma MainParentNearer(net: bool, s: State, ok: bool)
    requires !InMappings(s.parent) && MainStep(net, s, ok).Some?
    ensures ParentLeft(MainStep(net, s, ok).value.parent) < ParentLeft(s.parent)
  {
    hide ParentLeft;
    if s.parent.PKill? || s.parent.PReap? || s.parent.PWait? || s.parent.PCleanup? {
      FinishNearer(net, s, ok);
    } else {
      PrepareNearer(net, s, ok);
    }
  }

  lemma PrepareNearer(net: bool, s: State, ok: bool)
    requires s.parent.PClone? || s.parent.PProbe? || s.parent.PMove? || s.parent.PMoveAck? || s.parent.PCgroups?
    ensures ParentLeft(MainStep(net, s, ok).value.parent) < ParentLeft(s.parent)
  {
  }

  lemma FinishNearer(net: bool, s: State, ok: bool)
    requires s.parent.PKill? || s.parent.PReap? || s.parent.PWait? || s.parent.PCleanup?
    requires MainStep(net, s, ok).Some?
    ensures ParentLeft(MainStep(net, s, ok).value.parent) < ParentLeft(s.parent)
  {
  }

  lemma MainChildSame(net: bool, s: State, ok: bool)
    requires !InMappings(s.parent) && MainStep(net, s, ok).Some?
    ensures MainStep(net, s, ok).value.child == if s.parent.PClone? && ok then CHostname else s.child
  {
  }

  lemma CloneLeft()
    ensures ChildLeft(CHostname) < ChildLeft(CNone)
  {
  }

  lemma IsolateNearer(net: bool, s: State, ok: bool)
    requires Isolating(s.child)
    requires s.child.CPoll? ==> s.child.waited <= TIMEOUT_MS && s.child.waited % POLL_MS == 0
    ensures Left(IsolateStep(net, s, ok)) < Left(s)
  {
    hide ParentLeft, ChildLeft, IsolateStep;
    if s.child.CPoll? {
      PollNearer(net, s, ok);
    } else {
      SetUpNearer(net, s, ok);
    }
  }

  lemma PollNearer(net: bool, s: State, ok: bool)
    requires s.child.CPoll? && s.child.waited <= TIMEOUT_MS && s.child.waited % POLL_MS == 0
    ensures Left(IsolateStep(net, s, ok)) < Left(s)
  {
    hide ParentLeft;
  }

  lemma SetUpNearer(net: bool, s: State, ok: bool)
    requires Isolating(s.child) && !s.child.CPoll?
    ensures Left(IsolateStep(net, s, ok)) < Left(s)
  {
    hide ParentLeft;
  }

  lemma UserNsNearer(s: State, ok: bool)
    requires InUserNs(s.child) && UserNsStep(s, ok).Some?
    ensures Left(UserNsStep(s, ok).value) < Left(s)
  {
    hide ParentLeft;
  }

  lemma LaunchNearer(s: State, ok: bool)
    requires !Isolating(s.child) && !InUserNs(s.child) && LaunchStep(s, ok).Some?
    ensures Left(LaunchStep(s, ok).value) < Left(s)
  {
    hide ParentLeft;
  }

  /** Every run is short: with SomebodyMoves, every maximal run ends with the parent done. */
  lemma {:induction false} RunsAreBounded(net: bool, run: seq<State>, i: nat)
    requires IsRun(net, run) && i < |run|
    ensures i + Left(run[i]) <= Left(INIT) == 80
    decreases i
  {
    hide Act, Inv, ParentLeft, ChildLeft;
    StartLeft();
    if i > 0 {
      RunsAreBounded(net, run, i - 1);
      RunKeeps(net, run, i - 1);
      assert Step(net, run[i - 1], run[i - 1 + 1]);
      StepKeeps(net, run[i - 1], run[i]);
    }
  }

  lemma StartLeft()
    ensures Left(INIT) == 80
  {
  }

  predicate Halted(net: bool, s: State) {
    forall who, ok :: Act(net, s, who, ok).None?
  }

  /** A run that cannot be continued has ended after at most 80 steps: with the parent done and no child
      left, or, if the child's read failed beforehand, with the parent ended by its reply and a dead child. */
  lemma MaximalRunEnds(net: bool, run: seq<State>)
    requires IsRun(net, run) && Halted(net, run[|run| - 1])
    ensures |run| <= 81
    ensures var s := run[|run| - 1];
            if s.parent.PDone? then s.child == CNone || (s.child == CZombie && s.reaped)
            else s.parent.PBroken? && s.lost && s.child == CZombie && !s.reaped
  {
    var s := run[|run| - 1];
    RunsAreBounded(net, run, |run| - 1);
    if s.parent.PDone? {
      NoChildLeft(net, run, |run| - 1);
    } else if s.parent.PBroken? {
      BrokenReply(net, run, |run| - 1);
      assert Act(net, s, Child, true).None?;
    } else {
      hide Act;
      SomebodyMoves(net, run, |run| - 1);
    }
  }
}
