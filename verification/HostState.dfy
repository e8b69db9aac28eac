/** What a run of main does to the host: its iptables rule lists and its network links, over every
    goto-cleanup path. */
module HostState {
  import opened Common

  // ---------- Rules ----------

  /** An IPv4 address with a prefix length, as a text is read. */
  datatype Address = Address(addr: nat, plen: nat)

  /** What a rule is stored and compared by: the address's bits before the host part. */
  datatype Network = Network(prefix: int, plen: nat)

  function Pow2(n: nat): (p: nat)
    ensures p > 0
  {
    if n == 0 then 1 else 2 * Pow2(n - 1)
  }

  function NetworkOf(a: Address): Network {
    Network(a.addr / Pow2(if a.plen < 32 then 32 - a.plen else 0), a.plen)
  }

  datatype Rule = Masquerade(net: Network, hostIf: string) | AcceptFrom(net: Network) | AcceptBack(net: Network)

  // ---------- Rule lists ----------

  /** iptables -D: the first matching rule goes. */
  function Dropped(rules: seq<Rule>, r: Rule): (d: seq<Rule>)
    ensures r !in rules ==> d == rules
    ensures r in rules ==> |d| == |rules| - 1
  {
    if rules == [] then []
    else if rules[0] == r then rules[1..]
    else [rules[0]] + Dropped(rules[1..], r)
  }

  /** iptables -C or else -A, where appending may fail. */
  function Ensured(rules: seq<Rule>, r: Rule, appendOk: bool): seq<Rule> {
    if r in rules || !appendOk then rules else rules + [r]
  }

  lemma {:induction false} DroppedFront(a: seq<Rule>, b: seq<Rule>, r: Rule)
    requires r in a
    ensures Dropped(a + b, r) == Dropped(a, r) + b
  {
    hide Dropped;
    var x, more := a[0], a[1..];
    assert a == [x] + more;
    assert a + b == [x] + (more + b);
    DroppedHead(x, more + b, r);
    DroppedHead(x, more, r);
    if x != r {
      DroppedFront(more, b, r);
      assert [x] + (Dropped(more, r) + b) == ([x] + Dropped(more, r)) + b;
    }
  }

  lemma {:induction false} DroppedBehind(a: seq<Rule>, b: seq<Rule>, r: Rule)
    requires r !in a
    ensures Dropped(a + b, r) == a + Dropped(b, r)
  {
    hide Dropped;
    if a == [] {
      assert a + b == b;
    } else {
      var x, more := a[0], a[1..];
      assert a + b == [x] + (more + b);
      DroppedHead(x, more + b, r);
      DroppedBehind(more, b, r);
    }
  }

  lemma DroppedConcat(a: seq<Rule>, b: seq<Rule>, r: Rule)
    ensures Dropped(a + b, r) == if r in a then Dropped(a, r) + b else a + Dropped(b, r)
  {
    if r in a {
      DroppedFront(a, b, r);
    } else {
      DroppedBehind(a, b, r);
    }
  }

  lemma DroppedHead(x: Rule, rules: seq<Rule>, r: Rule)
    ensures Dropped([x] + rules, r) == if x == r then rules else [x] + Dropped(rules, r)
  {
  }

  /** The first occurrence of r is gone, if there was one; everything else is there, in order. */
  ghost predicate FirstGone(was: seq<Rule>, now: seq<Rule>, r: Rule) {
    if r in was then exists i :: 0 <= i < |was| && was[i] == r && r !in was[..i] && now == was[..i] + was[i + 1..]
    else now == was
  }

  /** And that says what is left. */
  lemma FirstGoneIs(was: seq<Rule>, now: seq<Rule>, r: Rule)
    ensures FirstGone(was, now, r) <==> now == Dropped(was, r)
  {
    if r in was {
      var i := FirstOccurrence(was, r);
      forall k | 0 <= k < |was| && was[k] == r && r !in was[..k]
        ensures Dropped(was, r) == was[..k] + was[k + 1..]
      {
        assert was == was[..k] + ([r] + was[k + 1..]);
        DroppedBehind(was[..k], [r] + was[k + 1..], r);
        DroppedHead(r, was[k + 1..], r);
      }
    }
  }

  lemma {:induction false} FirstOccurrence(was: seq<Rule>, r: Rule) returns (i: nat)
    requires r in was
    ensures i < |was| && was[i] == r && r !in was[..i]
  {
    if was[0] == r {
      i := 0;
    } else {
      i := FirstOccurrence(was[1..], r);
      i := i + 1;
      assert was[..i] == [was[0]] + was[1..][..i - 1];
    }
  }

  /** Making sure of a rule has it there unless adding it fails, at most one more than before, at the end. */
  lemma EnsuredMeans(rules: seq<Rule>, r: Rule, appendOk: bool)
    ensures var e := Ensured(rules, r, appendOk);
            && rules <= e && |e| <= |rules| + 1 && (r in rules ==> e == rules)
            && (r in e <==> r in rules || appendOk) && (forall x :: x in e && x != r ==> x in rules)
  {
  }

  /** Adding a rule and deleting it again leaves what deleting it from the first list would. */
  lemma DropEnsured(rules: seq<Rule>, r: Rule, appendOk: bool)
    ensures Dropped(Ensured(rules, r, appendOk), r) == Dropped(rules, r)
  {
    DroppedConcat(rules, [r], r);
    assert Dropped([r], r) == [];
    assert rules + [] == rules;
  }

  /** Deleting one rule does not see another that was added. */
  lemma DropPastOther(rules: seq<Rule>, other: Rule, appendOk: bool, r: Rule)
    requires other != r
    ensures Dropped(Ensured(rules, other, appendOk), r) == Ensured(Dropped(rules, r), other, appendOk)
  {
    DroppedConcat(rules, [other], r);
    assert Dropped([other], r) == [other] by {
      assert Dropped([other][1..], r) == [];
    }
    MemberOfDropped(rules, r, other);
  }

  lemma {:induction false} MemberOfDropped(rules: seq<Rule>, r: Rule, x: Rule)
    requires x != r
    ensures x in Dropped(rules, r) <==> x in rules
  {
    if rules != [] {
      MemberOfDropped(rules[1..], r, x);
    }
  }

  // ---------- The subnet text ----------

  const SUBNET_MAX := 31      // snprintf into a 32-byte buffer

  /** The subnet as set-up writes it: address part, then the part from the slash on. */
  function SubnetAtSetup(ip: string): string {
    match IndexOf(ip, '/')
    case Some(k) => Cut(ip[..k] + ip[k..], SUBNET_MAX)
    case None => Cut(ip + "/24", SUBNET_MAX)
  }

  function SubnetAtCleanup(ip: string): string {
    match IndexOf(ip, '/')
    case Some(_) => Cut(ip, SUBNET_MAX)
    case None => Cut(ip + "/24", SUBNET_MAX)
  }

  /** That is the address as given, with "/24" where it has no prefix, cut to 31 characters. */
  lemma SubnetText(ip: string)
    ensures var text := if '/' in ip then ip else ip + "/24";
            SubnetAtSetup(ip) == if |text| <= 31 then text else text[..31]
  {
    match IndexOf(ip, '/')
    case Some(k) => assert ip[..k] + ip[k..] == ip;
    case None => assert ip[0..] == ip;
  }

  lemma SubnetsAgree(ip: string)
    ensures SubnetAtSetup(ip) == SubnetAtCleanup(ip)
  {
  }

  // ---------- Links ----------

  /** Each link with the name of its veth peer on the host, if it has one there. */
  type Links = map<string, Option<string>>

  /** nl_del_link: a veth end goes together with its peer. */
  function Deleted(links: Links, name: string): Links {
    if name !in links then links
    else if links[name].Some? then links - {name, links[name].value}
    else links - {name}
  }

  /** nl_create_veth: made, refused by the kernel, made but not seen in time and deleted again, or made
      while the acknowledgement was lost. */
  datatype Creation = Created | Refused | Incomplete | ReplyLost

  /** A new veth pair, both ends on the host. */
  function Paired(links: Links, tmp: string, peer: string): Links {
    links[tmp := Some(peer)][peer := Some(tmp)]
  }

  /** The tmp end has been moved to the container. */
  function Moved(links: Links, tmp: string, peer: string): Links {
    (links - {tmp})[peer := None]
  }

  /** A new pair has both ends on the host, each the other's peer; a moved end is gone from it, and its peer
      stays alone; all other links stay as they are. */
  lemma PairMeans(links: Links, tmp: string, peer: string)
    requires tmp != peer
    ensures var pair := Paired(links, tmp, peer);
            && tmp in pair && pair[tmp] == Some(peer) && peer in pair && pair[peer] == Some(tmp)
            && var moved := Moved(pair, tmp, peer);
               && tmp !in moved && peer in moved && moved[peer] == None
               && forall x :: x != tmp && x != peer ==>
                    && (x in pair <==> x in links) && (x in moved <==> x in links)
                    && (x in links ==> pair[x] == links[x] && moved[x] == links[x])
  {
  }

  /** However far the pair got, deleting its peer end clears it from the host. */
  lemma PairCleared(links: Links, tmp: string, peer: string, moved: bool, gone: bool)
    requires tmp !in links && peer !in links && tmp != peer
    ensures var pair := Paired(links, tmp, peer);
            var before := if moved then Moved(pair, tmp, peer) else pair;
            Deleted(if gone then before - {tmp, peer} else before, peer) == links
  {
  }

  lemma DeletedGone(links: Links, name: string, other: string)
    ensures name !in Deleted(links, name) && (other !in links ==> other !in Deleted(links, name))
  {
  }

  function AfterCreation(links: Links, tmp: string, peer: string, c: Creation): Links {
    if c.Refused? || c.Incomplete? then links else Paired(links, tmp, peer)
  }

  // ---------- main ----------

  /** The network part of the configuration. */
  datatype NetConfig = NetConfig(tmp: string, peer: string, containerIp: string, hostIp: Option<string>,
                                 enableNat: bool)

  /** The outcomes of everything main calls. `moveLost`: a move reported as failed was carried out all the
      same, its acknowledgement lost. `addressOf`: how iptables reads a subnet text, if at all. `pairGone`: the
      kernel has destroyed the pair with the container's namespace by the time of the clean-up. */
  datatype Env = Env(namesOk: bool, socketOk: bool, stackOk: bool, creation: Creation, hostIf: Option<string>,
                     addressOf: string -> Option<Address>, append1: bool, append2: bool, append3: bool,
                     cloneOk: bool, probeOk: bool, moveOk: bool, moveLost: bool, mapsOk: bool, waitOk: bool,
                     pairGone: bool, result: int)

  /** The network that iptables takes a subnet text for. */
  function ReadNetwork(subnet: string, e: Env): Option<Network> {
    match e.addressOf(subnet)
    case None => None
    case Some(a) => Some(NetworkOf(a))
  }

  /** The network of a configuration. */
  function NetOf(cfg: NetConfig, e: Env): Option<Network> {
    ReadNetwork(SubnetAtSetup(cfg.containerIp), e)
  }

  class Host {
    var natRules: seq<Rule>
    var forwardRules: seq<Rule>
    var links: Links

    /** setup_nat: fails, without a trace, only when the first rule cannot be added. A rule counts as there
        when one for the same network is. */
    method SetupNat(subnet: string, hostIf: string, e: Env) returns (ok: bool)
      modifies this`natRules, this`forwardRules
      ensures ok ==> ReadNetwork(subnet, e).Some?
      ensures ReadNetwork(subnet, e).Some? ==>
        ok == (Masquerade(ReadNetwork(subnet, e).value, hostIf) in old(natRules) || e.append1)
      ensures !ok ==> natRules == old(natRules) && forwardRules == old(forwardRules)
      ensures ok ==>
        var net := ReadNetwork(subnet, e).value;
        && Masquerade(net, hostIf) in natRules
        && (e.append2 ==> AcceptFrom(net) in forwardRules) && (e.append3 ==> AcceptBack(net) in forwardRules)
      ensures ok ==>
        var net := ReadNetwork(subnet, e).value;
        && natRules == Ensured(old(natRules), Masquerade(net, hostIf), e.append1)
        && forwardRules == Ensured(Ensured(old(forwardRules), AcceptFrom(net), e.append2), AcceptBack(net), e.append3)
    {
      var net := ReadNetwork(subnet, e);
      if net.None? {
        return false;                  // neither the check nor the addition can read it
      }
      var r := Masquerade(net.value, hostIf);
      if r !in natRules {
        if !e.append1 {
          return false;
        }
        natRules := natRules + [r];
      }
      r := AcceptFrom(net.value);
      if r !in forwardRules && e.append2 {
        forwardRules := forwardRules + [r];
      }
      r := AcceptBack(net.value);
      if r !in forwardRules && e.append3 {
        forwardRules := forwardRules + [r];
      }
      return true;
    }

    /** cleanup_nat: of each of the three rules the first occurrence goes, whoever added it; all other rules
        stay, in order. A subnet that cannot be read deletes nothing. */
    method CleanupNat(subnet: string, hostIf: string, e: Env)
      modifies this`natRules, this`forwardRules
      ensures ReadNetwork(subnet, e).None? ==> natRules == old(natRules) && forwardRules == old(forwardRules)
      ensures ReadNetwork(subnet, e).Some? ==>
        var net := ReadNetwork(subnet, e).value;
        && FirstGone(old(natRules), natRules, Masquerade(net, hostIf))
        && exists mid ::
             FirstGone(old(forwardRules), mid, AcceptFrom(net)) && FirstGone(mid, forwardRules, AcceptBack(net))
    {
      var net := ReadNetwork(subnet, e);
      if net.None? {
        return;
      }
      FirstGoneIs(natRules, Dropped(natRules, Masquerade(net.value, hostIf)), Masquerade(net.value, hostIf));
      natRules := Dropped(natRules, Masquerade(net.value, hostIf));
      ghost var mid := Dropped(forwardRules, AcceptFrom(net.value));
      FirstGoneIs(forwardRules, mid, AcceptFrom(net.value));
      FirstGoneIs(mid, Dropped(mid, AcceptBack(net.value)), AcceptBack(net.value));
      forwardRules := Dropped(forwardRules, AcceptFrom(net.value));
      forwardRules := Dropped(forwardRules, AcceptBack(net.value));
    }

    /** The host side of the network: stale links deleted, the pair created, NAT set up if asked for. */
    method ConfigureNetwork(cfg: NetConfig, e: Env) returns (vethCreated: bool, natApplied: bool, hostIf: string)
      requires e.hostIf.Some? ==> e.hostIf.value != ""
      modifies this
      ensures vethCreated == e.creation.Created?
      ensures links == AfterCreation(Deleted(Deleted(old(links), cfg.tmp), cfg.peer), cfg.tmp, cfg.peer, e.creation)
      ensures natApplied == (vethCreated && NatApplied(old(natRules), cfg, e))
      ensures natApplied ==> hostIf == HostIfOf(e) != ""
      ensures !natApplied ==> natRules == old(natRules) && forwardRules == old(forwardRules)
      ensures natApplied ==>
        var net := NetOf(cfg, e).value;
        && natRules == Ensured(old(natRules), Masquerade(net, hostIf), e.append1)
        && forwardRules == Ensured(Ensured(old(forwardRules), AcceptFrom(net), e.append2), AcceptBack(net), e.append3)
    {
      hide Deleted, Paired, Ensured, SubnetAtSetup;
      vethCreated, natApplied, hostIf := false, false, "";
      links := Deleted(links, cfg.tmp);
      links := Deleted(links, cfg.peer);
      links := AfterCreation(links, cfg.tmp, cfg.peer, e.creation);
      if !e.creation.Created? {
        return;
      }
      vethCreated := true;
      if cfg.enableNat && cfg.hostIp.Some? {
        hostIf := HostIfOf(e);
        natApplied := SetupNat(SubnetAtSetup(cfg.containerIp), hostIf, e);
      }
    }

    /** The clean-up that every path ends in. */
    method Cleanup(net: Option<NetConfig>, vethCreated: bool, natApplied: bool, hostIf: string, e: Env)
      requires vethCreated || natApplied ==> net.Some?
      requires natApplied ==> hostIf != "" && NetOf(net.value, e).Some?
      modifies this
      ensures !natApplied ==> natRules == old(natRules) && forwardRules == old(forwardRules)
      ensures natApplied ==>
        var n := NetOf(net.value, e).value;
        && natRules == Dropped(old(natRules), Masquerade(n, hostIf))
        && forwardRules == Dropped(Dropped(old(forwardRules), AcceptFrom(n)), AcceptBack(n))
      ensures !vethCreated ==> links == old(links)
      ensures vethCreated ==>
        links == Deleted(if e.pairGone then old(links) - {net.value.tmp, net.value.peer} else old(links),
                         net.value.peer)
    {
      hide Deleted, Dropped, SubnetAtSetup, SubnetAtCleanup, FirstGone;
      if natApplied && hostIf != "" {
        SubnetsAgree(net.value.containerIp);
        CleanupNat(SubnetAtCleanup(net.value.containerIp), hostIf, e);
        ghost var n := NetOf(net.value, e).value;
        FirstGoneIs(old(natRules), natRules, Masquerade(n, hostIf));
        ghost var mid :| FirstGone(old(forwardRules), mid, AcceptFrom(n)) &&
          FirstGone(mid, forwardRules, AcceptBack(n));
        FirstGoneIs(old(forwardRules), mid, AcceptFrom(n));
        FirstGoneIs(mid, forwardRules, AcceptBack(n));
      }
      if vethCreated {
        if e.pairGone {
          links := links - {net.value.tmp, net.value.peer};
        }
        links := Deleted(links, net.value.peer);
      }
    }

    /** Main from the interface names on, with every jump to the clean-up. */
    method Run(net: Option<NetConfig>, e: Env) returns (exitcode: int)
      requires net.Some? ==> KernelOk(net.value, e)
      requires e.hostIf.Some? ==> e.hostIf.value != ""
      modifies this
      ensures natRules == FinalNat(old(natRules), net, e)
      ensures forwardRules == FinalForward(old(natRules), old(forwardRules), net, e)
      ensures links == FinalLinks(old(links), net, e)
      ensures exitcode == if Succeeds(net, e) then e.result else 1
      ensures !e.socketOk || !e.stackOk || !e.cloneOk || !e.probeOk || !e.mapsOk || !e.waitOk ==> exitcode == 1
      ensures net.Some? && (!e.namesOk || !e.creation.Created? || !e.moveOk) ==> exitcode == 1
    {
      hide Deleted, Paired, Moved, Dropped, Ensured, SubnetAtSetup;
      var vethCreated, natApplied, hostIf := false, false, "";
      exitcode := 0;
      label cleanup:
      {
        if (net.Some? && !e.namesOk) || !e.socketOk || !e.stackOk {
          exitcode := 1;
          break cleanup;
        }
        if net.Some? {
          vethCreated, natApplied, hostIf := ConfigureNetwork(net.value, e);
          if !vethCreated {
            exitcode := 1;
            break cleanup;
          }
        }
        if !e.cloneOk || !e.probeOk {
          exitcode := 1;
          break cleanup;
        }
        if vethCreated {
          if e.moveOk || e.moveLost {
            links := Moved(links, net.value.tmp, net.value.peer);
          }
          if !e.moveOk {
            exitcode := 1;
            break cleanup;
          }
        }
        if !e.mapsOk || !e.waitOk {
          exitcode := 1;
          break cleanup;
        }
        exitcode := e.result;
      }
      if natApplied {
        RulesUndone(old(natRules), old(forwardRules), NetOf(net.value, e).value, hostIf, e);
      }
      if vethCreated {
        LinksUndone(old(links), net.value, e);
      }
      Cleanup(net, vethCreated, natApplied, hostIf, e);
    }
  }

  /** The clean-up takes back what the configuration did, from wherever it is reached. */
  lemma RulesUndone(natRules: seq<Rule>, forwardRules: seq<Rule>, net: Network, hostIf: string, e: Env)
    ensures var m, f, b := Masquerade(net, hostIf), AcceptFrom(net), AcceptBack(net);
            && Dropped(Ensured(natRules, m, e.append1), m) == Dropped(natRules, m)
            && Dropped(Dropped(Ensured(Ensured(forwardRules, f, e.append2), b, e.append3), f), b)
               == Dropped(Dropped(forwardRules, f), b)
  {
    hide Dropped, Ensured;
    DropEnsured(natRules, Masquerade(net, hostIf), e.append1);
    DropBoth(forwardRules, AcceptFrom(net), e.append2, AcceptBack(net), e.append3);
  }

  lemma LinksUndone(links: Links, cfg: NetConfig, e: Env)
    requires cfg.tmp != cfg.peer
    ensures var cleared := Deleted(Deleted(links, cfg.tmp), cfg.peer);
            var pair := Paired(cleared, cfg.tmp, cfg.peer);
            var moved := Moved(pair, cfg.tmp, cfg.peer);
            && Deleted(if e.pairGone then pair - {cfg.tmp, cfg.peer} else pair, cfg.peer) == cleared
            && Deleted(if e.pairGone then moved - {cfg.tmp, cfg.peer} else moved, cfg.peer) == cleared
  {
    hide Deleted, Paired, Moved;
    DeletedGone(links, cfg.tmp, cfg.peer);
    DeletedGone(Deleted(links, cfg.tmp), cfg.peer, cfg.tmp);
    var cleared := Deleted(Deleted(links, cfg.tmp), cfg.peer);
    PairCleared(cleared, cfg.tmp, cfg.peer, false, e.pairGone);
    PairCleared(cleared, cfg.tmp, cfg.peer, true, e.pairGone);
  }

  lemma DropBoth(rules: seq<Rule>, r: Rule, ok1: bool, s: Rule, ok2: bool)
    requires r != s
    ensures Dropped(Dropped(Ensured(Ensured(rules, r, ok1), s, ok2), r), s) == Dropped(Dropped(rules, r), s)
  {
    DropPastOther(Ensured(rules, r, ok1), s, ok2, r);
    DropEnsured(rules, r, ok1);
    DropEnsured(Dropped(rules, r), s, ok2);
  }

  // ---------- When the host ends as it began ----------

  /** Two links cannot have the same name. */
  predicate KernelOk(cfg: NetConfig, e: Env) {
    cfg.tmp == cfg.peer ==> e.creation.Refused? || e.creation.Incomplete?
  }

  /** Main gets as far as configuring the host network. */
  predicate Reaches(net: Option<NetConfig>, e: Env) {
    net.Some? && e.namesOk && e.socketOk && e.stackOk && e.creation.Created?
  }

  predicate Succeeds(net: Option<NetConfig>, e: Env) {
    && (net.Some? ==> e.namesOk && e.creation.Created? && e.moveOk) && e.socketOk && e.stackOk
    && e.cloneOk && e.probeOk && e.mapsOk && e.waitOk
  }

  function HostIfOf(e: Env): (h: string)
    ensures e.hostIf == None ==> h == "eth0"
    ensures e.hostIf.Some? ==> h == e.hostIf.value
  {
    if e.hostIf.Some? then e.hostIf.value else "eth0"
  }

  predicate NatApplied(natRules: seq<Rule>, cfg: NetConfig, e: Env) {
    && cfg.enableNat && cfg.hostIp.Some? && NetOf(cfg, e).Some?
    && (Masquerade(NetOf(cfg, e).value, HostIfOf(e)) in natRules || e.append1)
  }

  /** The network whose rules a run adds and deletes, if it does. */
  function Touched(natRules: seq<Rule>, net: Option<NetConfig>, e: Env): Option<Network> {
    if Reaches(net, e) && NatApplied(natRules, net.value, e) then NetOf(net.value, e) else None
  }

  /** The rule lists left: each of the three rules dropped once, if NAT was applied. */
  function FinalNat(natRules: seq<Rule>, net: Option<NetConfig>, e: Env): seq<Rule> {
    match Touched(natRules, net, e)
    case None => natRules
    case Some(n) => Dropped(natRules, Masquerade(n, HostIfOf(e)))
  }

  function FinalForward(natRules: seq<Rule>, forwardRules: seq<Rule>, net: Option<NetConfig>, e: Env): seq<Rule> {
    match Touched(natRules, net, e)
    case None => forwardRules
    case Some(n) => Dropped(Dropped(forwardRules, AcceptFrom(n)), AcceptBack(n))
  }

  /** The links left: those deleted before the creation are gone, and a pair whose acknowledgement was
      lost stays. */
  function FinalLinks(links: Links, net: Option<NetConfig>, e: Env): Links {
    if net.None? || !e.namesOk || !e.socketOk || !e.stackOk then links
    else
      var cleared := Deleted(Deleted(links, net.value.tmp), net.value.peer);
      if e.creation.ReplyLost? then Paired(cleared, net.value.tmp, net.value.peer) else cleared
  }

  /** The rule lists end as they began exactly when NAT was not applied or none of the three rules was
      there before, for any address of the same network. */
  lemma {:induction false} RulesRestoredIff(natRules: seq<Rule>, forwardRules: seq<Rule>, net: Option<NetConfig>,
                                            e: Env)
    ensures FinalNat(natRules, net, e) == natRules && FinalForward(natRules, forwardRules, net, e) == forwardRules <==>
            match Touched(natRules, net, e)
            case None => true
            case Some(n) =>
              && Masquerade(n, HostIfOf(e)) !in natRules
              && AcceptFrom(n) !in forwardRules && AcceptBack(n) !in forwardRules
  {
    match Touched(natRules, net, e)
    case None =>
    case Some(n) => MemberOfDropped(forwardRules, AcceptFrom(n), AcceptBack(n));
  }

  /** A masquerade rule for 10.0.0.0/24 that was there before is gone after a run for 10.0.0.2/24. */
  lemma OtherContainerLosesRule(cfg: NetConfig, e: Env)
    requires cfg.containerIp == "10.0.0.2/24" && e.addressOf("10.0.0.2/24") == Some(Address(0x0A00_0002, 24))
    requires Reaches(Some(cfg), e) && cfg.enableNat && cfg.hostIp.Some? && e.hostIf == Some("eth0")
    ensures var before := [Masquerade(NetworkOf(Address(0x0A00_0000, 24)), "eth0")];
            FinalNat(before, Some(cfg), e) == []
  {
    hide SubnetAtSetup, NetworkOf, Dropped;
    ExampleSubnet();
    ExampleNetworks();
    var r := Masquerade(NetworkOf(Address(0x0A00_0000, 24)), "eth0");
    DroppedHead(r, [], r);
    assert [r] + [] == [r];
  }

  lemma ExampleSubnet()
    ensures SubnetAtSetup("10.0.0.2/24") == "10.0.0.2/24"
  {
    var ip := "10.0.0.2/24";
    assert ip[0..][8] == '/';
    SubnetsAgree(ip);
  }

  /** 10.0.0.0/24 and 10.0.0.2/24 are one network, 10.0.1.2/24 and 10.0.0.2/25 are others. */
  lemma ExampleNetworks()
    ensures NetworkOf(Address(0x0A00_0000, 24)) == NetworkOf(Address(0x0A00_0002, 24))
    ensures NetworkOf(Address(0x0A00_0102, 24)) != NetworkOf(Address(0x0A00_0002, 24))
    ensures NetworkOf(Address(0x0A00_0002, 25)) != NetworkOf(Address(0x0A00_0002, 24))
  {
    assert Pow2(8) == 256;
  }

  /** Once main gets to the network part, the links end as they began exactly when no link of either
      name was there before, or, if the acknowledgement was lost, when the very pair was there. */
  lemma LinksRestoredIff(links: Links, cfg: NetConfig, e: Env)
    requires e.namesOk && e.socketOk && e.stackOk && KernelOk(cfg, e)
    ensures FinalLinks(links, Some(cfg), e) == links <==>
            if e.creation.ReplyLost?
            then && cfg.tmp in links && links[cfg.tmp] == Some(cfg.peer)
                 && cfg.peer in links && links[cfg.peer] == Some(cfg.tmp)
            else cfg.tmp !in links && cfg.peer !in links
  {
  }

  /** On a host without links, a pair created without acknowledgement stays. */
  lemma LostAcknowledgementExample(cfg: NetConfig, e: Env)
    requires e.namesOk && e.socketOk && e.stackOk && e.creation.ReplyLost?
    ensures cfg.peer in FinalLinks(map[], Some(cfg), e)
  {
  }
}
