/** What the evaluators guarantee across nodes: when an authority exists, that it does not depend
    on who asks, that overlapping views cannot disagree, and that it is never a stale copy. */
module Agreement {
  import opened Text
  import opened Settings
  import opened Topology
  import opened WalPosition
  import opened Identity

  // ----- answers as a set -----

  /** Answers from distinct addresses. */
  ghost predicate DistinctAddresses(all: seq<PeerResult>) {
    && (forall i | 0 <= i < |all| :: IsIPv4(all[i].ip))
    && (forall i, j | 0 <= i < j < |all| :: all[i].ip != all[j].ip)
  }

  ghost predicate DistinctNames(all: seq<PeerResult>)
    requires Answered(all)
  {
    forall i, j | 0 <= i < j < |all| :: all[i].answer.value.nodeName != all[j].answer.value.nodeName
  }

  lemma AddressesNameNodes(cfg: Config, all: seq<PeerResult>)
    requires DistinctAddresses(all) && AllConsistent(cfg, all)
    ensures Answered(all) && DistinctNames(all)
  {
    hide MembershipNames, NodeName;
    forall i, j | 0 <= i < j < |all|
      ensures all[i].answer.value.nodeName != all[j].answer.value.nodeName
    {
      assert Consistent(cfg, all[i]) && Consistent(cfg, all[j]);
      NodeNameOrder(all[i].ip, all[j].ip);
    }
  }

  /** Answer r may open the epoch, stated without positions in a list. */
  ghost predicate Wins(all: seq<PeerResult>, r: PeerResult)
    requires Answered(all)
  {
    && r in all && HoldsData(r)
    && forall s | s in all && s != r && HoldsData(s) ::
         EtcdLost(all) && Outranks(r.answer.value, s.answer.value, false)
  }

  lemma ChosenIsWins(all: seq<PeerResult>, i: nat)
    requires Answered(all) && DistinctNames(all) && i < |all|
    ensures Chosen(all, i) <==> Wins(all, all[i])
  {
    hide PositionOf, EtcdLost;
    if Chosen(all, i) {
      forall s | s in all && s != all[i] && HoldsData(s)
        ensures EtcdLost(all) && Outranks(all[i].answer.value, s.answer.value, false)
      {
        var j :| 0 <= j < |all| && all[j] == s;
        assert Outranks(all[i].answer.value, all[j].answer.value, i < j);
      }
    }
    if Wins(all, all[i]) {
      forall j | 0 <= j < |all| && j != i && HoldsData(all[j])
        ensures EtcdLost(all) && Outranks(all[i].answer.value, all[j].answer.value, i < j)
      {
        assert all[j] in all && all[j] != all[i];
        assert Outranks(all[i].answer.value, all[j].answer.value, false);
      }
    }
  }

  /** With distinct addresses, the authority is the answer that wins. */
  lemma AuthorityIsWinner(cfg: Config, local: NodeIdentity, results: seq<PeerResult>, a: Authority)
    requires DistinctAddresses(Everyone(cfg, local, results))
    ensures RecoveryAuthority(cfg, local, results) == Some(a) <==>
            (&& |results| == ExpectedPeers(cfg)
             && AllConsistent(cfg, Everyone(cfg, local, results))
             && Answered(Everyone(cfg, local, results))
             && exists r :: Wins(Everyone(cfg, local, results), r) && a == AuthorityOf(r))
  {
    hide Consistent, Outranks, EtcdLost, ExpectedPeers;
    var all := Everyone(cfg, local, results);
    if |results| == ExpectedPeers(cfg) && AllConsistent(cfg, all) {
      AddressesNameNodes(cfg, all);
      if RecoveryAuthority(cfg, local, results) == Some(a) {
        var i: nat :| Chosen(all, i) && a == AuthorityOf(all[i]);
        ChosenIsWins(all, i);
        assert Wins(all, all[i]);
      }
      if r :| Wins(all, r) && a == AuthorityOf(r) {
        var i :| 0 <= i < |all| && all[i] == r;
        ChosenIsWins(all, i);
        RecoveryAuthorityIs(cfg, local, results, i);
      }
    }
  }

  ghost predicate SameAnswers(a: seq<PeerResult>, b: seq<PeerResult>) {
    forall r :: r in a <==> r in b
  }

  lemma SameWinner(a: seq<PeerResult>, b: seq<PeerResult>, r: PeerResult)
    requires Answered(a) && Answered(b) && SameAnswers(a, b)
    ensures Wins(a, r) <==> Wins(b, r)
  {
    hide Outranks;
    EtcdLostIn(a);
    EtcdLostIn(b);
  }

  lemma EtcdLostIn(all: seq<PeerResult>)
    requires Answered(all)
    ensures EtcdLost(all) <==> forall r | r in all :: r.answer.Some? && r.answer.value.etcdDataEmpty
  {
    assert forall i | 0 <= i < |all| :: all[i] in all;
  }

  ghost predicate SameCluster(a: Config, b: Config) {
    a.appName == b.appName && a.patroniScope == b.patroniScope
  }

  lemma SameConsistency(cfgA: Config, cfgB: Config, a: seq<PeerResult>, b: seq<PeerResult>)
    requires SameCluster(cfgA, cfgB)
    requires MembershipNames(cfgA.etcdInitialCluster) == MembershipNames(cfgB.etcdInitialCluster)
    requires SameAnswers(a, b) && AllConsistent(cfgA, a)
    ensures AllConsistent(cfgB, b)
  {
    hide MembershipNames, NodeName;
    forall i | 0 <= i < |b| ensures Consistent(cfgB, b[i]) {
      assert b[i] in b;
      var j :| 0 <= j < |a| && a[j] == b[i];
      assert Consistent(cfgA, a[j]);
    }
  }

  /** The authority depends neither on which member asks nor on the order of the answers. */
  lemma OrderIndependence(cfgA: Config, localA: NodeIdentity, resultsA: seq<PeerResult>,
                          cfgB: Config, localB: NodeIdentity, resultsB: seq<PeerResult>)
    requires SameCluster(cfgA, cfgB)
    requires MembershipNames(cfgA.etcdInitialCluster) == MembershipNames(cfgB.etcdInitialCluster)
    requires |resultsA| == ExpectedPeers(cfgA) && |resultsB| == ExpectedPeers(cfgB)
    requires DistinctAddresses(Everyone(cfgA, localA, resultsA)) && DistinctAddresses(Everyone(cfgB, localB, resultsB))
    requires SameAnswers(Everyone(cfgA, localA, resultsA), Everyone(cfgB, localB, resultsB))
    ensures RecoveryAuthority(cfgA, localA, resultsA) == RecoveryAuthority(cfgB, localB, resultsB)
  {
    hide RecoveryAuthority, ExpectedPeers, Everyone, MembershipNames;
    var a, b := RecoveryAuthority(cfgA, localA, resultsA), RecoveryAuthority(cfgB, localB, resultsB);
    if a.Some? {
      SameAuthority(cfgA, localA, resultsA, cfgB, localB, resultsB, a.value);
    } else if b.Some? {
      SameAuthority(cfgB, localB, resultsB, cfgA, localA, resultsA, b.value);
    }
  }

  lemma SameAuthority(cfgA: Config, localA: NodeIdentity, resultsA: seq<PeerResult>,
                      cfgB: Config, localB: NodeIdentity, resultsB: seq<PeerResult>, a: Authority)
    requires SameCluster(cfgA, cfgB)
    requires MembershipNames(cfgA.etcdInitialCluster) == MembershipNames(cfgB.etcdInitialCluster)
    requires |resultsB| == ExpectedPeers(cfgB)
    requires DistinctAddresses(Everyone(cfgA, localA, resultsA)) && DistinctAddresses(Everyone(cfgB, localB, resultsB))
    requires SameAnswers(Everyone(cfgA, localA, resultsA), Everyone(cfgB, localB, resultsB))
    requires RecoveryAuthority(cfgA, localA, resultsA) == Some(a)
    ensures RecoveryAuthority(cfgB, localB, resultsB) == Some(a)
  {
    hide Outranks, RecoveryAuthority, ExpectedPeers;
    var allA, allB := Everyone(cfgA, localA, resultsA), Everyone(cfgB, localB, resultsB);
    AuthorityIsWinner(cfgA, localA, resultsA, a);
    SameConsistency(cfgA, cfgB, allA, allB);
    AddressesNameNodes(cfgB, allB);
    var r :| Wins(allA, r) && a == AuthorityOf(r);
    SameWinner(allA, allB, r);
    AuthorityIsWinner(cfgB, localB, resultsB, a);
  }

  // ----- when there is an authority -----

  predicate SoleCopyAt(all: seq<PeerResult>, i: nat) {
    i < |all| && HoldsData(all[i]) && forall j | 0 <= j < |all| && j != i :: !HoldsData(all[j])
  }

  ghost predicate SoleCopy(all: seq<PeerResult>) {
    exists i: nat :: SoleCopyAt(all, i)
  }

  predicate OneSystem(all: seq<PeerResult>)
    requires Answered(all)
  {
    forall i, j | 0 <= i < |all| && 0 <= j < |all| && HoldsData(all[i]) && HoldsData(all[j]) ::
      all[i].answer.value.systemId == all[j].answer.value.systemId
  }

  predicate PrimaryAt(all: seq<PeerResult>, i: nat)
    requires Answered(all)
  {
    && i < |all| && HoldsData(all[i]) && all[i].answer.value.durableRole == "primary"
    && forall j | 0 <= j < |all| && j != i && HoldsData(all[j]) :: all[j].answer.value.durableRole == "replica"
  }

  ghost predicate OnePrimary(all: seq<PeerResult>)
    requires Answered(all)
  {
    exists i: nat :: PrimaryAt(all, i)
  }

  predicate ReplicasOnOneTimeline(all: seq<PeerResult>)
    requires Answered(all)
  {
    && (exists i | 0 <= i < |all| :: HoldsData(all[i]))
    && (forall i | 0 <= i < |all| && HoldsData(all[i]) :: ReadableReplica(all[i].answer.value))
    && (forall i, j | 0 <= i < |all| && 0 <= j < |all| && HoldsData(all[i]) && HoldsData(all[j]) ::
          all[i].answer.value.timeline == all[j].answer.value.timeline)
  }

  /** Among comparable replicas of distinct names, one is further ahead than all the others. */
  lemma {:induction false} MostAdvanced(all: seq<PeerResult>, n: nat) returns (best: nat)
    requires Answered(all) && DistinctNames(all) && n <= |all|
    requires OneSystem(all) && ReplicasOnOneTimeline(all)
    requires exists i | 0 <= i < n :: HoldsData(all[i])
    ensures best < n && HoldsData(all[best])
    ensures forall j | 0 <= j < n && j != best && HoldsData(all[j]) ::
              FurtherThan(all[best].answer.value, all[j].answer.value)
    decreases n
  {
    hide PositionOf;
    if exists i | 0 <= i < n - 1 :: HoldsData(all[i]) {
      best := MostAdvanced(all, n - 1);
      var lead, last := all[best].answer.value, all[n - 1].answer.value;
      if HoldsData(all[n - 1]) {
        LessTotal(lead.nodeName, last.nodeName);
        if FurtherThan(last, lead) {
          forall j | 0 <= j < n - 1 && HoldsData(all[j]) && j != best
            ensures FurtherThan(last, all[j].answer.value)
          {
            if Less(last.nodeName, lead.nodeName) && Less(lead.nodeName, all[j].answer.value.nodeName) {
              LessTransitive(last.nodeName, lead.nodeName, all[j].answer.value.nodeName);
            }
          }
          best := n - 1;
        }
      }
    } else {
      best := n - 1;
    }
  }

  /** An authority exists exactly when there is one data copy, or, after total etcd loss, copies
      of one system that are either one primary with replicas or replicas on one timeline. */
  lemma AuthorityExists(all: seq<PeerResult>)
    requires Answered(all) && DistinctNames(all)
    ensures (exists i: nat :: Chosen(all, i)) <==>
            SoleCopy(all) ||
            (EtcdLost(all) && OneSystem(all) && (OnePrimary(all) || ReplicasOnOneTimeline(all)))
  {
    hide OneSystem, OnePrimary, ReplicasOnOneTimeline, SoleCopy, Chosen, EtcdLost;
    if i: nat :| Chosen(all, i) {
      ChosenImpliesConditions(all, i);
    }
    if SoleCopy(all) {
      SoleIsChosen(all);
    } else if EtcdLost(all) && OneSystem(all) && OnePrimary(all) {
      PrimaryIsChosen(all);
    } else if EtcdLost(all) && OneSystem(all) && ReplicasOnOneTimeline(all) {
      ReplicaIsChosen(all);
    }
  }

  /** The evaluator finds an authority exactly when every expected peer gave a consistent answer and
      the copies among them are such. */
  lemma AuthorityIsPossible(cfg: Config, local: NodeIdentity, results: seq<PeerResult>)
    requires DistinctAddresses(Everyone(cfg, local, results))
    ensures var all := Everyone(cfg, local, results);
            RecoveryAuthority(cfg, local, results).Some? <==>
              && |results| == ExpectedPeers(cfg) && AllConsistent(cfg, all) && Answered(all)
              && (SoleCopy(all) ||
                  (EtcdLost(all) && OneSystem(all) && (OnePrimary(all) || ReplicasOnOneTimeline(all))))
  {
    hide Consistent, Chosen, SoleCopy, EtcdLost, OneSystem, OnePrimary, ReplicasOnOneTimeline, ExpectedPeers;
    var all := Everyone(cfg, local, results);
    if |results| == ExpectedPeers(cfg) && AllConsistent(cfg, all) {
      AddressesNameNodes(cfg, all);
      AuthorityExists(all);
    }
  }

  lemma SoleIsChosen(all: seq<PeerResult>)
    requires Answered(all) && SoleCopy(all)
    ensures exists i: nat :: Chosen(all, i)
  {
    hide Outranks;
    var i: nat :| SoleCopyAt(all, i);
    assert Chosen(all, i);
  }

  lemma PrimaryIsChosen(all: seq<PeerResult>)
    requires Answered(all) && EtcdLost(all) && OneSystem(all) && OnePrimary(all)
    ensures exists i: nat :: Chosen(all, i)
  {
    hide FurtherThan, Level;
    var i: nat :| PrimaryAt(all, i);
    assert Chosen(all, i);
  }

  lemma ReplicaIsChosen(all: seq<PeerResult>)
    requires Answered(all) && DistinctNames(all) && EtcdLost(all) && OneSystem(all) && ReplicasOnOneTimeline(all)
    ensures exists i: nat :: Chosen(all, i)
  {
    hide PositionOf;
    var i := MostAdvanced(all, |all|);
    assert Chosen(all, i);
  }

  lemma ChosenImpliesConditions(all: seq<PeerResult>, i: nat)
    requires Answered(all) && Chosen(all, i)
    ensures SoleCopy(all) ||
            (EtcdLost(all) && OneSystem(all) && (OnePrimary(all) || ReplicasOnOneTimeline(all)))
  {
    hide PositionOf;
    var a := all[i].answer.value;
    assert forall k | 0 <= k < |all| && k != i && HoldsData(all[k]) ::
        a.systemId == all[k].answer.value.systemId && all[k].answer.value.durableRole == "replica";
    if k :| 0 <= k < |all| && k != i && HoldsData(all[k]) {
      assert Outranks(a, all[k].answer.value, i < k);
      if a.durableRole == "primary" {
        assert PrimaryAt(all, i);
      } else {
        assert forall k | 0 <= k < |all| && k != i && HoldsData(all[k]) :: Comparable(a, all[k].answer.value);
      }
    } else {
      assert SoleCopyAt(all, i);
    }
  }

  // ----- one snapshot, several evaluators -----

  function Answer(net: map<string, NodeIdentity>, ip: string): PeerResult {
    PeerResult(ip, if ip in net then Some(net[ip]) else None)
  }

  function Answers(net: map<string, NodeIdentity>, ips: seq<string>): (r: seq<PeerResult>)
    ensures |r| == |ips| && forall i | 0 <= i < |r| :: r[i] == Answer(net, ips[i])
  {
    if ips == [] then [] else [Answer(net, ips[0])] + Answers(net, ips[1..])
  }

  /** What a node concludes when every peer is probed in one snapshot. */
  ghost function Asked(cfg: Config, net: map<string, NodeIdentity>): Option<Authority>
    requires cfg.myIP in net
  {
    RecoveryAuthority(cfg, net[cfg.myIP], Answers(net, OtherIPs(cfg.etcdInitialCluster, cfg.myName)))
  }

  lemma {:induction false} WithoutIncreasing(ips: seq<string>, ip: string)
    requires Increasing(ips)
    ensures Increasing(Without(ips, ip))
  {
    if ips != [] {
      var rest, last := ips[..|ips| - 1], ips[|ips| - 1];
      WithoutIncreasing(rest, ip);
      assert ips == rest + [last];
      forall i | 0 <= i < |Without(rest, ip)| ensures Less(Without(rest, ip)[i], last) {
        assert Without(rest, ip)[i] in rest;
        var k :| 0 <= k < |rest| && rest[k] == Without(rest, ip)[i];
        assert Less(ips[k], ips[|ips| - 1]);
      }
    }
  }

  lemma SelfAndOthers(ips: seq<string>, me: string, all: seq<PeerResult>)
    requires AddressList(ips) && me in ips
    requires |all| == |Without(ips, me)| + 1 && all[0].ip == me
    requires forall i | 1 <= i < |all| :: all[i].ip == Without(ips, me)[i - 1]
    ensures DistinctAddresses(all)
    ensures forall r | r in all :: r.ip in ips
    ensures forall ip | ip in ips :: exists r | r in all :: r.ip == ip
  {
    var others := Without(ips, me);
    WithoutIncreasing(ips, me);
    hide Without;
    forall i | 0 <= i < |all| ensures IsIPv4(all[i].ip) && all[i].ip in ips {
      if i > 0 { assert others[i - 1] in others; }
    }
    forall i, j | 0 <= i < j < |all| ensures all[i].ip != all[j].ip {
      assert others[j - 1] in others;
      if i > 0 { LessIrreflexive(others[i - 1]); }
    }
    forall ip | ip in ips ensures exists r | r in all :: r.ip == ip {
      if ip == me {
        assert all[0] in all;
      } else {
        assert ip in others;
        var k :| 0 <= k < |others| && others[k] == ip;
        assert all[k + 1] in all;
      }
    }
  }

  /** A node that is in its own view collects exactly one answer from each member of the view. */
  lemma FormedEveryone(cfg: Config, ips: seq<string>, local: NodeIdentity, results: seq<PeerResult>)
    requires Formed(cfg, ips)
    requires |results| == |Without(ips, cfg.myIP)|
    requires forall i | 0 <= i < |results| :: results[i].ip == Without(ips, cfg.myIP)[i]
    ensures OtherIPs(cfg.etcdInitialCluster, cfg.myName) == Without(ips, cfg.myIP)
    ensures MembershipNames(cfg.etcdInitialCluster) == NodeNames(ips)
    ensures DistinctAddresses(Everyone(cfg, local, results))
    ensures forall r | r in Everyone(cfg, local, results) :: r.ip in ips
    ensures forall ip | ip in ips :: exists r | r in Everyone(cfg, local, results) :: r.ip == ip
  {
    hide OtherIPs, MembershipNames, BootstrapCandidate, NodeNames, InitialCluster, NodeName, Without;
    assert IsIPv4(cfg.myIP);
    TopologyRoundTrip(cfg, ips, cfg.myIP);
    SelfAndOthers(ips, cfg.myIP, Everyone(cfg, local, results));
  }

  lemma AskedEveryone(cfg: Config, ips: seq<string>, net: map<string, NodeIdentity>)
    requires Formed(cfg, ips) && cfg.myIP in net
    ensures var others := OtherIPs(cfg.etcdInitialCluster, cfg.myName);
            var all := Everyone(cfg, net[cfg.myIP], Answers(net, others));
            && others == Without(ips, cfg.myIP)
            && MembershipNames(cfg.etcdInitialCluster) == NodeNames(ips)
            && DistinctAddresses(all)
            && forall r :: r in all <==> r.ip in ips && r == Answer(net, r.ip)
  {
    hide NodeNames, InitialCluster, MembershipNames, OtherIPs;
    var results := Answers(net, Without(ips, cfg.myIP));
    FormedEveryone(cfg, ips, net[cfg.myIP], results);
    var all := Everyone(cfg, net[cfg.myIP], results);
    forall r ensures r in all <==> r.ip in ips && r == Answer(net, r.ip) {
      if r in all {
        var i :| 0 <= i < |all| && all[i] == r;
        assert all[i] == Answer(net, all[i].ip);
      }
      if r.ip in ips && r == Answer(net, r.ip) {
        var s :| s in all && s.ip == r.ip;
        var i :| 0 <= i < |all| && all[i] == s;
        assert all[i] == Answer(net, all[i].ip);
      }
    }
  }

  lemma NodeNamesInjective(a: seq<string>, b: seq<string>)
    requires AddressList(a) && AddressList(b) && NodeNames(a) == NodeNames(b)
    ensures a == b
  {
    assert |a| == |NodeNames(a)| == |b|;
    forall i | 0 <= i < |a| ensures a[i] == b[i] {
      assert a[i] in a && b[i] in b;
      assert NodeNames(a)[i] == NodeName(a[i]) && NodeNames(b)[i] == NodeName(b[i]);
      NodeNameOrder(a[i], b[i]);
    }
  }

  /** Each evaluator only accepts nodes that share its view. */
  lemma AcceptedView(cfg: Config, ips: seq<string>, net: map<string, NodeIdentity>, member: string)
    requires Formed(cfg, ips) && cfg.myIP in net && member in ips && Asked(cfg, net).Some?
    ensures member in net
    ensures net[member].membershipView == NodeNames(ips)
    ensures net[member].appName == cfg.appName && net[member].patroniScope == cfg.patroniScope
  {
    hide MembershipNames, OtherIPs, NodeName, Outranks, EtcdLost, InitialCluster, NodeNames, Without;
    AskedEveryone(cfg, ips, net);
    var all := Everyone(cfg, net[cfg.myIP], Answers(net, Without(ips, cfg.myIP)));
    var s := Answer(net, member);
    assert s in all;
    var i :| 0 <= i < |all| && all[i] == s;
    assert Consistent(cfg, all[i]);
  }

  /** Two nodes that each belong to their own view, share a node of their views, and both find
      an authority in one snapshot, have the same view and the same authority. */
  lemma OverlapForcesAgreement(cfgA: Config, ipsA: seq<string>, cfgB: Config, ipsB: seq<string>,
                               net: map<string, NodeIdentity>, shared: string)
    requires Formed(cfgA, ipsA) && Formed(cfgB, ipsB)
    requires cfgA.myIP in net && cfgB.myIP in net
    requires shared in ipsA && shared in ipsB
    requires Asked(cfgA, net).Some? && Asked(cfgB, net).Some?
    ensures ipsA == ipsB
    ensures Asked(cfgA, net) == Asked(cfgB, net)
  {
    hide MembershipNames, OtherIPs, NodeName, InitialCluster, NodeNames, AllConsistent, Without, Chosen;
    AskedEveryone(cfgA, ipsA, net);
    AskedEveryone(cfgB, ipsB, net);
    AcceptedView(cfgA, ipsA, net, shared);
    AcceptedView(cfgB, ipsB, net, shared);
    NodeNamesInjective(ipsA, ipsB);
    OrderIndependence(cfgA, net[cfgA.myIP], Answers(net, Without(ipsA, cfgA.myIP)),
                      cfgB, net[cfgB.myIP], Answers(net, Without(ipsB, cfgB.myIP)));
  }

  /** So at most one of them names itself. */
  lemma OnlyOneNamesItself(cfgA: Config, ipsA: seq<string>, cfgB: Config, ipsB: seq<string>,
                           net: map<string, NodeIdentity>, shared: string)
    requires Formed(cfgA, ipsA) && Formed(cfgB, ipsB)
    requires cfgA.myIP in net && cfgB.myIP in net
    requires shared in ipsA && shared in ipsB
    requires Asked(cfgA, net).Some? && Asked(cfgA, net).value.ip == cfgA.myIP
    requires Asked(cfgB, net).Some? && Asked(cfgB, net).value.ip == cfgB.myIP
    ensures cfgA.myIP == cfgB.myIP
  {
    OverlapForcesAgreement(cfgA, ipsA, cfgB, ipsB, net, shared);
  }

  // ----- never a stale copy -----

  /** A node's disk and configuration. */
  datatype Host = Host(cfg: Config, pg: PGData, etcd: EtcdDir)

  function Snapshot(hosts: map<string, Host>): (net: map<string, NodeIdentity>)
    ensures net.Keys == hosts.Keys
    ensures forall ip | ip in hosts :: net[ip] == LocalIdentity(hosts[ip].cfg, hosts[ip].pg, hosts[ip].etcd)
  {
    map ip | ip in hosts :: LocalIdentity(hosts[ip].cfg, hosts[ip].pg, hosts[ip].etcd)
  }

  /** The best position a node's own control data names. */
  function DurablePosition(host: Host): Option<Position> {
    if host.pg.isEmpty || host.pg.control.None? then None else BestPosition(host.pg.control.value)
  }

  /** The winner of a snapshot, and what it has over every other copy in it. */
  lemma WinnerOf(cfg: Config, ips: seq<string>, net: map<string, NodeIdentity>)
    requires Formed(cfg, ips) && cfg.myIP in net && Asked(cfg, net).Some?
    ensures var a := Asked(cfg, net).value;
            && a.ip in ips && a.ip in net && a == Authority(a.ip, net[a.ip].nodeName, net[a.ip].systemId)
            && HoldsData(Answer(net, a.ip)) && net[a.ip].nodeName == NodeName(a.ip)
            && (forall ip | ip in ips :: ip in net && net[ip].nodeName == NodeName(ip))
            && forall ip | ip in ips && ip != a.ip && HoldsData(Answer(net, ip)) ::
                 Outranks(net[a.ip], net[ip], false) && forall x | x in ips :: net[x].etcdDataEmpty
  {
    hide MembershipNames, OtherIPs, NodeName, Outranks, InitialCluster, NodeNames, Without, RecoveryAuthority;
    AskedEveryone(cfg, ips, net);
    var all := Everyone(cfg, net[cfg.myIP], Answers(net, Without(ips, cfg.myIP)));
    var a := Asked(cfg, net).value;
    AuthorityIsWinner(cfg, net[cfg.myIP], Answers(net, Without(ips, cfg.myIP)), a);
    var r :| Wins(all, r) && a == AuthorityOf(r);
    EtcdLostIn(all);
    assert r in all && r == Answer(net, r.ip);
    forall ip | ip in ips
      ensures Answer(net, ip) in all && ip in net && net[ip].nodeName == NodeName(ip)
    {
      var s := Answer(net, ip);
      assert s in all;
      var i :| 0 <= i < |all| && all[i] == s;
      assert Consistent(cfg, all[i]);
    }
    forall ip | ip in ips && ip != a.ip && HoldsData(Answer(net, ip))
      ensures Outranks(net[a.ip], net[ip], false)
      ensures forall x | x in ips :: net[x].etcdDataEmpty
    {
      assert EtcdLost(all) && Outranks(r.answer.value, Answer(net, ip).answer.value, false);
      forall x | x in ips ensures net[x].etcdDataEmpty {
        assert Answer(net, x) in all;
      }
    }
  }

  /** When no primary survives, every other copy's own durable position is on the chosen copy's
      timeline and not beyond it, and the chosen name is the least among the most advanced. */
  lemma NoStaleReplica(cfg: Config, ips: seq<string>, hosts: map<string, Host>, copy: string)
    requires Formed(cfg, ips) && cfg.myIP in hosts && Asked(cfg, Snapshot(hosts)).Some?
    requires forall ip | ip in ips && ip in hosts && hosts[ip].pg.hasGlobal ::
               hosts[ip].pg.hasStandbySignal || hosts[ip].pg.hasRecoverySignal
    requires copy in ips && copy in hosts && !hosts[copy].pg.isEmpty
    requires copy != Asked(cfg, Snapshot(hosts)).value.ip
    ensures var chosen := Asked(cfg, Snapshot(hosts)).value.ip;
            && chosen in hosts && DurablePosition(hosts[chosen]).Some? && DurablePosition(hosts[copy]).Some?
            && var best, other := DurablePosition(hosts[chosen]).value, DurablePosition(hosts[copy]).value;
               && best.timeline == other.timeline
               && best.lsn >= other.lsn
               && (best.lsn == other.lsn ==> Less(chosen, copy))
  {
    hide MembershipNames, OtherIPs, NodeName, InitialCluster, NodeNames, Without, PositionOf, BestPosition;
    var net := Snapshot(hosts);
    WinnerOf(cfg, ips, net);
    var chosen := Asked(cfg, net).value.ip;
    assert FurtherThan(net[chosen], net[copy]);
    OwnPosition(hosts[chosen]);
    OwnPosition(hosts[copy]);
    assert chosen in ips;
    NodeNameOrder(chosen, copy);
  }

  lemma OwnPosition(host: Host)
    requires !host.pg.isEmpty
    requires PositionOf(LocalIdentity(host.cfg, host.pg, host.etcd)).Some?
    ensures PositionOf(LocalIdentity(host.cfg, host.pg, host.etcd)) == DurablePosition(host)
    ensures var id := LocalIdentity(host.cfg, host.pg, host.etcd);
            PositionOf(id).value.timeline == id.timeline
  {
    hide ParseLsn, FormatLsn;
    var id := LocalIdentity(host.cfg, host.pg, host.etcd);
    assert id.timeline != 0;
    PositionSurvivesTheWire(host.cfg, host.pg, host.etcd);
  }
}
