/** Repeated confirmation, and the decision to bootstrap a new cluster. */
module Bootstrap {
  import opened Text
  import opened Settings
  import opened Topology
  import opened Identity
  import opened Agreement

  /** One probe round: the node's own identity and the answers of its peers. */
  datatype Round = Round(local: NodeIdentity, results: seq<PeerResult>)

  function Cycles(cfg: Config): nat {
    if cfg.bootstrapPeerConfirmCycles < 1 then 1 else cfg.bootstrapPeerConfirmCycles
  }

  ghost function Verdict(cfg: Config, round: Round): Option<Authority> {
    RecoveryAuthority(cfg, round.local, round.results)
  }

  /** The authority that every required round named, if they all named one and the same. */
  ghost function Confirmed(cfg: Config, rounds: nat -> Round): Option<Authority> {
    if forall k | 0 <= k < Cycles(cfg) :: Verdict(cfg, rounds(k)) == Verdict(cfg, rounds(0))
    then Verdict(cfg, rounds(0))
    else None
  }

  /** At least one round is asked for, and every one of them must name this authority. */
  lemma ConfirmedExactly(cfg: Config, rounds: nat -> Round, a: Authority)
    ensures Confirmed(cfg, rounds) == Some(a) <==>
            forall k: nat | k == 0 || k < cfg.bootstrapPeerConfirmCycles ::
              RecoveryAuthority(cfg, rounds(k).local, rounds(k).results) == Some(a)
  {
    hide RecoveryAuthority;
    if Confirmed(cfg, rounds) == Some(a) {
      assert forall k | 0 <= k < Cycles(cfg) :: Verdict(cfg, rounds(k)) == Some(a);
    }
    if forall k: nat | k == 0 || k < cfg.bootstrapPeerConfirmCycles ::
        RecoveryAuthority(cfg, rounds(k).local, rounds(k).results) == Some(a)
    {
      assert forall k | 0 <= k < Cycles(cfg) :: Verdict(cfg, rounds(k)) == Some(a);
    }
  }

  /** discoverRecoveryAuthority, given the answers of one probe round. */
  method DiscoverRecoveryAuthority(cfg: Config, round: Round) returns (r: Option<Authority>)
    ensures r == Verdict(cfg, round)
  {
    r := EvaluateRecoveryAuthority(cfg, round.local, round.results);
  }

  /** confirmRecoveryAuthorityWithPeers. */
  method ConfirmRecoveryAuthority(cfg: Config, rounds: nat -> Round) returns (r: Option<Authority>)
    ensures r == Confirmed(cfg, rounds)
    ensures r.Some? ==> forall k: nat | k == 0 || k < cfg.bootstrapPeerConfirmCycles ::
              RecoveryAuthority(cfg, rounds(k).local, rounds(k).results) == r
    ensures r.None? ==> exists k: nat | k == 0 || k < cfg.bootstrapPeerConfirmCycles ::
              RecoveryAuthority(cfg, rounds(k).local, rounds(k).results).None? ||
              RecoveryAuthority(cfg, rounds(k).local, rounds(k).results) !=
                RecoveryAuthority(cfg, rounds(0).local, rounds(0).results)
  {
    hide RecoveryAuthority;
    var cycles := cfg.bootstrapPeerConfirmCycles;
    if cycles < 1 {
      cycles := 1;
    }
    var confirmed := None;
    for cycle := 1 to cycles + 1
      invariant cycle == 1 ==> confirmed == None
      invariant cycle > 1 ==> confirmed.Some?
      invariant forall k | 0 <= k < cycle - 1 :: Verdict(cfg, rounds(k)) == confirmed
    {
      var round := rounds(cycle - 1);
      var authority := DiscoverRecoveryAuthority(cfg, round);
      assert authority == Verdict(cfg, rounds(cycle - 1));
      if authority.None? {
        return None;
      }
      if cycle > 1 && authority != confirmed {
        assert Verdict(cfg, rounds(0)) == confirmed;
        return None;
      }
      confirmed := authority;
    }
    ConfirmedExactly(cfg, rounds, confirmed.value);
    return confirmed;
  }

  ghost predicate FreshConfirmed(cfg: Config, rounds: nat -> seq<PeerResult>) {
    ExpectedPeers(cfg) > 0 && forall k | 0 <= k < Cycles(cfg) :: FreshEvidence(cfg, rounds(k))
  }

  /** confirmFreshClusterWithPeers. */
  method ConfirmFreshCluster(cfg: Config, rounds: nat -> seq<PeerResult>) returns (ok: bool)
    ensures ok <==> FreshConfirmed(cfg, rounds)
    // There are peers, and each of at least one round finds all of them fresh.
    ensures ok <==>
            && OtherIPs(cfg.etcdInitialCluster, cfg.myName) != []
            && forall k: nat | k == 0 || k < cfg.bootstrapPeerConfirmCycles :: FreshEvidence(cfg, rounds(k))
  {
    hide FreshEvidence;
    var others := ParseOtherIPs(cfg.etcdInitialCluster, cfg.myName);
    if |others| == 0 {
      return false;
    }
    var cycles := cfg.bootstrapPeerConfirmCycles;
    if cycles < 1 {
      cycles := 1;
    }
    var confirmed := 0;
    while confirmed < cycles
      invariant 0 <= confirmed <= cycles
      invariant forall k | 0 <= k < confirmed :: FreshEvidence(cfg, rounds(k))
    {
      var evidence := EvaluateFreshPeerEvidence(cfg, rounds(confirmed));
      if !evidence {
        return false;
      }
      confirmed := confirmed + 1;
    }
    return true;
  }

  /** The round a node sees when everyone is probed in one snapshot. */
  function SnapshotRound(cfg: Config, net: map<string, NodeIdentity>): Round
    requires cfg.myIP in net
  {
    Round(net[cfg.myIP], Answers(net, OtherIPs(cfg.etcdInitialCluster, cfg.myName)))
  }

  /** Two confirmations that each include a round over one common snapshot, in views that share
      a node, confirm the same authority. */
  lemma ConfirmationsAgree(cfgA: Config, ipsA: seq<string>, roundsA: nat -> Round, i: nat,
                           cfgB: Config, ipsB: seq<string>, roundsB: nat -> Round, j: nat,
                           net: map<string, NodeIdentity>, shared: string)
    requires Formed(cfgA, ipsA) && Formed(cfgB, ipsB)
    requires cfgA.myIP in net && cfgB.myIP in net && shared in ipsA && shared in ipsB
    requires i < Cycles(cfgA) && roundsA(i) == SnapshotRound(cfgA, net)
    requires j < Cycles(cfgB) && roundsB(j) == SnapshotRound(cfgB, net)
    requires Confirmed(cfgA, roundsA).Some? && Confirmed(cfgB, roundsB).Some?
    ensures Confirmed(cfgA, roundsA) == Confirmed(cfgB, roundsB)
  {
    hide RecoveryAuthority;
    assert Verdict(cfgA, roundsA(i)) == Asked(cfgA, net);
    assert Verdict(cfgB, roundsB(j)) == Asked(cfgB, net);
    OverlapForcesAgreement(cfgA, ipsA, cfgB, ipsB, net, shared);
  }

  // ----- the decision -----

  datatype Path = FreshPath | RecoveryPath | OverridePath | Refused

  /** Which evidence decideBootstrap asks for, given the node's own state. */
  function BootstrapPath(cfg: Config, pg: PGData, etcd: EtcdDir): Path {
    var candidate := BootstrapCandidate(cfg.etcdInitialCluster);
    if cfg.allowNewClusterBootstrap then
      if !cfg.allowAnyNodeBootstrap && cfg.myName != candidate then Refused else OverridePath
    else if cfg.autoBootstrapIfFresh && !etcd.Database? && !pg.hasGlobal && etcd.Fresh? && pg.isEmpty then
      if |Split(cfg.etcdInitialCluster, ',')| <= 1 || cfg.myName != candidate then Refused else FreshPath
    else if cfg.deadClusterRecovery && !etcd.Database? && pg.hasGlobal then RecoveryPath
    else Refused
  }

  /** The evidence a run of decideBootstrap gathers, whichever path it takes. */
  datatype Evidence = Evidence(peers: nat -> seq<PeerResult>, recovery: nat -> Round)

  /** The node is strictly empty, is the deterministic candidate of a multi-member view, and
      every peer repeatedly confirmed that it is empty too. */
  ghost predicate FreshInstall(cfg: Config, pg: PGData, etcd: EtcdDir, rounds: nat -> seq<PeerResult>) {
    && cfg.autoBootstrapIfFresh && etcd.Fresh? && pg.isEmpty && !pg.hasGlobal
    && |Split(cfg.etcdInitialCluster, ',')| > 1
    && cfg.myName == BootstrapCandidate(cfg.etcdInitialCluster)
    && FreshConfirmed(cfg, rounds)
  }

  /** The node holds data but no etcd database, and every round named it the authority. */
  ghost predicate Recovers(cfg: Config, pg: PGData, etcd: EtcdDir, rounds: nat -> Round) {
    && cfg.deadClusterRecovery && !etcd.Database? && pg.hasGlobal
    && Confirmed(cfg, rounds).Some? && Confirmed(cfg, rounds).value.ip == cfg.myIP
  }

  /** A new cluster may be bootstrapped: by proof of a first deployment or of recovery authority,
      or by explicit override. */
  ghost predicate MayBootstrap(cfg: Config, pg: PGData, etcd: EtcdDir, evidence: Evidence) {
    if cfg.allowNewClusterBootstrap
    then cfg.allowAnyNodeBootstrap || cfg.myName == BootstrapCandidate(cfg.etcdInitialCluster)
    else FreshInstall(cfg, pg, etcd, evidence.peers) || Recovers(cfg, pg, etcd, evidence.recovery)
  }

  /** The decision, spelled out. With the override: the candidate, or any node. Without it an empty node
      must be the candidate of several with fresh peers, and a node with data the authority of every
      round; neither may have an etcd database. */
  lemma MayBootstrapExactly(cfg: Config, pg: PGData, etcd: EtcdDir, evidence: Evidence)
    requires Plausible(pg)
    ensures cfg.allowNewClusterBootstrap ==>
              (MayBootstrap(cfg, pg, etcd, evidence) <==>
                cfg.allowAnyNodeBootstrap || cfg.myName == BootstrapCandidate(cfg.etcdInitialCluster))
    ensures !cfg.allowNewClusterBootstrap && pg.isEmpty ==>
              (MayBootstrap(cfg, pg, etcd, evidence) <==>
                && cfg.autoBootstrapIfFresh && etcd.Fresh? && |Split(cfg.etcdInitialCluster, ',')| > 1
                && cfg.myName == BootstrapCandidate(cfg.etcdInitialCluster)
                && OtherIPs(cfg.etcdInitialCluster, cfg.myName) != []
                && forall k: nat | k == 0 || k < cfg.bootstrapPeerConfirmCycles ::
                     FreshEvidence(cfg, evidence.peers(k)))
    ensures !cfg.allowNewClusterBootstrap && !pg.isEmpty ==>
              (MayBootstrap(cfg, pg, etcd, evidence) <==>
                && cfg.deadClusterRecovery && !etcd.Database? && pg.hasGlobal
                && exists a: Authority :: a.ip == cfg.myIP &&
                     forall k: nat | k == 0 || k < cfg.bootstrapPeerConfirmCycles ::
                       RecoveryAuthority(cfg, evidence.recovery(k).local, evidence.recovery(k).results) == Some(a))
  {
    hide BootstrapCandidate, FreshEvidence, RecoveryAuthority, MembershipNames, OtherIPs;
    var rounds := evidence.recovery;
    if Confirmed(cfg, rounds).Some? { ConfirmedExactly(cfg, rounds, Confirmed(cfg, rounds).value); }
    if a: Authority :|
         a.ip == cfg.myIP &&
         forall k: nat | k == 0 || k < cfg.bootstrapPeerConfirmCycles ::
           RecoveryAuthority(cfg, rounds(k).local, rounds(k).results) == Some(a)
    {
      ConfirmedExactly(cfg, rounds, a);
    }
  }

  /** decideBootstrap: true stands for the state "new". */
  method DecideBootstrap(cfg: Config, pg: PGData, etcd: EtcdDir, evidence: Evidence) returns (isNew: bool)
    requires Plausible(pg)
    ensures isNew <==> MayBootstrap(cfg, pg, etcd, evidence)
  {
    hide BootstrapCandidate, FreshConfirmed, Confirmed;
    var expectedCount := |Split(cfg.etcdInitialCluster, ',')|;
    var etcdDataEmpty := !etcd.Database?;
    var pgDataEmpty := !pg.hasGlobal;
    var strictlyEmpty := etcd.Fresh? && pg.isEmpty;
    var candidate := FindBootstrapCandidate(cfg.etcdInitialCluster);
    if !cfg.allowNewClusterBootstrap {
      if cfg.autoBootstrapIfFresh && etcdDataEmpty && pgDataEmpty && strictlyEmpty {
        if expectedCount <= 1 {
          return false;
        }
        if cfg.myName != candidate {
          return false;
        }
        isNew := ConfirmFreshCluster(cfg, evidence.peers);
        return;
      }
      if cfg.deadClusterRecovery && etcdDataEmpty && !pgDataEmpty {
        var authority := ConfirmRecoveryAuthority(cfg, evidence.recovery);
        return authority.Some? && authority.value.ip == cfg.myIP;
      }
      return false;
    }
    return cfg.allowAnyNodeBootstrap || cfg.myName == candidate;
  }

  /** The path names the evidence that decides. */
  lemma PathDecides(cfg: Config, pg: PGData, etcd: EtcdDir, evidence: Evidence)
    requires Plausible(pg)
    ensures MayBootstrap(cfg, pg, etcd, evidence) <==>
            match BootstrapPath(cfg, pg, etcd)
            case FreshPath => FreshConfirmed(cfg, evidence.peers)
            case RecoveryPath =>
              Confirmed(cfg, evidence.recovery).Some? && Confirmed(cfg, evidence.recovery).value.ip == cfg.myIP
            case OverridePath => true
            case Refused => false
  {
    hide BootstrapCandidate, FreshConfirmed, Confirmed;
  }

  // ----- who may open an epoch in one snapshot -----

  /** Hosts that share one view and one configuration of the protocol, without overrides. */
  ghost predicate SharedView(ips: seq<string>, hosts: map<string, Host>) {
    && AddressList(ips)
    && hosts.Keys == (set ip | ip in ips)
    && forall ip | ip in ips ::
         && Formed(hosts[ip].cfg, ips) && hosts[ip].cfg.myIP == ip
         && !hosts[ip].cfg.allowNewClusterBootstrap && Plausible(hosts[ip].pg)
  }

  /** The evidence of one snapshot lets this node open an epoch. */
  ghost predicate MayOpen(ips: seq<string>, hosts: map<string, Host>, ip: string)
    requires SharedView(ips, hosts) && ip in ips
  {
    var h, net := hosts[ip], Snapshot(hosts);
    match BootstrapPath(h.cfg, h.pg, h.etcd)
    case FreshPath => FreshEvidence(h.cfg, Answers(net, Without(ips, ip)))
    case RecoveryPath => Asked(h.cfg, net).Some? && Asked(h.cfg, net).value.ip == ip
    case _ => false
  }

  lemma FreshPathIsCandidate(ips: seq<string>, hosts: map<string, Host>, ip: string)
    requires SharedView(ips, hosts) && ip in ips
    requires BootstrapPath(hosts[ip].cfg, hosts[ip].pg, hosts[ip].etcd) == FreshPath
    ensures ip == ips[0]
  {
    hide InitialCluster, MembershipNames, OtherIPs, NodeName, Without, NodeNames;
    TopologyRoundTrip(hosts[ip].cfg, ips, ip);
    NodeNameOrder(ip, ips[0]);
  }

  lemma FreshSeesEveryoneEmpty(ips: seq<string>, hosts: map<string, Host>, ip: string, other: string)
    requires SharedView(ips, hosts) && ip in ips && other in ips && other != ip
    requires FreshEvidence(hosts[ip].cfg, Answers(Snapshot(hosts), Without(ips, ip)))
    ensures hosts[other].pg.isEmpty && hosts[other].etcd.Fresh?
  {
    hide MembershipNames, OtherIPs, NodeName, Without;
    var others := Without(ips, ip);
    assert other in others;
    var k :| 0 <= k < |others| && others[k] == other;
    assert SaysFresh(hosts[ip].cfg, Answers(Snapshot(hosts), others)[k]);
  }

  /** Fresh bootstrap and recovery exclude each other, and each picks at most one node. */
  lemma AtMostOneMayOpen(ips: seq<string>, hosts: map<string, Host>, a: string, b: string)
    requires SharedView(ips, hosts) && a in ips && b in ips
    requires MayOpen(ips, hosts, a) && MayOpen(ips, hosts, b)
    ensures a == b
  {
    hide MembershipNames, OtherIPs, NodeName, Without, FreshEvidence, InitialCluster, BootstrapCandidate, Asked;
    var pathA := BootstrapPath(hosts[a].cfg, hosts[a].pg, hosts[a].etcd);
    var pathB := BootstrapPath(hosts[b].cfg, hosts[b].pg, hosts[b].etcd);
    if pathA == FreshPath { FreshPathIsCandidate(ips, hosts, a); }
    if pathB == FreshPath { FreshPathIsCandidate(ips, hosts, b); }
    if a != b {
      if pathA == FreshPath { FreshSeesEveryoneEmpty(ips, hosts, a, b); }
      if pathB == FreshPath { FreshSeesEveryoneEmpty(ips, hosts, b, a); }
      OnlyOneNamesItself(hosts[a].cfg, ips, hosts[b].cfg, ips, Snapshot(hosts), a);
    }
  }

  // ----- when somebody may open an epoch -----

  /** Every node of a multi-member view is empty, of one application and scope, and the first one may
      bootstrap automatically. */
  predicate FirstDeployment(ips: seq<string>, hosts: map<string, Host>) {
    && |ips| > 1 && (forall ip | ip in ips :: ip in hosts)
    && hosts[ips[0]].cfg.autoBootstrapIfFresh
    && forall ip | ip in ips ::
         && hosts[ip].pg.isEmpty && hosts[ip].etcd.Fresh?
         && hosts[ip].cfg.appName == hosts[ips[0]].cfg.appName
         && hosts[ip].cfg.patroniScope == hosts[ips[0]].cfg.patroniScope
  }

  /** There is an authority, and its own state lets it take the recovery path. */
  ghost predicate AuthorityCanRecover(ips: seq<string>, hosts: map<string, Host>)
    requires SharedView(ips, hosts) && ips != []
  {
    var asked := Asked(hosts[ips[0]].cfg, Snapshot(hosts));
    && asked.Some? && asked.value.ip in hosts
    && var h := hosts[asked.value.ip];
       h.cfg.deadClusterRecovery && !h.etcd.Database? && h.pg.hasGlobal
  }

  lemma IdentityNames(h: Host)
    ensures var id := LocalIdentity(h.cfg, h.pg, h.etcd);
            id.appName == h.cfg.appName && id.patroniScope == h.cfg.patroniScope && id.nodeName == h.cfg.myName &&
            id.membershipView == MembershipNames(h.cfg.etcdInitialCluster)
  {
  }

  /** In a shared view the authority that one member finds, every member finds. */
  lemma AskedByAnyone(ips: seq<string>, hosts: map<string, Host>, a: string, b: string)
    requires SharedView(ips, hosts) && a in ips && b in ips && Asked(hosts[a].cfg, Snapshot(hosts)).Some?
    ensures Asked(hosts[b].cfg, Snapshot(hosts)) == Asked(hosts[a].cfg, Snapshot(hosts))
  {
    hide MembershipNames, OtherIPs, NodeName, InitialCluster, NodeNames, RecoveryAuthority, Without, LocalIdentity;
    var net, cfgA, cfgB := Snapshot(hosts), hosts[a].cfg, hosts[b].cfg;
    AskedEveryone(cfgA, ips, net);
    AskedEveryone(cfgB, ips, net);
    AcceptedView(cfgA, ips, net, b);
    IdentityNames(hosts[b]);
    OrderIndependence(cfgA, net[a], Answers(net, Without(ips, a)), cfgB, net[b], Answers(net, Without(ips, b)));
  }

  lemma PartsOfView(cfg: Config, ips: seq<string>)
    requires Formed(cfg, ips)
    ensures |Split(cfg.etcdInitialCluster, ',')| == |ips|
    ensures BootstrapCandidate(cfg.etcdInitialCluster) == NodeName(ips[0])
  {
    hide MembershipNames, OtherIPs, NodeName, InitialCluster, NodeNames, Without, BootstrapCandidate;
    MemberPartsRoundTrip(cfg, ips);
    TopologyRoundTrip(cfg, ips, cfg.myIP);
  }

  /** With the override a node of a printed topology may bootstrap exactly when it has the first address,
      or any node may. */
  lemma OverrideBootstraps(cfg: Config, ips: seq<string>, pg: PGData, etcd: EtcdDir, evidence: Evidence)
    requires Formed(cfg, ips) && cfg.allowNewClusterBootstrap
    ensures MayBootstrap(cfg, pg, etcd, evidence) <==> cfg.allowAnyNodeBootstrap || cfg.myIP == ips[0]
  {
    hide MembershipNames, OtherIPs, NodeName, InitialCluster, NodeNames, Without, BootstrapCandidate;
    PartsOfView(cfg, ips);
    NodeNameOrder(cfg.myIP, ips[0]);
  }

  /** Whoever takes the fresh path in a snapshot sees a first deployment. */
  lemma FreshOpenerSees(ips: seq<string>, hosts: map<string, Host>, ip: string)
    requires SharedView(ips, hosts) && ip in ips && MayOpen(ips, hosts, ip)
    requires BootstrapPath(hosts[ip].cfg, hosts[ip].pg, hosts[ip].etcd) == FreshPath
    ensures FirstDeployment(ips, hosts)
  {
    hide MembershipNames, OtherIPs, NodeName, InitialCluster, NodeNames, Without, BootstrapCandidate, LocalIdentity,
         FreshEvidence;
    PartsOfView(hosts[ip].cfg, ips);
    FreshPathIsCandidate(ips, hosts, ip);
    forall other | other in ips && other != ip
      ensures hosts[other].pg.isEmpty && hosts[other].etcd.Fresh?
      ensures hosts[other].cfg.appName == hosts[ip].cfg.appName &&
          hosts[other].cfg.patroniScope == hosts[ip].cfg.patroniScope
    {
      FreshSeesEveryoneEmpty(ips, hosts, ip, other);
      FreshSeesOneCluster(ips, hosts, ip, other);
    }
  }

  lemma FreshSeesOneCluster(ips: seq<string>, hosts: map<string, Host>, ip: string, other: string)
    requires SharedView(ips, hosts) && ip in ips && other in ips && other != ip
    requires FreshEvidence(hosts[ip].cfg, Answers(Snapshot(hosts), Without(ips, ip)))
    ensures hosts[other].cfg.appName == hosts[ip].cfg.appName &&
        hosts[other].cfg.patroniScope == hosts[ip].cfg.patroniScope
  {
    hide MembershipNames, OtherIPs, NodeName, Without, LocalIdentity;
    var others := Without(ips, ip);
    assert other in others;
    var k :| 0 <= k < |others| && others[k] == other;
    assert SaysFresh(hosts[ip].cfg, Answers(Snapshot(hosts), others)[k]);
    IdentityNames(hosts[other]);
  }

  /** In a first deployment the first node may open. */
  lemma FirstDeploymentOpens(ips: seq<string>, hosts: map<string, Host>)
    requires SharedView(ips, hosts) && FirstDeployment(ips, hosts)
    ensures MayOpen(ips, hosts, ips[0])
  {
    hide MembershipNames, OtherIPs, NodeName, InitialCluster, NodeNames, Without, BootstrapCandidate, DistinctAddresses,
         IsIPv4, Less, Increasing, RecoveryAuthority;
    var ip, cfg, net := ips[0], hosts[ips[0]].cfg, Snapshot(hosts);
    PartsOfView(cfg, ips);
    AskedEveryone(cfg, ips, net);
    var others := Without(ips, ip);
    var results := Answers(net, others);
    forall k | 0 <= k < |results| ensures SaysFresh(cfg, results[k]) {
      assert others[k] in others;
      AskedEveryone(hosts[others[k]].cfg, ips, net);
    }
  }

  /** In a snapshot of a shared view somebody may open an epoch exactly when it is a first deployment,
      or there is an authority that may recover. */
  lemma SomebodyMayOpen(ips: seq<string>, hosts: map<string, Host>)
    requires SharedView(ips, hosts) && ips != []
    ensures (exists ip :: ip in ips && MayOpen(ips, hosts, ip)) <==>
            FirstDeployment(ips, hosts) || AuthorityCanRecover(ips, hosts)
  {
    hide MembershipNames, OtherIPs, NodeName, InitialCluster, NodeNames, Without, BootstrapCandidate, LocalIdentity,
         FreshEvidence, RecoveryAuthority, FirstDeployment;
    if ip :| ip in ips && MayOpen(ips, hosts, ip) {
      if BootstrapPath(hosts[ip].cfg, hosts[ip].pg, hosts[ip].etcd) == FreshPath {
        FreshOpenerSees(ips, hosts, ip);
      } else {
        AskedByAnyone(ips, hosts, ip, ips[0]);
      }
    }
    if FirstDeployment(ips, hosts) {
      FirstDeploymentOpens(ips, hosts);
      assert ips[0] in ips;
    }
    if AuthorityCanRecover(ips, hosts) {
      var a := Asked(hosts[ips[0]].cfg, Snapshot(hosts)).value.ip;
      AskedByAnyone(ips, hosts, ips[0], a);
      assert MayOpen(ips, hosts, a);
    }
  }

  /** An authority whose data directory lacks global/ blocks everybody: it names itself, but its own
      state does not let it recover, and its data excludes a first deployment. */
  lemma NoGlobalNobodyOpens(ips: seq<string>, hosts: map<string, Host>, ip: string)
    requires SharedView(ips, hosts) && ip in ips
    requires Asked(hosts[ips[0]].cfg, Snapshot(hosts)).Some?
    requires var a := Asked(hosts[ips[0]].cfg, Snapshot(hosts)).value.ip; a in hosts && !hosts[a].pg.hasGlobal
    ensures !MayOpen(ips, hosts, ip)
  {
    hide MembershipNames, OtherIPs, NodeName, InitialCluster, NodeNames, Without, BootstrapCandidate,
         RecoveryAuthority, MayOpen;
    SomebodyMayOpen(ips, hosts);
    WinnerOf(hosts[ips[0]].cfg, ips, Snapshot(hosts));
  }
}
