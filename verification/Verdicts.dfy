/** What the evaluators conclude, spelled out: in terms of the answers themselves, and of the disks
    that the answers of one snapshot report. */
module Verdicts {
  import opened Text
  import opened Settings
  import opened Topology
  import opened WalPosition
  import opened Identity
  import opened Agreement
  import opened Bootstrap

  // ----- in terms of the answers -----

  /** One doubtful answer is enough to refuse, in any list of answers: a missing one, one from another
      application, scope, node or view, data without a system ID, or metadata without data. */
  lemma DoubtfulAnswerRefuses(cfg: Config, local: NodeIdentity, results: seq<PeerResult>, r: PeerResult)
    requires r == PeerResult(cfg.myIP, Some(local)) || r in results
    requires r.answer.Some? ==>
               var id := r.answer.value;
               || id.appName != cfg.appName || id.patroniScope != cfg.patroniScope || id.nodeName != NodeName(r.ip)
               || id.membershipView != MembershipNames(cfg.etcdInitialCluster)
               || (!id.pgDataEmpty && id.systemId == "")
               || (id.pgDataEmpty &&
                   (id.systemId != "" || id.durableRole != "" || id.timeline != 0 || id.walPosition != ""))
    ensures RecoveryAuthority(cfg, local, results) == None
  {
    hide MembershipNames, NodeName, ExpectedPeers, Chosen;
    var all := Everyone(cfg, local, results);
    assert r in all by {
      assert all[0] == PeerResult(cfg.myIP, Some(local));
      if r in results { assert r in all[1..]; }
    }
    var i :| 0 <= i < |all| && all[i] == r;
    assert !Consistent(cfg, all[i]);
  }

  /** So is a missing or an additional answer. */
  lemma EveryPeerCounts(cfg: Config, local: NodeIdentity, results: seq<PeerResult>)
    requires |results| != |OtherIPs(cfg.etcdInitialCluster, cfg.myName)|
    ensures RecoveryAuthority(cfg, local, results) == None && !FreshEvidence(cfg, results)
  {
  }

  /** The evidence assembled for a peer on an older image never permits anything. */
  lemma LegacyAnswerRefuses(cfg: Config, ips: seq<string>, local: NodeIdentity, results: seq<PeerResult>,
                            ip: string, systemId: string)
    requires Formed(cfg, ips) && PeerResult(ip, Some(LegacyIdentity(cfg, ip, systemId))) in results
    ensures RecoveryAuthority(cfg, local, results) == None && !FreshEvidence(cfg, results)
  {
    hide MembershipNames, NodeName, OtherIPs, RecoveryAuthority, InitialCluster, NodeNames, Without,
         BootstrapCandidate;
    var r := PeerResult(ip, Some(LegacyIdentity(cfg, ip, systemId)));
    TopologyRoundTrip(cfg, ips, cfg.myIP);
    assert |NodeNames(ips)| == |ips| > 0;
    DoubtfulAnswerRefuses(cfg, local, results, r);
    var i :| 0 <= i < |results| && results[i] == r;
    assert !SaysFresh(cfg, results[i]);
  }

  /** When one copy outranks another: the primary over a replica of its system, or a replica over one on
      its timeline that is behind it, or level with it under a greater name, or under the same name and
      later in the list. */
  lemma OutranksExactly(w: NodeIdentity, s: NodeIdentity, first: bool)
    ensures Outranks(w, s, first) <==>
            && s.durableRole == "replica" && s.systemId == w.systemId
            && (w.durableRole == "primary" ||
                (&& w.durableRole == "replica" && w.timeline == s.timeline && w.timeline > 0
                 && ParseLsn(w.walPosition).Some? && ParseLsn(s.walPosition).Some?
                 && var x, y := ParseLsn(w.walPosition).value, ParseLsn(s.walPosition).value;
                    y > 0 &&
                    (x > y || (x == y && (Less(w.nodeName, s.nodeName) || (first && w.nodeName == s.nodeName))))))
  {
    hide ParseLsn;
  }

  /** Whom recovery names, exactly. Every expected peer answered, for this application, scope, name
      and view; an empty data directory comes without metadata and a filled one with a system ID; and
      the named copy is the only one, or all etcd is lost and it outranks each of the others. */
  lemma VerdictExactly(cfg: Config, local: NodeIdentity, results: seq<PeerResult>, a: Authority)
    requires DistinctAddresses(Everyone(cfg, local, results))
    ensures RecoveryAuthority(cfg, local, results) == Some(a) <==>
            var all := [PeerResult(cfg.myIP, Some(local))] + results;
            && |results| == |OtherIPs(cfg.etcdInitialCluster, cfg.myName)|
            && (forall r | r in all ::
                  && r.answer.Some? && var id := r.answer.value;
                  && id.appName == cfg.appName && id.patroniScope == cfg.patroniScope
                  && id.nodeName == NodeName(r.ip) && id.membershipView == MembershipNames(cfg.etcdInitialCluster)
                  && if id.pgDataEmpty
                     then id.systemId == "" && id.durableRole == "" && id.timeline == 0 && id.walPosition == ""
                     else id.systemId != "")
            && exists w :: w in all && !w.answer.value.pgDataEmpty
                 && a == Authority(w.ip, w.answer.value.nodeName, w.answer.value.systemId)
                 && forall s | s in all && s != w && !s.answer.value.pgDataEmpty ::
                      (forall x | x in all :: x.answer.value.etcdDataEmpty) &&
                      Outranks(w.answer.value, s.answer.value, false)
  {
    hide MembershipNames, NodeName, OtherIPs, Outranks, AllConsistent, RecoveryAuthority;
    var all := Everyone(cfg, local, results);
    ConsistentAnswers(cfg, all);
    AuthorityIsWinner(cfg, local, results, a);
    if |results| == ExpectedPeers(cfg) && AllConsistent(cfg, all) {
      assert Answered(all) by { assert forall i | 0 <= i < |all| :: all[i] in all; }
      forall w { WinsExactly(all, w); }
    }
  }

  lemma WinsExactly(all: seq<PeerResult>, w: PeerResult)
    requires Answered(all)
    ensures Wins(all, w) <==>
            && w in all && w.answer.Some? && !w.answer.value.pgDataEmpty
            && forall s | s in all && s != w && s.answer.Some? && !s.answer.value.pgDataEmpty ::
                 (forall x | x in all :: x.answer.Some? && x.answer.value.etcdDataEmpty) &&
                 Outranks(w.answer.value, s.answer.value, false)
  {
    hide Outranks;
    EtcdLostIn(all);
  }

  // ----- in terms of the disks -----

  /** The authority of a snapshot, by the answers of the view's members. */
  lemma VerdictOfNet(cfg: Config, ips: seq<string>, net: map<string, NodeIdentity>, a: Authority)
    requires Formed(cfg, ips) && cfg.myIP in net
    ensures Asked(cfg, net) == Some(a) <==>
            && a.ip in ips && (forall ip | ip in ips :: ip in net && Consistent(cfg, Answer(net, ip)))
            && !net[a.ip].pgDataEmpty && a == Authority(a.ip, net[a.ip].nodeName, net[a.ip].systemId)
            && forall ip | ip in ips && ip != a.ip && !net[ip].pgDataEmpty ::
                 (forall x | x in ips :: net[x].etcdDataEmpty) && Outranks(net[a.ip], net[ip], false)
  {
    hide MembershipNames, NodeName, OtherIPs, Outranks, RecoveryAuthority, Consistent, InitialCluster, NodeNames,
         Without;
    AskedEveryone(cfg, ips, net);
    var results := Answers(net, Without(ips, cfg.myIP));
    var all := Everyone(cfg, net[cfg.myIP], results);
    AuthorityIsWinner(cfg, net[cfg.myIP], results, a);
    AllOfView(cfg, ips, net, all);
    assert |results| == ExpectedPeers(cfg);
    if Asked(cfg, net) == Some(a) {
      var w :| Wins(all, w) && a == AuthorityOf(w);
      WinsInView(ips, net, all, w);
    }
    if && a.ip in ips && (forall ip | ip in ips :: ip in net && Consistent(cfg, Answer(net, ip)))
       && !net[a.ip].pgDataEmpty && a == Authority(a.ip, net[a.ip].nodeName, net[a.ip].systemId)
       && (forall ip | ip in ips && ip != a.ip && !net[ip].pgDataEmpty ::
             (forall x | x in ips :: net[x].etcdDataEmpty) && Outranks(net[a.ip], net[ip], false))
    {
      AddressesNameNodes(cfg, all);
      WinsInView(ips, net, all, Answer(net, a.ip));
    }
  }

  lemma AllOfView(cfg: Config, ips: seq<string>, net: map<string, NodeIdentity>, all: seq<PeerResult>)
    requires forall r :: r in all <==> r.ip in ips && r == Answer(net, r.ip)
    ensures AllConsistent(cfg, all) <==> forall ip | ip in ips :: ip in net && Consistent(cfg, Answer(net, ip))
  {
    hide MembershipNames, NodeName;
    forall ip | ip in ips ensures Answer(net, ip) in all {
      assert Answer(net, ip).ip == ip;
    }
    assert forall i | 0 <= i < |all| :: all[i] in all;
  }

  lemma WinsInView(ips: seq<string>, net: map<string, NodeIdentity>, all: seq<PeerResult>, w: PeerResult)
    requires forall r :: r in all <==> r.ip in ips && r == Answer(net, r.ip)
    requires Answered(all) && forall ip | ip in ips :: ip in net
    ensures Wins(all, w) <==>
            && w.ip in ips && w == Answer(net, w.ip) && !net[w.ip].pgDataEmpty
            && forall ip | ip in ips && ip != w.ip && !net[ip].pgDataEmpty ::
                 (forall x | x in ips :: net[x].etcdDataEmpty) && Outranks(net[w.ip], net[ip], false)
  {
    hide Outranks;
    WinsExactly(all, w);
    forall ip | ip in ips ensures Answer(net, ip) in all {
      assert Answer(net, ip).ip == ip;
    }
  }

  /** A host of this view, application, scope and name, whose data directory is empty or has a readable
      system ID. */
  predicate Believed(cfg: Config, ips: seq<string>, ip: string, h: Host) {
    && h.cfg.appName == cfg.appName && h.cfg.patroniScope == cfg.patroniScope
    && h.cfg.myName == NodeName(ip) && MembershipNames(h.cfg.etcdInitialCluster) == NodeNames(ips)
    && (!h.pg.isEmpty ==> h.pg.control.Some? && h.pg.control.value.systemId != "")
  }

  lemma BelievedOnDisk(cfg: Config, ips: seq<string>, ip: string, h: Host)
    requires MembershipNames(cfg.etcdInitialCluster) == NodeNames(ips)
    ensures Consistent(cfg, PeerResult(ip, Some(LocalIdentity(h.cfg, h.pg, h.etcd)))) <==> Believed(cfg, ips, ip, h)
  {
    hide MembershipNames, NodeName, NodeNames, BestPosition;
  }

  /** A data directory that ran as a replica: it carries a standby or a recovery signal. */
  predicate RanAsReplica(pg: PGData) {
    pg.hasGlobal && (pg.hasStandbySignal || pg.hasRecoverySignal)
  }

  predicate RanAsPrimary(pg: PGData) {
    pg.hasGlobal && !pg.hasStandbySignal && !pg.hasRecoverySignal
  }

  /** The order of precedence on disk: the primary's data over a replica's of the same system, otherwise
      the replica with the greater durable position on the same timeline, then the lesser address. */
  predicate Precedes(w: PGData, s: PGData, lesserAddress: bool)
    requires w.control.Some? && s.control.Some?
  {
    && RanAsReplica(s) && w.control.value.systemId == s.control.value.systemId
    && (RanAsPrimary(w) ||
        (&& RanAsReplica(w)
         && var p, q := BestPosition(w.control.value), BestPosition(s.control.value);
            && p.Some? && q.Some? && p.value.timeline == q.value.timeline
            && (p.value.lsn > q.value.lsn || (p.value.lsn == q.value.lsn && lesserAddress))))
  }

  lemma OutranksOnDisk(w: Host, s: Host)
    requires !w.pg.isEmpty && w.pg.control.Some? && !s.pg.isEmpty && s.pg.control.Some?
    ensures Outranks(LocalIdentity(w.cfg, w.pg, w.etcd), LocalIdentity(s.cfg, s.pg, s.etcd), false) <==>
            Precedes(w.pg, s.pg, Less(w.cfg.myName, s.cfg.myName))
  {
    hide BestPosition, MembershipNames, PositionOf;
    PositionSurvivesTheWire(w.cfg, w.pg, w.etcd);
    PositionSurvivesTheWire(s.cfg, s.pg, s.etcd);
  }

  /** Whom a node's view finds in a snapshot, exactly, by what is on the disks: every member of the view
      is there and believed; the authority holds data; and any other copy requires that all etcd is lost
      and that the authority precedes it. */
  lemma AuthorityOnDisk(cfg: Config, ips: seq<string>, hosts: map<string, Host>, a: Authority)
    requires Formed(cfg, ips) && cfg.myIP in hosts
    ensures Asked(cfg, Snapshot(hosts)) == Some(a) <==>
            && (forall ip | ip in ips :: ip in hosts && Believed(cfg, ips, ip, hosts[ip]))
            && a.ip in ips && !hosts[a.ip].pg.isEmpty
            && a == Authority(a.ip, NodeName(a.ip), hosts[a.ip].pg.control.value.systemId)
            && forall ip | ip in ips && ip != a.ip && !hosts[ip].pg.isEmpty ::
                 && (forall x | x in ips :: hosts[x].etcd.Fresh?)
                 && Precedes(hosts[a.ip].pg, hosts[ip].pg, Less(a.ip, ip))
  {
    hide MembershipNames, NodeName, LocalIdentity, Outranks, Consistent, NodeNames, InitialCluster, OtherIPs, Without,
         Asked, Precedes;
    var net := Snapshot(hosts);
    VerdictOfNet(cfg, ips, net, a);
    AskedEveryone(cfg, ips, net);
    forall ip | ip in ips && ip in hosts
      ensures Consistent(cfg, Answer(net, ip)) <==> Believed(cfg, ips, ip, hosts[ip])
    {
      BelievedOnDisk(cfg, ips, ip, hosts[ip]);
    }
    forall ip | ip in hosts
      ensures net[ip].pgDataEmpty == hosts[ip].pg.isEmpty && net[ip].etcdDataEmpty == hosts[ip].etcd.Fresh?
      ensures Believed(cfg, ips, ip, hosts[ip]) ==> net[ip].nodeName == NodeName(ip)
      ensures Believed(cfg, ips, ip, hosts[ip]) && !hosts[ip].pg.isEmpty ==>
                net[ip].systemId == hosts[ip].pg.control.value.systemId
    {
      IdentityOnDisk(hosts[ip]);
    }
    if && a.ip in ips && a.ip in hosts && !hosts[a.ip].pg.isEmpty
       && (forall ip | ip in ips :: ip in hosts && Believed(cfg, ips, ip, hosts[ip]))
    {
      forall ip | ip in ips && ip != a.ip && !hosts[ip].pg.isEmpty
        ensures Outranks(net[a.ip], net[ip], false) <==> Precedes(hosts[a.ip].pg, hosts[ip].pg, Less(a.ip, ip))
      {
        OutranksOnDisk(hosts[a.ip], hosts[ip]);
        NodeNameOrder(a.ip, ip);
      }
    }
  }

  /** What a node tells of its disks. */
  lemma IdentityOnDisk(h: Host)
    ensures var id := LocalIdentity(h.cfg, h.pg, h.etcd);
            && id.pgDataEmpty == h.pg.isEmpty && id.etcdDataEmpty == h.etcd.Fresh? && id.nodeName == h.cfg.myName
            && (h.pg.isEmpty || h.pg.control.None? ==>
                  id.systemId == "" && id.controlState == "" && id.timeline == 0 && id.walPosition == "")
            && (!h.pg.isEmpty && h.pg.control.Some? ==>
                  id.systemId == h.pg.control.value.systemId && id.controlState == h.pg.control.value.state)
            && id.durableRole == if h.pg.isEmpty || !h.pg.hasGlobal then ""
                                 else if h.pg.hasStandbySignal || h.pg.hasRecoverySignal then "replica" else "primary"
  {
    hide MembershipNames, BestPosition;
  }

  /** So a single member whose data cannot be read, is missing, or belongs elsewhere blocks everybody. */
  lemma DoubtfulMemberBlocks(cfg: Config, ips: seq<string>, hosts: map<string, Host>, doubtful: string)
    requires Formed(cfg, ips) && cfg.myIP in hosts && doubtful in ips
    requires doubtful in hosts ==>
               var h := hosts[doubtful];
               || h.cfg.appName != cfg.appName || h.cfg.patroniScope != cfg.patroniScope
               || (!h.pg.isEmpty && h.pg.control.None?)
               || (!h.pg.isEmpty && h.pg.control.value.systemId == "")
    ensures Asked(cfg, Snapshot(hosts)) == None
  {
    hide Asked, Formed, Precedes;
    if Asked(cfg, Snapshot(hosts)).Some? {
      AuthorityOnDisk(cfg, ips, hosts, Asked(cfg, Snapshot(hosts)).value);
    }
  }

  /** Who may open an epoch in a snapshot of a shared view, exactly, by what is on the disks: the first
      node of several that are all empty, or a node with data and without an etcd database when every
      copy is readable and every other one comes after it, all etcd being lost. */
  lemma MayOpenOnDisk(ips: seq<string>, hosts: map<string, Host>, ip: string)
    requires SharedView(ips, hosts) && ip in ips
    ensures MayOpen(ips, hosts, ip) <==>
            && (forall x | x in ips :: hosts[x].cfg.appName == hosts[ip].cfg.appName &&
                                       hosts[x].cfg.patroniScope == hosts[ip].cfg.patroniScope)
            && (|| (&& hosts[ip].cfg.autoBootstrapIfFresh && ip == ips[0] && |ips| > 1
                    && forall x | x in ips :: hosts[x].pg.isEmpty && hosts[x].etcd.Fresh?)
                || (&& hosts[ip].cfg.deadClusterRecovery && !hosts[ip].etcd.Database? && hosts[ip].pg.hasGlobal
                    && (forall x | x in ips && !hosts[x].pg.isEmpty ::
                          hosts[x].pg.control.Some? && hosts[x].pg.control.value.systemId != "")
                    && forall x | x in ips && x != ip && !hosts[x].pg.isEmpty ::
                         && (forall y | y in ips :: hosts[y].etcd.Fresh?)
                         && Precedes(hosts[ip].pg, hosts[x].pg, Less(ip, x))))
  {
    hide MembershipNames, NodeName, LocalIdentity, NodeNames, InitialCluster, OtherIPs, Without, Asked, Precedes,
         FreshEvidence, BootstrapCandidate;
    var h := hosts[ip];
    ViewsAreShared(ips, hosts);
    PartsOfView(h.cfg, ips);
    NodeNameOrder(ip, ips[0]);
    if BootstrapPath(h.cfg, h.pg, h.etcd) == FreshPath {
      if MayOpen(ips, hosts, ip) {
        FreshPathIsCandidate(ips, hosts, ip);
        FreshOpenerSees(ips, hosts, ip);
      }
    }
    if FirstDeployment(ips, hosts) && ip == ips[0] {
      FirstDeploymentOpens(ips, hosts);
    }
    if BootstrapPath(h.cfg, h.pg, h.etcd) == RecoveryPath && !h.pg.isEmpty && h.pg.control.Some? {
      AuthorityOnDisk(h.cfg, ips, hosts, Authority(ip, NodeName(ip), h.pg.control.value.systemId));
    }
    if MayOpen(ips, hosts, ip) && BootstrapPath(h.cfg, h.pg, h.etcd) == RecoveryPath {
      AuthorityOnDisk(h.cfg, ips, hosts, Asked(h.cfg, Snapshot(hosts)).value);
    }
  }

  lemma ViewsAreShared(ips: seq<string>, hosts: map<string, Host>)
    requires SharedView(ips, hosts)
    ensures forall x | x in ips :: x in hosts && IsIPv4(x) && hosts[x].cfg.myName == NodeName(x) &&
                                   MembershipNames(hosts[x].cfg.etcdInitialCluster) == NodeNames(ips)
  {
    hide MembershipNames, NodeName, NodeNames, InitialCluster, OtherIPs, Without, BootstrapCandidate;
    forall x | x in ips
      ensures x in hosts && IsIPv4(x) && hosts[x].cfg.myName == NodeName(x) &&
              MembershipNames(hosts[x].cfg.etcdInitialCluster) == NodeNames(ips)
    {
      TopologyRoundTrip(hosts[x].cfg, ips, x);
    }
  }
}
