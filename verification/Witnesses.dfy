/** Which evaluators of one view agree: a node outside the view can disagree with any other. */
module Witnesses {
  import opened Text
  import opened Settings
  import opened Topology
  import opened WalPosition
  import opened Identity
  import opened Agreement

  const EMPTY: PGData := PGData(true, false, false, false, None)
  const CONTROL: ControlData := ControlData("7", "shut down", "0/1000", 1, "0/0", 0)
  const PRIMARY: PGData := PGData(false, true, false, false, Some(CONTROL))
  const REPLICA: PGData := PGData(false, true, true, false, Some(CONTROL))

  predicate IsSample(pg: PGData) {
    pg == EMPTY || pg == PRIMARY || pg == REPLICA
  }

  /** A node with settings of its own cluster and the topology of a view, which need not list it. */
  function Member(base: Config, ip: string, view: seq<string>): Config {
    base.(myName := NodeName(ip), myIP := ip, etcdInitialCluster := InitialCluster(base, view))
  }

  lemma MemberForms(base: Config, ip: string, view: seq<string>)
    requires AddressList(view) && IsIPv4(ip)
    ensures var cfg := Member(base, ip, view);
      MembershipNames(cfg.etcdInitialCluster) == NodeNames(view) &&
      OtherIPs(cfg.etcdInitialCluster, cfg.myName) == Without(view, ip) &&
      (ip in view ==> Formed(cfg, view))
  {
    hide InitialCluster, MembershipNames, OtherIPs, NodeName, BootstrapCandidate, NodeNames, Without;
    TopologyRoundTrip(base, view, ip);
    SameTopology(base, Member(base, ip, view), view);
  }

  /** What a member tells about itself. */
  lemma Tells(base: Config, ip: string, view: seq<string>, pg: PGData, etcd: EtcdDir)
    requires AddressList(view) && IsIPv4(ip) && IsSample(pg)
    ensures var id := LocalIdentity(Member(base, ip, view), pg, etcd);
      id.appName == base.appName && id.patroniScope == base.patroniScope && id.nodeName == NodeName(ip) &&
      id.membershipView == NodeNames(view) && id.etcdDataEmpty == etcd.Fresh? && id.pgDataEmpty == (pg == EMPTY) &&
      id.systemId == (if pg == EMPTY then "" else "7") &&
      id.durableRole == (if pg == EMPTY then "" else if pg == PRIMARY then "primary" else "replica") &&
      (pg == EMPTY ==> id.timeline == 0 && id.walPosition == "")
  {
    hide InitialCluster, MembershipNames, NodeName, NodeNames, BestPosition;
    MemberForms(base, ip, view);
  }

  /** Members of one cluster trust each other's answers. */
  lemma Trusted(base: Config, ip: string, view: seq<string>, r: PeerResult, pg: PGData, etcd: EtcdDir)
    requires AddressList(view) && IsIPv4(ip) && IsIPv4(r.ip) && IsSample(pg)
    requires r.answer == Some(LocalIdentity(Member(base, r.ip, view), pg, etcd))
    ensures Consistent(Member(base, ip, view), r)
  {
    hide InitialCluster, MembershipNames, NodeName, NodeNames, LocalIdentity;
    MemberForms(base, ip, view);
    Tells(base, r.ip, view, pg, etcd);
  }

  /** Node a holds a primary's data, node b a replica's; everyone else in the view is empty, and etcd
      is lost everywhere. */
  function Divided(base: Config, view: seq<string>, a: string, b: string): (hosts: map<string, Host>)
    ensures hosts.Keys == (set x | x in view) + {a, b}
    ensures forall ip | ip in hosts :: hosts[ip] == Host(Member(base, ip, view), DataIn(ip, a, b), Fresh)
  {
    map ip | ip in (set x | x in view) + {a, b} :: Host(Member(base, ip, view), DataIn(ip, a, b), Fresh)
  }

  function DataIn(ip: string, a: string, b: string): PGData {
    if ip == a then PRIMARY else if ip == b then REPLICA else EMPTY
  }

  /** When the view leaves a out, both a and b are the authority they find. */
  lemma NamesItself(base: Config, view: seq<string>, a: string, b: string, me: string)
    requires AddressList(view) && IsIPv4(a) && IsIPv4(b) && a != b && a !in view
    requires me == a || me == b
    ensures var cfg, net := Member(base, me, view), Snapshot(Divided(base, view, a, b));
      me in net && Asked(cfg, net).Some? && Asked(cfg, net).value.ip == me
  {
    hide InitialCluster, MembershipNames, OtherIPs, NodeName, NodeNames, LocalIdentity, RecoveryAuthority, IsIPv4,
         Less, Outranks, Chosen, Consistent, Without, Increasing;
    var cfg, net := Member(base, me, view), Snapshot(Divided(base, view, a, b));
    MemberForms(base, me, view);
    var others := Without(view, me);
    var results := Answers(net, others);
    var all := Everyone(cfg, net[me], results);
    forall k | 0 <= k < |all|
      ensures all[k].answer.Some? && all[k].answer.value.etcdDataEmpty && Consistent(cfg, all[k])
      ensures HoldsData(all[k]) ==> k == 0 || (me == a && Outranks(all[0].answer.value, all[k].answer.value, true))
      ensures k == 0 ==> HoldsData(all[k])
    {
      DividedAnswer(base, view, a, b, me, all, k);
    }
    SoleOrLeading(all);
    RecoveryAuthorityIs(cfg, net[me], results, 0);
  }

  lemma DividedAnswer(base: Config, view: seq<string>, a: string, b: string, me: string, all: seq<PeerResult>, k: nat)
    requires AddressList(view) && IsIPv4(a) && IsIPv4(b) && a != b && a !in view
    requires (me == a || me == b) && k < |all|
    requires var net := Snapshot(Divided(base, view, a, b));
      all == Everyone(Member(base, me, view), net[me], Answers(net, Without(view, me)))
    ensures all[k].answer.Some? && all[k].answer.value.etcdDataEmpty && Consistent(Member(base, me, view), all[k])
    ensures HoldsData(all[k]) ==> k == 0 || (me == a && Outranks(all[0].answer.value, all[k].answer.value, true))
    ensures k == 0 ==> HoldsData(all[k])
  {
    hide InitialCluster, MembershipNames, OtherIPs, NodeName, NodeNames, LocalIdentity, IsIPv4, Less, Consistent,
         Without,
         Increasing, FurtherThan, Level;
    var ip := all[k].ip;
    var others := Without(view, me);
    if k > 0 { assert others[k - 1] in others && ip == others[k - 1]; }
    assert ip == me || (ip in view && ip != me);
    Trusted(base, me, view, all[k], DataIn(ip, a, b), Fresh);
    Tells(base, ip, view, DataIn(ip, a, b), Fresh);
    Tells(base, me, view, DataIn(me, a, b), Fresh);
  }

  lemma SoleOrLeading(all: seq<PeerResult>)
    requires Answered(all) && EtcdLost(all) && all != [] && HoldsData(all[0])
    requires forall k | 0 < k < |all| && HoldsData(all[k]) :: Outranks(all[0].answer.value, all[k].answer.value, true)
    ensures Chosen(all, 0)
  {
    hide Outranks;
  }

  /** Whenever both nodes find an authority in one snapshot, they find the same. */
  ghost predicate AlwaysAgree(a: Config, b: Config) {
    forall net: map<string, NodeIdentity> | a.myIP in net && b.myIP in net ::
      Asked(a, net).Some? && Asked(b, net).Some? ==> Asked(a, net) == Asked(b, net)
  }

  /** Two nodes with one view agree in every snapshot if and only if they are one node, or both belong
      to the view. */
  lemma OwnViewIsNeeded(base: Config, view: seq<string>, a: string, b: string)
    requires AddressList(view) && IsIPv4(a) && IsIPv4(b)
    ensures AlwaysAgree(Member(base, a, view), Member(base, b, view)) <==> a == b || (a in view && b in view)
  {
    hide InitialCluster, NodeName, Asked, IsIPv4, Less, Increasing;
    if a in view && b in view {
      forall net: map<string, NodeIdentity> | a in net && b in net
        ensures Asked(Member(base, a, view), net).Some? && Asked(Member(base, b, view), net).Some? ==>
                Asked(Member(base, a, view), net) == Asked(Member(base, b, view), net)
      {
        MembersAgree(base, view, a, b, net);
      }
    } else if a != b {
      if a !in view { Disagree(base, view, a, b); } else { Disagree(base, view, b, a); }
    }
  }

  lemma MembersAgree(base: Config, view: seq<string>, a: string, b: string, net: map<string, NodeIdentity>)
    requires AddressList(view) && IsIPv4(a) && IsIPv4(b) && a in view && b in view && a in net && b in net
    ensures Asked(Member(base, a, view), net).Some? && Asked(Member(base, b, view), net).Some? ==>
            Asked(Member(base, a, view), net) == Asked(Member(base, b, view), net)
  {
    hide InitialCluster, NodeName, Asked;
    MemberForms(base, a, view);
    MemberForms(base, b, view);
    if Asked(Member(base, a, view), net).Some? && Asked(Member(base, b, view), net).Some? {
      OverlapForcesAgreement(Member(base, a, view), view, Member(base, b, view), view, net, a);
    }
  }

  lemma Disagree(base: Config, view: seq<string>, a: string, b: string)
    requires AddressList(view) && IsIPv4(a) && IsIPv4(b) && a != b && a !in view
    ensures !AlwaysAgree(Member(base, a, view), Member(base, b, view))
    ensures !AlwaysAgree(Member(base, b, view), Member(base, a, view))
  {
    hide InitialCluster, NodeName, Asked, Divided;
    NamesItself(base, view, a, b, a);
    NamesItself(base, view, a, b, b);
    var net := Snapshot(Divided(base, view, a, b));
    assert Asked(Member(base, a, view), net) != Asked(Member(base, b, view), net);
  }
}
