/** What a node says about itself, and the evaluators that turn the answers of all expected
    nodes into permission for one of them to open a new epoch. */
module Identity {
  import opened Text
  import opened Settings
  import opened Topology
  import opened WalPosition

  datatype NodeIdentity = NodeIdentity(
    appName: string,
    patroniScope: string,
    nodeName: string,
    pgDataEmpty: bool,
    systemId: string,
    durableRole: string,
    controlState: string,
    timeline: nat,
    walPosition: string,
    etcdDataEmpty: bool,
    membershipView: seq<string>)

  /** A probe of one address: an identity, or nothing when the peer is unreachable or ambiguous. */
  datatype PeerResult = PeerResult(ip: string, answer: Option<NodeIdentity>)

  datatype Authority = Authority(ip: string, nodeName: string, systemId: string)

  // ----- local state -----

  /** The PostgreSQL data directory as the agent inspects it. */
  datatype PGData = PGData(
    isEmpty: bool,
    hasGlobal: bool,
    hasStandbySignal: bool,
    hasRecoverySignal: bool,
    control: Option<ControlData>)

  /** The etcd data directory: fresh (missing, empty, or holding only the agent's own marker),
      begun but without a database, or holding a database. */
  datatype EtcdDir = Fresh | Partial | Database

  /** A data directory that exists: PostgreSQL's global/ is one of its entries. */
  predicate Plausible(pg: PGData) {
    pg.hasGlobal ==> !pg.isEmpty
  }

  /** postgresDurableRole. */
  function DurableRole(pg: PGData): string {
    if !pg.hasGlobal then ""
    else if pg.hasStandbySignal || pg.hasRecoverySignal then "replica"
    else "primary"
  }

  /** localNodeIdentity. */
  function LocalIdentity(cfg: Config, pg: PGData, etcd: EtcdDir): NodeIdentity {
    var position := if pg.control.Some? then BestPosition(pg.control.value) else None;
    var known := !pg.isEmpty && pg.control.Some?;
    NodeIdentity(
      cfg.appName, cfg.patroniScope, cfg.myName,
      pg.isEmpty,
      if known then pg.control.value.systemId else "",
      if pg.isEmpty then "" else DurableRole(pg),
      if known then pg.control.value.state else "",
      if known && position.Some? then position.value.timeline else 0,
      if known && position.Some? then FormatLsn(position.value.lsn) else "",
      etcd.Fresh?,
      MembershipNames(cfg.etcdInitialCluster))
  }

  /** The answer assembled for a peer that runs an older image but whose Patroni reports a
      system ID: evidence to refuse, never to permit. */
  function LegacyIdentity(cfg: Config, ip: string, systemId: string): NodeIdentity {
    NodeIdentity(cfg.appName, cfg.patroniScope, NodeName(ip), false, systemId, "", "", 0, "", false, [])
  }

  /** An identity's durable WAL position, if it can be read. */
  function PositionOf(id: NodeIdentity): Option<Position> {
    WirePosition(id.timeline, id.walPosition)
  }

  /** The position other nodes read is the best one of the node's own control data. */
  lemma PositionSurvivesTheWire(cfg: Config, pg: PGData, etcd: EtcdDir)
    requires !pg.isEmpty && pg.control.Some?
    ensures PositionOf(LocalIdentity(cfg, pg, etcd)) == BestPosition(pg.control.value)
  {
    if BestPosition(pg.control.value).Some? {
      WireRoundTrip(pg.control.value);
    } else {
      assert Split(Trim(""), '/') == [""];
    }
  }

  // ----- fresh bootstrap evidence -----

  method EqualStrings(a: seq<string>, b: seq<string>) returns (same: bool)
    ensures same <==> a == b
  {
    if |a| != |b| {
      return false;
    }
    for i := 0 to |a|
      invariant a[..i] == b[..i]
    {
      if a[i] != b[i] {
        return false;
      }
    }
    assert a[..|a|] == a && b[..|b|] == b;
    return true;
  }

  /** A peer answer identifying the expected node of the same application, scope and view. */
  predicate Recognised(cfg: Config, r: PeerResult) {
    && r.answer.Some?
    && r.answer.value.appName == cfg.appName
    && r.answer.value.patroniScope == cfg.patroniScope
    && r.answer.value.nodeName == NodeName(r.ip)
    && r.answer.value.membershipView == MembershipNames(cfg.etcdInitialCluster)
  }

  predicate SaysFresh(cfg: Config, r: PeerResult) {
    Recognised(cfg, r) && r.answer.value.pgDataEmpty && r.answer.value.systemId == "" && r.answer.value.etcdDataEmpty
  }

  function ExpectedPeers(cfg: Config): nat {
    |OtherIPs(cfg.etcdInitialCluster, cfg.myName)|
  }

  /** Every expected peer answered and none holds any state. */
  predicate FreshEvidence(cfg: Config, results: seq<PeerResult>) {
    |results| == ExpectedPeers(cfg) && forall i | 0 <= i < |results| :: SaysFresh(cfg, results[i])
  }

  lemma FreshAnswers(cfg: Config, results: seq<PeerResult>)
    ensures FreshEvidence(cfg, results) <==>
            && |results| == |OtherIPs(cfg.etcdInitialCluster, cfg.myName)|
            && forall r | r in results ::
                 && r.answer.Some? && var id := r.answer.value;
                 && id.appName == cfg.appName && id.patroniScope == cfg.patroniScope
                 && id.nodeName == NodeName(r.ip) && id.membershipView == MembershipNames(cfg.etcdInitialCluster)
                 && id.pgDataEmpty && id.systemId == "" && id.etcdDataEmpty
  {
    hide MembershipNames, NodeName, OtherIPs;
    assert forall i | 0 <= i < |results| :: results[i] in results;
  }

  method EvaluateFreshPeerEvidence(cfg: Config, results: seq<PeerResult>) returns (ok: bool)
    ensures ok <==> FreshEvidence(cfg, results)
    // Every expected peer answered for this application, scope, name and view, and is empty.
    ensures ok <==>
            && |results| == |OtherIPs(cfg.etcdInitialCluster, cfg.myName)|
            && forall r | r in results ::
                 && r.answer.Some? && var id := r.answer.value;
                 && id.appName == cfg.appName && id.patroniScope == cfg.patroniScope
                 && id.nodeName == NodeName(r.ip) && id.membershipView == MembershipNames(cfg.etcdInitialCluster)
                 && id.pgDataEmpty && id.systemId == "" && id.etcdDataEmpty
  {
    FreshAnswers(cfg, results);
    hide MembershipNames, NodeName, OtherIPs;
    var others := ParseOtherIPs(cfg.etcdInitialCluster, cfg.myName);
    if |results| != |others| {
      return false;
    }
    var expectedView := ParseMembershipNames(cfg.etcdInitialCluster);
    for i := 0 to |results|
      invariant forall k | 0 <= k < i :: SaysFresh(cfg, results[k])
    {
      if results[i].answer.None? {
        return false;
      }
      var id := results[i].answer.value;
      if id.appName != cfg.appName || id.patroniScope != cfg.patroniScope {
        return false;
      }
      if id.nodeName != NodeName(results[i].ip) {
        return false;
      }
      if !id.pgDataEmpty || id.systemId != "" {
        return false;
      }
      if !id.etcdDataEmpty {
        return false;
      }
      var sameView := EqualStrings(id.membershipView, expectedView);
      if !sameView {
        return false;
      }
    }
    return true;
  }

  // ----- recovery authority: what it means -----

  /** A recognised answer that does not contradict itself about PostgreSQL data. */
  predicate Consistent(cfg: Config, r: PeerResult) {
    Recognised(cfg, r) && var id := r.answer.value;
    if id.pgDataEmpty
    then id.systemId == "" && id.durableRole == "" && id.timeline == 0 && id.walPosition == ""
    else id.systemId != ""
  }

  predicate HoldsData(r: PeerResult) {
    r.answer.Some? && !r.answer.value.pgDataEmpty
  }

  predicate Answered(all: seq<PeerResult>) {
    forall i | 0 <= i < |all| :: all[i].answer.Some?
  }

  predicate EtcdLost(all: seq<PeerResult>)
    requires Answered(all)
  {
    forall i | 0 <= i < |all| :: all[i].answer.value.etcdDataEmpty
  }

  predicate ReadableReplica(id: NodeIdentity) {
    id.durableRole == "replica" && PositionOf(id).Some?
  }

  /** Two replicas of one system whose durable positions lie on one timeline. */
  predicate Comparable(a: NodeIdentity, b: NodeIdentity) {
    && ReadableReplica(a) && ReadableReplica(b)
    && a.systemId == b.systemId
    && a.timeline == b.timeline
  }

  /** Replica a is further ahead than b, or level with it under a lesser name. */
  predicate FurtherThan(a: NodeIdentity, b: NodeIdentity) {
    Comparable(a, b) && var x, y := PositionOf(a).value.lsn, PositionOf(b).value.lsn;
    x > y || (x == y && Less(a.nodeName, b.nodeName))
  }

  /** Replicas at one position under one name; distinct addresses have distinct names. */
  predicate Level(a: NodeIdentity, b: NodeIdentity) {
    Comparable(a, b) && PositionOf(a) == PositionOf(b) && a.nodeName == b.nodeName
  }

  /** Copy a takes precedence over copy b: the primary over a replica, otherwise the replica
      further ahead, otherwise the one that comes first. */
  predicate Outranks(a: NodeIdentity, b: NodeIdentity, first: bool) {
    && b.durableRole == "replica"
    && a.systemId == b.systemId
    && (a.durableRole == "primary" || FurtherThan(a, b) || (first && Level(a, b)))
  }

  lemma OutranksAsymmetric(a: NodeIdentity, b: NodeIdentity, first: bool)
    requires Outranks(a, b, first)
    ensures !Outranks(b, a, !first)
  {
    hide PositionOf;
    if Less(a.nodeName, b.nodeName) { LessAsymmetric(a.nodeName, b.nodeName); }
    LessIrreflexive(a.nodeName);
  }

  /** Copy i may open the epoch: any other copy would need total etcd loss and be outranked. */
  predicate Chosen(all: seq<PeerResult>, i: nat)
    requires Answered(all)
  {
    && i < |all| && HoldsData(all[i])
    && forall j | 0 <= j < |all| && j != i && HoldsData(all[j]) ::
         EtcdLost(all) && Outranks(all[i].answer.value, all[j].answer.value, i < j)
  }

  lemma ChosenUnique(all: seq<PeerResult>, i: nat, j: nat)
    requires Answered(all) && Chosen(all, i) && Chosen(all, j)
    ensures i == j
  {
    if i < j {
      OutranksAsymmetric(all[i].answer.value, all[j].answer.value, true);
    } else if j < i {
      OutranksAsymmetric(all[j].answer.value, all[i].answer.value, true);
    }
  }

  function AuthorityOf(r: PeerResult): Authority
    requires r.answer.Some?
  {
    Authority(r.ip, r.answer.value.nodeName, r.answer.value.systemId)
  }

  function Everyone(cfg: Config, local: NodeIdentity, results: seq<PeerResult>): seq<PeerResult> {
    [PeerResult(cfg.myIP, Some(local))] + results
  }

  predicate AllConsistent(cfg: Config, all: seq<PeerResult>) {
    forall i | 0 <= i < |all| :: Consistent(cfg, all[i])
  }

  /** The node that may open a new epoch, if the evidence allows one to. */
  ghost function RecoveryAuthority(cfg: Config, local: NodeIdentity, results: seq<PeerResult>): Option<Authority> {
    var all := Everyone(cfg, local, results);
    if |results| == ExpectedPeers(cfg) && AllConsistent(cfg, all) && exists i: nat :: Chosen(all, i) then
      var i: nat :| Chosen(all, i);
      Some(AuthorityOf(all[i]))
    else None
  }

  lemma RecoveryAuthorityIs(cfg: Config, local: NodeIdentity, results: seq<PeerResult>, i: nat)
    requires var all := Everyone(cfg, local, results);
             |results| == ExpectedPeers(cfg) && AllConsistent(cfg, all) && Chosen(all, i)
    ensures RecoveryAuthority(cfg, local, results) == Some(AuthorityOf(Everyone(cfg, local, results)[i]))
  {
    hide Outranks, MembershipNames, NodeName;
    var all := Everyone(cfg, local, results);
    assert exists k: nat :: Chosen(all, k);
    var k: nat :| Chosen(all, k) && RecoveryAuthority(cfg, local, results) == Some(AuthorityOf(all[k]));
    ChosenUnique(all, i, k);
  }

  /** What the evaluator accepts, answer by answer: every node answered for this application, scope,
      name and view, and reports data with a system ID, or no data and no metadata. */
  lemma ConsistentAnswers(cfg: Config, all: seq<PeerResult>)
    ensures AllConsistent(cfg, all) <==>
            forall r | r in all ::
              && r.answer.Some? && var id := r.answer.value;
              && id.appName == cfg.appName && id.patroniScope == cfg.patroniScope
              && id.nodeName == NodeName(r.ip) && id.membershipView == MembershipNames(cfg.etcdInitialCluster)
              && if id.pgDataEmpty
                 then id.systemId == "" && id.durableRole == "" && id.timeline == 0 && id.walPosition == ""
                 else id.systemId != ""
  {
    hide MembershipNames, NodeName;
    assert forall i | 0 <= i < |all| :: all[i] in all;
  }

  // ----- recovery authority: how it is computed -----

  /** Copy s leads: it outranks every other copy of the list. */
  predicate Leads(copies: seq<PeerResult>, s: nat)
    requires Answered(copies)
  {
    s < |copies| &&
    forall j | 0 <= j < |copies| && j != s :: Outranks(copies[s].answer.value, copies[j].answer.value, s < j)
  }

  /** Every answer of the list has a readable position, and all lie on one timeline. */
  predicate OneTimeline(list: seq<PeerResult>)
    requires Answered(list)
  {
    && (forall i | 0 <= i < |list| :: PositionOf(list[i].answer.value).Some?)
    && (forall i | 0 <= i < |list| ::
          PositionOf(list[i].answer.value).value.timeline == PositionOf(list[0].answer.value).value.timeline)
  }

  /** Identity a is ahead of b on their timeline: by position, then by name, then by order. */
  predicate Ahead(a: NodeIdentity, b: NodeIdentity, first: bool) {
    PositionOf(a).Some? && PositionOf(b).Some? &&
    var p, q := PositionOf(a).value, PositionOf(b).value;
    p.timeline == q.timeline &&
    (p.lsn > q.lsn || (p.lsn == q.lsn && (Less(a.nodeName, b.nodeName) || (first && a.nodeName == b.nodeName))))
  }

  predicate Furthest(list: seq<PeerResult>, s: nat)
    requires Answered(list)
  {
    s < |list| &&
    forall j | 0 <= j < |list| && j != s :: Ahead(list[s].answer.value, list[j].answer.value, s < j)
  }

  /** selectMostAdvancedReplica: the index of the selected answer. */
  method SelectMostAdvancedReplica(replicas: seq<PeerResult>) returns (selected: Option<nat>)
    requires Answered(replicas)
    ensures selected.Some? <==> replicas != [] && OneTimeline(replicas)
    ensures selected.Some? ==> Furthest(replicas, selected.value)
    // One timeline and readable positions; the greatest position, then the least name, then the first.
    ensures selected.Some? <==> replicas != [] && forall i | 0 <= i < |replicas| ::
              var id := replicas[i].answer.value;
              id.timeline == replicas[0].answer.value.timeline && id.timeline > 0 &&
              ParseLsn(id.walPosition).Some? && ParseLsn(id.walPosition).value > 0
    ensures selected.Some? ==> selected.value < |replicas| && forall j | 0 <= j < |replicas| && j != selected.value ::
              var a, b := replicas[selected.value].answer.value, replicas[j].answer.value;
              var x, y := ParseLsn(a.walPosition), ParseLsn(b.walPosition);
              x.Some? && y.Some? &&
              (x.value > y.value ||
               (x.value == y.value &&
                (Less(a.nodeName, b.nodeName) || (a.nodeName == b.nodeName && selected.value < j))))
  {
    hide Less, ParseLsn;
    if |replicas| == 0 {
      return None;
    }
    var best := Position(0, 0);
    var at := 0;
    for i := 0 to |replicas|
      invariant i == 0 ==> best == Position(0, 0)
      invariant i > 0 ==> at < i && PositionOf(replicas[at].answer.value) == Some(best) && Furthest(replicas[..i], at)
      invariant forall k | 0 <= k < i :: PositionOf(replicas[k].answer.value).Some? &&
                                         PositionOf(replicas[k].answer.value).value.timeline == best.timeline
    {
      var id := replicas[i].answer.value;
      var lsn := ParseLsn(id.walPosition);
      if lsn.None? || id.timeline == 0 || lsn.value == 0 {
        assert PositionOf(replicas[i].answer.value).None?;
        return None;
      }
      var position := Position(id.timeline, lsn.value);
      assert PositionOf(replicas[i].answer.value) == Some(position);
      if best.timeline != 0 && position.timeline != best.timeline {
        return None;
      }
      if best.timeline == 0 || position.lsn > best.lsn ||
         (position.lsn == best.lsn && Less(id.nodeName, replicas[at].answer.value.nodeName)) {
        LeadPasses(replicas, i, at);
        best := position;
        at := i;
      } else {
        LeadStays(replicas, i, at);
      }
    }
    assert replicas[..|replicas|] == replicas;
    return Some(at);
  }

  /** An answer ahead of the furthest one so far is ahead of everyone that one was ahead of. */
  lemma LeadPasses(list: seq<PeerResult>, i: nat, at: nat)
    requires Answered(list) && i < |list|
    requires i > 0 ==> && at < i && Furthest(list[..i], at)
                       && Ahead(list[i].answer.value, list[at].answer.value, false)
    ensures Furthest(list[..i + 1], i)
  {
    hide PositionOf;
    var id := list[i].answer.value;
    forall j | 0 <= j < i ensures Ahead(id, list[j].answer.value, false) {
      if j != at {
        var other, lead := list[j].answer.value, list[at].answer.value;
        assert Ahead(list[..i][at].answer.value, list[..i][j].answer.value, at < j);
        if Less(id.nodeName, lead.nodeName) && Less(lead.nodeName, other.nodeName) {
          LessTransitive(id.nodeName, lead.nodeName, other.nodeName);
        }
      }
    }
  }

  /** An answer on the same timeline that is not ahead of the furthest one leaves it the furthest. */
  lemma LeadStays(list: seq<PeerResult>, i: nat, at: nat)
    requires Answered(list) && at < i < |list| && Furthest(list[..i], at)
    requires PositionOf(list[at].answer.value).Some? && PositionOf(list[i].answer.value).Some?
    requires PositionOf(list[at].answer.value).value.timeline == PositionOf(list[i].answer.value).value.timeline
    requires !Ahead(list[i].answer.value, list[at].answer.value, false)
    ensures Furthest(list[..i + 1], at)
  {
    hide PositionOf;
    var lead, id := list[at].answer.value, list[i].answer.value;
    LessTotal(lead.nodeName, id.nodeName);
    assert Ahead(lead, id, true);
    forall j | 0 <= j < i && j != at ensures Ahead(lead, list[j].answer.value, at < j) {
      assert Ahead(list[..i][at].answer.value, list[..i][j].answer.value, at < j);
    }
  }

  /** Among replicas of one system, the furthest leads; and a leader of several puts all of them on
      one timeline. */
  lemma FurthestLeads(copies: seq<PeerResult>, s: nat)
    requires Answered(copies) && |copies| >= 2
    requires forall k | 0 <= k < |copies| :: copies[k].answer.value.durableRole == "replica"
    requires forall k | 0 <= k < |copies| :: copies[k].answer.value.systemId == copies[0].answer.value.systemId
    ensures Furthest(copies, s) ==> Leads(copies, s)
    ensures Leads(copies, s) ==> OneTimeline(copies)
  {
    hide ParseLsn;
    if Furthest(copies, s) {
      forall j | 0 <= j < |copies| && j != s
        ensures Outranks(copies[s].answer.value, copies[j].answer.value, s < j)
      {
        assert Ahead(copies[s].answer.value, copies[j].answer.value, s < j);
      }
    }
    if Leads(copies, s) {
      var other := if s == 0 then 1 else 0;
      assert forall j | 0 <= j < |copies| && j != s :: Comparable(copies[s].answer.value, copies[j].answer.value);
      assert Comparable(copies[s].answer.value, copies[other].answer.value);
    }
  }

  /** The ranking of several copies after total etcd loss. */
  method RankCopies(copies: seq<PeerResult>) returns (lead: Option<nat>)
    requires Answered(copies) && |copies| >= 2
    ensures lead.Some? ==> Leads(copies, lead.value)
    ensures lead.None? ==> forall i: nat :: !Leads(copies, i)
  {
    hide PositionOf;
    var systemID := copies[0].answer.value.systemId;
    var primary: Option<nat> := None;
    var replicas := [];
    for i := 0 to |copies|
      invariant forall k | 0 <= k < i :: copies[k].answer.value.systemId == systemID
      invariant forall k | 0 <= k < i && Some(k) != primary :: copies[k].answer.value.durableRole == "replica"
      invariant primary.Some? ==> primary.value < i && copies[primary.value].answer.value.durableRole == "primary"
      invariant primary.None? ==> replicas == copies[..i]
    {
      var id := copies[i].answer.value;
      if id.systemId != systemID {
        return None;
      }
      if id.durableRole == "primary" {
        if primary.Some? {
          return None;
        }
        primary := Some(i);
      } else if id.durableRole == "replica" {
        replicas := replicas + [copies[i]];
      } else {
        var other := if i == 0 then 1 else 0;
        assert forall k: nat :: Leads(copies, k) && k != i ==>
            Outranks(copies[k].answer.value, copies[i].answer.value, k < i);
        assert Leads(copies, i) ==> Outranks(copies[i].answer.value, copies[other].answer.value, i < other);
        return None;
      }
    }
    assert copies[..|copies|] == copies;
    if primary.Some? {
      return primary;
    }
    forall k: nat { FurthestLeads(copies, k); }
    lead := SelectMostAdvancedReplica(replicas);
  }

  /** `copies` are exactly the data-bearing answers, found at the increasing positions `at`. */
  ghost predicate Located(all: seq<PeerResult>, copies: seq<PeerResult>, at: seq<nat>) {
    && |at| == |copies|
    && (forall k | 0 <= k < |at| :: at[k] < |all| && all[at[k]] == copies[k] && HoldsData(copies[k]))
    && (forall k, l | 0 <= k < l < |at| :: at[k] < at[l])
    && (forall i | 0 <= i < |all| && HoldsData(all[i]) :: i in at)
  }

  lemma LocatedNone()
    ensures Located([], [], [])
  {
  }

  lemma LocatedStep(all: seq<PeerResult>, i: nat, copies: seq<PeerResult>, at: seq<nat>)
    requires i < |all| && Located(all[..i], copies, at)
    ensures HoldsData(all[i]) ==> Located(all[..i + 1], copies + [all[i]], at + [i])
    ensures !HoldsData(all[i]) ==> Located(all[..i + 1], copies, at)
  {
    assert all[..i + 1] == all[..i] + [all[i]];
    if HoldsData(all[i]) {
      forall k | 0 <= k <= i && HoldsData(all[k]) ensures k in at + [i] {
        if k < i { assert all[..i][k] == all[k]; }
      }
    }
  }

  /** The data-bearing answers in order, with their positions. */
  method GatherCopies(cfg: Config, all: seq<PeerResult>)
    returns (ok: bool, copies: seq<PeerResult>, allEtcdEmpty: bool, ghost at: seq<nat>)
    ensures ok <==> AllConsistent(cfg, all)
    ensures ok <==>
            forall r | r in all ::
              && r.answer.Some? && var id := r.answer.value;
              && id.appName == cfg.appName && id.patroniScope == cfg.patroniScope
              && id.nodeName == NodeName(r.ip) && id.membershipView == MembershipNames(cfg.etcdInitialCluster)
              && if id.pgDataEmpty
                 then id.systemId == "" && id.durableRole == "" && id.timeline == 0 && id.walPosition == ""
                 else id.systemId != ""
    ensures ok ==> Answered(all) && (allEtcdEmpty <==> EtcdLost(all))
    ensures ok ==> Located(all, copies, at)
  {
    ConsistentAnswers(cfg, all);
    var expectedView := ParseMembershipNames(cfg.etcdInitialCluster);
    hide MembershipNames, NodeName, Located;
    LocatedNone();
    copies, at, allEtcdEmpty := [], [], true;
    for i := 0 to |all|
      invariant forall k | 0 <= k < i :: Consistent(cfg, all[k])
      invariant allEtcdEmpty <==> forall k | 0 <= k < i :: all[k].answer.value.etcdDataEmpty
      invariant Located(all[..i], copies, at)
    {
      LocatedStep(all, i, copies, at);
      if all[i].answer.None? {
        return false, [], false, [];
      }
      var id := all[i].answer.value;
      if id.appName != cfg.appName || id.patroniScope != cfg.patroniScope {
        return false, [], false, [];
      }
      if id.nodeName != NodeName(all[i].ip) {
        return false, [], false, [];
      }
      var sameView := EqualStrings(id.membershipView, expectedView);
      if !sameView {
        return false, [], false, [];
      }
      if !id.etcdDataEmpty {
        allEtcdEmpty := false;
      }
      if id.pgDataEmpty {
        if id.systemId != "" || id.durableRole != "" || id.timeline != 0 || id.walPosition != "" {
          return false, [], false, [];
        }
        continue;
      }
      if id.systemId == "" {
        return false, [], false, [];
      }
      copies := copies + [all[i]];
      at := at + [i];
    }
    assert all[..|all|] == all;
    ok := true;
  }

  lemma ChosenByCopies(all: seq<PeerResult>, copies: seq<PeerResult>, at: seq<nat>, k: nat)
    requires Answered(all) && Located(all, copies, at) && k < |copies|
    ensures Chosen(all, at[k]) <==> |copies| == 1 || (EtcdLost(all) && Leads(copies, k))
  {
    if Chosen(all, at[k]) && |copies| != 1 {
      forall l | 0 <= l < |copies| && l != k
        ensures EtcdLost(all) && Outranks(copies[k].answer.value, copies[l].answer.value, k < l)
      {
        assert at[k] != at[l] && all[at[l]] == copies[l];
      }
      assert k == 0 || k == 1 || 0 != k;
      var other := if k == 0 then 1 else 0;
      assert all[at[other]] == copies[other];
    }
  }

  /** evaluateRecoveryAuthority. */
  method EvaluateRecoveryAuthority(cfg: Config, local: NodeIdentity, results: seq<PeerResult>)
    returns (authority: Option<Authority>)
    ensures authority == RecoveryAuthority(cfg, local, results)
    // One doubtful answer refuses; the authority is one of those that hold data.
    ensures authority.Some? ==>
              && |results| == |OtherIPs(cfg.etcdInitialCluster, cfg.myName)|
              && (forall r | r in [PeerResult(cfg.myIP, Some(local))] + results ::
                    && r.answer.Some? && var id := r.answer.value;
                    && id.appName == cfg.appName && id.patroniScope == cfg.patroniScope
                    && id.nodeName == NodeName(r.ip) && id.membershipView == MembershipNames(cfg.etcdInitialCluster)
                    && if id.pgDataEmpty
                       then id.systemId == "" && id.durableRole == "" && id.timeline == 0 && id.walPosition == ""
                       else id.systemId != "")
              && exists r | r in [PeerResult(cfg.myIP, Some(local))] + results ::
                   r.answer.Some? && !r.answer.value.pgDataEmpty && authority == Some(AuthorityOf(r))
  {
    var others := ParseOtherIPs(cfg.etcdInitialCluster, cfg.myName);
    if |results| != |others| {
      return None;
    }
    var all := [PeerResult(cfg.myIP, Some(local))] + results;
    var ok, copies, allEtcdEmpty, at := GatherCopies(cfg, all);
    if !ok {
      return None;
    }
    if |copies| == 0 {
      return None;
    }
    if |copies| == 1 {
      ChosenByCopies(all, copies, at, 0);
      RecoveryAuthorityIs(cfg, local, results, at[0]);
      return Some(AuthorityOf(copies[0]));
    }
    NobodyChosen(all, copies, at);
    if !allEtcdEmpty {
      return None;
    }
    var lead := RankCopies(copies);
    if lead.None? {
      return None;
    }
    ChosenByCopies(all, copies, at, lead.value);
    RecoveryAuthorityIs(cfg, local, results, at[lead.value]);
    return Some(AuthorityOf(copies[lead.value]));
  }

  lemma NobodyChosen(all: seq<PeerResult>, copies: seq<PeerResult>, at: seq<nat>)
    requires Answered(all) && Located(all, copies, at) && |copies| != 1
    ensures (!EtcdLost(all) || forall k: nat :: !Leads(copies, k)) ==> forall i: nat :: !Chosen(all, i)
  {
    if !EtcdLost(all) || forall k: nat :: !Leads(copies, k) {
      forall i: nat ensures !Chosen(all, i) {
        if i in at {
          var k :| 0 <= k < |at| && at[k] == i;
          ChosenByCopies(all, copies, at, k);
        }
      }
    }
  }
}
