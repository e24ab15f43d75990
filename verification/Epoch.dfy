/** The whole cluster after total etcd loss: every interleaving of probing, deciding, launching,
    joining, cloning and rejoining starts a new epoch on at most one node. */
module Epoch {
  import opened Text
  import opened Settings
  import opened Topology
  import opened WalPosition
  import opened Identity
  import opened Agreement
  import opened Bootstrap

  // ----- the system -----

  /** Where a node's etcd-start process is: not deciding, collecting a round of answers (each read
      at its own time), or cleared to launch with state "new". */
  datatype Proc =
    | Idle
    | Probing(path: Path, round: nat, heard: map<string, Option<NodeIdentity>>, confirmed: Option<Authority>)
    | Cleared

  /** `hadDatabase` records whether the node's etcd ever had a database in this run. */
  datatype Node = Node(host: Host, hadDatabase: bool, proc: Proc)

  /** `founders` are the nodes that launched etcd with state "new" in this run. */
  datatype Cluster = Cluster(nodes: map<string, Node>, founders: set<string>)

  datatype Step =
    | Begin(node: string)
    | Hear(node: string, peer: string, answer: Option<NodeIdentity>)
    | Conclude(node: string)
    | Abandon(node: string)
    | LaunchNew(node: string, dir: EtcdDir)
    | JoinExisting(node: string, dir: EtcdDir)
    | ChangeData(node: string, pg: PGData)
    | Wipe(node: string, left: EtcdDir)

  function Hosts(c: Cluster): (hosts: map<string, Host>)
    ensures hosts.Keys == c.nodes.Keys
    ensures forall ip | ip in hosts :: hosts[ip] == c.nodes[ip].host
  {
    map ip | ip in c.nodes :: c.nodes[ip].host
  }

  function IdentityOf(h: Host): NodeIdentity {
    LocalIdentity(h.cfg, h.pg, h.etcd)
  }

  /** What a probe of a peer can bring back: nothing, the peer's identity at that moment, or, from
      a peer on an older image whose Patroni answers, the evidence assembled for it. */
  predicate CanAnswer(asker: Config, peer: string, h: Host, answer: Option<NodeIdentity>) {
    || answer == None
    || answer == Some(IdentityOf(h))
    || (!h.pg.isEmpty && h.pg.control.Some? &&
        answer == Some(LegacyIdentity(asker, peer, h.pg.control.value.systemId)))
  }

  function Collected(heard: map<string, Option<NodeIdentity>>, ips: seq<string>): (r: seq<PeerResult>)
    ensures |r| == |ips|
    ensures forall i | 0 <= i < |r| :: r[i] == PeerResult(ips[i], if ips[i] in heard then heard[ips[i]] else None)
  {
    if ips == [] then []
    else [PeerResult(ips[0], if ips[0] in heard then heard[ips[0]] else None)] + Collected(heard, ips[1..])
  }

  /** The process after a round: start over, go on confirming, or be cleared. */
  ghost function AfterRound(ips: seq<string>, ip: string, n: Node): Proc
    requires n.proc.Probing?
  {
    var cfg, p := n.host.cfg, n.proc;
    var results := Collected(p.heard, Without(ips, ip));
    var last := p.round + 1 >= Cycles(cfg);
    if p.path == FreshPath then
      if !FreshEvidence(cfg, results) then Idle
      else if last then Cleared else Probing(FreshPath, p.round + 1, map[], None)
    else
      var verdict := RecoveryAuthority(cfg, IdentityOf(n.host), results);
      if verdict.None? || (p.round > 0 && verdict != p.confirmed) then Idle
      else if !last then Probing(RecoveryPath, p.round + 1, map[], verdict)
      else if verdict.value.ip == ip then Cleared else Idle
  }

  function WithEtcd(n: Node, dir: EtcdDir): Node {
    n.(host := n.host.(etcd := dir), hadDatabase := n.hadDatabase || dir.Database?)
  }

  /** A launch may leave the directory as it was or further along, never emptier. */
  predicate Advances(before: EtcdDir, after: EtcdDir) {
    (after.Fresh? ==> before.Fresh?) && (before.Database? ==> after.Database?)
  }

  /** Another node than this one holds data. */
  predicate DataElsewhere(c: Cluster, ip: string) {
    exists other :: other in c.nodes && other != ip && !c.nodes[other].host.pg.isEmpty
  }

  /** When wiping a node's etcd directory is safe: a directory without a database always; a database
      only of a node that did not open the epoch, and not of the last holder of data. */
  predicate WipeGuard(c: Cluster, ip: string)
    requires ip in c.nodes
  {
    c.nodes[ip].host.etcd.Database? ==> ip !in c.founders && (c.nodes[ip].host.pg.isEmpty || DataElsewhere(c, ip))
  }

  /** One step: it changes its own node and, on a launch with state "new", the founders. */
  ghost predicate Next(ips: seq<string>, c: Cluster, d: Cluster, step: Step) {
    && step.node in c.nodes
    && d.nodes.Keys == c.nodes.Keys
    && (forall ip | ip in c.nodes && ip != step.node :: d.nodes[ip] == c.nodes[ip])
    && d.founders == (if step.LaunchNew? then c.founders + {step.node} else c.founders)
    && NodeNext(ips, c, step, c.nodes[step.node], d.nodes[step.node])
  }

  ghost predicate NodeNext(ips: seq<string>, c: Cluster, step: Step, n: Node, m: Node) {
    match step
    case Begin(ip) =>
      var path := BootstrapPath(n.host.cfg, n.host.pg, n.host.etcd);
      && n.proc.Idle? && (path == FreshPath || path == RecoveryPath)
      && m == n.(proc := Probing(path, 0, map[], None))
    case Hear(ip, peer, answer) =>
      && n.proc.Probing? && peer in c.nodes && peer != ip
      && CanAnswer(n.host.cfg, peer, c.nodes[peer].host, answer)
      && m == n.(proc := n.proc.(heard := n.proc.heard[peer := answer]))
    case Conclude(ip) =>
      n.proc.Probing? && m == n.(proc := AfterRound(ips, ip, n))
    case Abandon(ip) =>
      m == n.(proc := Idle)
    case LaunchNew(ip, dir) =>
      && n.proc.Cleared? && Advances(n.host.etcd, dir)
      && m == WithEtcd(n, dir).(proc := Idle)
    case JoinExisting(ip, dir) =>
      && n.proc.Idle? && !n.host.etcd.Database? && Advances(n.host.etcd, dir)
      && (exists live | live in c.nodes && live != ip :: c.nodes[live].host.etcd.Database?)
      && m == WithEtcd(n, dir)
    case ChangeData(ip, pg) =>
      // Patroni runs PostgreSQL only on a node whose own etcd has its database; data is not lost.
      && n.host.etcd.Database? && Plausible(pg) && (!n.host.pg.isEmpty ==> !pg.isEmpty)
      && m == n.(host := n.host.(pg := pg))
    case Wipe(ip, left) =>
      // The daemon, or etcd-start itself, wipes a node's etcd directory for a clean rejoin.
      && ip in c.nodes && WipeGuard(c, ip) && !left.Database?
      && m == n.(host := n.host.(etcd := left), proc := Idle)
  }

  // ----- what may happen -----

  function WithNode(c: Cluster, ip: string, m: Node): Cluster {
    c.(nodes := c.nodes[ip := m])
  }

  /** Any probe may fail, bring the peer's identity of that moment, or its legacy answer. */
  lemma AnyAnswer(ips: seq<string>, c: Cluster, ip: string, peer: string, answer: Option<NodeIdentity>)
    requires ip in c.nodes && peer in c.nodes && peer != ip && c.nodes[ip].proc.Probing?
    requires var h := c.nodes[peer].host;
             || answer == None || answer == Some(LocalIdentity(h.cfg, h.pg, h.etcd))
             || (!h.pg.isEmpty && h.pg.control.Some? &&
                 answer == Some(LegacyIdentity(c.nodes[ip].host.cfg, peer, h.pg.control.value.systemId)))
    ensures var n := c.nodes[ip];
            Next(ips, c, WithNode(c, ip, n.(proc := n.proc.(heard := n.proc.heard[peer := answer]))),
                 Hear(ip, peer, answer))
  {
    hide LocalIdentity, LegacyIdentity;
  }

  /** An idle node may begin to decide, a round may end at any time, and a process may die at any time. */
  lemma AnyProcess(ips: seq<string>, c: Cluster, ip: string)
    requires ip in c.nodes
    ensures var n := c.nodes[ip];
            var path := BootstrapPath(n.host.cfg, n.host.pg, n.host.etcd);
            && (n.proc.Idle? && (path == FreshPath || path == RecoveryPath) ==>
                  Next(ips, c, WithNode(c, ip, n.(proc := Probing(path, 0, map[], None))), Begin(ip)))
            && (n.proc.Probing? ==> Next(ips, c, WithNode(c, ip, n.(proc := AfterRound(ips, ip, n))), Conclude(ip)))
            && Next(ips, c, WithNode(c, ip, n.(proc := Idle)), Abandon(ip))
  {
    hide BootstrapPath, AfterRound;
  }

  /** A launch may leave its directory as it was, begun, or with a database: a cleared node's launch with
      state "new", and any idle node's join while another node has a database. */
  lemma AnyLaunch(ips: seq<string>, c: Cluster, ip: string, dir: EtcdDir)
    requires ip in c.nodes
    requires dir == c.nodes[ip].host.etcd || dir.Database? || (c.nodes[ip].host.etcd.Fresh? && dir.Partial?)
    ensures var n := c.nodes[ip];
            var m := n.(host := n.host.(etcd := dir), hadDatabase := n.hadDatabase || dir.Database?);
            && (n.proc.Cleared? ==>
                  Next(ips, c, WithNode(c, ip, m.(proc := Idle)).(founders := c.founders + {ip}), LaunchNew(ip, dir)))
            && (n.proc.Idle? && !n.host.etcd.Database? &&
                (exists live | live in c.nodes && live != ip :: c.nodes[live].host.etcd.Database?) ==>
                  Next(ips, c, WithNode(c, ip, m), JoinExisting(ip, dir)))
  {
  }

  /** While a node's etcd has its database, its data may become any other; and an etcd directory may be
      wiped, without a database always, with one unless the node opened the epoch or holds the last data. */
  lemma AnyDisk(ips: seq<string>, c: Cluster, ip: string, pg: PGData, left: EtcdDir)
    requires ip in c.nodes
    ensures var n := c.nodes[ip];
            && (n.host.etcd.Database? && (pg.hasGlobal ==> !pg.isEmpty) && (pg.isEmpty ==> n.host.pg.isEmpty) ==>
                  Next(ips, c, WithNode(c, ip, n.(host := n.host.(pg := pg))), ChangeData(ip, pg)))
            && (!left.Database? &&
                (n.host.etcd.Database? ==>
                   && ip !in c.founders
                   && (n.host.pg.isEmpty ||
                       exists other | other in c.nodes && other != ip :: !c.nodes[other].host.pg.isEmpty)) ==>
                  Next(ips, c, WithNode(c, ip, n.(host := n.host.(etcd := left), proc := Idle)), Wipe(ip, left)))
  {
  }

  /** Total etcd loss: no database anywhere, nobody deciding, no epoch opened. */
  ghost predicate Lost(ips: seq<string>, c: Cluster) {
    && SharedView(ips, Hosts(c)) && ips != [] && c.founders == {}
    && forall ip | ip in c.nodes :: c.nodes[ip].proc.Idle? && !c.nodes[ip].hadDatabase &&
        !c.nodes[ip].host.etcd.Database?
  }

  // ----- the process and the decision it carries out -----

  /** The process of a node after k rounds that heard these answers. */
  ghost function ProcAfter(ips: seq<string>, ip: string, h: Host, path: Path,
                           heard: nat -> map<string, Option<NodeIdentity>>, k: nat): Proc {
    if k == 0 then Probing(path, 0, map[], None)
    else
      var p := ProcAfter(ips, ip, h, path, heard, k - 1);
      if p.Probing? then AfterRound(ips, ip, Node(h, false, p.(heard := heard(k - 1)))) else p
  }

  function RoundsHeard(ips: seq<string>, ip: string, h: Host, heard: nat -> map<string, Option<NodeIdentity>>)
    : nat -> Round
  {
    (k: nat) => Round(IdentityOf(h), Collected(heard(k), Without(ips, ip)))
  }

  /** The first k rounds all found the cluster fresh. */
  ghost predicate AllFresh(cfg: Config, rounds: nat -> Round, k: nat) {
    forall j | 0 <= j < k :: FreshEvidence(cfg, rounds(j).results)
  }

  /** The first k rounds all named one authority. */
  ghost predicate AllAgree(cfg: Config, rounds: nat -> Round, k: nat) {
    Verdict(cfg, rounds(0)).Some? && forall j | 0 <= j < k :: Verdict(cfg, rounds(j)) == Verdict(cfg, rounds(0))
  }

  lemma RoundsSplit(ips: seq<string>, ip: string, h: Host, heard: nat -> map<string, Option<NodeIdentity>>, k: nat)
    requires k > 0
    ensures var cfg, rounds := h.cfg, RoundsHeard(ips, ip, h, heard);
      rounds(k - 1) == Round(IdentityOf(h), Collected(heard(k - 1), Without(ips, ip))) &&
      (AllFresh(cfg, rounds, k) <==> AllFresh(cfg, rounds, k - 1) && FreshEvidence(cfg, rounds(k - 1).results)) &&
      (AllAgree(cfg, rounds, k) <==>
         AllAgree(cfg, rounds, k - 1) && Verdict(cfg, rounds(k - 1)) == Verdict(cfg, rounds(0)))
  {
    hide FreshEvidence, RecoveryAuthority, IdentityOf, Without;
  }

  lemma {:induction false} ProcessFollows(ips: seq<string>, ip: string, h: Host, path: Path,
                                          heard: nat -> map<string, Option<NodeIdentity>>, k: nat)
    requires path == FreshPath || path == RecoveryPath
    requires k < Cycles(h.cfg)
    ensures var rounds := RoundsHeard(ips, ip, h, heard);
      ProcAfter(ips, ip, h, path, heard, k) ==
        if k == 0 then Probing(path, 0, map[], None)
        else if path == FreshPath then
          if AllFresh(h.cfg, rounds, k) then Probing(path, k, map[], None) else Idle
        else if AllAgree(h.cfg, rounds, k) then Probing(path, k, map[], Verdict(h.cfg, rounds(0))) else Idle
  {
    hide FreshEvidence, RecoveryAuthority, IdentityOf, Without, RoundsHeard;
    if k > 0 {
      ProcessFollows(ips, ip, h, path, heard, k - 1);
      RoundsSplit(ips, ip, h, heard, k);
    }
  }

  lemma ProcessClears(ips: seq<string>, ip: string, h: Host, path: Path, heard: nat -> map<string,
                      Option<NodeIdentity>>)
    requires path == FreshPath || path == RecoveryPath
    ensures var rounds, cycles := RoundsHeard(ips, ip, h, heard), Cycles(h.cfg);
      ProcAfter(ips, ip, h, path, heard, cycles) == Cleared <==>
        if path == FreshPath then AllFresh(h.cfg, rounds, cycles)
        else AllAgree(h.cfg, rounds, cycles) && Verdict(h.cfg, rounds(0)).value.ip == ip
  {
    hide FreshEvidence, RecoveryAuthority, IdentityOf, Without;
    ProcessFollows(ips, ip, h, path, heard, Cycles(h.cfg) - 1);
    RoundsSplit(ips, ip, h, heard, Cycles(h.cfg));
  }

  /** A process is cleared after its last round exactly when decideBootstrap, given the same answers,
      would say "new". */
  lemma ProcessRefinesDecision(ips: seq<string>, ip: string, h: Host, path: Path,
                               heard: nat -> map<string, Option<NodeIdentity>>, evidence: Evidence)
    requires Formed(h.cfg, ips) && h.cfg.myIP == ip && !h.cfg.allowNewClusterBootstrap && Plausible(h.pg)
    requires path == BootstrapPath(h.cfg, h.pg, h.etcd) && (path == FreshPath || path == RecoveryPath)
    requires var rounds := RoundsHeard(ips, ip, h, heard);
             evidence.recovery == rounds && forall k: nat :: evidence.peers(k) == rounds(k).results
    ensures ProcAfter(ips, ip, h, path, heard, Cycles(h.cfg)) == Cleared <==>
        MayBootstrap(h.cfg, h.pg, h.etcd, evidence)
  {
    hide FreshEvidence, RecoveryAuthority, IdentityOf, InitialCluster, NodeName, BootstrapCandidate, OtherIPs,
         ProcAfter;
    ProcessClears(ips, ip, h, path, heard);
    if path == FreshPath { PeersExpected(h.cfg, ips); }
  }

  lemma PeersExpected(cfg: Config, ips: seq<string>)
    requires Formed(cfg, ips) && |Split(cfg.etcdInitialCluster, ',')| > 1
    ensures ExpectedPeers(cfg) > 0
  {
    hide InitialCluster, NodeName, NodeNames, MembershipNames, BootstrapCandidate, OtherIPs, Without;
    TopologyRoundTrip(cfg, ips, cfg.myIP);
    MemberPartsRoundTrip(cfg, ips);
    var other := if ips[0] == cfg.myIP then ips[1] else ips[0];
    LessIrreflexive(ips[0]);
    assert other in ips && other != cfg.myIP;
    assert other in Without(ips, cfg.myIP);
  }

  // ----- the invariant -----

  /** Two identities that agree on everything but the etcd directory. */
  predicate SameData(a: NodeIdentity, b: NodeIdentity) {
    a.(etcdDataEmpty := b.etcdDataEmpty) == b
  }

  /** The hosts of the loss with what is left of their etcd directories swept away. */
  function Swept(hosts: map<string, Host>): (r: map<string, Host>)
    ensures r.Keys == hosts.Keys
    ensures forall ip | ip in hosts :: r[ip] == hosts[ip].(etcd := Fresh)
  {
    map ip | ip in hosts :: hosts[ip].(etcd := Fresh)
  }

  ghost predicate AllFreshDirs(s: map<string, Host>) {
    forall ip | ip in s :: s[ip].etcd.Fresh?
  }

  /** The hosts are those of the loss, changed only as their etcd allows. */
  ghost predicate HostsInv(ips: seq<string>, s: map<string, Host>, c: Cluster) {
    && c.nodes.Keys == s.Keys
    && (forall ip | ip in ips :: ip in c.nodes && HostInv(s[ip], c.nodes[ip]))
    && (c.founders == {} ==> forall ip | ip in ips :: !c.nodes[ip].hadDatabase)
  }

  predicate HostInv(s: Host, n: Node) {
    && n.host.cfg == s.cfg && Plausible(n.host.pg)
    && (n.host.etcd.Database? ==> n.hadDatabase && n.proc.Idle?)
    && (!n.hadDatabase ==> n.host.pg == s.pg)
    && (!s.pg.isEmpty ==> !n.host.pg.isEmpty)
    && (n.proc.Probing? ==> n.proc.path == BootstrapPath(n.host.cfg, n.host.pg, n.host.etcd) &&
                            (n.proc.path == FreshPath || n.proc.path == RecoveryPath))
  }

  predicate FounderAlive(c: Cluster, founder: string) {
    founder in c.founders && founder in c.nodes && c.nodes[founder].host.etcd.Database?
  }

  /** Only nodes the evidence of the loss admits have opened an epoch or are cleared to; the one it
      admits never loses its database, and it has one whenever anybody ever had. */
  ghost predicate FoundersInv(ips: seq<string>, s: map<string, Host>, c: Cluster)
    requires SharedView(ips, s) && HostsInv(ips, s, c)
  {
    && (forall x | x in c.founders :: x in ips && MayOpen(ips, s, x))
    && (forall ip | ip in ips && c.nodes[ip].proc.Cleared? :: MayOpen(ips, s, ip))
    && (forall ip | ip in ips && MayOpen(ips, s, ip) && c.nodes[ip].hadDatabase :: c.nodes[ip].host.etcd.Database?)
    && (forall ip | ip in ips && c.nodes[ip].hadDatabase :: exists founder :: FounderAlive(c, founder))
  }

  /** A node that lost its database and holds data. */
  predicate LostCopy(n: Node) {
    n.hadDatabase && !n.host.etcd.Database? && !n.host.pg.isEmpty
  }

  /** Another node holds data, and this one has not heard otherwise. */
  predicate CoveredBy(c: Cluster, ip: string, other: string)
    requires ip in c.nodes
  {
    && other in c.nodes && other != ip && !c.nodes[other].host.pg.isEmpty
    && (c.nodes[ip].proc.Probing? && other in c.nodes[ip].proc.heard && c.nodes[ip].proc.heard[other].Some? ==>
          !c.nodes[ip].proc.heard[other].value.pgDataEmpty)
  }

  /** Whoever lost its database with its data is not the only one to hold data. */
  ghost predicate CopiesInv(ips: seq<string>, c: Cluster) {
    forall ip | ip in ips && ip in c.nodes && LostCopy(c.nodes[ip]) :: exists other :: CoveredBy(c, ip, other)
  }

  /** What one answer about a node may say, given who asks and whether an epoch is open. */
  ghost predicate HeardInv(ips: seq<string>, s: map<string, Host>, c: Cluster, asker: string, peer: string,
                           id: NodeIdentity)
    requires SharedView(ips, s) && HostsInv(ips, s, c) && asker in ips && peer in ips
  {
    && (c.founders == {} ==> SameData(id, IdentityOf(s[peer])) || id.membershipView == [])
    && (MayOpen(ips, s, peer) ==>
          && (id.etcdDataEmpty ==> SameData(id, IdentityOf(s[peer])))
          && (!s[peer].pg.isEmpty ==> !id.pgDataEmpty))
    && (peer in c.founders && c.nodes[asker].hadDatabase ==> !id.etcdDataEmpty)
  }

  ghost predicate EvidenceInv(ips: seq<string>, s: map<string, Host>, c: Cluster)
    requires SharedView(ips, s) && HostsInv(ips, s, c)
  {
    forall asker, peer | asker in ips && c.nodes[asker].proc.Probing? && peer in c.nodes[asker].proc.heard ::
      peer in ips &&
      var answer := c.nodes[asker].proc.heard[peer];
      answer.Some? ==> HeardInv(ips, s, c, asker, peer, answer.value)
  }

  ghost predicate Inv(ips: seq<string>, s: map<string, Host>, c: Cluster) {
    && SharedView(ips, s) && AllFreshDirs(s) && ips != []
    && HostsInv(ips, s, c) && FoundersInv(ips, s, c) && CopiesInv(ips, c) && EvidenceInv(ips, s, c)
  }

  lemma LostEstablishes(ips: seq<string>, c: Cluster)
    requires Lost(ips, c)
    ensures Inv(ips, Swept(Hosts(c)), c)
  {
    hide MayOpen, Formed;
  }

  // ----- concluding a round -----

  /** The answers of a round, put together as if they had been one snapshot. */
  function Assembled(ip: string, local: NodeIdentity, heard: map<string, Option<NodeIdentity>>)
    : (net: map<string, NodeIdentity>)
    ensures ip in net && net[ip] == local
    ensures forall x | x in net && x != ip :: x in heard && heard[x] == Some(net[x])
    ensures forall x | x in heard && x != ip && heard[x].Some? :: x in net
  {
    (map x | x in heard && heard[x].Some? :: heard[x].value)[ip := local]
  }

  lemma AssembledAnswers(ips: seq<string>, ip: string, local: NodeIdentity, heard: map<string, Option<NodeIdentity>>)
    ensures Answers(Assembled(ip, local, heard), Without(ips, ip)) == Collected(heard, Without(ips, ip))
  {
    var net, others := Assembled(ip, local, heard), Without(ips, ip);
    forall i | 0 <= i < |others| ensures Answers(net, others)[i] == Collected(heard, others)[i] {
      assert others[i] in others;
    }
  }

  lemma AcceptedFresh(cfg: Config, ips: seq<string>, results: seq<PeerResult>, k: nat)
    requires MembershipNames(cfg.etcdInitialCluster) == NodeNames(ips)
    requires FreshEvidence(cfg, results) && k < |results|
    ensures results[k].answer.Some? && results[k].answer.value.membershipView == NodeNames(ips)
    ensures results[k].answer.value.pgDataEmpty && results[k].answer.value.etcdDataEmpty
  {
    hide MembershipNames, NodeNames, NodeName, ExpectedPeers;
    assert SaysFresh(cfg, results[k]);
  }

  lemma AcceptedCopy(cfg: Config, ips: seq<string>, local: NodeIdentity, results: seq<PeerResult>, k: nat)
    requires MembershipNames(cfg.etcdInitialCluster) == NodeNames(ips)
    requires RecoveryAuthority(cfg, local, results).Some? && k < |results|
    ensures results[k].answer.Some? && results[k].answer.value.membershipView == NodeNames(ips)
  {
    hide MembershipNames, NodeNames, NodeName, ExpectedPeers, Chosen;
    assert Everyone(cfg, local, results)[k + 1] == results[k];
    assert Consistent(cfg, results[k]);
  }

  /** What clearance says about the last round. */
  lemma ClearedRound(ips: seq<string>, ip: string, n: Node)
    requires n.proc.Probing? && AfterRound(ips, ip, n).Cleared?
    ensures var results := Collected(n.proc.heard, Without(ips, ip));
      if n.proc.path == FreshPath then FreshEvidence(n.host.cfg, results)
      else RecoveryAuthority(n.host.cfg, IdentityOf(n.host), results).Some? &&
           RecoveryAuthority(n.host.cfg, IdentityOf(n.host), results).value.ip == ip
  {
    hide FreshEvidence, RecoveryAuthority, Cycles, Collected, Without, IdentityOf;
  }

  /** A round that ends in clearance, as evidence: every peer's answer is recognised. */
  lemma AcceptedRound(ips: seq<string>, ip: string, n: Node, peer: string)
    requires Formed(n.host.cfg, ips) && n.host.cfg.myIP == ip && n.proc.Probing?
    requires AfterRound(ips, ip, n).Cleared? && peer in ips && peer != ip
    ensures peer in n.proc.heard && n.proc.heard[peer].Some?
    ensures n.proc.heard[peer].value.membershipView == NodeNames(ips)
    ensures n.proc.path == FreshPath ==>
              n.proc.heard[peer].value.pgDataEmpty && n.proc.heard[peer].value.etcdDataEmpty
  {
    hide NodeName, MembershipNames, Without, OtherIPs, InitialCluster, NodeNames, AfterRound, FreshEvidence,
         RecoveryAuthority, IdentityOf;
    var cfg, others := n.host.cfg, Without(ips, ip);
    var results := Collected(n.proc.heard, others);
    FormedEveryone(cfg, ips, IdentityOf(n.host), results);
    assert peer in others;
    var k :| 0 <= k < |others| && others[k] == peer;
    ClearedRound(ips, ip, n);
    if n.proc.path == FreshPath {
      AcceptedFresh(cfg, ips, results, k);
    } else {
      AcceptedCopy(cfg, ips, IdentityOf(n.host), results, k);
    }
  }

  /** A cleared recovery round is one in which this node wins over the assembled answers. */
  lemma AcceptedRecovery(ips: seq<string>, ip: string, n: Node)
    requires Formed(n.host.cfg, ips) && n.host.cfg.myIP == ip && n.proc.Probing?
    requires AfterRound(ips, ip, n).Cleared? && n.proc.path != FreshPath
    ensures var net := Assembled(ip, IdentityOf(n.host), n.proc.heard);
            Asked(n.host.cfg, net).Some? && Asked(n.host.cfg, net).value.ip == ip
  {
    hide RecoveryAuthority, MembershipNames, InitialCluster, NodeNames, Without, AfterRound, IdentityOf;
    ClearedRound(ips, ip, n);
    var net := Assembled(ip, IdentityOf(n.host), n.proc.heard);
    AskedEveryone(n.host.cfg, ips, net);
    AssembledAnswers(ips, ip, IdentityOf(n.host), n.proc.heard);
  }

  lemma CandidateIsFirst(cfg: Config, ips: seq<string>)
    requires Formed(cfg, ips) && cfg.myName == BootstrapCandidate(cfg.etcdInitialCluster)
    ensures cfg.myIP == ips[0]
  {
    hide InitialCluster, MembershipNames, OtherIPs, NodeName, Without, NodeNames;
    TopologyRoundTrip(cfg, ips, cfg.myIP);
    NodeNameOrder(cfg.myIP, ips[0]);
  }

  lemma OutranksSameData(a: NodeIdentity, b: NodeIdentity, a': NodeIdentity, b': NodeIdentity)
    requires SameData(a, a') && SameData(b, b')
    ensures Outranks(a, b, false) <==> Outranks(a', b', false)
  {
    hide ParseLsn;
  }

  lemma OutranksExcludes(a: NodeIdentity, b: NodeIdentity)
    ensures !(Outranks(a, b, false) && Outranks(b, a, false))
  {
    hide PositionOf;
    if Outranks(a, b, false) {
      OutranksAsymmetric(a, b, false);
    }
  }

  /** Nets of the same data, the second with every etcd directory empty. */
  ghost predicate Sweeps(ips: seq<string>, net: map<string, NodeIdentity>, swept: map<string, NodeIdentity>) {
    forall ip | ip in ips :: ip in net && ip in swept && SameData(net[ip], swept[ip]) && swept[ip].etcdDataEmpty
  }

  lemma SweptConsistent(cfg: Config, ip: string, a: NodeIdentity, b: NodeIdentity)
    requires SameData(a, b)
    ensures Consistent(cfg, PeerResult(ip, Some(a))) <==> Consistent(cfg, PeerResult(ip, Some(b)))
    ensures HoldsData(PeerResult(ip, Some(a))) <==> HoldsData(PeerResult(ip, Some(b)))
  {
    hide MembershipNames, NodeName;
  }

  lemma SweptAllConsistent(cfg: Config, ips: seq<string>, net: map<string, NodeIdentity>, swept: map<string,
                           NodeIdentity>,
                           all: seq<PeerResult>, clean: seq<PeerResult>)
    requires Sweeps(ips, net, swept) && AllConsistent(cfg, all)
    requires forall r :: r in all <==> r.ip in ips && r == Answer(net, r.ip)
    requires forall r :: r in clean <==> r.ip in ips && r == Answer(swept, r.ip)
    ensures AllConsistent(cfg, clean)
  {
    hide Consistent, SameData;
    forall k | 0 <= k < |clean| ensures Consistent(cfg, clean[k]) {
      assert clean[k] in clean;
      var ip := clean[k].ip;
      assert Answer(net, ip) in all;
      var i :| 0 <= i < |all| && all[i] == Answer(net, ip);
      assert Consistent(cfg, all[i]);
      SweptConsistent(cfg, ip, net[ip], swept[ip]);
    }
  }

  /** An authority of a snapshot remains one when the leftovers of etcd are swept away. */
  lemma AuthoritySurvivesSweep(cfg: Config, ips: seq<string>, net: map<string, NodeIdentity>, swept: map<string,
                               NodeIdentity>)
    requires Formed(cfg, ips) && Sweeps(ips, net, swept) && Asked(cfg, net).Some?
    ensures cfg.myIP in swept && Asked(cfg, swept) == Asked(cfg, net)
  {
    hide MembershipNames, OtherIPs, NodeName, Outranks, InitialCluster, NodeNames, Without, RecoveryAuthority,
         Consistent, SameData;
    AskedEveryone(cfg, ips, net);
    AskedEveryone(cfg, ips, swept);
    var others := Without(ips, cfg.myIP);
    var all, clean := Everyone(cfg, net[cfg.myIP], Answers(net, others)),
        Everyone(cfg, swept[cfg.myIP], Answers(swept, others));
    var a := Asked(cfg, net).value;
    AuthorityIsWinner(cfg, net[cfg.myIP], Answers(net, others), a);
    SweptAllConsistent(cfg, ips, net, swept, all, clean);
    AddressesNameNodes(cfg, clean);
    var r :| Wins(all, r) && a == AuthorityOf(r);
    SweptWinner(cfg, ips, net, swept, all, clean, r);
    AuthorityIsWinner(cfg, swept[cfg.myIP], Answers(swept, others), a);
  }

  lemma SweptWinner(cfg: Config, ips: seq<string>, net: map<string, NodeIdentity>, swept: map<string, NodeIdentity>,
                    all: seq<PeerResult>, clean: seq<PeerResult>, r: PeerResult)
    requires Sweeps(ips, net, swept) && Answered(all) && Answered(clean) && Wins(all, r)
    requires forall x :: x in all <==> x.ip in ips && x == Answer(net, x.ip)
    requires forall x :: x in clean <==> x.ip in ips && x == Answer(swept, x.ip)
    ensures Wins(clean, Answer(swept, r.ip)) && AuthorityOf(Answer(swept, r.ip)) == AuthorityOf(r)
  {
    hide Outranks;
    EtcdLostIn(clean);
    var w := Answer(swept, r.ip);
    assert w in clean && HoldsData(w);
    forall x | x in clean && x != w && HoldsData(x)
      ensures EtcdLost(clean) && Outranks(w.answer.value, x.answer.value, false)
    {
      var y := Answer(net, x.ip);
      assert y in all && HoldsData(y);
      OutranksSameData(r.answer.value, y.answer.value, w.answer.value, x.answer.value);
    }
  }

  /** Before any epoch is open, a peer's accepted answer carries its data of the loss. */
  lemma HeardBeforeFirst(ips: seq<string>, s: map<string, Host>, c: Cluster, ip: string, x: string)
    requires SharedView(ips, s) && HostsInv(ips, s, c) && EvidenceInv(ips, s, c)
    requires c.founders == {} && ip in ips && c.nodes[ip].proc.Probing?
    requires AfterRound(ips, ip, c.nodes[ip]).Cleared? && x in ips && x != ip
    ensures x in c.nodes[ip].proc.heard && c.nodes[ip].proc.heard[x].Some?
    ensures SameData(c.nodes[ip].proc.heard[x].value, IdentityOf(s[x]))
  {
    hide AfterRound, NodeName, InitialCluster, BootstrapPath, LocalIdentity, MayOpen, SameData;
    AcceptedRound(ips, ip, c.nodes[ip], x);
    assert HeardInv(ips, s, c, ip, x, c.nodes[ip].proc.heard[x].value);
    assert |NodeNames(ips)| == |ips|;
  }

  lemma SweptIdentity(h: Host)
    requires !h.etcd.Database?
    ensures SameData(IdentityOf(h), IdentityOf(h.(etcd := Fresh))) && IdentityOf(h.(etcd := Fresh)).etcdDataEmpty
    ensures h.etcd.Fresh? ==> h.(etcd := Fresh) == h
    ensures BootstrapPath(h.cfg, h.pg, h.etcd) == RecoveryPath ==> BootstrapPath(h.cfg, h.pg, Fresh) == RecoveryPath
    ensures BootstrapPath(h.cfg, h.pg, h.etcd) == FreshPath ==> h.etcd.Fresh?
  {
    hide BootstrapCandidate, BestPosition, MembershipNames;
  }

  /** Before any epoch is open, what a cleared node saw is the evidence of the loss, swept. */
  lemma SeenBeforeFirst(ips: seq<string>, s: map<string, Host>, c: Cluster, ip: string)
    requires SharedView(ips, s) && AllFreshDirs(s) && HostsInv(ips, s, c) && EvidenceInv(ips, s, c)
    requires c.founders == {} && ip in ips && c.nodes[ip].proc.Probing?
    requires AfterRound(ips, ip, c.nodes[ip]).Cleared?
    ensures Sweeps(ips, Assembled(ip, IdentityOf(c.nodes[ip].host), c.nodes[ip].proc.heard), Snapshot(s))
    ensures s[ip] == c.nodes[ip].host.(etcd := Fresh) && !c.nodes[ip].host.etcd.Database?
  {
    hide AfterRound, MayOpen, BootstrapPath, EvidenceInv, Formed, SameData, LocalIdentity;
    var n := c.nodes[ip];
    SweptIdentity(n.host);
    forall x | x in ips && x != ip
      ensures x in n.proc.heard && n.proc.heard[x].Some? && SameData(n.proc.heard[x].value, IdentityOf(s[x]))
      ensures IdentityOf(s[x]).etcdDataEmpty
    {
      HeardBeforeFirst(ips, s, c, ip, x);
      SweptIdentity(s[x]);
    }
  }

  lemma FreshIsSnapshot(cfg: Config, ips: seq<string>, net: map<string, NodeIdentity>, swept: map<string,
                        NodeIdentity>, ip: string)
    requires Sweeps(ips, net, swept) && FreshEvidence(cfg, Answers(net, Without(ips, ip)))
    ensures Answers(swept, Without(ips, ip)) == Answers(net, Without(ips, ip))
  {
    hide MembershipNames, OtherIPs, NodeName;
    var others := Without(ips, ip);
    forall k | 0 <= k < |others| ensures Answers(swept, others)[k] == Answers(net, others)[k] {
      assert others[k] in others;
      assert SaysFresh(cfg, Answers(net, others)[k]);
    }
  }

  /** Before any epoch is open, only a node the swept evidence of the loss admits is cleared. */
  lemma ClearedBeforeFirst(ips: seq<string>, s: map<string, Host>, c: Cluster, ip: string)
    requires SharedView(ips, s) && AllFreshDirs(s) && HostsInv(ips, s, c) && EvidenceInv(ips, s, c)
    requires c.founders == {} && ip in ips && c.nodes[ip].proc.Probing?
    requires AfterRound(ips, ip, c.nodes[ip]).Cleared?
    ensures MayOpen(ips, s, ip)
  {
    hide RecoveryAuthority, FreshEvidence, NodeName, MembershipNames, OtherIPs, InitialCluster, NodeNames, Sweeps,
         BootstrapPath, LocalIdentity, Without, Everyone, Answers, Collected, Cycles, AfterRound, EvidenceInv;
    var n := c.nodes[ip];
    var net := Assembled(ip, IdentityOf(n.host), n.proc.heard);
    SeenBeforeFirst(ips, s, c, ip);
    SweptIdentity(n.host);
    ClearedRound(ips, ip, n);
    AssembledAnswers(ips, ip, IdentityOf(n.host), n.proc.heard);
    if n.proc.path == FreshPath {
      FreshIsSnapshot(n.host.cfg, ips, net, Snapshot(s), ip);
    } else {
      AcceptedRecovery(ips, ip, n);
      AuthoritySurvivesSweep(n.host.cfg, ips, net, Snapshot(s));
    }
  }

  /** Once a founder exists, nobody else is cleared by the fresh path. */
  lemma FreshClearedIsFounder(ips: seq<string>, s: map<string, Host>, c: Cluster, ip: string, founder: string)
    requires SharedView(ips, s) && HostsInv(ips, s, c) && EvidenceInv(ips, s, c)
    requires founder in c.founders && founder in ips && MayOpen(ips, s, founder)
    requires ip in ips && c.nodes[ip].proc.Probing? && c.nodes[ip].proc.path == FreshPath
    requires AfterRound(ips, ip, c.nodes[ip]).Cleared?
    ensures ip == founder
  {
    hide RecoveryAuthority, FreshEvidence, NodeName, MembershipNames, OtherIPs, InitialCluster, Without,
         LocalIdentity, NodeNames;
    var n := c.nodes[ip];
    CandidateIsFirst(n.host.cfg, ips);
    if ip != founder {
      AcceptedRound(ips, ip, n, founder);
      assert HeardInv(ips, s, c, ip, founder, n.proc.heard[founder].value);
      var path := BootstrapPath(s[founder].cfg, s[founder].pg, s[founder].etcd);
      assert path == FreshPath ==> s[founder].cfg.myName == BootstrapCandidate(s[founder].cfg.etcdInitialCluster);
      if path == FreshPath { CandidateIsFirst(s[founder].cfg, ips); }
    }
  }

  /** Nor by recovery. A node that never had a database is outranked by the founder's old identity or
      stopped by its new one; */
  lemma NewcomerClearedIsFounder(ips: seq<string>, s: map<string, Host>, c: Cluster, ip: string, founder: string)
    requires SharedView(ips, s) && AllFreshDirs(s) && HostsInv(ips, s, c) && EvidenceInv(ips, s, c)
    requires founder in c.founders && founder in ips && MayOpen(ips, s, founder)
    requires ip in ips && c.nodes[ip].proc.Probing? && c.nodes[ip].proc.path != FreshPath && !c.nodes[ip].hadDatabase
    requires AfterRound(ips, ip, c.nodes[ip]).Cleared?
    ensures ip == founder
  {
    hide RecoveryAuthority, FreshEvidence, NodeName, MembershipNames, OtherIPs, InitialCluster, Without, NodeNames,
         Outranks, AfterRound, BestPosition, BootstrapCandidate;
    if ip != founder {
      var n, net := c.nodes[ip], Assembled(ip, IdentityOf(c.nodes[ip].host), c.nodes[ip].proc.heard);
      AcceptedRound(ips, ip, n, founder);
      AcceptedRecovery(ips, ip, n);
      WinnerOf(n.host.cfg, ips, net);
      assert HeardInv(ips, s, c, ip, founder, net[founder]);
      var path := BootstrapPath(s[founder].cfg, s[founder].pg, s[founder].etcd);
      if path == FreshPath {
        FreshSeesEveryoneEmpty(ips, s, founder, ip);
      } else {
        WinnerOf(s[founder].cfg, ips, Snapshot(s));
        assert HoldsData(Answer(net, founder));
        assert HoldsData(Answer(Snapshot(s), ip));
        OutranksSameData(net[ip], net[founder], IdentityOf(s[ip]), IdentityOf(s[founder]));
        OutranksExcludes(IdentityOf(s[ip]), IdentityOf(s[founder]));
      }
    }
  }

  lemma SecondCopyMeansLoss(cfg: Config, ips: seq<string>, net: map<string, NodeIdentity>, other: string)
    requires Formed(cfg, ips) && cfg.myIP in net && Asked(cfg, net).Some?
    requires other in ips && other != Asked(cfg, net).value.ip && HoldsData(Answer(net, other))
    ensures forall x | x in ips :: x in net && net[x].etcdDataEmpty
  {
    hide Formed, Asked, Outranks, NodeName;
    WinnerOf(cfg, ips, net);
  }

  /** one that lost its database is not the only copy, and knows the founder's etcd is not empty. */
  lemma ReturnerNotCleared(ips: seq<string>, s: map<string, Host>, c: Cluster, ip: string, founder: string)
    requires SharedView(ips, s) && HostsInv(ips, s, c) && EvidenceInv(ips, s, c) && CopiesInv(ips, c)
    requires founder in c.founders && founder in ips && founder != ip
    requires ip in ips && c.nodes[ip].proc.Probing? && c.nodes[ip].proc.path != FreshPath && c.nodes[ip].hadDatabase
    ensures !AfterRound(ips, ip, c.nodes[ip]).Cleared?
  {
    hide RecoveryAuthority, FreshEvidence, NodeName, MembershipNames, OtherIPs, InitialCluster, Without, NodeNames,
         Outranks, AfterRound, BestPosition, BootstrapCandidate, MayOpen;
    var n, net := c.nodes[ip], Assembled(ip, IdentityOf(c.nodes[ip].host), c.nodes[ip].proc.heard);
    if AfterRound(ips, ip, n).Cleared? {
      AcceptedRound(ips, ip, n, founder);
      AcceptedRecovery(ips, ip, n);
      assert HeardInv(ips, s, c, ip, founder, net[founder]);
      var other :| CoveredBy(c, ip, other);
      AcceptedRound(ips, ip, n, other);
      SecondCopyMeansLoss(n.host.cfg, ips, net, other);
    }
  }

  lemma ClearedMayOpen(ips: seq<string>, s: map<string, Host>, c: Cluster, ip: string)
    requires Inv(ips, s, c) && ip in ips && c.nodes[ip].proc.Probing?
    requires AfterRound(ips, ip, c.nodes[ip]).Cleared?
    ensures MayOpen(ips, s, ip)
  {
    hide MayOpen, AfterRound, EvidenceInv, CopiesInv;
    if c.founders == {} {
      ClearedBeforeFirst(ips, s, c, ip);
    } else {
      var founder :| founder in c.founders;
      if c.nodes[ip].proc.path == FreshPath {
        FreshClearedIsFounder(ips, s, c, ip, founder);
      } else if c.nodes[ip].hadDatabase {
        if ip != founder { ReturnerNotCleared(ips, s, c, ip, founder); }
      } else {
        NewcomerClearedIsFounder(ips, s, c, ip, founder);
      }
    }
  }

  // ----- steps -----

  lemma NextRoundStartsEmpty(ips: seq<string>, ip: string, n: Node)
    requires n.proc.Probing?
    ensures AfterRound(ips, ip, n).Probing? ==>
              AfterRound(ips, ip, n).heard == map[] &&
              AfterRound(ips, ip, n).path == if n.proc.path == FreshPath then FreshPath else RecoveryPath
  {
    hide FreshEvidence, RecoveryAuthority, Cycles, Collected, Without, IdentityOf;
  }

  lemma NoPathWithDatabase(cfg: Config, pg: PGData, etcd: EtcdDir)
    ensures BootstrapPath(cfg, pg, etcd) == FreshPath || BootstrapPath(cfg, pg, etcd) == RecoveryPath ==>
        !etcd.Database?
  {
    hide BootstrapCandidate;
  }

  lemma HostStep(ips: seq<string>, s: Host, c: Cluster, step: Step, n: Node, m: Node)
    requires HostInv(s, n) && NodeNext(ips, c, step, n, m)
    ensures HostInv(s, m)
  {
    hide BootstrapPath, CanAnswer, AfterRound;
    if step.Begin? { NoPathWithDatabase(n.host.cfg, n.host.pg, n.host.etcd); }
    if step.Conclude? { NextRoundStartsEmpty(ips, step.node, n); }
  }

  /** Without a founder there is no live database, so nobody gets one. */
  lemma QuietStep(ips: seq<string>, s: map<string, Host>, c: Cluster, d: Cluster, step: Step)
    requires SharedView(ips, s) && HostsInv(ips, s, c) && Next(ips, c, d, step) && d.founders == {}
    ensures !d.nodes[step.node].hadDatabase
  {
    hide BootstrapPath, CanAnswer, AfterRound, Formed, WipeGuard;
    assert forall ip | ip in c.nodes :: ip in ips && !c.nodes[ip].host.etcd.Database?;
  }

  lemma HostsStep(ips: seq<string>, s: map<string, Host>, c: Cluster, d: Cluster, step: Step)
    requires Inv(ips, s, c) && Next(ips, c, d, step)
    ensures HostsInv(ips, s, d)
  {
    hide MayOpen, EvidenceInv, FoundersInv, CopiesInv, NodeNext, HostInv, Formed;
    HostStep(ips, s[step.node], c, step, c.nodes[step.node], d.nodes[step.node]);
    if d.founders == {} {
      QuietStep(ips, s, c, d, step);
    }
  }

  /** A founder's database outlives every step. */
  lemma FounderKept(ips: seq<string>, c: Cluster, d: Cluster, step: Step, founder: string)
    requires Next(ips, c, d, step) && FounderAlive(c, founder)
    ensures FounderAlive(d, founder)
  {
    hide BootstrapPath, CanAnswer, AfterRound;
  }

  lemma DatabaseKept(ips: seq<string>, s: map<string, Host>, c: Cluster, d: Cluster, step: Step)
    requires Inv(ips, s, c) && Next(ips, c, d, step) && MayOpen(ips, s, step.node)
    ensures d.nodes[step.node].hadDatabase ==> d.nodes[step.node].host.etcd.Database?
  {
    hide MayOpen, EvidenceInv, CopiesInv, Formed, NodeNext;
    DatabaseWiped(ips, c, step, c.nodes[step.node], d.nodes[step.node]);
    if c.nodes[step.node].hadDatabase {
      var founder :| FounderAlive(c, founder);
      AtMostOneMayOpen(ips, s, founder, step.node);
    }
  }

  /** Only a wipe that the guard lets through takes a database away. */
  lemma DatabaseWiped(ips: seq<string>, c: Cluster, step: Step, n: Node, m: Node)
    requires step.node in c.nodes && n == c.nodes[step.node] && NodeNext(ips, c, step, n, m)
    ensures m.hadDatabase && !m.host.etcd.Database? ==> n.hadDatabase
    ensures n.host.etcd.Database? && !m.host.etcd.Database? ==> step.node !in c.founders
  {
    hide BootstrapPath, CanAnswer, AfterRound;
  }

  lemma ClearedBy(ips: seq<string>, c: Cluster, step: Step, n: Node, m: Node)
    requires NodeNext(ips, c, step, n, m) && (m.proc.Cleared? || step.LaunchNew?)
    ensures n.proc.Cleared? || (n.proc.Probing? && AfterRound(ips, step.node, n).Cleared?)
  {
    hide BootstrapPath, CanAnswer, AfterRound;
  }

  lemma ClearedStep(ips: seq<string>, s: map<string, Host>, c: Cluster, d: Cluster, step: Step)
    requires Inv(ips, s, c) && Next(ips, c, d, step)
    requires d.nodes[step.node].proc.Cleared? || step.LaunchNew?
    ensures MayOpen(ips, s, step.node)
  {
    hide MayOpen, EvidenceInv, CopiesInv, Formed, AfterRound, HostInv, NodeNext, FounderAlive;
    ClearedBy(ips, c, step, c.nodes[step.node], d.nodes[step.node]);
    if !c.nodes[step.node].proc.Cleared? {
      ClearedMayOpen(ips, s, c, step.node);
    }
  }

  /** Whoever gets a database gets it from a founder, or is one. */
  lemma DatabaseFrom(ips: seq<string>, c: Cluster, d: Cluster, step: Step)
    requires Next(ips, c, d, step) && d.nodes[step.node].hadDatabase && !c.nodes[step.node].hadDatabase
    ensures FounderAlive(d, step.node) || exists live :: live in c.nodes && c.nodes[live].host.etcd.Database?
  {
    hide BootstrapPath, CanAnswer, AfterRound, WipeGuard;
  }

  lemma FounderStillAlive(ips: seq<string>, s: map<string, Host>, c: Cluster, d: Cluster, step: Step, ip: string)
    requires Inv(ips, s, c) && Next(ips, c, d, step)
    requires ip in ips && ip in d.nodes && d.nodes[ip].hadDatabase
    ensures exists founder :: FounderAlive(d, founder)
  {
    hide MayOpen, EvidenceInv, CopiesInv, Formed, NodeNext, FounderAlive;
    var had := ip;
    if !c.nodes[ip].hadDatabase {
      assert ip == step.node;
      DatabaseFrom(ips, c, d, step);
      if !FounderAlive(d, ip) {
        had :| had in c.nodes && c.nodes[had].host.etcd.Database?;
      }
    }
    if !FounderAlive(d, ip) {
      var founder :| FounderAlive(c, founder);
      FounderKept(ips, c, d, step, founder);
    }
  }

  lemma FoundersStep(ips: seq<string>, s: map<string, Host>, c: Cluster, d: Cluster, step: Step)
    requires Inv(ips, s, c) && Next(ips, c, d, step) && HostsInv(ips, s, d)
    ensures FoundersInv(ips, s, d)
  {
    hide MayOpen, EvidenceInv, CopiesInv, Formed, NodeNext, FounderAlive, HostInv;
    if d.nodes[step.node].proc.Cleared? || step.LaunchNew? {
      ClearedStep(ips, s, c, d, step);
    }
    if MayOpen(ips, s, step.node) {
      DatabaseKept(ips, s, c, d, step);
    }
    forall ip | ip in ips && d.nodes[ip].hadDatabase
      ensures exists founder :: FounderAlive(d, founder)
    {
      FounderStillAlive(ips, s, c, d, step, ip);
    }
  }

  lemma HearStep(ips: seq<string>, s: map<string, Host>, c: Cluster, asker: string, peer: string, id: NodeIdentity)
    requires Inv(ips, s, c) && asker in ips && peer in ips && c.nodes[asker].proc.Probing?
    requires CanAnswer(c.nodes[asker].host.cfg, peer, c.nodes[peer].host, Some(id))
    ensures HeardInv(ips, s, c, asker, peer, id)
  {
    hide MayOpen, EvidenceInv, CopiesInv, BootstrapPath, Formed, MembershipNames, BestPosition, NodeName;
    if peer in c.founders && c.nodes[asker].hadDatabase {
      var founder :| FounderAlive(c, founder);
      AtMostOneMayOpen(ips, s, founder, peer);
    }
  }

  lemma ProbingKeepsHistory(ips: seq<string>, c: Cluster, step: Step, n: Node, m: Node)
    requires NodeNext(ips, c, step, n, m) && n.proc.Probing? && m.proc.Probing?
    ensures m.hadDatabase == n.hadDatabase
  {
    hide BootstrapPath, CanAnswer, AfterRound, WipeGuard;
  }

  lemma HeardStep(ips: seq<string>, s: map<string, Host>, c: Cluster, d: Cluster, step: Step,
                  asker: string, peer: string, id: NodeIdentity)
    requires Inv(ips, s, c) && Next(ips, c, d, step) && HostsInv(ips, s, d) && FoundersInv(ips, s, d)
    requires asker in ips && peer in ips && c.nodes[asker].proc.Probing? && d.nodes[asker].proc.Probing?
    requires HeardInv(ips, s, c, asker, peer, id)
    ensures HeardInv(ips, s, d, asker, peer, id)
  {
    hide MayOpen, EvidenceInv, CopiesInv, Formed, NodeNext, SameData;
    if asker == step.node { ProbingKeepsHistory(ips, c, step, c.nodes[asker], d.nodes[asker]); }
    if peer in d.founders && peer !in c.founders && d.nodes[asker].hadDatabase {
      var founder :| FounderAlive(c, founder);
      AtMostOneMayOpen(ips, s, founder, peer);
    }
  }

  /** What a process has heard grows only by hearing. */
  lemma HeardGrows(ips: seq<string>, c: Cluster, step: Step, n: Node, m: Node)
    requires NodeNext(ips, c, step, n, m) && m.proc.Probing?
    ensures m.proc.heard == map[] || n.proc.Probing?
    ensures step.Hear? ==> && step.peer in c.nodes && m.proc.heard == n.proc.heard[step.peer := step.answer]
                           && CanAnswer(n.host.cfg, step.peer, c.nodes[step.peer].host, step.answer)
    ensures !step.Hear? ==> m.proc.heard == map[] || m.proc.heard == n.proc.heard
  {
    hide BootstrapPath, CanAnswer, AfterRound, Advances, Plausible;
    if step.Conclude? {
      NextRoundStartsEmpty(ips, step.node, n);
    }
  }

  lemma EvidenceStep(ips: seq<string>, s: map<string, Host>, c: Cluster, d: Cluster, step: Step)
    requires Inv(ips, s, c) && Next(ips, c, d, step) && HostsInv(ips, s, d) && FoundersInv(ips, s, d)
    ensures EvidenceInv(ips, s, d)
  {
    hide MayOpen, BootstrapPath, Formed, CanAnswer, HeardInv, FoundersInv, CopiesInv, HostInv, NodeNext;
    forall asker, peer | asker in ips && d.nodes[asker].proc.Probing? && peer in d.nodes[asker].proc.heard
      ensures peer in ips
      ensures d.nodes[asker].proc.heard[peer].Some? ==>
                HeardInv(ips, s, d, asker, peer, d.nodes[asker].proc.heard[peer].value)
    {
      var answer := d.nodes[asker].proc.heard[peer];
      if step.node == asker { HeardGrows(ips, c, step, c.nodes[asker], d.nodes[asker]); }
      if step.Hear? && step.node == asker && step.peer == peer {
        if answer.Some? {
          HearStep(ips, s, c, asker, peer, answer.value);
          HeardStep(ips, s, c, d, step, asker, peer, answer.value);
        }
      } else {
        assert peer in c.nodes[asker].proc.heard && c.nodes[asker].proc.heard[peer] == answer;
        if answer.Some? {
          HeardStep(ips, s, c, d, step, asker, peer, answer.value);
        }
      }
    }
  }

  lemma DataKept(ips: seq<string>, c: Cluster, step: Step, n: Node, m: Node)
    requires NodeNext(ips, c, step, n, m)
    ensures !n.host.pg.isEmpty ==> !m.host.pg.isEmpty
  {
    hide BootstrapPath, CanAnswer, AfterRound, WipeGuard;
  }

  /** A copy that lost its database lost it before, or is wiped now while another holds data. */
  lemma LostCopyBefore(ips: seq<string>, c: Cluster, step: Step, n: Node, m: Node)
    requires step.node in c.nodes && n == c.nodes[step.node] && NodeNext(ips, c, step, n, m) && LostCopy(m)
    requires n.host.etcd.Database? ==> n.proc.Idle?
    ensures LostCopy(n) || (m.proc.Idle? && DataElsewhere(c, step.node))
  {
    hide BootstrapPath, CanAnswer, AfterRound;
  }

  /** What the covering node holds, this one does not hear otherwise. */
  lemma CoverKept(ips: seq<string>, c: Cluster, d: Cluster, step: Step, ip: string, other: string)
    requires Next(ips, c, d, step) && ip in c.nodes && CoveredBy(c, ip, other)
    ensures CoveredBy(d, ip, other)
  {
    hide NodeNext;
    DataKept(ips, c, step, c.nodes[step.node], d.nodes[step.node]);
    if ip == step.node && d.nodes[ip].proc.Probing? {
      HeardGrows(ips, c, step, c.nodes[ip], d.nodes[ip]);
    }
  }

  lemma CopiesStep(ips: seq<string>, s: map<string, Host>, c: Cluster, d: Cluster, step: Step)
    requires Inv(ips, s, c) && Next(ips, c, d, step)
    ensures CopiesInv(ips, d)
  {
    hide MayOpen, EvidenceInv, FoundersInv, Formed, NodeNext;
    forall ip | ip in ips && ip in d.nodes && LostCopy(d.nodes[ip]) ensures exists other :: CoveredBy(d, ip, other) {
      if ip == step.node {
        LostCopyBefore(ips, c, step, c.nodes[ip], d.nodes[ip]);
      }
      if LostCopy(c.nodes[ip]) {
        var other :| CoveredBy(c, ip, other);
        CoverKept(ips, c, d, step, ip, other);
      } else {
        var other :| other in c.nodes && other != ip && !c.nodes[other].host.pg.isEmpty;
        assert CoveredBy(d, ip, other);
      }
    }
  }

  /** Every step keeps the invariant. */
  lemma InvStep(ips: seq<string>, s: map<string, Host>, c: Cluster, d: Cluster, step: Step)
    requires Inv(ips, s, c) && Next(ips, c, d, step)
    ensures Inv(ips, s, d)
  {
    hide MayOpen, HostsInv, FoundersInv, CopiesInv, EvidenceInv, Next;
    HostsStep(ips, s, c, d, step);
    FoundersStep(ips, s, c, d, step);
    CopiesStep(ips, s, c, d, step);
    EvidenceStep(ips, s, c, d, step);
  }

  // ----- runs -----

  ghost predicate Run(ips: seq<string>, trace: seq<Cluster>, steps: seq<Step>) {
    && |trace| == |steps| + 1
    && Lost(ips, trace[0])
    && forall i | 0 <= i < |steps| :: Next(ips, trace[i], trace[i + 1], steps[i])
  }

  lemma {:induction false} RunInv(ips: seq<string>, trace: seq<Cluster>, steps: seq<Step>, i: nat)
    requires Run(ips, trace, steps) && i < |trace|
    ensures Inv(ips, Swept(Hosts(trace[0])), trace[i])
  {
    hide Inv, Next, Lost;
    if i == 0 {
      LostEstablishes(ips, trace[0]);
    } else {
      RunInv(ips, trace, steps, i - 1);
      InvStep(ips, Swept(Hosts(trace[0])), trace[i - 1], trace[i], steps[i - 1]);
    }
  }

  /** In every run from total etcd loss, at most one node ever starts etcd with state "new", and it is
      one that the evidence of the loss itself admits, once leftovers of etcd are swept away. */
  lemma AtMostOneEpoch(ips: seq<string>, trace: seq<Cluster>, steps: seq<Step>, i: nat, a: string, b: string)
    requires Run(ips, trace, steps) && i < |trace|
    requires a in trace[i].founders && b in trace[i].founders
    ensures a == b
    ensures a in ips && SharedView(ips, Swept(Hosts(trace[0]))) && MayOpen(ips, Swept(Hosts(trace[0])), a)
  {
    hide MayOpen, HostsInv, EvidenceInv, CopiesInv, Next;
    RunInv(ips, trace, steps, i);
    AtMostOneMayOpen(ips, Swept(Hosts(trace[0])), a, b);
  }

  lemma {:induction false} FounderStays(ips: seq<string>, trace: seq<Cluster>, steps: seq<Step>, i: nat, j: nat,
                                        founder: string)
    requires Run(ips, trace, steps) && i <= j < |trace| && FounderAlive(trace[i], founder)
    ensures FounderAlive(trace[j], founder)
  {
    hide FounderAlive, Next, Lost;
    if i < j {
      FounderStays(ips, trace, steps, i, j - 1, founder);
      FounderKept(ips, trace[j - 1], trace[j], steps[j - 1], founder);
    }
  }

  /** Nor does the founder itself start a second one: once its etcd has a database, no later step of
      any node launches etcd with state "new". */
  lemma NoSecondLaunch(ips: seq<string>, trace: seq<Cluster>, steps: seq<Step>, i: nat, j: nat, founder: string)
    requires Run(ips, trace, steps) && i <= j < |steps| && FounderAlive(trace[i], founder)
    ensures !steps[j].LaunchNew?
  {
    hide MayOpen, EvidenceInv, CopiesInv, Formed, NodeNext, AfterRound;
    FounderStays(ips, trace, steps, i, j, founder);
    RunInv(ips, trace, steps, j);
    assert Next(ips, trace[j], trace[j + 1], steps[j]);
    if steps[j].LaunchNew? {
      LaunchIsCleared(ips, trace[j], steps[j], trace[j].nodes[steps[j].node], trace[j + 1].nodes[steps[j].node]);
      AtMostOneMayOpen(ips, Swept(Hosts(trace[0])), founder, steps[j].node);
    }
  }

  lemma LaunchIsCleared(ips: seq<string>, c: Cluster, step: Step, n: Node, m: Node)
    requires NodeNext(ips, c, step, n, m) && step.LaunchNew?
    ensures n.proc.Cleared?
  {
  }
}
