/** Runs of the whole cluster: that epochs do open, and that each half of the guard on wiping an etcd
    database is needed. */
module EpochWitnesses {
  import opened Text
  import opened Settings
  import opened Topology
  import opened Identity
  import opened Agreement
  import opened Bootstrap
  import opened Epoch
  import opened Witnesses

  const PLAIN: Config := Config("app", "scope", "", "", false, 2379, 2380, 2379, "", "", "", [],
                                false, false, true, true, false, 12, 3, 2, 1)

  function Disk(view: seq<string>, ip: string, pg: PGData, etcd: EtcdDir): Host {
    Host(Member(PLAIN, ip, view), pg, etcd)
  }

  lemma ViewForms(view: seq<string>, ip: string)
    requires AddressList(view) && ip in view
    ensures var cfg := Member(PLAIN, ip, view);
      Formed(cfg, view) && Cycles(cfg) == 1 && |Split(cfg.etcdInitialCluster, ',')| == |view| &&
      ExpectedPeers(cfg) == |Without(view, ip)| &&
      BootstrapCandidate(cfg.etcdInitialCluster) == NodeName(view[0])
  {
    hide InitialCluster, MembershipNames, OtherIPs, NodeName, BootstrapCandidate, NodeNames, Without;
    MemberForms(PLAIN, ip, view);
    PartsOfView(Member(PLAIN, ip, view), view);
  }

  predicate Untouched(view: seq<string>, ip: string, n: Node) {
    IsSample(n.host.pg) && n == Node(Disk(view, ip, n.host.pg, Fresh), false, Idle)
  }

  /** Idle nodes without databases are a cluster after total etcd loss. */
  lemma IsLost(view: seq<string>, c: Cluster)
    requires AddressList(view) && view != [] && c.founders == {} && c.nodes.Keys == set ip | ip in view
    requires forall ip | ip in view :: Untouched(view, ip, c.nodes[ip])
    ensures Lost(view, c)
  {
    hide Formed, Member;
    forall ip | ip in view ensures Formed(c.nodes[ip].host.cfg, view) && c.nodes[ip].host.cfg.myIP == ip {
      ViewForms(view, ip);
      MemberSettings(view, ip);
    }
    forall ip | ip in view ensures !c.nodes[ip].host.cfg.allowNewClusterBootstrap {
      MemberSettings(view, ip);
    }
  }

  lemma MemberSettings(view: seq<string>, ip: string)
    ensures Member(PLAIN, ip, view).myIP == ip && !Member(PLAIN, ip, view).allowNewClusterBootstrap
  {
  }

  /** A last round that makes this node the authority clears it. */
  lemma RecoveryClears(view: seq<string>, ip: string, n: Node)
    requires AddressList(view) && ip in view && n.host.cfg == Member(PLAIN, ip, view)
    requires n.proc.Probing? && n.proc.path == RecoveryPath && n.proc.round == 0
    requires var all := Everyone(n.host.cfg, IdentityOf(n.host), Collected(n.proc.heard, Without(view, ip)));
      AllConsistent(n.host.cfg, all) && Chosen(all, 0)
    ensures AfterRound(view, ip, n) == Cleared
  {
    hide RecoveryAuthority, Chosen, IdentityOf, Consistent, InitialCluster, NodeName, Without, Collected,
         BootstrapCandidate,
         FreshEvidence, OtherIPs;
    ViewForms(view, ip);
    RecoveryAuthorityIs(n.host.cfg, IdentityOf(n.host), Collected(n.proc.heard, Without(view, ip)), 0);
  }

  lemma SoleCopyChosen(all: seq<PeerResult>)
    requires Answered(all) && all != [] && HoldsData(all[0]) && forall k | 0 < k < |all| :: !HoldsData(all[k])
    ensures Chosen(all, 0)
  {
  }

  /** A step of one node is a step of the cluster. */
  lemma Steps(view: seq<string>, c: Cluster, d: Cluster, step: Step, m: Node)
    requires step.node in c.nodes && NodeNext(view, c, step, c.nodes[step.node], m)
    requires d.nodes == c.nodes[step.node := m]
    requires d.founders == if step.LaunchNew? then c.founders + {step.node} else c.founders
    ensures Next(view, c, d, step)
  {
    hide NodeNext;
  }

  /** A node after its etcd directory was wiped. */
  function NoEtcd(n: Node): Node {
    n.(host := n.host.(etcd := Fresh), proc := Idle)
  }

  /** A wipe of a node's etcd directory, whatever the guard says. */
  ghost predicate Wiped(c: Cluster, d: Cluster, ip: string) {
    ip in c.nodes && d == c.(nodes := c.nodes[ip := NoEtcd(c.nodes[ip])])
  }

  /** A run from total etcd loss in which step k is a wipe that need not respect the guard. */
  ghost predicate LooseRun(view: seq<string>, trace: seq<Cluster>, steps: seq<Step>, k: nat) {
    |trace| == |steps| + 1 && k < |steps| && Lost(view, trace[0]) && Wiped(trace[k], trace[k + 1], steps[k].node) &&
    forall i | 0 <= i < |steps| && i != k :: Next(view, trace[i], trace[i + 1], steps[i])
  }

  predicate DatabaseElsewhere(c: Cluster, ip: string) {
    exists other :: other in c.nodes && other != ip && c.nodes[other].host.etcd.Database?
  }

  // ----- two nodes -----

  lemma Pair(a: string, b: string)
    requires AddressList([a, b])
    ensures a != b && IsIPv4(a) && IsIPv4(b) && Without([a, b], a) == [b] && Without([a, b], b) == [a]
  {
    assert [a, b][0] == a && [a, b][1] == b && a in [a, b] && b in [a, b];
    LessIrreflexive(a);
    assert [a, b][..1] == [a] && [a][..0] == [];
    assert Without([], a) == [] && Without([], b) == [];
    assert Without([a], a) == [] && Without([a], b) == [a];
  }

  /** The first node bootstraps the empty cluster; */
  lemma FirstOpens(a: string, b: string)
    requires AddressList([a, b])
    ensures var view := [a, b]; var heard := map[b := Some(IdentityOf(Disk(view, b, EMPTY, Fresh)))];
      var n := Node(Disk(view, a, EMPTY, Fresh), false, Probing(FreshPath, 0, heard, None));
      BootstrapPath(n.host.cfg, EMPTY, Fresh) == FreshPath && AfterRound(view, a, n) == Cleared
  {
    hide InitialCluster, MembershipNames, NodeName, NodeNames, BootstrapCandidate, OtherIPs, LocalIdentity, Split,
         Without;
    Pair(a, b);
    var view := [a, b];
    ViewForms(view, a);
    MemberForms(PLAIN, a, view);
    Tells(PLAIN, b, view, EMPTY, Fresh);
    var results := Collected(map[b := Some(IdentityOf(Disk(view, b, EMPTY, Fresh)))], [b]);
    assert results[0] == PeerResult(b, Some(IdentityOf(Disk(view, b, EMPTY, Fresh))));
    assert SaysFresh(Member(PLAIN, a, view), results[0]);
  }

  /** the second, holding the only data, recovers although the first has opened an epoch. */
  lemma SecondOpens(a: string, b: string)
    requires AddressList([a, b])
    ensures var view := [a, b]; var heard := map[a := Some(IdentityOf(Disk(view, a, EMPTY, Database)))];
      var n := Node(Disk(view, b, PRIMARY, Fresh), true, Probing(RecoveryPath, 0, heard, None));
      BootstrapPath(n.host.cfg, PRIMARY, Fresh) == RecoveryPath && AfterRound(view, b, n) == Cleared
  {
    hide InitialCluster, MembershipNames, NodeName, NodeNames, BootstrapCandidate, OtherIPs, LocalIdentity, Split,
         Without,
         RecoveryAuthority, AfterRound, Consistent;
    Pair(a, b);
    var view := [a, b];
    var heard := map[a := Some(IdentityOf(Disk(view, a, EMPTY, Database)))];
    var n := Node(Disk(view, b, PRIMARY, Fresh), true, Probing(RecoveryPath, 0, heard, None));
    var results := Collected(heard, [a]);
    assert results[0] == PeerResult(a, Some(IdentityOf(Disk(view, a, EMPTY, Database))));
    var all := Everyone(n.host.cfg, IdentityOf(n.host), results);
    Trusted(PLAIN, b, view, all[0], PRIMARY, Fresh);
    Trusted(PLAIN, b, view, all[1], EMPTY, Database);
    Tells(PLAIN, b, view, PRIMARY, Fresh);
    Tells(PLAIN, a, view, EMPTY, Database);
    SoleCopyChosen(all);
    RecoveryClears(view, b, n);
  }

  /** The first node along the run: it begins, hears the other, is cleared, and launches. */
  function First(a: string, b: string, k: nat): Node {
    var view := [a, b];
    var heard := map[b := Some(IdentityOf(Disk(view, b, EMPTY, Fresh)))];
    if k == 0 then Node(Disk(view, a, EMPTY, Fresh), false, Idle)
    else if k == 1 then Node(Disk(view, a, EMPTY, Fresh), false, Probing(FreshPath, 0, map[], None))
    else if k == 2 then Node(Disk(view, a, EMPTY, Fresh), false, Probing(FreshPath, 0, heard, None))
    else if k == 3 then Node(Disk(view, a, EMPTY, Fresh), false, Cleared)
    else Node(Disk(view, a, EMPTY, Database), true, Idle)
  }

  /** The second node: it joins, gets the only data, is wiped of its etcd directory, and recovers. */
  function Second(a: string, b: string, k: nat): Node {
    var view := [a, b];
    var heard := map[a := Some(IdentityOf(Disk(view, a, EMPTY, Database)))];
    if k <= 4 then Node(Disk(view, b, EMPTY, Fresh), false, Idle)
    else if k == 5 then Node(Disk(view, b, EMPTY, Database), true, Idle)
    else if k == 6 then Node(Disk(view, b, PRIMARY, Database), true, Idle)
    else if k == 7 then Node(Disk(view, b, PRIMARY, Fresh), true, Idle)
    else if k == 8 then Node(Disk(view, b, PRIMARY, Fresh), true, Probing(RecoveryPath, 0, map[], None))
    else if k == 9 then Node(Disk(view, b, PRIMARY, Fresh), true, Probing(RecoveryPath, 0, heard, None))
    else if k == 10 then Node(Disk(view, b, PRIMARY, Fresh), true, Cleared)
    else Node(Disk(view, b, PRIMARY, Database), true, Idle)
  }

  function Stage(a: string, b: string, k: nat): Cluster {
    Cluster(map[a := First(a, b, k), b := Second(a, b, k)], if k < 4 then {} else if k < 11 then {a} else {a, b})
  }

  function StageStep(a: string, b: string, k: nat): Step {
    var view := [a, b];
    if k == 0 then Begin(a)
    else if k == 1 then Hear(a, b, Some(IdentityOf(Disk(view, b, EMPTY, Fresh))))
    else if k == 2 then Conclude(a)
    else if k == 3 then LaunchNew(a, Database)
    else if k == 4 then JoinExisting(b, Database)
    else if k == 5 then ChangeData(b, PRIMARY)
    else if k == 6 then Wipe(b, Fresh)
    else if k == 7 then Begin(b)
    else if k == 8 then Hear(b, a, Some(IdentityOf(Disk(view, a, EMPTY, Database))))
    else if k == 9 then Conclude(b)
    else LaunchNew(b, Database)
  }

  lemma FirstStages(a: string, b: string, k: nat)
    requires AddressList([a, b]) && k < 4
    ensures Next([a, b], Stage(a, b, k), Stage(a, b, k + 1), StageStep(a, b, k))
  {
    hide AfterRound, BootstrapPath, InitialCluster, NodeName, LocalIdentity, Next, Without;
    Pair(a, b);
    FirstOpens(a, b);
    Steps([a, b], Stage(a, b, k), Stage(a, b, k + 1), StageStep(a, b, k), First(a, b, k + 1));
  }

  lemma SecondStages(a: string, b: string, k: nat)
    requires AddressList([a, b]) && 4 <= k < 11 && k != 6
    ensures Next([a, b], Stage(a, b, k), Stage(a, b, k + 1), StageStep(a, b, k))
  {
    hide AfterRound, BootstrapPath, InitialCluster, NodeName, LocalIdentity, Next, Without;
    Pair(a, b);
    SecondOpens(a, b);
    assert Stage(a, b, k).nodes[a].host.etcd.Database?;
    Steps([a, b], Stage(a, b, k), Stage(a, b, k + 1), StageStep(a, b, k), Second(a, b, k + 1));
  }

  lemma StageNext(a: string, b: string, k: nat)
    requires AddressList([a, b]) && k < 11 && k != 6
    ensures Next([a, b], Stage(a, b, k), Stage(a, b, k + 1), StageStep(a, b, k))
  {
    hide Next, Stage, StageStep;
    if k < 4 { FirstStages(a, b, k); } else { SecondStages(a, b, k); }
  }

  lemma StageLost(a: string, b: string)
    requires AddressList([a, b])
    ensures Lost([a, b], Stage(a, b, 0))
  {
    hide Lost, Member;
    Pair(a, b);
    IsLost([a, b], Stage(a, b, 0));
  }

  lemma JoinedStage(a: string, b: string)
    requires AddressList([a, b])
    ensures var c := Stage(a, b, 6); c.founders == {a} && b in c.nodes && !c.nodes[b].host.pg.isEmpty
  {
    Pair(a, b);
  }

  /** Epochs do open: some run from total etcd loss starts a new one on the first of two empty nodes,
      lets the second join, and gives it data. */
  lemma EpochsDoOpen(a: string, b: string)
    requires AddressList([a, b])
    ensures exists trace: seq<Cluster>, steps: seq<Step> ::
      Run([a, b], trace, steps) && trace[|steps|].founders == {a} &&
      b in trace[|steps|].nodes && !trace[|steps|].nodes[b].host.pg.isEmpty
  {
    hide First, Second, Stage, Lost, Next, StageStep;
    Pair(a, b);
    JoinedStage(a, b);
    var trace := seq(7, k requires k >= 0 => Stage(a, b, k));
    var steps := seq(6, k requires k >= 0 => StageStep(a, b, k));
    StageLost(a, b);
    forall i | 0 <= i < |steps| ensures Next([a, b], trace[i], trace[i + 1], steps[i]) { StageNext(a, b, i); }
    assert trace[6] == Stage(a, b, 6);
    assert Run([a, b], trace, steps);
  }

  /** The last holder of data must not lose its etcd database: two empty nodes can each open an epoch
      when the wiped one, no founder, holds the only data, even with the founder's database alive. */
  lemma LastCopyMustStay(a: string, b: string)
    requires AddressList([a, b])
    ensures exists trace: seq<Cluster>, steps: seq<Step>, k: nat ::
      LooseRun([a, b], trace, steps, k) && trace[|steps|].founders == {a, b} &&
      steps[k].node !in trace[k].founders && DatabaseElsewhere(trace[k], steps[k].node)
  {
    hide Lost, Next, First, Second, Stage, StageStep, Wiped, DatabaseElsewhere;
    Pair(a, b);
    var trace := seq(12, k requires k >= 0 => Stage(a, b, k));
    var steps := seq(11, k requires k >= 0 => StageStep(a, b, k));
    StageLost(a, b);
    WipeStage(a, b);
    forall i | 0 <= i < |steps| && i != 6 ensures Next([a, b], trace[i], trace[i + 1], steps[i]) { StageNext(a, b, i); }
    assert LooseRun([a, b], trace, steps, 6);
  }

  lemma WipeStage(a: string, b: string)
    requires AddressList([a, b])
    ensures StageStep(a, b, 6).node == b && b !in Stage(a, b, 6).founders && Stage(a, b, 11).founders == {a, b}
    ensures Wiped(Stage(a, b, 6), Stage(a, b, 7), b) && DatabaseElsewhere(Stage(a, b, 6), b)
  {
    hide InitialCluster, NodeName, LocalIdentity;
    Pair(a, b);
    var c := Stage(a, b, 6);
    assert c.nodes[a].host.etcd.Database?;
    assert Stage(a, b, 7).nodes == c.nodes[b := NoEtcd(c.nodes[b])];
  }

  // ----- three nodes -----

  lemma Triple(f: string, b: string, c: string)
    requires AddressList([f, b, c])
    ensures f != b && b != c && f != c && IsIPv4(f) && IsIPv4(b) && IsIPv4(c)
    ensures Without([f, b, c], f) == [b, c] && Without([f, b, c], b) == [f, c]
  {
    var view := [f, b, c];
    assert view[0] == f && view[1] == b && view[2] == c && f in view && b in view && c in view;
    LessIrreflexive(f);
    LessIrreflexive(b);
    assert view[..2] == [f, b] && [f, b][..1] == [f] && [f][..0] == [];
    assert Without([], f) == [] && Without([], b) == [];
    assert Without([f], f) == [] && Without([f], b) == [f];
    assert Without([f, b], f) == [b] && Without([f, b], b) == [f];
  }

  /** The founder recovers as the only copy; */
  lemma FounderOpens(f: string, b: string, c: string)
    requires AddressList([f, b, c])
    ensures var view := [f, b, c];
      var heard := map[b := Some(IdentityOf(Disk(view, b, EMPTY, Fresh))),
          c := Some(IdentityOf(Disk(view, c, EMPTY, Fresh)))];
      var n := Node(Disk(view, f, REPLICA, Fresh), false, Probing(RecoveryPath, 0, heard, None));
      BootstrapPath(n.host.cfg, REPLICA, Fresh) == RecoveryPath && AfterRound(view, f, n) == Cleared
  {
    hide InitialCluster, MembershipNames, NodeName, NodeNames, BootstrapCandidate, OtherIPs, LocalIdentity, Split,
         Without,
         RecoveryAuthority, AfterRound, Consistent;
    Triple(f, b, c);
    var view := [f, b, c];
    var heard := map[b := Some(IdentityOf(Disk(view, b, EMPTY, Fresh))),
        c := Some(IdentityOf(Disk(view, c, EMPTY, Fresh)))];
    var n := Node(Disk(view, f, REPLICA, Fresh), false, Probing(RecoveryPath, 0, heard, None));
    var results := Collected(heard, [b, c]);
    assert results[0] == PeerResult(b, heard[b]) && results[1] == PeerResult(c, heard[c]);
    var all := Everyone(n.host.cfg, IdentityOf(n.host), results);
    Trusted(PLAIN, f, view, all[0], REPLICA, Fresh);
    Trusted(PLAIN, f, view, all[1], EMPTY, Fresh);
    Trusted(PLAIN, f, view, all[2], EMPTY, Fresh);
    Tells(PLAIN, f, view, REPLICA, Fresh);
    Tells(PLAIN, b, view, EMPTY, Fresh);
    Tells(PLAIN, c, view, EMPTY, Fresh);
    SoleCopyChosen(all);
    RecoveryClears(view, f, n);
  }

  /** the new primary recovers once it has heard every etcd directory empty, each at its own time. */
  lemma PrimaryOpens(f: string, b: string, c: string)
    requires AddressList([f, b, c])
    ensures var view := [f, b, c];
      var heard := map[f := Some(IdentityOf(Disk(view, f, REPLICA, Fresh))),
          c := Some(IdentityOf(Disk(view, c, EMPTY, Fresh)))];
      var n := Node(Disk(view, b, PRIMARY, Fresh), true, Probing(RecoveryPath, 0, heard, None));
      BootstrapPath(n.host.cfg, PRIMARY, Fresh) == RecoveryPath && AfterRound(view, b, n) == Cleared
  {
    hide InitialCluster, MembershipNames, NodeName, NodeNames, BootstrapCandidate, OtherIPs, LocalIdentity, Split,
         Without,
         RecoveryAuthority, AfterRound, Consistent, FurtherThan, Level;
    Triple(f, b, c);
    var view := [f, b, c];
    var heard := map[f := Some(IdentityOf(Disk(view, f, REPLICA, Fresh))),
        c := Some(IdentityOf(Disk(view, c, EMPTY, Fresh)))];
    var n := Node(Disk(view, b, PRIMARY, Fresh), true, Probing(RecoveryPath, 0, heard, None));
    var results := Collected(heard, [f, c]);
    assert results[0] == PeerResult(f, heard[f]) && results[1] == PeerResult(c, heard[c]);
    var all := Everyone(n.host.cfg, IdentityOf(n.host), results);
    Trusted(PLAIN, b, view, all[0], PRIMARY, Fresh);
    Trusted(PLAIN, b, view, all[1], REPLICA, Fresh);
    Trusted(PLAIN, b, view, all[2], EMPTY, Fresh);
    Tells(PLAIN, b, view, PRIMARY, Fresh);
    Tells(PLAIN, f, view, REPLICA, Fresh);
    Tells(PLAIN, c, view, EMPTY, Fresh);
    SoleOrLeading(all);
    RecoveryClears(view, b, n);
  }

  /** The founder along the run: it opens the epoch, is wiped, and rejoins. */
  function FounderAt(f: string, b: string, c: string, k: nat): Node {
    var view := [f, b, c];
    var one := map[b := Some(IdentityOf(Disk(view, b, EMPTY, Fresh)))];
    var two := map[b := Some(IdentityOf(Disk(view, b, EMPTY, Fresh))),
        c := Some(IdentityOf(Disk(view, c, EMPTY, Fresh)))];
    if k == 0 then Node(Disk(view, f, REPLICA, Fresh), false, Idle)
    else if k == 1 then Node(Disk(view, f, REPLICA, Fresh), false, Probing(RecoveryPath, 0, map[], None))
    else if k == 2 then Node(Disk(view, f, REPLICA, Fresh), false, Probing(RecoveryPath, 0, one, None))
    else if k == 3 then Node(Disk(view, f, REPLICA, Fresh), false, Probing(RecoveryPath, 0, two, None))
    else if k == 4 then Node(Disk(view, f, REPLICA, Fresh), false, Cleared)
    else if k == 11 || k == 12 then Node(Disk(view, f, REPLICA, Fresh), true, Idle)
    else Node(Disk(view, f, REPLICA, Database), true, Idle)
  }

  /** The second node: it joins, becomes the primary, is wiped of its etcd directory, and probes. */
  function PrimaryAt(f: string, b: string, c: string, k: nat): Node {
    var view := [f, b, c];
    var one := map[f := Some(IdentityOf(Disk(view, f, REPLICA, Fresh)))];
    var two := map[f := Some(IdentityOf(Disk(view, f, REPLICA, Fresh))),
        c := Some(IdentityOf(Disk(view, c, EMPTY, Fresh)))];
    if k <= 5 then Node(Disk(view, b, EMPTY, Fresh), false, Idle)
    else if k <= 7 then Node(Disk(view, b, EMPTY, Database), true, Idle)
    else if k == 8 then Node(Disk(view, b, PRIMARY, Database), true, Idle)
    else if k == 9 then Node(Disk(view, b, PRIMARY, Fresh), true, Idle)
    else if k <= 11 then Node(Disk(view, b, PRIMARY, Fresh), true, Probing(RecoveryPath, 0, map[], None))
    else if k <= 14 then Node(Disk(view, b, PRIMARY, Fresh), true, Probing(RecoveryPath, 0, one, None))
    else if k == 15 then Node(Disk(view, b, PRIMARY, Fresh), true, Probing(RecoveryPath, 0, two, None))
    else if k == 16 then Node(Disk(view, b, PRIMARY, Fresh), true, Cleared)
    else Node(Disk(view, b, PRIMARY, Database), true, Idle)
  }

  /** The third node: it joins, keeps the epoch alive while the founder is wiped, and is wiped itself. */
  function KeeperAt(f: string, b: string, c: string, k: nat): Node {
    var view := [f, b, c];
    if k <= 6 then Node(Disk(view, c, EMPTY, Fresh), false, Idle)
    else if k <= 13 then Node(Disk(view, c, EMPTY, Database), true, Idle)
    else Node(Disk(view, c, EMPTY, Fresh), true, Idle)
  }

  function Scene(f: string, b: string, c: string, k: nat): Cluster {
    Cluster(map[f := FounderAt(f, b, c, k), b := PrimaryAt(f, b, c, k), c := KeeperAt(f, b, c, k)],
            if k < 5 then {} else if k < 17 then {f} else {f, b})
  }

  function SceneStep(f: string, b: string, c: string, k: nat): Step {
    var view := [f, b, c];
    if k == 0 then Begin(f)
    else if k == 1 then Hear(f, b, Some(IdentityOf(Disk(view, b, EMPTY, Fresh))))
    else if k == 2 then Hear(f, c, Some(IdentityOf(Disk(view, c, EMPTY, Fresh))))
    else if k == 3 then Conclude(f)
    else if k == 4 then LaunchNew(f, Database)
    else if k == 5 then JoinExisting(b, Database)
    else if k == 6 then JoinExisting(c, Database)
    else if k == 7 then ChangeData(b, PRIMARY)
    else if k == 8 then Wipe(b, Fresh)
    else if k == 9 then Begin(b)
    else if k == 10 then Wipe(f, Fresh)
    else if k == 11 then Hear(b, f, Some(IdentityOf(Disk(view, f, REPLICA, Fresh))))
    else if k == 12 then JoinExisting(f, Database)
    else if k == 13 then Wipe(c, Fresh)
    else if k == 14 then Hear(b, c, Some(IdentityOf(Disk(view, c, EMPTY, Fresh))))
    else if k == 15 then Conclude(b)
    else LaunchNew(b, Database)
  }

  lemma FounderScenes(f: string, b: string, c: string, k: nat)
    requires AddressList([f, b, c]) && k < 5
    ensures Next([f, b, c], Scene(f, b, c, k), Scene(f, b, c, k + 1), SceneStep(f, b, c, k))
  {
    hide AfterRound, BootstrapPath, InitialCluster, NodeName, LocalIdentity, Next, Without;
    Triple(f, b, c);
    FounderOpens(f, b, c);
    Steps([f, b, c], Scene(f, b, c, k), Scene(f, b, c, k + 1), SceneStep(f, b, c, k), FounderAt(f, b, c, k + 1));
  }

  lemma PrimaryScenes(f: string, b: string, c: string, k: nat)
    requires AddressList([f, b, c]) && k in {9, 11, 14, 15, 16}
    ensures Next([f, b, c], Scene(f, b, c, k), Scene(f, b, c, k + 1), SceneStep(f, b, c, k))
  {
    hide AfterRound, BootstrapPath, InitialCluster, NodeName, LocalIdentity, Next, Without;
    Triple(f, b, c);
    PrimaryOpens(f, b, c);
    Steps([f, b, c], Scene(f, b, c, k), Scene(f, b, c, k + 1), SceneStep(f, b, c, k), PrimaryAt(f, b, c, k + 1));
  }

  lemma JoinScenes(f: string, b: string, c: string, k: nat)
    requires AddressList([f, b, c]) && k in {5, 6, 7, 8}
    ensures Next([f, b, c], Scene(f, b, c, k), Scene(f, b, c, k + 1), SceneStep(f, b, c, k))
  {
    hide AfterRound, BootstrapPath, InitialCluster, NodeName, LocalIdentity, Next, Without;
    Triple(f, b, c);
    var from := Scene(f, b, c, k);
    assert from.nodes[f].host.etcd.Database? && !from.nodes[f].host.pg.isEmpty;
    var m := if k == 6 then KeeperAt(f, b, c, k + 1) else PrimaryAt(f, b, c, k + 1);
    Steps([f, b, c], from, Scene(f, b, c, k + 1), SceneStep(f, b, c, k), m);
  }

  lemma RejoinScenes(f: string, b: string, c: string, k: nat)
    requires AddressList([f, b, c]) && k in {12, 13}
    ensures Next([f, b, c], Scene(f, b, c, k), Scene(f, b, c, k + 1), SceneStep(f, b, c, k))
  {
    hide AfterRound, BootstrapPath, InitialCluster, NodeName, LocalIdentity, Next, Without;
    Triple(f, b, c);
    assert Scene(f, b, c, k).nodes[c].host.etcd.Database?;
    var m := if k == 12 then FounderAt(f, b, c, k + 1) else KeeperAt(f, b, c, k + 1);
    Steps([f, b, c], Scene(f, b, c, k), Scene(f, b, c, k + 1), SceneStep(f, b, c, k), m);
  }

  lemma SceneNext(f: string, b: string, c: string, k: nat)
    requires AddressList([f, b, c]) && k < 17 && k != 10
    ensures Next([f, b, c], Scene(f, b, c, k), Scene(f, b, c, k + 1), SceneStep(f, b, c, k))
  {
    hide Next, Scene, SceneStep;
    if k < 5 {
      FounderScenes(f, b, c, k);
    } else if k < 9 {
      JoinScenes(f, b, c, k);
    } else if k == 12 || k == 13 {
      RejoinScenes(f, b, c, k);
    } else {
      PrimaryScenes(f, b, c, k);
    }
  }

  lemma SceneLost(f: string, b: string, c: string)
    requires AddressList([f, b, c])
    ensures Lost([f, b, c], Scene(f, b, c, 0))
  {
    hide Lost, Member;
    Triple(f, b, c);
    IsLost([f, b, c], Scene(f, b, c, 0));
  }

  lemma WipeScene(f: string, b: string, c: string)
    requires AddressList([f, b, c])
    ensures SceneStep(f, b, c, 10).node == f && Scene(f, b, c, 17).founders == {f, b}
    ensures Wiped(Scene(f, b, c, 10), Scene(f, b, c, 11), f)
    ensures DataElsewhere(Scene(f, b, c, 10), f) && DatabaseElsewhere(Scene(f, b, c, 10), f)
  {
    hide InitialCluster, NodeName, LocalIdentity;
    Triple(f, b, c);
    var before := Scene(f, b, c, 10);
    assert !before.nodes[b].host.pg.isEmpty && before.nodes[c].host.etcd.Database?;
    assert Scene(f, b, c, 11).nodes == before.nodes[f := NoEtcd(before.nodes[f])];
  }

  /** The founder must not lose its etcd database: two nodes open an epoch when it does, even with a
      database alive and data held elsewhere at that moment. */
  lemma FounderMustStay(f: string, b: string, c: string)
    requires AddressList([f, b, c])
    ensures exists trace: seq<Cluster>, steps: seq<Step>, k: nat ::
      LooseRun([f, b, c], trace, steps, k) && trace[|steps|].founders == {f, b} &&
      DataElsewhere(trace[k], steps[k].node) && DatabaseElsewhere(trace[k], steps[k].node)
  {
    hide Lost, Next, Scene, SceneStep, Wiped, DataElsewhere, DatabaseElsewhere, FounderAt, PrimaryAt, KeeperAt;
    Triple(f, b, c);
    var trace := seq(18, k requires k >= 0 => Scene(f, b, c, k));
    var steps := seq(17, k requires k >= 0 => SceneStep(f, b, c, k));
    SceneLost(f, b, c);
    WipeScene(f, b, c);
    forall i | 0 <= i < |steps| && i != 10 ensures Next([f, b, c], trace[i], trace[i + 1], steps[i]) {
      SceneNext(f, b, c, i);
    }
    assert LooseRun([f, b, c], trace, steps, 10);
  }
}
