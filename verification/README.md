# The recovery and bootstrap protocol of flux-pg-cluster, verified

The agent of this repository runs one PostgreSQL cluster per application on nodes that come and go.
Each node keeps a PostgreSQL data directory and an etcd directory; etcd may be lost everywhere at
once. Without a leader, the nodes must then decide which single one of them may open a new etcd
epoch, and they must never pick a stale copy, open two epochs, or delete the last data. This project
models that protocol and the codecs, counters and maintenance loops it stands on, and proves what
they promise.

`dafny verify dfyconfig.toml` checks everything.

## How the model is laid out

| file | what it covers |
|---|---|
| `Text.dfy` | strings as Go's packages treat them: order, splitting, trimming, replacing, numbers |
| `Settings.dfy`, `Topology.dfy` | the configuration, the topology printer and its three parsers |
| `WalPosition.dfy` | log sequence numbers, recovery positions, their wire form |
| `Identity.dfy` | a node's identity and the evaluators of evidence, as loops proved against `RecoveryAuthority` and `FreshEvidence` |
| `Agreement.dfy` | what the evaluators guarantee across nodes |
| `Verdicts.dfy` | whom the evaluators name and who may open an epoch, exactly, in terms of answers and disks |
| `Bootstrap.dfy` | repeated confirmation and the decision to bootstrap |
| `Etcd.dfy`, `Membership.dfy` | etcd's member list and the daemon's reconciliation of it |
| `EtcdStart.dfy` | the `etcd-start` state machine |
| `Epoch.dfy` | all nodes together, after total etcd loss: at most one epoch |
| `Witnesses.dfy`, `EpochWitnesses.dfy` | which evaluators of a view agree; runs that show that epochs do open and that each half of the guard is needed |
| `Counters.dfy`, `Daemon.dfy` | tracker and cooldown files, and the daemon's recovery decisions |
| `DataSafety.dfy` | the system-ID check and what every run of it preserves |
| `ClusterEnv.dfy` | `/etc/cluster_env`: quoting, the two readers, writing and loading |
| `ConfigMerge.dfy` | the repair of Patroni's dynamic configuration |
| `Backup.dfy` | the streaming search of the dump and the pruning of backups |

Go code that loops and updates fields is a method with a loop, or a class whose methods update its
fields; its contract ties the result to a specification function, and the lemmas are about that
function. The network, the disk, clocks and child processes are parameters: a list of answers, a
function from positions to replies, a time at which a guard is checked and a later one at which its
stamp is written.

## What the theorems assume

* Addresses are IPv4 text (digits and dots), distinct and sorted, as the Flux client delivers them.
* Agreement needs every evaluator to be a member of its own view. `init` sees to that
  (`Topology.InitForms`); the daemon's rewrite of the topology does not add the local address.
  `Witnesses.OwnViewIsNeeded` proves that this is exact: two nodes with one view agree in every
  snapshot if and only if they are one node or both belong to the view.
* What a reconcile cycle removes is stated exactly for every registry (`Membership.ReconcileMembers`).
  The lookup by client address is a substring test, so a departing member's address that ends the
  address of a member listed before it strikes the wrong one. `Membership.SparesDesired`,
  `Membership.RemovesExactlyDeparting` and `Membership.LeavesExactlyDesired` give the exact
  conditions, and `Membership.RemovesDesiredAddress` a cycle that removes the desired 11.2.3.4.
* At most one epoch is proved over every interleaving in which each peer is read at its own time.
  It starts from the loss of all etcd databases, with one shared view, `ALLOW_NEW_CLUSTER_BOOTSTRAP`
  off, and no loss of data directories; a node's PostgreSQL data changes only while its own etcd has
  a database. Any node's etcd directory may be wiped at any time under `Epoch.WipeGuard`: a directory
  without a database always; a database only if the node did not open the epoch, and holds no data or
  another node holds data too. Both halves are needed. `EpochWitnesses.LastCopyMustStay` opens two
  epochs by wiping the last copy's database, `EpochWitnesses.FounderMustStay` by wiping the founder's.
  The code's own wipes (`cmd/flux-agent/etcd_start.go:93-103`, `cmd/flux-agent/daemon.go:217-226`,
  `cmd/flux-agent/daemon.go:961-992`) check neither half; the guard is a hypothesis on when they
  happen.
* Data preservation takes Patroni's reports as truthful when they are collected. With atomic daemon
  cycles no run loses the last data. With cycles that overlap, the same holds while all wiping cycles
  confirm one system, and no copy of that system is lost. `DataSafety.LateWipeLosesData` shows that
  overlapping cycles which confirm two systems can lose everything.
* A snapshot admits an opener exactly under `Bootstrap.SomebodyMayOpen`, and `Verdicts.MayOpenOnDisk`
  says which node it is by what is on the disks: agreement on an authority is not enough, since the
  authority's own data directory must have `global/` and its etcd no database.
* The steps of the whole-system model are those of `Epoch.AnyAnswer`, `Epoch.AnyLaunch` and
  `Epoch.AnyDisk` at least: what they name may happen at any time.

## Where code and documentation differ

The model follows the code.

* The repository's README (lines 183 and 206) and comments at `cmd/flux-agent/etcd_start.go:520-523`
  say that several data copies always block automatic recovery. The code ranks several copies after
  total etcd loss (`cmd/flux-agent/bootstrap_identity.go:324-375`).
* README line 184 says membership removals and topology rewrites wait for a stable desired list. The
  daemon rewrites the topology on every cycle (`cmd/flux-agent/daemon.go:96-100`) and removes an
  undesired unreachable member at once (`cmd/flux-agent/daemon.go:254-263`).
* The header of `runEtcdStart` and the comment on `verifyLocalDataWithTempEtcd` say that a cluster-ID
  mismatch wipes local data. The caller keeps the data in every case
  (`cmd/flux-agent/etcd_start.go:106-112`), and wipes when a reachable peer does not list the node,
  not whenever a peer is reachable.
* The comment on `checkPatroniSystemID` calls a running replica sufficient evidence for a wipe. The
  code requires the primary (`cmd/flux-agent/daemon.go:738-741`).
* A configuration document `null` in the DCS makes `mergePatroniRecoveryConfig` write to a nil map;
  the model's outcome for it is `Panic`.
* `etcd-start` promises that a consumed recovery hint is not applied later. That holds of the hint
  itself; a daemon that writes the flag again before the launch makes the same start pass
  `--force-new-cluster`, which is the `flagRewritten` input of `EtcdStart.EtcdStarter.Run`.

## Model

| member | source | states |
|---|---|---|
| Topology.NodeNameOrder | cmd/flux-agent/init.go:323-325 | Turning dots into dashes keeps the lexicographic order of IPv4 texts in both directions, and names are equal only for equal addresses |
| Topology.NodeNamesIncreasing | cmd/flux-agent/bootstrap_identity.go:93-103 | For a sorted list of distinct addresses the mapped names are already sorted and distinct, so the view is the mapped list itself |
| Topology.LeaderIPInvertsNodeName | cmd/flux-agent/daemon.go:639 | The address the stale-leader check derives from a leader key is the address the name was made from |
| Topology.BuildEtcdTopology | cmd/flux-agent/init.go:348-359 | The loop prints, in list order, exactly the host list, the loopback Patroni host and the initial cluster that the three parsers are proved against |
| Topology.ParseMembershipNames | cmd/flux-agent/bootstrap_identity.go:93-103 | The parsing loop yields the sorted view of every initial-cluster text, malformed parts included |
| Topology.ParseOtherIPs | cmd/flux-agent/etcd_start.go:271-288 | The parsing loop yields the peers of every initial-cluster text in order, without this node and without empty hosts |
| Topology.FindBootstrapCandidate | cmd/flux-agent/etcd_start.go:555-572 | The loop returns the least name of any initial-cluster text, empty when no part carries a name |
| Topology.Least | cmd/flux-agent/etcd_start.go:555-572 | The candidate is one of the names and no name is smaller |
| Topology.SplitCSV | cmd/flux-agent/proxy.go:217-234 | The proxy's character loop yields the same parts as splitting at commas and dropping empty parts |
| Topology.ParseCandidateIPs | cmd/flux-agent/proxy.go:201-215 | The proxy's candidates are the parts of the host list cut at their first colon, in order |
| Topology.HostOfPeerURL | cmd/flux-agent/etcd_start.go:292-300 | Extracting the host from a peer URL this agent prints returns the address, for both protocols and every port |
| Topology.TopologyRoundTrip | cmd/flux-agent/init.go:348-359 | Parsing a printed topology gives back the names in order as view, the other addresses in order as peers, and the first address's node as candidate, for every sorted list of distinct addresses and every asking node |
| Topology.PrintedTopology | cmd/flux-agent/init.go:348-359 | For two nodes, spelled out: the host list is address:port,address:port, and the initial cluster node-a-b-c-d=protocol://address:port for each, with https exactly when SSL is on |
| Topology.PartExactly | cmd/flux-agent/etcd_start.go:271-288 | A part of any initial-cluster text names what stands before its first equals sign, and a peer is the host behind it unless it is this node or empty; a part without an equals sign is skipped by both parsers |
| Topology.HostBehindScheme | cmd/flux-agent/etcd_start.go:292-300 | The host is what stands between the first scheme separator and the last colon |
| Topology.HostsRoundTrip | cmd/flux-agent/proxy.go:201-234 | The proxy reads the whole address list back from the printed host list, in order |
| Topology.AgentConfig.BuildEtcdConfig | cmd/flux-agent/init.go:327-346 | The configuration becomes the topology of the sorted list with the local address added when missing, so the addresses are exactly the API's and the local one; every other field is unchanged |
| Topology.InitForms | cmd/flux-agent/init.go:327-346 | After init the node belongs to its own view, and the view is exactly the API's addresses and its own |
| Topology.AgentConfig.UpdateClusterEnv | cmd/flux-agent/daemon.go:1029-1043 | The daemon prints exactly the desired list, without adding the local address, and reports a change iff some printed value differs |
| Topology.AgentConfig.ConfigureSingleMemberBootstrap | cmd/flux-agent/etcd_start.go:237-241 | A node named after its address becomes its whole view: it is in it, parses no peers, and is the bootstrap candidate; no other setting changes |
| WalPosition.LsnRoundTrip | cmd/flux-agent/daemon.go:793-811 | Every 64-bit log sequence number survives printing as X/X and parsing |
| WalPosition.ParseLsnExactly | cmd/flux-agent/daemon.go:793-807 | A text is a position exactly as two hexadecimal numbers below 4294967296 around one slash, the first in units of 4294967296; anything else is an error |
| WalPosition.TextOrderIsNotPositionOrder | cmd/flux-agent/bootstrap_identity.go:378-405 | A pair of positions whose printed texts sort the other way round: the selection must compare numbers |
| WalPosition.BestPosition | cmd/flux-agent/daemon.go:839-856 | The recovery position is one of the two control-file positions and neither usable one is ahead of it by timeline, then number |
| WalPosition.BestPositionExactly | cmd/flux-agent/daemon.go:839-856 | The best position iff it is that of a field, its timeline and number are above zero, and the other readable field does not exceed it by timeline or, on its timeline, by number |
| WalPosition.RecoveryPosition | cmd/flux-agent/daemon.go:839-856 | Considering the two fields in turn computes that greatest position, or reports that none is usable |
| WalPosition.WireRoundTrip | cmd/flux-agent/bootstrap_identity.go:64-72 | A peer that parses timeline and printed position gets the best position the sender read |
| Identity.PositionSurvivesTheWire | cmd/flux-agent/bootstrap_identity.go:55-76 | The position other nodes read from a node's identity is the best of that node's own control data, or unreadable exactly when the node has none |
| Identity.EqualStrings | cmd/flux-agent/bootstrap_identity.go:453-463 | The index loop decides equality of lists |
| Identity.EvaluateFreshPeerEvidence | cmd/flux-agent/bootstrap_identity.go:232-261 | Fresh evidence holds iff there is one answer per expected peer and every answer names the application, scope, view and asked address's node and reports empty PGDATA, no system ID and empty etcd, all spelled out in the contract |
| Identity.ChosenUnique | cmd/flux-agent/bootstrap_identity.go:271-376 | At most one position of a list of answers can be the authority, in every list |
| Identity.SelectMostAdvancedReplica | cmd/flux-agent/bootstrap_identity.go:378-405 | For every list of answers the loop selects iff the list is not empty, every position can be read and is above zero, and all timelines are one; the selected position is the greatest, then of the least name, then the first |
| Identity.RankCopies | cmd/flux-agent/bootstrap_identity.go:329-375 | Among several copies the loop finds the one that outranks all others, and reports failure exactly when none does |
| Identity.GatherCopies | cmd/flux-agent/bootstrap_identity.go:283-313 | The loop accepts iff every answer names this application, scope, view and the asked node, and reports data with a system ID or no data and no metadata; then it has collected exactly the data-bearing answers, in order, and whether every etcd is empty |
| Identity.EvaluateRecoveryAuthority | cmd/flux-agent/bootstrap_identity.go:271-376 | The computed authority is the one the evidence defines; an authority means one believed answer per expected node, every data-bearing one with a system ID, and is one of the data-bearing answers |
| Verdicts.DoubtfulAnswerRefuses | cmd/flux-agent/bootstrap_identity.go:283-311 | In any list of answers, one missing answer, or one of another application, scope, node or view, with data but no system ID, or with metadata but no data, refuses every authority |
| Verdicts.LegacyAnswerRefuses | cmd/flux-agent/bootstrap_identity.go:190-210 | The answer assembled for a peer on an older image refuses both recovery and fresh bootstrap for every asking node of a printed topology |
| Verdicts.OutranksExactly | cmd/flux-agent/bootstrap_identity.go:329-405 | One copy outranks another iff the other is a replica of the same system and the first is the primary, or a replica on the same timeline with readable positions and a greater one, or an equal one under a lesser name or earlier in the list |
| Verdicts.VerdictExactly | cmd/flux-agent/bootstrap_identity.go:271-376 | Whom recovery names, exactly and in terms of the answers: everybody answered and is believed, and the named copy is alone or, with all etcd empty, outranks each other copy |
| Verdicts.AuthorityOnDisk | cmd/flux-agent/bootstrap_identity.go:55-91 | Whom it names in a snapshot, exactly and in terms of the disks: every member is there and believed, the authority holds data, and any other copy requires that all etcd directories are fresh and that the authority ran as primary beside a replica of its system, or has the greater durable position on one timeline, then the lesser address |
| Verdicts.DoubtfulMemberBlocks | cmd/flux-agent/bootstrap_identity.go:309-311 | A single member that is absent, belongs to another application or scope, or has data whose control file or system ID cannot be read blocks recovery for everybody in the view |
| Verdicts.MayOpenOnDisk | cmd/flux-agent/etcd_start.go:503-537 | Who may open an epoch in a snapshot of a shared view, exactly and in terms of the disks: the first of several empty nodes, or a node with global/ and no etcd database that precedes every other copy |
| Agreement.AuthorityExists | cmd/flux-agent/bootstrap_identity.go:312-375 | Among distinctly named answers somebody is chosen iff there is one data copy, or all etcd is empty, all copies share a system ID, and either exactly one is a primary beside known replicas or all are replicas with readable positions on one timeline |
| Agreement.AuthorityIsPossible | cmd/flux-agent/bootstrap_identity.go:271-376 | Full characterisation: the evaluator finds an authority iff every expected peer gave a consistent answer and the copies among them are one of those constellations |
| Agreement.AuthorityIsWinner | cmd/flux-agent/bootstrap_identity.go:271-376 | For distinct addresses the authority is a property of the set of answers, with no reference to positions in the list |
| Agreement.OrderIndependence | cmd/flux-agent/bootstrap_identity.go:271-376 | Two evaluators with one view and the same set of answers, whoever is local and in whatever order, reach the same verdict |
| Agreement.OverlapForcesAgreement | cmd/flux-agent/bootstrap_identity.go:271-376 | In one snapshot, two nodes that are each in their own view, both get an authority and share any node of their views have equal views and equal authorities |
| Agreement.OnlyOneNamesItself | cmd/flux-agent/etcd_start.go:539-547 | Hence at most one of them names itself |
| Agreement.WinnerOf | cmd/flux-agent/bootstrap_identity.go:312-375 | The authority of a snapshot holds data, and every other copy in the view is outranked by it and means that every etcd directory in the view is empty |
| Agreement.NoStaleReplica | cmd/flux-agent/bootstrap_identity.go:378-405 | When no primary survives, every other surviving copy's own durable position is on the chosen copy's timeline and not beyond it, and on a tie the chosen address is the lesser |
| Witnesses.OwnViewIsNeeded | cmd/flux-agent/daemon.go:1029-1037 | For every view and every two addresses: the two evaluators agree in every snapshot iff they are one node or both belong to the view |
| Witnesses.NamesItself | cmd/flux-agent/bootstrap_identity.go:271-376 | When the view leaves out a primary, there is a snapshot in which it and any other node each name themselves |
| Bootstrap.ConfirmRecoveryAuthority | cmd/flux-agent/bootstrap_identity.go:422-451 | Success iff the first and every further round below the configured number names one and the same authority, which is returned; otherwise some round named none or another than the first |
| Bootstrap.ConfirmedExactly | cmd/flux-agent/bootstrap_identity.go:422-451 | An authority is confirmed iff the first round and every further one below the configured number names it |
| Bootstrap.ConfirmFreshCluster | cmd/flux-agent/bootstrap_identity.go:465-498 | Success iff there is a peer and each of max(1, configured) rounds is fresh evidence |
| Bootstrap.ConfirmationsAgree | cmd/flux-agent/bootstrap_identity.go:422-451 | Two confirmations that each include a round over one common snapshot, in overlapping views, confirm the same authority |
| Bootstrap.DecideBootstrap | cmd/flux-agent/etcd_start.go:495-550 | The state "new" is granted iff the override permits it, or the strictly empty candidate of a multi-member view confirmed freshness, or a data-bearing node without database was confirmed as authority |
| Bootstrap.MayBootstrapExactly | cmd/flux-agent/etcd_start.go:495-550 | The decision spelled out: with the override any node or the candidate; without it an empty node iff it is the candidate of several with peers that every round finds fresh, and a node with data iff it has global/, no etcd database and every round names it |
| Bootstrap.OverrideBootstraps | cmd/flux-agent/etcd_start.go:543-549 | With the override, a node of a printed topology may bootstrap iff any node may or it has the first address |
| Bootstrap.PathDecides | cmd/flux-agent/etcd_start.go:503-549 | The node's own state selects the evidence that alone decides |
| Bootstrap.FreshPathIsCandidate | cmd/flux-agent/etcd_start.go:555-572 | In a shared view only the first address can be on the fresh path |
| Bootstrap.AtMostOneMayOpen | cmd/flux-agent/etcd_start.go:503-537 | Over one snapshot and view without overrides, the fresh path and the recovery path together admit at most one node |
| Bootstrap.SomebodyMayOpen | cmd/flux-agent/etcd_start.go:503-537 | They admit somebody iff the snapshot is a first deployment (several nodes of one application and scope, all empty, the first with automatic bootstrap on) or there is an authority with global/, without an etcd database, and with recovery enabled |
| Bootstrap.NoGlobalNobodyOpens | cmd/flux-agent/etcd_start.go:498-524 | An authority whose data directory lacks global/ blocks every member of the view |
| Bootstrap.AskedByAnyone | cmd/flux-agent/bootstrap_identity.go:271-376 | In a shared view the authority one member finds, every member finds |
| Etcd.ParseMemberList | internal/etcdmgr/etcdmgr.go:139-174 | Filling members field by field parses every line of any output as the line grammar says, skipping lines without two fields |
| Etcd.MemberOfFields | internal/etcdmgr/etcdmgr.go:139-174 | What a line of one to six plain fields says: no member without a status, missing fields empty, unstarted by status or by an empty client URL, learner by the last field |
| Etcd.MemberListRoundTrip | internal/etcdmgr/etcdmgr.go:139-174 | Members printed in etcdctl's format are read back one by one, several URLs per field included, as long as no field holds a comma followed by a space, a newline, or a space at its ends |
| Etcd.FindByName | internal/etcdmgr/etcdmgr.go:187-194 | The first member with that name, none iff there is none |
| Etcd.FindByPeerURL | internal/etcdmgr/etcdmgr.go:177-184 | The first member with that peer URL, none iff there is none |
| Etcd.FindByClientIP | internal/etcdmgr/etcdmgr.go:197-204 | The first member whose client URLs contain the text, none iff there is none |
| Membership.ContainsIsSuffix | internal/etcdmgr/etcdmgr.go:197-204 | On client URLs of one protocol and port the substring test holds iff the wanted address is a suffix of the member's |
| Membership.FindsItself | internal/etcdmgr/etcdmgr.go:197-204 | Looking a member up by its own address finds it iff no earlier member's address ends in that address |
| Membership.SuffixMisleads | internal/etcdmgr/etcdmgr.go:197-204 | A concrete pair where the lookup of 1.2.3.4 returns the member at 11.2.3.4 |
| Membership.ListMemberIPs | cmd/flux-agent/daemon.go:899-911 | The loop lists the addresses of the members that have a client URL |
| Membership.FindsOwner | cmd/flux-agent/daemon.go:264 | In an orderly member list an address leads to the one started member that has it |
| Membership.RemoveGhosts | cmd/flux-agent/daemon.go:193-207 | Exactly the members with the ID of an unstarted, undesired member whose removal works are gone; the others keep their order |
| Membership.RemoveDeparted | cmd/flux-agent/daemon.go:247-274 | For every registry and listing, exactly the IDs that the lookups of departing addresses end at, and whose removal works, are gone |
| Membership.DepartedExactly | cmd/flux-agent/daemon.go:250-274 | Over registered members the loop removes x iff its removal works and x is the first started member whose address ends in some departing address |
| Membership.SparesDesired | cmd/flux-agent/daemon.go:250-274 | No desired member goes iff no departing address has a desired member, with a working removal, as the first whose address ends in it |
| Membership.RemovesExactlyDeparting | cmd/flux-agent/daemon.go:250-274 | With working removals exactly the departing members go iff no departing address ends the address of a started member listed before its own |
| Membership.LeavesExactlyDesired | cmd/flux-agent/daemon.go:193-274 | A stable cycle whose calls all succeed leaves exactly the desired members iff no undesired started member's address ends the address of a started member listed before it |
| Membership.ReconcileMembers | cmd/flux-agent/daemon.go:193-274 | The registry after a cycle, exactly, for every registry and outcome; and when no address ends another: no desired member goes, no started reachable one unless stable, and a stable successful cycle leaves exactly the desired ones |
| Membership.RemovesDesired | cmd/flux-agent/daemon.go:250-274 | A desired member listed before a departing one whose address ends its own is removed, and the departing one stays |
| Membership.RemovesDesiredAddress | cmd/flux-agent/daemon.go:250-274 | Concretely, a stable cycle that wants 11.2.3.4 and not 1.2.3.4 leaves only 1.2.3.4 |
| Membership.RemovalsAddUp | internal/etcdmgr/etcdmgr.go:86-89 | Removals by ID compose: in whatever order they are made, the members left are those with none of the removed IDs, in their order |
| EtcdStart.RebuildInitialCluster | cmd/flux-agent/etcd_start.go:472-489 | The rebuilt value joins name=URL of the registered members in order, giving this node's name to its own nameless entry; RebuiltPartsExactly and RebuiltCount say what each part is |
| EtcdStart.RebuiltCount | cmd/flux-agent/etcd_start.go:472-489 | When only this node is nameless the rebuilt value has one part per registered member, in order, and the text before and after its first equals sign is the member's name (or this node's) and peer URL |
| EtcdStart.RebuiltPartsExactly | cmd/flux-agent/etcd_start.go:472-489 | A text is a part iff it is name=URL of some named member with a URL, or this node's name and URL for a nameless member with that URL |
| EtcdStart.RebuiltIsPrinted | cmd/flux-agent/etcd_start.go:472-489 | Rebuilding from nodes of this cluster gives the very text that init and the daemon print for their addresses, in the order of registration |
| EtcdStart.JoinsWithMembers | cmd/flux-agent/etcd_start.go:405-455 | A node that a peer already knows keeps its topology; one that was added starts with the members its peer lists, printed as this cluster prints them |
| EtcdStart.RegisteredExactly | cmd/flux-agent/etcd_start.go:405-427 | A peer counts as knowing this node iff its first entry of this name or, lacking one, its first with this peer URL, is named and started, and no rejoin is forced |
| EtcdStart.LetsInExactly | cmd/flux-agent/etcd_start.go:396-455 | A peer lets this node in iff it is asked, answers, knows it or adds it, and no peer asked before it was busy with another learner |
| EtcdStart.PeersOfLastReload | cmd/flux-agent/etcd_start.go:383-394 | The peers asked in an attempt are those of the last successful reload |
| EtcdStart.AskPeers | cmd/flux-agent/etcd_start.go:396-455 | One attempt joins iff some peer lets this node in before any busy one, with the initial cluster that peer leads to, and counts as answered iff any peer answered |
| EtcdStart.TryJoinExisting | cmd/flux-agent/etcd_start.go:375-467 | Under any sequence of topology reloads: joined iff some attempt lets this node in, no-peers iff every attempt met silence, split-brain risk otherwise |
| EtcdStart.EtcdStarter.ConsiderDatabase | cmd/flux-agent/etcd_start.go:69-114 | The etcd directory is wiped for a rejoin iff the first peer that answers with members lists none of this node's name |
| EtcdStart.EtcdStarter.ConsumeHint | cmd/flux-agent/etcd_start.go:226-235 | The hint is gone whatever the outcome, and the state is "new" iff the fresh evidence permits a bootstrap |
| EtcdStart.EtcdStarter.JoinOrBootstrap | cmd/flux-agent/etcd_start.go:136-192 | "new" iff not rejoining, every attempt met silence, this node is the candidate or recovers data, and the late evidence permits it; "existing" iff some peer let it in, and then the configuration is that of the attempt with the members that peer leads to; and the exact condition of each refusal |
| EtcdStart.EtcdStarter.Run | cmd/flux-agent/etcd_start.go:31-224 | A start launches "new" iff it had no database and the consumed hint or, after total silence, the late evidence permits it; a database nobody disowns is kept with its topology; every other launch as "existing" was let in by some peer and starts with the members that peer leads to; a wiped start never decides; force-new is passed iff the flag is there at the end, and a consumed hint is not |
| Epoch.ProcessRefinesDecision | cmd/flux-agent/etcd_start.go:495-550 | A process of the whole-system model is cleared after its last round iff decideBootstrap, given the same answers, says "new" |
| Epoch.ClearedBeforeFirst | cmd/flux-agent/etcd_start.go:503-537 | Before any epoch is open, a node is cleared only if the evidence of the loss admits it once leftovers of etcd directories are swept away, even when answers were read before and after such a sweep |
| Epoch.AuthoritySurvivesSweep | cmd/flux-agent/bootstrap_identity.go:271-376 | An authority of a snapshot stays the authority when etcd directories become empty |
| Epoch.NewcomerClearedIsFounder | cmd/flux-agent/bootstrap_identity.go:271-376 | Once an epoch is open, recovery clears no other node that never had a database, whenever its answers were read |
| Epoch.ReturnerNotCleared | cmd/flux-agent/bootstrap_identity.go:318-327 | Nor one that lost its database: another copy and the founder's etcd stand in its answers |
| Epoch.FreshClearedIsFounder | cmd/flux-agent/bootstrap_identity.go:465-498 | Nor does the fresh path |
| Epoch.CopiesStep | cmd/flux-agent/daemon.go:954-992 | A node that lost its etcd database with its data always has another holder of data that it has not heard as empty |
| Epoch.InvStep | cmd/flux-agent/etcd_start.go:495-550 | Every step (begin, hear one peer, conclude, abandon, launch, join, data change, guarded wipe of any etcd directory) keeps the cluster invariant |
| Epoch.AnyAnswer | cmd/flux-agent/bootstrap_identity.go:169-211 | The model excludes no probe: it may fail, bring the peer's identity of that moment, or its legacy answer |
| Epoch.AnyLaunch | cmd/flux-agent/etcd_start.go:181-224 | Nor a launch: a cleared node's with state "new" and an idle node's join beside a live database, leaving the directory as it was, begun, or with a database |
| Epoch.AnyDisk | cmd/flux-agent/daemon.go:954-992 | Nor, on a node whose etcd has its database, any change of data; nor any wipe of a directory without a database, or of one that neither opened the epoch nor lies with the last data |
| Epoch.RunInv | cmd/flux-agent/etcd_start.go:495-550 | The invariant holds throughout every run from total etcd loss |
| Epoch.AtMostOneEpoch | cmd/flux-agent/etcd_start.go:495-550 | In every run from total etcd loss, with each peer read at its own time and etcd directories wiped under the guard, at most one node ever starts etcd with state "new", and it is one the evidence of the loss itself admits |
| Epoch.NoSecondLaunch | cmd/flux-agent/etcd_start.go:495-550 | Once that node's etcd has a database, no later step of any node, itself included, starts etcd with state "new" |
| EpochWitnesses.EpochsDoOpen | cmd/flux-agent/etcd_start.go:495-550 | The theorem is not empty: for any two addresses some run from total loss opens an epoch on the first node, lets the second join and gives it data |
| EpochWitnesses.LastCopyMustStay | cmd/flux-agent/daemon.go:981-992 | Half of the guard is needed: wiping the database of a non-founder that holds the last data, with the founder's database alive, leads to two epochs |
| EpochWitnesses.FounderMustStay | cmd/flux-agent/etcd_start.go:93-103 | So is the other half: wiping the founder's database, with data and a database elsewhere at that moment and every other wipe guarded, leads to two epochs |
| Counters.StateTracker.Update | cmd/flux-agent/daemon.go:367-386 | The file holds the list and its count in two lines; the count is one more than the stored one iff the stored list is the same, else one; stable iff it reaches the threshold |
| Counters.TrackerRoundTrip | cmd/flux-agent/daemon.go:367-386 | What one cycle writes, the next reads |
| Counters.SignatureInjective | cmd/flux-agent/daemon.go:92 | Joined lists are equal only for equal lists |
| Counters.TrackerCountsStability | cmd/flux-agent/daemon.go:367-386 | After every history of lists the stored count is the length of the longest constant suffix |
| Counters.StampStays | cmd/flux-agent/daemon.go:388-403 | After a guarded action the stamp file never holds an earlier time than that action's |
| Counters.GuardsExactly | cmd/flux-agent/daemon.go:388-403 | A stamp holds a trigger back exactly while fewer than the positive cooldown's seconds have passed, and a restart for 90 seconds; a missing file holds nothing back |
| Counters.CooldownsHold | cmd/flux-agent/daemon.go:388-409 | With a non-decreasing clock, two force-new triggers are at least the positive cooldown apart and two wipes of the etcd directory more than 90 seconds |
| Counters.CooldownEnds | cmd/flux-agent/daemon.go:388-403 | Cooldowns end: over any run an attempt goes through once every earlier stamp is old enough |
| Daemon.EvaluatePeerVotes | cmd/flux-agent/daemon.go:606-627 | The counts are the numbers of answering desired peers whose list has a member of this node's name, and whose list has none; zero reachable iff no desired peer answers |
| Daemon.CountsCycles | cmd/flux-agent/daemon.go:915-921 | Each cycle reads the counter the last one wrote: after n cycles the file counts n |
| Daemon.CleanElectionState | cmd/flux-agent/daemon.go:430-448 | Exactly the election keys and everything under members go, and the recovered system ID is recorded when known |
| Daemon.CleanedExactly | cmd/flux-agent/daemon.go:430-448 | A key is left iff it is the recorded initialize key, or was there and is none of leader, status, failsafe, failover and sync nor below members; its value is the recovered ID or the old one |
| Daemon.ConfigurationSurvives | cmd/flux-agent/daemon.go:430-448 | Patroni's dynamic configuration and history are among the keys left, for every scope |
| Daemon.Agent.TriggerForceNewCluster | cmd/flux-agent/daemon.go:405-450 | Flag, stamp and counter are written; the DCS is cleaned only when etcd comes up again |
| Daemon.Agent.HandleEtcdUnreachable | cmd/flux-agent/daemon.go:913-1006 | Exact conditions of each of the four actions (trigger, join the authority, wipe and rejoin, restart), and what each writes; no rejoin when all answering peers name this node, no mere restart when none does; with none of them nothing but the counter changes, except after a failed wipe |
| Daemon.Agent.FollowAuthority | cmd/flux-agent/daemon.go:944-979 | With a confirmed authority: this node triggers iff it is the authority and the cooldown is over, another one wipes its etcd directory to join iff the last restart has settled |
| Daemon.Agent.HeedPeers | cmd/flux-agent/daemon.go:981-1005 | With answering peers: wipe and rejoin iff more of them do not list this node than do, restart iff some and at least as many do, either only after the last restart has settled |
| Daemon.Agent.VerifyMembership | cmd/flux-agent/daemon.go:214-228 | The etcd directory is dropped iff more answering peers do not list this node than do and the restart has settled: never when all of them list it, and once settled whenever some answer and none does; nothing else changes |
| Daemon.Agent.CheckQuorum | cmd/flux-agent/daemon.go:117-156 | Force-new is triggered iff quorum has been missing long enough under a stable list, this node holds data, every round named it the authority, and the cooldown is over |
| Daemon.RetainedEtcdImpliesSoleCopy | cmd/flux-agent/bootstrap_identity.go:318-327 | Whenever force-new is triggered and some answer of a round, the node's own included, shows retained etcd, the triggering node was the only holder of data in that round |
| DataSafety.DataNode.CheckPatroniSystemID | cmd/flux-agent/daemon.go:668-777 | The primary is the last address that reports a system ID and that role; a recorded key nobody reports becomes the primary's, so with a primary somebody confirms the key that is left; data is removed iff another node is the primary and reports that key, the local ID is readable and differs, wiping is permitted and the cooldown is over |
| DataSafety.HealedIsConfirmed | cmd/flux-agent/daemon.go:704-719 | With a primary the key left behind is one that somebody reports, a key somebody reports is left alone, and it changes only to the primary's |
| DataSafety.CheckIsACycle | cmd/flux-agent/daemon.go:668-777 | What the check does is a step of the runs below, healing and wiping included |
| DataSafety.WipeIsJustified | cmd/flux-agent/daemon.go:738-777 | A wiping node is not the confirming primary, that primary's data carries the recorded ID and stays, and every copy of that system stays |
| DataSafety.DataSurvives | cmd/flux-agent/daemon.go:668-777 | No run of atomic cycles, Patroni work and key writes takes the cluster from some data to none, whatever systems are confirmed |
| DataSafety.NothingWipedWithoutPermission | cmd/flux-agent/daemon.go:756-763 | A node whose cycles all forbid wiping keeps its data and system ID in every run, with cycles overlapping at will |
| DataSafety.AtomicIsSplit | cmd/flux-agent/daemon.go:668-777 | A run of atomic cycles is one of overlapping cycles, so what holds of those holds of it |
| DataSafety.ConfirmedSystemSurvives | cmd/flux-agent/daemon.go:738-777 | While the wiping cycles rely on primaries of one system, no copy of that system is lost, with any moves between the collecting and the wiping of a cycle |
| DataSafety.OneSystemDataSurvives | cmd/flux-agent/daemon.go:738-777 | Nor does such a run take the cluster from some data to none |
| DataSafety.LateWipeLosesData | cmd/flux-agent/daemon.go:688-777 | With overlapping cycles and two confirmed systems a run of truthful reports can go from data everywhere to none: neither hypothesis can be dropped |
| ClusterEnv.UnescapeEscaped | internal/config/config.go:205-216 | Left-to-right replacement of the quote escape undoes the escaping, for every string |
| ClusterEnv.DecodeQuote | internal/config/config.go:205-216 | Go reads every quoted value back |
| ClusterEnv.ShellReadsQuote | internal/config/config.go:205-207 | A POSIX shell (Shell Command Language in IEEE Std 1003.1, sections 2.2.2, 2.2.3 and 2.6.7) reads every quoted value as one word with the same value and no expansion |
| ClusterEnv.ShellReadsPlain | internal/config/config.go:315-364 | An unquoted value is read by the shell as it stands iff it holds no special character |
| ClusterEnv.AssignmentExactly | internal/config/config.go:187-199 | A line assigns the unquoted text behind its first equals sign to the key before it; comments and lines without an equals sign assign nothing |
| ClusterEnv.LoaderTakesEveryKey | internal/config/config.go:218-364 | The writer and the loader's switch agree on all 45 keys: each is known and taken as the kind of value it is written as |
| ClusterEnv.PasswordsAreWords | internal/config/config.go:331-332 | The file has a line for each password, and a shell that sources it reads one word with the password as value, whatever it holds |
| ClusterEnv.Environment.ApplyKV | internal/config/config.go:218-311 | A known key takes the value in the way of its kind (text, integer or zero on malformed text, flag by case-insensitive comparison); an unknown key changes nothing |
| ClusterEnv.Environment.Load | internal/config/config.go:180-200 | All lines are applied in order and the load succeeds iff every line has at most 65535 bytes in UTF-8; otherwise the lines before the first long one are applied |
| ClusterEnv.Environment.Write | internal/config/config.go:315-364 | The written text assigns every key and restores all fields in any configuration that loads it iff they survive a round trip; a sourcing shell reads each password as one word with its value |
| ClusterEnv.FieldAfter | internal/config/config.go:180-200 | After a load each field holds the last value its key was given, or what it held before |
| ClusterEnv.EveryKeyIsAssigned | internal/config/config.go:315-364 | Every key is assigned by the written file at least once, even when texts hold newlines |
| ClusterEnv.ValueReadBack | internal/config/config.go:205-311 | A newline-free value survives its own line iff it is quoted, a number, a flag, or plain text without trailing space and enclosing quotes |
| ClusterEnv.WriteThenLoad | internal/config/config.go:180-364 | Writing and loading into any configuration restores all written fields iff every text is free of newlines and every unquoted one has no trailing space and no enclosing quotes |
| ConfigMerge.DecodedExactly | cmd/flux-agent/daemon.go:464-469 | Decoding changes nothing in a value iff every number in it, at any depth, is as its encoder writes it |
| ConfigMerge.SetDefaults | cmd/flux-agent/daemon.go:475-483 | The keys are the old ones and the four defaults, every value already set is kept, and a missing default takes the configured number |
| ConfigMerge.ExistingRules | cmd/flux-agent/daemon.go:491-501 | The loop keeps the string entries of a list, and nothing of any other value |
| ConfigMerge.AppendRequired | cmd/flux-agent/daemon.go:502-506 | The loop appends each required rule that is not there yet |
| ConfigMerge.MergeFields | cmd/flux-agent/daemon.go:475-507 | The repair of a decoded document computes the merge that the lemmas below are about |
| ConfigMerge.MergePatroniRecoveryConfig | cmd/flux-agent/daemon.go:463-517 | Blank text counts as an empty object, malformed text and non-objects are errors, the document null panics, and an object is left alone iff merging its decoded form leaves it equal |
| ConfigMerge.MergedPostgres | cmd/flux-agent/daemon.go:485-507 | Below postgresql rewind is on, and the access rules are exactly the string entries of the old list and the four required ones |
| ConfigMerge.MergedDefaults | cmd/flux-agent/daemon.go:475-483 | Beside it the keys are the old ones and the four defaults, with the old values and, where missing, the configured numbers |
| ConfigMerge.KeepsForeignSettings | cmd/flux-agent/daemon.go:475-507 | Every decoded setting the agent does not own, at both levels, and every default already set is kept, and no other key appears |
| ConfigMerge.SettingKeepsText | cmd/flux-agent/daemon.go:463-517 | A setting of the stored document keeps its text through a rewrite iff its numbers are canonical |
| ConfigMerge.RequiredRulesOnce | cmd/flux-agent/daemon.go:490-507 | Existing string rules stay in order as a prefix, each missing required rule is there exactly once, and no rule's count changes otherwise |
| ConfigMerge.UnchangedIffRepaired | cmd/flux-agent/daemon.go:509-516 | The configuration is left alone iff the defaults are present, rewind is on, and the rules are strings that include every required one |
| ConfigMerge.Idempotent | cmd/flux-agent/daemon.go:463-517 | A second merge, of what the first one wrote decoded again, changes nothing, even under other defaults |
| Backup.Append | cmd/flux-agent/backup.go:246 | Go's append: the old prefix followed by the appended bytes, in place when there is room (memmove on overlap), else in a new array with the old one untouched |
| Backup.Scan | cmd/flux-agent/backup.go:246-254 | Searching carry and chunk together, with the carry rewritten over the array the haystack may lie in, finds what their concatenation contains and keeps its last bytes |
| Backup.TailIsEnough | cmd/flux-agent/backup.go:250-254 | A tail one shorter than the needle decides whether the needle occurs across a chunk boundary |
| Backup.StreamContains | cmd/flux-agent/backup.go:228-264 | For every split of a stream into chunks the search succeeds iff the non-empty needle occurs in the whole; the empty needle iff there is any byte; otherwise the ending decides between absent and error |
| Backup.SortNewestFirst | cmd/flux-agent/backup.go:294 | Some newest-first permutation; nothing is promised about ties |
| Backup.BackupDir.PruneByCount | cmd/flux-agent/backup.go:296-309 | Keeps the first files, the new backup and what cannot be removed; exactly the others are gone from the directory |
| Backup.BackupDir.PruneBySize | cmd/flux-agent/backup.go:316-332 | Keeps a prefix, the running total is the sum of its sizes, each dropped file was the oldest of several over the cap, and the loop stops under the cap, at one file, at the new backup or at a failed removal |
| Backup.BackupDir.Prune | cmd/flux-agent/backup.go:275-337 | The files left relate to the listed ones by retention over a newest-first order and then the size cap, under any removal failures |
| Backup.RetentionExactly | cmd/flux-agent/backup.go:294-309 | A file survives retention iff it is among the first of a newest-first order, is the new backup, or cannot be removed |
| Backup.CapExactly | cmd/flux-agent/backup.go:316-332 | The cap takes the oldest, one by one, exactly while it is exceeded, another file is left, and the oldest is neither the new backup nor stuck; without a cap nothing is taken |
| Backup.NewBackupSurvives | cmd/flux-agent/backup.go:275-337 | The backup just made is never deleted when listed |
| Backup.SurvivorsAreNewest | cmd/flux-agent/backup.go:275-337 | Every survivor but the new backup and files that could not be removed is at least as new as every deleted file |
| Backup.RetainedExactly | cmd/flux-agent/backup.go:296-309 | When every removal succeeds retention leaves the first files of the order followed by the new backup if it is not among them |
| Backup.CapIsReached | cmd/flux-agent/backup.go:320-332 | When every removal succeeds the cap loop ends under the cap, with one file, or with the new backup as the oldest left; putting the last deleted file back would exceed the cap; and nothing is deleted when retention alone is under it |

## Left out

- Epoch.AtMostOneEpoch: covers wipes of an etcd directory only under `Epoch.WipeGuard` (no database of the node that opened the epoch, none of the last holder of data), which the code does not check, and not the operator overrides, which bypass the argument on purpose.
- DataSafety.DataSurvives: takes a daemon cycle as one atomic step (`DataSafety.OneSystemDataSurvives` does not) and Patroni's reports as truthful; deletion by operators and disk loss are outside the model.
- ClusterEnv.Environment.Load: texts are sequences of Unicode characters, so invalid UTF-8 in the file is not modelled.
- ClusterEnv.Environment.ApplyKV: the switch over 45 keys is a table from keys to kinds, and the fields are a map from keys to values.
- EtcdStart.EtcdStarter.Run: a flag file that cannot be removed is not modelled, and the verdict of the temporary etcd is left out because every verdict leads to the same state.
- Counters.StateTracker.Update: counters and clock differences are unbounded integers; a counter file that holds the largest 64-bit number, or a stamp so far from now that the difference overflows, is not modelled to wrap.
- ConfigMerge.MergePatroniRecoveryConfig: works on JSON values; the rounding of numbers is any function on their texts, and the rest of the text encoding is not captured.
- Backup.StreamContains: starts from decompressed chunks; opening the file, gzip headers and checksums are not modelled.
- Backup.BackupDir.Prune: lists of files are values reassigned by the methods, where Go sorts slices in place; sizes are unbounded integers; the warning about an exceeded cap is left out.
- Daemon.CleanElectionState: each deletion and the write of the system ID are taken to work; the code ignores their failures.
- Membership.ReconcileMembers: removals either take effect or not, without other changes by etcd in between; its clauses about what a cycle leaves assume orderly addresses, and `Membership.LeavesExactlyDesired` is the exact statement.
- Strings are sequences of characters; Go compares bytes, which for UTF-8 is the same order.
- HTTP, TLS, identity probe tokens, certificates and the proxy's byte copying: an answer is taken to come from the peer it names.
- Raft and Patroni themselves: etcd membership is a list with additions and removals, and Patroni clones, runs or promotes data as steps of the environment.
- The text formats of `pg_controldata`, and the calls of `etcdctl`, `psql`, `pg_dumpall` and `supervisorctl`.
- JSON text, the rewriting of `patroni.yml`, and the SQL that sets the database passwords.
- The split-brain restart, the removal of a stale Patroni leader key beyond its name mapping, and the promotion of learners: each is a guarded call without state of its own.
- Reasons and log messages; retries and delays, except that time does not go backwards.
- The defaults taken from environment variables, the Flux API client, the mock API and the container files.
- Whether the completion mark proves a complete dump, which depends on `pg_dumpall`.
