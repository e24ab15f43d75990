/** The etcd-start state machine: keep the database, rejoin, recover from the daemon's hint,
    join an existing cluster, or bootstrap a new one. */
module EtcdStart {
  import opened Text
  import opened Settings
  import opened Topology
  import opened Identity
  import opened Bootstrap
  import opened Etcd

  // ----- joining an existing cluster -----

  datatype AddReply = Added | TooManyLearners | AddFailed

  /** What one peer does when asked during a join attempt: list its members (or not answer), then
      react to adding this node as a learner, then list again. */
  datatype PeerReply = PeerReply(members: Option<seq<Member>>, add: AddReply, relisted: seq<Member>)

  /** A topology reload: it may fail, leaving whatever configuration it had reached. */
  datatype Reload = Reload(ok: bool, cfg: Config)

  /** Everything outside the process during a join: the reload before each attempt, and the reply
      of the peer at each position of each attempt. */
  datatype JoinEnv = JoinEnv(reload: nat -> Reload, reply: (nat, nat) -> PeerReply)

  datatype JoinOutcome = Joined(initial: string) | SplitBrainRisk | NoPeersReachable

  /** The peers asked in an attempt: those of the last reload that worked. */
  function PeersAt(first: seq<string>, env: JoinEnv, attempt: nat): seq<string> {
    if attempt == 0 then first
    else
      var r := env.reload(attempt);
      if r.ok then OtherIPs(r.cfg.etcdInitialCluster, r.cfg.myName) else PeersAt(first, env, attempt - 1)
  }

  function ByName(members: seq<Member>, name: string): Option<Member> {
    if members == [] then None
    else if members[0].name == name then Some(members[0])
    else ByName(members[1..], name)
  }

  function ByPeerURL(members: seq<Member>, url: string): Option<Member> {
    if members == [] then None
    else if members[0].peerURLs == url then Some(members[0])
    else ByPeerURL(members[1..], url)
  }

  lemma {:induction false} NameIsFirst(members: seq<Member>, name: string)
    ensures match ByName(members, name)
            case None => forall h | 0 <= h < |members| :: members[h].name != name
            case Some(m) =>
              exists i | 0 <= i < |members| ::
                members[i] == m && m.name == name && forall h | 0 <= h < i :: members[h].name != name
  {
    if members != [] && members[0].name != name {
      NameIsFirst(members[1..], name);
      if ByName(members[1..], name).Some? {
        var m := ByName(members[1..], name).value;
        var i :| 0 <= i < |members[1..]| && members[1..][i] == m &&
          forall h | 0 <= h < i :: members[1..][h].name != name;
        assert members[i + 1] == m && forall h | 0 < h < i + 1 :: members[h] == members[1..][h - 1];
      } else {
        assert forall h | 0 < h < |members| :: members[h] == members[1..][h - 1];
      }
    }
  }

  lemma {:induction false} URLIsFirst(members: seq<Member>, url: string)
    ensures match ByPeerURL(members, url)
            case None => forall h | 0 <= h < |members| :: members[h].peerURLs != url
            case Some(m) =>
              exists i | 0 <= i < |members| ::
                members[i] == m && m.peerURLs == url && forall h | 0 <= h < i :: members[h].peerURLs != url
  {
    if members != [] && members[0].peerURLs != url {
      URLIsFirst(members[1..], url);
      if ByPeerURL(members[1..], url).Some? {
        var m := ByPeerURL(members[1..], url).value;
        var i :| 0 <= i < |members[1..]| && members[1..][i] == m &&
          forall h | 0 <= h < i :: members[1..][h].peerURLs != url;
        assert members[i + 1] == m && forall h | 0 < h < i + 1 :: members[h] == members[1..][h - 1];
      } else {
        assert forall h | 0 < h < |members| :: members[h] == members[1..][h - 1];
      }
    }
  }

  lemma FirstByName(members: seq<Member>, name: string, r: Option<Member>)
    requires FirstWith(members, (m: Member) => m.name == name, r)
    ensures r == ByName(members, name)
  {
    NameIsFirst(members, name);
  }

  lemma FirstByPeerURL(members: seq<Member>, url: string, r: Option<Member>)
    requires FirstWith(members, (m: Member) => m.peerURLs == url, r)
    ensures r == ByPeerURL(members, url)
  {
    URLIsFirst(members, url);
  }

  /** This node's entry in a peer's list: by name, else by peer URL. */
  function OwnEntry(cfg: Config, members: seq<Member>): Option<Member> {
    var byName := ByName(members, cfg.myName);
    if byName.Some? then byName else ByPeerURL(members, PeerURL(cfg, cfg.myIP))
  }

  /** The peer knows this node as a started member, and nothing forces a fresh registration. */
  predicate AlreadyRegistered(cfg: Config, members: seq<Member>, forceRejoin: bool) {
    var own := OwnEntry(cfg, members);
    own.Some? && !own.value.unstarted && own.value.name != "" && !forceRejoin
  }

  predicate Accepts(cfg: Config, forceRejoin: bool, r: PeerReply) {
    r.members.Some? && (AlreadyRegistered(cfg, r.members.value, forceRejoin) || r.add.Added?)
  }

  /** Another learner is syncing: the attempt stops here. */
  predicate IsBusy(cfg: Config, forceRejoin: bool, r: PeerReply) {
    r.members.Some? && !AlreadyRegistered(cfg, r.members.value, forceRejoin) && r.add.TooManyLearners?
  }

  /** When a peer counts as knowing this node: its first entry of this node's name or, lacking one, its
      first with this node's peer URL, is named and has started, and no fresh registration is forced. */
  lemma RegisteredExactly(cfg: Config, members: seq<Member>, forceRejoin: bool)
    ensures AlreadyRegistered(cfg, members, forceRejoin) <==>
            && !forceRejoin
            && exists i | 0 <= i < |members| ::
                 && !members[i].unstarted && members[i].name != ""
                 && (|| (members[i].name == cfg.myName && forall h | 0 <= h < i :: members[h].name != cfg.myName)
                     || (&& (forall h | 0 <= h < |members| :: members[h].name != cfg.myName)
                         && members[i].peerURLs == PeerURL(cfg, cfg.myIP)
                         && forall h | 0 <= h < i :: members[h].peerURLs != PeerURL(cfg, cfg.myIP)))
  {
    hide PeerURL, ByName, ByPeerURL;
    NameIsFirst(members, cfg.myName);
    URLIsFirst(members, PeerURL(cfg, cfg.myIP));
  }

  /** The part a registered member contributes to a rebuilt --initial-cluster. */
  function RebuiltPart(m: Member, myName: string, myPeerURL: string): seq<string> {
    if m.peerURLs == "" then []
    else if m.name != "" then [m.name + "=" + m.peerURLs]
    else if m.peerURLs == myPeerURL then [myName + "=" + m.peerURLs]
    else []
  }

  function RebuiltParts(members: seq<Member>, myName: string, myPeerURL: string): seq<string> {
    if members == [] then []
    else RebuiltParts(members[..|members| - 1], myName, myPeerURL) +
         RebuiltPart(members[|members| - 1], myName, myPeerURL)
  }

  function Rebuilt(members: seq<Member>, myName: string, myPeerURL: string): string {
    Join(RebuiltParts(members, myName, myPeerURL), ",")
  }

  method RebuildInitialCluster(members: seq<Member>, myName: string, myPeerURL: string) returns (initial: string)
    ensures initial == Rebuilt(members, myName, myPeerURL)
  {
    var parts := [];
    for i := 0 to |members|
      invariant parts == RebuiltParts(members[..i], myName, myPeerURL)
    {
      assert members[..i + 1][..i] == members[..i];
      var m := members[i];
      if m.peerURLs == "" {
        continue;
      }
      var name := m.name;
      if name == "" {
        if m.peerURLs == myPeerURL {
          name := myName;
        } else {
          continue;
        }
      }
      parts := parts + [name + "=" + m.peerURLs];
    }
    assert members[..|members|] == members;
    return Join(parts, ",");
  }

  /** What a rebuilt value lists: of each member with a peer URL its name and URL, joined by an equals
      sign; a nameless member only when the URL is this node's, and then under its own name. */
  lemma {:induction false} RebuiltPartsExactly(members: seq<Member>, myName: string, myPeerURL: string, part: string)
    ensures part in RebuiltParts(members, myName, myPeerURL) <==>
            exists i | 0 <= i < |members| ::
              && members[i].peerURLs != ""
              && (|| (members[i].name != "" && part == members[i].name + "=" + members[i].peerURLs)
                  || (members[i].name == "" && members[i].peerURLs == myPeerURL && part == myName + "=" + myPeerURL))
  {
    if members != [] {
      var rest, last := members[..|members| - 1], members[|members| - 1];
      assert members == rest + [last];
      RebuiltPartsExactly(rest, myName, myPeerURL, part);
      assert forall i | 0 <= i < |rest| :: members[i] == rest[i];
    }
  }

  /** When only this node is still nameless, the rebuilt value lists every registered member once, in
      order, and etcd reads each part as the member's name and peer URL. */
  lemma RebuiltCount(members: seq<Member>, myName: string, myPeerURL: string)
    requires members != [] && ',' !in myName && '=' !in myName
    requires forall m | m in members :: m.peerURLs != "" && ',' !in m.peerURLs && ',' !in m.name && '=' !in m.name
    requires forall m | m in members && m.name == "" :: m.peerURLs == myPeerURL
    ensures var parts := Split(Rebuilt(members, myName, myPeerURL), ',');
            && |parts| == |members|
            && forall i | 0 <= i < |members| ::
                 Cut(parts[i], '=') ==
                 Some((if members[i].name == "" then myName else members[i].name, members[i].peerURLs))
  {
    RebuiltPartsShape(members, myName, myPeerURL);
    SplitJoin(RebuiltParts(members, myName, myPeerURL), ',');
    hide Cut, RebuiltParts;
    var parts := RebuiltParts(members, myName, myPeerURL);
    forall i | 0 <= i < |members|
      ensures Cut(parts[i], '=') ==
              Some((if members[i].name == "" then myName else members[i].name, members[i].peerURLs))
    {
      assert members[i] in members;
      var name := if members[i].name == "" then myName else members[i].name;
      assert parts[i] == name + ['='] + members[i].peerURLs;
      CutAt(name, members[i].peerURLs, '=');
    }
  }

  lemma {:induction false} RebuiltPartsShape(members: seq<Member>, myName: string, myPeerURL: string)
    requires ',' !in myName
    requires forall m | m in members :: m.peerURLs != "" && ',' !in m.peerURLs && ',' !in m.name
    requires forall m | m in members && m.name == "" :: m.peerURLs == myPeerURL
    ensures |RebuiltParts(members, myName, myPeerURL)| == |members|
    ensures forall p | p in RebuiltParts(members, myName, myPeerURL) :: ',' !in p
    ensures forall i | 0 <= i < |members| ::
              RebuiltParts(members, myName, myPeerURL)[i] ==
              (if members[i].name == "" then myName else members[i].name) + "=" + members[i].peerURLs
  {
    if members != [] {
      var rest, last := members[..|members| - 1], members[|members| - 1];
      assert members == rest + [last];
      RebuiltPartsShape(rest, myName, myPeerURL);
      assert last in members;
    }
  }

  /** Rebuilding from the nodes of this cluster, in whatever order they registered, prints their topology
      in that order: the same text that init and the daemon print. */
  lemma RebuiltIsPrinted(cfg: Config, members: seq<Member>, ips: seq<string>)
    requires |members| == |ips| && cfg.myName == NodeName(cfg.myIP)
    requires forall i | 0 <= i < |ips| ::
               && members[i].peerURLs == PeerURL(cfg, ips[i])
               && (members[i].name == NodeName(ips[i]) || (members[i].name == "" && ips[i] == cfg.myIP))
    ensures Rebuilt(members, cfg.myName, PeerURL(cfg, cfg.myIP)) == InitialCluster(cfg, ips)
  {
    hide NodeName, PeerURL;
    RebuiltAsPrinted(cfg, members, ips, |ips|);
    assert members[..|ips|] == members && ips[..|ips|] == ips;
  }

  lemma PrintedPart(cfg: Config, m: Member, ip: string)
    requires cfg.myName == NodeName(cfg.myIP) && m.peerURLs == PeerURL(cfg, ip)
    requires m.name == NodeName(ip) || (m.name == "" && ip == cfg.myIP)
    ensures RebuiltPart(m, cfg.myName, PeerURL(cfg, cfg.myIP)) == [MemberText(cfg, ip)]
  {
    assert PeerURL(cfg, ip) != "" && NodeName(ip) != "";
    hide NodeName, PeerURL;
  }

  lemma PrintedStep(cfg: Config, members: seq<Member>, ips: seq<string>, n: nat)
    requires n < |members| == |ips|
    ensures RebuiltParts(members[..n + 1], cfg.myName, PeerURL(cfg, cfg.myIP)) ==
            RebuiltParts(members[..n], cfg.myName, PeerURL(cfg, cfg.myIP)) +
            RebuiltPart(members[n], cfg.myName, PeerURL(cfg, cfg.myIP))
    ensures MemberTexts(cfg, ips[..n + 1]) == MemberTexts(cfg, ips[..n]) + [MemberText(cfg, ips[n])]
  {
    hide MemberText, RebuiltPart, PeerURL;
    assert members[..n + 1][..n] == members[..n] && ips[..n + 1][..n] == ips[..n];
  }

  lemma {:induction false} RebuiltAsPrinted(cfg: Config, members: seq<Member>, ips: seq<string>, n: nat)
    requires n <= |members| == |ips| && cfg.myName == NodeName(cfg.myIP)
    requires forall i | 0 <= i < |ips| ::
               && members[i].peerURLs == PeerURL(cfg, ips[i])
               && (members[i].name == NodeName(ips[i]) || (members[i].name == "" && ips[i] == cfg.myIP))
    ensures RebuiltParts(members[..n], cfg.myName, PeerURL(cfg, cfg.myIP)) == MemberTexts(cfg, ips[..n])
  {
    hide NodeName, PeerURL, MemberText, RebuiltPart;
    if n > 0 {
      hide RebuiltParts, MemberTexts;
      RebuiltAsPrinted(cfg, members, ips, n - 1);
      PrintedStep(cfg, members, ips, n - 1);
      PrintedPart(cfg, members[n - 1], ips[n - 1]);
    }
  }

  function Attempts(maxRetries: int): nat {
    if maxRetries < 1 then 1 else maxRetries
  }

  /** The peers of an attempt are those named by the last reload before or at it that worked, or the
      first ones. */
  lemma {:induction false} PeersOfLastReload(first: seq<string>, env: JoinEnv, attempt: nat, last: nat)
    requires last <= attempt && (last == 0 || env.reload(last).ok)
    requires forall k | last < k <= attempt :: !env.reload(k).ok
    ensures PeersAt(first, env, attempt) ==
            if last == 0 then first
            else OtherIPs(env.reload(last).cfg.etcdInitialCluster, env.reload(last).cfg.myName)
  {
    hide OtherIPs;
    if last < attempt { PeersOfLastReload(first, env, attempt - 1, last); }
  }

  /** The peer at a position of an attempt lets this node in, and no earlier one stopped the attempt. */
  ghost predicate LetsInAt(cfg: Config, forceRejoin: bool, peers: seq<string>, env: JoinEnv, attempt: nat, j: nat) {
    && j < |peers|
    && Accepts(cfg, forceRejoin, env.reply(attempt, j))
    && forall i | 0 <= i < j :: !IsBusy(cfg, forceRejoin, env.reply(attempt, i))
  }

  ghost predicate LetsIn(first: seq<string>, forceRejoin: bool, env: JoinEnv, attempt: nat, j: nat) {
    LetsInAt(env.reload(attempt).cfg, forceRejoin, PeersAt(first, env, attempt), env, attempt, j)
  }

  /** When a peer lets this node in: it is one of the peers asked, it answers, it knows this node already
      or adds it as a learner, and no peer asked before it was busy with another learner. */
  lemma LetsInExactly(first: seq<string>, forceRejoin: bool, env: JoinEnv, k: nat, j: nat)
    ensures LetsIn(first, forceRejoin, env, k, j) <==>
            var cfg := env.reload(k).cfg;
            && j < |PeersAt(first, env, k)| && env.reply(k, j).members.Some?
            && (AlreadyRegistered(cfg, env.reply(k, j).members.value, forceRejoin) || env.reply(k, j).add == Added)
            && forall i | 0 <= i < j :: !(&& env.reply(k, i).members.Some? && env.reply(k, i).add == TooManyLearners
                                          && !AlreadyRegistered(cfg, env.reply(k, i).members.value, forceRejoin))
  {
    hide AlreadyRegistered, OtherIPs;
    assert forall i {:trigger env.reply(k, i)} | 0 <= i < j ::
        IsBusy(env.reload(k).cfg, forceRejoin, env.reply(k, i)) <==>
        (&& env.reply(k, i).members.Some? && env.reply(k, i).add == TooManyLearners
         && !AlreadyRegistered(env.reload(k).cfg, env.reply(k, i).members.value, forceRejoin));
  }

  ghost predicate NobodyOf(peers: seq<string>, env: JoinEnv, attempt: nat) {
    forall j | 0 <= j < |peers| :: env.reply(attempt, j).members.None?
  }

  /** No peer answered in an attempt. */
  ghost predicate Silent(first: seq<string>, env: JoinEnv, attempt: nat) {
    NobodyOf(PeersAt(first, env, attempt), env, attempt)
  }

  /** The --initial-cluster a successful join starts with: none of its own when already registered. */
  function JoinedWith(cfg: Config, forceRejoin: bool, r: PeerReply): string {
    if r.members.Some? && AlreadyRegistered(cfg, r.members.value, forceRejoin) then ""
    else Rebuilt(r.relisted, cfg.myName, PeerURL(cfg, cfg.myIP))
  }

  /** A node that a peer knows keeps its topology; one that was added starts with the registered members,
      which is the printed topology of their addresses when all of them are nodes of this cluster. */
  lemma JoinsWithMembers(cfg: Config, forceRejoin: bool, r: PeerReply, ips: seq<string>)
    requires r.members.Some?
    ensures AlreadyRegistered(cfg, r.members.value, forceRejoin) ==> JoinedWith(cfg, forceRejoin, r) == ""
    ensures !AlreadyRegistered(cfg, r.members.value, forceRejoin) ==>
              JoinedWith(cfg, forceRejoin, r) == Rebuilt(r.relisted, cfg.myName, PeerURL(cfg, cfg.myIP))
    ensures && !AlreadyRegistered(cfg, r.members.value, forceRejoin) && cfg.myName == NodeName(cfg.myIP)
            && |r.relisted| == |ips|
            && (forall i | 0 <= i < |ips| ::
                  && r.relisted[i].peerURLs == PeerURL(cfg, ips[i])
                  && (r.relisted[i].name == NodeName(ips[i]) || (r.relisted[i].name == "" && ips[i] == cfg.myIP))) ==>
              JoinedWith(cfg, forceRejoin, r) == InitialCluster(cfg, ips)
  {
    hide AlreadyRegistered, PeerURL, NodeName, Rebuilt, InitialCluster;
    if && cfg.myName == NodeName(cfg.myIP) && |r.relisted| == |ips|
       && (forall i | 0 <= i < |ips| ::
             && r.relisted[i].peerURLs == PeerURL(cfg, ips[i])
             && (r.relisted[i].name == NodeName(ips[i]) || (r.relisted[i].name == "" && ips[i] == cfg.myIP)))
    {
      RebuiltIsPrinted(cfg, r.relisted, ips);
    }
  }

  /** One attempt: ask the peers in turn until one lets this node in or is busy with a learner. */
  method AskPeers(cfg: Config, peers: seq<string>, forceRejoin: bool, env: JoinEnv, attempt: nat)
    returns (joined: Option<string>, anyReachable: bool)
    ensures joined.None? <==> forall j: nat :: !LetsInAt(cfg, forceRejoin, peers, env, attempt, j)
    ensures joined.Some? ==> exists j: nat ::
              && LetsInAt(cfg, forceRejoin, peers, env, attempt, j)
              && joined.value == JoinedWith(cfg, forceRejoin, env.reply(attempt, j))
    ensures anyReachable <==> !NobodyOf(peers, env, attempt)
  {
    hide PeerURL, Rebuilt;
    anyReachable := false;
    for ip := 0 to |peers|
      invariant anyReachable <==> exists j | 0 <= j < ip :: env.reply(attempt, j).members.Some?
      invariant forall j | 0 <= j < ip :: !Accepts(cfg, forceRejoin, env.reply(attempt, j))
      invariant forall j | 0 <= j < ip :: !IsBusy(cfg, forceRejoin, env.reply(attempt, j))
    {
      var reply := env.reply(attempt, ip);
      if reply.members.None? {
        continue;
      }
      anyReachable := true;
      var members := reply.members.value;
      var existing := FindByName(members, cfg.myName);
      FirstByName(members, cfg.myName, existing);
      if existing.None? {
        existing := FindByPeerURL(members, PeerURL(cfg, cfg.myIP));
        FirstByPeerURL(members, PeerURL(cfg, cfg.myIP), existing);
      }
      if existing.Some? {
        var isGhost := existing.value.unstarted || existing.value.name == "";
        if !isGhost && !forceRejoin {
          assert LetsInAt(cfg, forceRejoin, peers, env, attempt, ip);
          return Some(""), true;
        }
        // The stale entry is removed; whether that works does not matter here.
      }
      match reply.add {
        case TooManyLearners =>
          assert IsBusy(cfg, forceRejoin, env.reply(attempt, ip));
          return None, true;
        case AddFailed =>
        case Added =>
          var rebuilt := RebuildInitialCluster(reply.relisted, cfg.myName, PeerURL(cfg, cfg.myIP));
          assert LetsInAt(cfg, forceRejoin, peers, env, attempt, ip);
          return Some(rebuilt), true;
      }
    }
    joined := None;
  }

  /** tryJoinExistingWithLoader. */
  method TryJoinExisting(agent: AgentConfig, first: seq<string>, forceRejoin: bool, maxRetries: int, env: JoinEnv)
    returns (outcome: JoinOutcome)
    modifies agent
    ensures outcome.NoPeersReachable? <==> forall k | 1 <= k <= Attempts(maxRetries) :: Silent(first, env, k)
    ensures outcome.Joined? <==> exists k, j: nat | 1 <= k <= Attempts(maxRetries) ::
        LetsIn(first, forceRejoin, env, k, j)
    ensures outcome.Joined? ==> exists k, j: nat | 1 <= k <= Attempts(maxRetries) ::
              && LetsIn(first, forceRejoin, env, k, j) && agent.cfg == env.reload(k).cfg
              && outcome.initial == JoinedWith(env.reload(k).cfg, forceRejoin, env.reply(k, j))
    ensures !outcome.Joined? ==> agent.cfg == env.reload(Attempts(maxRetries)).cfg
  {
    hide OtherIPs, JoinedWith, LetsInAt, NobodyOf;
    var retries := maxRetries;
    if retries < 1 {
      retries := 1;
    }
    var anyReachable := false;
    var otherIPs := first;
    for attempt := 1 to retries + 1
      invariant otherIPs == PeersAt(first, env, attempt - 1)
      invariant attempt > 1 ==> agent.cfg == env.reload(attempt - 1).cfg
      invariant !anyReachable <==> forall k | 1 <= k < attempt :: Silent(first, env, k)
      invariant forall k, j: nat | 1 <= k < attempt :: !LetsIn(first, forceRejoin, env, k, j)
    {
      var reload := env.reload(attempt);
      agent.cfg := reload.cfg;
      if reload.ok {
        otherIPs := ParseOtherIPs(reload.cfg.etcdInitialCluster, reload.cfg.myName);
      }
      assert otherIPs == PeersAt(first, env, attempt);
      var joined, reachable := AskPeers(reload.cfg, otherIPs, forceRejoin, env, attempt);
      if reachable {
        anyReachable := true;
      }
      if joined.Some? {
        ghost var j: nat :| LetsInAt(reload.cfg, forceRejoin, otherIPs, env, attempt, j) &&
          joined.value == JoinedWith(reload.cfg, forceRejoin, env.reply(attempt, j));
        assert LetsIn(first, forceRejoin, env, attempt, j);
        LetInMeansAnswered(first, forceRejoin, env, attempt, j);
        return Joined(joined.value);
      }
      assert Silent(first, env, attempt) <==> !reachable;
    }
    if anyReachable {
      return SplitBrainRisk;
    }
    return NoPeersReachable;
  }

  lemma LetInMeansAnswered(first: seq<string>, forceRejoin: bool, env: JoinEnv, k: nat, j: nat)
    requires LetsIn(first, forceRejoin, env, k, j)
    ensures !Silent(first, env, k)
  {
    hide OtherIPs;
    assert env.reply(k, j).members.Some?;
  }

  // ----- the start itself -----

  /** mayEvaluateBootstrap. */
  predicate MayEvaluateBootstrap(isCandidate: bool, deadClusterRecovery: bool, hasPGData: bool) {
    isCandidate || (deadClusterRecovery && hasPGData)
  }

  datatype StartOutcome =
    | Launch(state: string, initial: string, forceNew: bool)
    | ExitSplitBrain
    | ExitForcedRejoin
    | ExitNotCandidate
    | ExitNotSafe

  /** Everything outside the process during one start. */
  datatype StartEnv = StartEnv(
    firstReply: nat -> Option<seq<Member>>,   // the fast peer check, by position
    remainsAfterWipe: EtcdDir,                // what a wipe of the etcd directory leaves
    hintEvidence: Evidence,                   // gathered when the recovery hint is consumed
    join: JoinEnv,
    lateEvidence: Evidence,                   // gathered after the join attempts
    flagRewritten: bool)                      // the daemon writes the flag again before the exec

  /** The first peer that answers the fast check with members. */
  ghost predicate FirstToAnswer(env: StartEnv, peers: seq<string>, j: nat) {
    && j < |peers| && Answers(env.firstReply(j))
    && forall i | 0 <= i < j :: !Answers(env.firstReply(i))
  }

  predicate Answers(reply: Option<seq<Member>>) {
    reply.Some? && reply.value != []
  }

  /** A live peer answers first and does not list this node. */
  ghost predicate Disowned(cfg: Config, env: StartEnv) {
    exists j: nat ::
      && FirstToAnswer(env, OtherIPs(cfg.etcdInitialCluster, cfg.myName), j)
      && ByName(env.firstReply(j).value, cfg.myName).None?
  }

  /** The number of join attempts: non-candidates wait through at least 60. */
  function JoinAttempts(cfg: Config): nat {
    var isCandidate := cfg.myName == BootstrapCandidate(cfg.etcdInitialCluster);
    Attempts(if !isCandidate && cfg.etcdJoinMaxRetries < 60 then 60 else cfg.etcdJoinMaxRetries)
  }

  /** No peer answered in any attempt, whatever topologies were reloaded meanwhile. */
  ghost predicate NobodyAnswers(cfg: Config, env: StartEnv) {
    forall k | 1 <= k <= JoinAttempts(cfg) ::
      Silent(OtherIPs(cfg.etcdInitialCluster, cfg.myName), env.join, k)
  }

  /** The attempts are the configured number, at least one, and for a node that is not the candidate at
      least 60. */
  lemma JoinAttemptsExactly(cfg: Config, k: int)
    ensures 1 <= k <= JoinAttempts(cfg) <==>
            || k == 1 || 1 <= k <= cfg.etcdJoinMaxRetries
            || (cfg.myName != BootstrapCandidate(cfg.etcdInitialCluster) && 1 <= k <= 60)
  {
    hide BootstrapCandidate;
  }

  /** No peer answered in any of them. */
  lemma NobodyAnswersExactly(cfg: Config, env: StartEnv)
    ensures NobodyAnswers(cfg, env) <==>
            forall k: nat, j: nat | 1 <= k <= JoinAttempts(cfg) &&
                j < |PeersAt(OtherIPs(cfg.etcdInitialCluster, cfg.myName), env.join, k)| ::
              env.join.reply(k, j).members == None
  {
    hide OtherIPs, JoinAttempts;
    var first := OtherIPs(cfg.etcdInitialCluster, cfg.myName);
    assert forall k | 1 <= k <= JoinAttempts(cfg) :: Silent(first, env.join, k) <==>
        forall j: nat | j < |PeersAt(first, env.join, k)| :: env.join.reply(k, j).members == None;
  }

  /** The state a process running etcd-start works on. */
  class EtcdStarter {
    const agent: AgentConfig
    const pg: PGData
    var etcd: EtcdDir
    var flag: bool
    var wiped: bool

    constructor (agent: AgentConfig, pg: PGData, etcd: EtcdDir, flag: bool)
      ensures this.agent == agent && this.pg == pg && this.etcd == etcd && this.flag == flag && !wiped
    {
      this.agent, this.pg, this.etcd, this.flag, this.wiped := agent, pg, etcd, flag, false;
    }

    /** The fast peer check and what follows from it when a database is present. */
    method ConsiderDatabase(env: StartEnv) returns (rejoin: bool)
      requires etcd.Database? && !wiped
      modifies this
      ensures rejoin <==> Disowned(agent.cfg, env)
      // The first peer that answers with members decides: it does not list this node.
      ensures rejoin <==>
                exists j: nat | j < |OtherIPs(agent.cfg.etcdInitialCluster, agent.cfg.myName)| ::
                  && env.firstReply(j).Some? && env.firstReply(j).value != []
                  && (forall m | m in env.firstReply(j).value :: m.name != agent.cfg.myName)
                  && forall i | 0 <= i < j :: env.firstReply(i).None? || env.firstReply(i) == Some([])
      ensures flag == old(flag) && wiped == rejoin && etcd == if rejoin then env.remainsAfterWipe else old(etcd)
    {
      hide OtherIPs;
      var peers := ParseOtherIPs(agent.cfg.etcdInitialCluster, agent.cfg.myName);
      for i := 0 to |peers|
        invariant flag == old(flag) && !wiped && etcd == old(etcd)
        invariant forall j | 0 <= j < i :: !Answers(env.firstReply(j))
      {
        var reply := env.firstReply(i);
        if reply.Some? && |reply.value| > 0 {
          var known := FindByName(reply.value, agent.cfg.myName);
          FirstByName(reply.value, agent.cfg.myName, known);
          assert FirstToAnswer(env, peers, i);
          assert forall j: nat :: FirstToAnswer(env, peers, j) ==> j == i;
          if known.Some? {
            return false;
          }
          etcd := env.remainsAfterWipe;
          wiped := true;
          return true;
        }
      }
      // Nobody answered: the temporary etcd's verdict does not change the outcome.
      return false;
    }

    /** consumeEmptyDCSRecoveryHint: the hint is removed before it is validated. */
    method ConsumeHint(env: StartEnv) returns (isNew: bool)
      requires flag && Plausible(pg)
      modifies this
      ensures !flag && etcd == old(etcd) && wiped == old(wiped)
      ensures isNew <==> MayBootstrap(agent.cfg, pg, etcd, env.hintEvidence)
    {
      flag := false;
      isNew := DecideBootstrap(agent.cfg, pg, etcd, env.hintEvidence);
    }

    /** Join an existing cluster, or bootstrap after nobody answered. None: go on to launch. */
    method JoinOrBootstrap(env: StartEnv, forceRejoin: bool) returns (state: string, refusal: Option<StartOutcome>)
      requires Plausible(pg)
      modifies agent
      ensures state == "new" && refusal.None? <==>
                && !forceRejoin && NobodyAnswers(old(agent.cfg), env)
                && (|| old(agent.cfg).myName == BootstrapCandidate(old(agent.cfg).etcdInitialCluster)
                    || (env.join.reload(JoinAttempts(old(agent.cfg))).cfg.deadClusterRecovery && pg.hasGlobal))
                && MayBootstrap(env.join.reload(JoinAttempts(old(agent.cfg))).cfg, pg, etcd, env.lateEvidence)
      ensures refusal.None? ==> state == "new" || state == "existing"
      ensures state == "existing" ==> !NobodyAnswers(old(agent.cfg), env)
      // It joins exactly when some peer lets it in, and then starts with what that peer's registry gives
      // at the configuration of that attempt.
      ensures state == "existing" <==>
                exists k, j: nat | 1 <= k <= JoinAttempts(old(agent.cfg)) ::
                  LetsIn(OtherIPs(old(agent.cfg).etcdInitialCluster, old(agent.cfg).myName), forceRejoin, env.join,
                         k, j)
      ensures state == "existing" ==>
                refusal.None? &&
                exists k, j: nat | 1 <= k <= JoinAttempts(old(agent.cfg)) ::
                  && LetsIn(OtherIPs(old(agent.cfg).etcdInitialCluster, old(agent.cfg).myName), forceRejoin, env.join,
                            k, j)
                  && var late := env.join.reload(k).cfg;
                     var joined := JoinedWith(late, forceRejoin, env.join.reply(k, j));
                     agent.cfg == if joined == "" then late else late.(etcdInitialCluster := joined)
      // What is refused after answers, after a wipe, to a node that may not decide, and by the decision.
      ensures refusal == Some(ExitSplitBrain) <==> state != "existing" && !NobodyAnswers(old(agent.cfg), env)
      ensures refusal == Some(ExitForcedRejoin) <==> NobodyAnswers(old(agent.cfg), env) && forceRejoin
      ensures refusal == Some(ExitNotCandidate) <==>
                && NobodyAnswers(old(agent.cfg), env) && !forceRejoin
                && old(agent.cfg).myName != BootstrapCandidate(old(agent.cfg).etcdInitialCluster)
                && !(env.join.reload(JoinAttempts(old(agent.cfg))).cfg.deadClusterRecovery && pg.hasGlobal)
      ensures refusal.Some? ==> !refusal.value.Launch?
      ensures state == "new" && refusal.None? ==>
                agent.cfg.etcdInitialCluster == agent.cfg.myName + "=" + PeerURL(agent.cfg, agent.cfg.myIP)
    {
      hide MayBootstrap, OtherIPs, BootstrapCandidate, Silent, LetsIn;
      var cfg := agent.cfg;
      var candidate := FindBootstrapCandidate(cfg.etcdInitialCluster);
      var isCandidate := cfg.myName == candidate;
      var maxRetries := cfg.etcdJoinMaxRetries;
      if !isCandidate && maxRetries < 60 {
        maxRetries := 60;
      }
      var others := ParseOtherIPs(cfg.etcdInitialCluster, cfg.myName);
      var outcome := TryJoinExisting(agent, others, forceRejoin, maxRetries, env.join);
      match outcome {
        case Joined(initial) =>
          SomebodyAnswered(others, forceRejoin, env.join, Attempts(maxRetries));
          if initial != "" {
            agent.cfg := agent.cfg.(etcdInitialCluster := initial);
          }
          return "existing", None;
        case SplitBrainRisk =>
          return "", Some(ExitSplitBrain);
        case NoPeersReachable =>
          if forceRejoin {
            return "", Some(ExitForcedRejoin);
          }
          if !MayEvaluateBootstrap(isCandidate, agent.cfg.deadClusterRecovery, pg.hasGlobal) {
            return "", Some(ExitNotCandidate);
          }
          var isNew := DecideBootstrap(agent.cfg, pg, etcd, env.lateEvidence);
          if !isNew {
            return "", Some(ExitNotSafe);
          }
          agent.ConfigureSingleMemberBootstrap();
          return "new", None;
      }
    }

    /** runEtcdStart, up to the exec. */
    method Run(env: StartEnv) returns (outcome: StartOutcome)
      requires Plausible(pg) && !wiped
      modifies this, agent
      // A start launches "new" only without a database, and then exactly when the consumed hint or,
      // after every attempt met silence, the late evidence permits a bootstrap.
      ensures outcome.Launch? && outcome.state == "new" <==>
                && !old(etcd).Database?
                && var cfg := old(agent.cfg);
                   || (old(flag) && cfg.deadClusterRecovery && pg.hasGlobal &&
                       MayBootstrap(cfg, pg, old(etcd), env.hintEvidence))
                   || (var late := env.join.reload(JoinAttempts(cfg)).cfg;
                       && NobodyAnswers(cfg, env)
                       && (|| cfg.myName == BootstrapCandidate(cfg.etcdInitialCluster)
                           || (late.deadClusterRecovery && pg.hasGlobal))
                       && MayBootstrap(late, pg, old(etcd), env.lateEvidence))
      // A new cluster starts as a single member.
      ensures outcome.Launch? && outcome.state == "new" ==>
                !wiped && outcome.initial == agent.cfg.myName + "=" + PeerURL(agent.cfg, agent.cfg.myIP)
      // The only other state is "existing".
      ensures outcome.Launch? ==> outcome.state == "new" || outcome.state == "existing"
      // The database is wiped exactly when a live peer disowns this node; then the start rejoins or exits.
      ensures wiped <==> old(etcd).Database? && Disowned(old(agent.cfg), env)
      ensures etcd == if wiped then env.remainsAfterWipe else old(etcd)
      ensures wiped && outcome.Launch? ==> outcome.state == "existing" && !NobodyAnswers(old(agent.cfg), env)
      // A database nobody disowns is kept, with the topology as configured;
      ensures old(etcd).Database? && !wiped ==>
                outcome.Launch? && outcome.state == "existing" &&
                outcome.initial == old(agent.cfg).etcdInitialCluster
      // every other launch as "existing" was let in by a peer, and starts with the members that peer
      // lists, or with the topology of that attempt when the peer knew this node already.
      ensures outcome.Launch? && outcome.state == "existing" && (old(etcd).Database? ==> wiped) ==>
                exists k, j: nat | 1 <= k <= JoinAttempts(old(agent.cfg)) ::
                  && LetsIn(OtherIPs(old(agent.cfg).etcdInitialCluster, old(agent.cfg).myName), wiped, env.join, k, j)
                  && var joined := JoinedWith(env.join.reload(k).cfg, wiped, env.join.reply(k, j));
                     outcome.initial == if joined == "" then env.join.reload(k).cfg.etcdInitialCluster else joined
      // --force-new-cluster is passed for a flag that is still there at the end; a consumed hint is not.
      ensures outcome.Launch? ==>
                (outcome.forceNew <==>
                  env.flagRewritten ||
                  (old(flag) && (old(etcd).Database? || !old(agent.cfg).deadClusterRecovery || !pg.hasGlobal)))
      // A start that met peers and was not let in exits for fear of a split brain; one that wiped its
      // database and met nobody does not decide.
      ensures outcome == ExitSplitBrain ==> !NobodyAnswers(old(agent.cfg), env)
      ensures outcome == ExitForcedRejoin <==> wiped && NobodyAnswers(old(agent.cfg), env)
      ensures outcome.ExitNotCandidate? || outcome.ExitNotSafe? ==>
                !old(etcd).Database? && NobodyAnswers(old(agent.cfg), env)
    {
      hide MayBootstrap, BootstrapCandidate, NobodyAnswers, Disowned;
      var state := "";
      var forceRejoin := false;
      var dataPresent := etcd.Database?;
      if dataPresent {
        forceRejoin := ConsiderDatabase(env);
        if !forceRejoin {
          state := "existing";
        }
      }
      if state == "" && !dataPresent && agent.cfg.deadClusterRecovery && pg.hasGlobal {
        if flag {
          var isNew := ConsumeHint(env);
          if isNew {
            state := "new";
            agent.ConfigureSingleMemberBootstrap();
          }
        }
      }
      if state == "" {
        var refusal;
        state, refusal := JoinOrBootstrap(env, forceRejoin);
        if refusal.Some? {
          return refusal.value;
        }
      }
      if env.flagRewritten {
        flag := true;
      }
      var forceNewCluster := false;
      if flag {
        flag := false;
        forceNewCluster := true;
      }
      return Launch(state, agent.cfg.etcdInitialCluster, forceNewCluster);
    }
  }

  lemma SomebodyAnswered(first: seq<string>, forceRejoin: bool, env: JoinEnv, attempts: nat)
    requires exists k, j: nat | 1 <= k <= attempts :: LetsIn(first, forceRejoin, env, k, j)
    ensures !forall k | 1 <= k <= attempts :: Silent(first, env, k)
  {
    hide LetsIn, Silent;
    var k, j: nat :| 1 <= k <= attempts && LetsIn(first, forceRejoin, env, k, j);
    LetInMeansAnswered(first, forceRejoin, env, k, j);
  }
}
