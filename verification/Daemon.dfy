/** The daemon's recovery decisions: when the local etcd is unreachable, when it has lost its
    quorum, and what triggering force-new-cluster changes. */
module Daemon {
  import opened Text
  import opened Settings
  import opened Identity
  import opened Agreement
  import opened Bootstrap
  import opened Etcd
  import opened EtcdStart
  import opened Counters

  // ----- peer evidence -----

  /** The peers' member lists, by position in the desired list; nothing when unreachable. */
  type Replies = nat -> Option<seq<Member>>

  predicate Asks(cfg: Config, desired: seq<string>, i: nat)
    requires i < |desired|
  {
    desired[i] != cfg.myIP
  }

  /** How many of the first n desired peers answer, and list this node (or not). */
  function Listing(cfg: Config, desired: seq<string>, replies: Replies, n: nat, known: bool): nat
    requires n <= |desired|
  {
    if n == 0 then 0
    else
      Listing(cfg, desired, replies, n - 1, known) +
      if Asks(cfg, desired, n - 1) && replies(n - 1).Some? &&
         ByName(replies(n - 1).value, cfg.myName).Some? == known then 1 else 0
  }

  lemma {:induction false} NamedInList(members: seq<Member>, name: string)
    ensures ByName(members, name).Some? <==> exists m :: m in members && m.name == name
  {
    if members != [] {
      assert members == [members[0]] + members[1..];
      NamedInList(members[1..], name);
    }
  }

  /** Peer i answers, and its member list names this node (or does not). */
  ghost predicate Votes(cfg: Config, desired: seq<string>, replies: Replies, known: bool, i: nat)
    requires i < |desired|
  {
    desired[i] != cfg.myIP && replies(i).Some? &&
    ((exists m :: m in replies(i).value && m.name == cfg.myName) <==> known)
  }

  lemma ListingStep(cfg: Config, desired: seq<string>, replies: Replies, n: nat, known: bool)
    requires n < |desired|
    ensures Listing(cfg, desired, replies, n + 1, known) ==
            Listing(cfg, desired, replies, n, known) + if Votes(cfg, desired, replies, known, n) then 1 else 0
  {
    hide ByName;
    if replies(n).Some? { NamedInList(replies(n).value, cfg.myName); }
  }

  lemma NothingListed(cfg: Config, desired: seq<string>, replies: Replies, known: bool)
    ensures Listing(cfg, desired, replies, 0, known) == 0
  {
  }

  /** The counts are the numbers of those peers. */
  lemma {:induction false} ListingCounts(cfg: Config, desired: seq<string>, replies: Replies, n: nat, known: bool)
    requires n <= |desired|
    ensures Listing(cfg, desired, replies, n, known) ==
            |(set i: nat | i < n && Votes(cfg, desired, replies, known, i))|
  {
    hide *;
    var after := set i: nat | i < n && Votes(cfg, desired, replies, known, i);
    if n == 0 {
      NothingListed(cfg, desired, replies, known);
      assert after == {};
    } else {
      ListingCounts(cfg, desired, replies, n - 1, known);
      ListingStep(cfg, desired, replies, n - 1, known);
      var before := set i: nat | i < n - 1 && Votes(cfg, desired, replies, known, i);
      if Votes(cfg, desired, replies, known, n - 1) {
        assert after == before + {n - 1};
      } else {
        assert after == before;
      }
    }
  }

  function KnowUs(cfg: Config, desired: seq<string>, replies: Replies): nat {
    Listing(cfg, desired, replies, |desired|, true)
  }

  function DontKnowUs(cfg: Config, desired: seq<string>, replies: Replies): nat {
    Listing(cfg, desired, replies, |desired|, false)
  }

  /** No desired peer answers. */
  predicate NobodyReachable(cfg: Config, desired: seq<string>, replies: Replies) {
    forall i | 0 <= i < |desired| && Asks(cfg, desired, i) :: replies(i).None?
  }

  /** How many desired peers answer with a list that names this node, and how many with one that does
      not. */
  lemma VotesCounted(cfg: Config, desired: seq<string>, replies: Replies)
    ensures KnowUs(cfg, desired, replies) ==
            |(set i | 0 <= i < |desired| && desired[i] != cfg.myIP && replies(i).Some? &&
                     exists m :: m in replies(i).value && m.name == cfg.myName)|
    ensures DontKnowUs(cfg, desired, replies) ==
            |(set i | 0 <= i < |desired| && desired[i] != cfg.myIP && replies(i).Some? &&
                     forall m | m in replies(i).value :: m.name != cfg.myName)|
  {
    hide Listing;
    ListingCounts(cfg, desired, replies, |desired|, true);
    ListingCounts(cfg, desired, replies, |desired|, false);
    assert (set i: nat | i < |desired| && Votes(cfg, desired, replies, true, i)) ==
      set i | 0 <= i < |desired| && desired[i] != cfg.myIP && replies(i).Some? &&
              exists m :: m in replies(i).value && m.name == cfg.myName;
    assert (set i: nat | i < |desired| && Votes(cfg, desired, replies, false, i)) ==
      set i | 0 <= i < |desired| && desired[i] != cfg.myIP && replies(i).Some? &&
              forall m | m in replies(i).value :: m.name != cfg.myName;
  }

  /** Unanimous peers leave no vote for the other side. */
  lemma {:induction false} Unanimous(cfg: Config, desired: seq<string>, replies: Replies, n: nat)
    requires n <= |desired|
    ensures (forall i | 0 <= i < n && desired[i] != cfg.myIP && replies(i).Some? ::
               exists m :: m in replies(i).value && m.name == cfg.myName) ==>
            Listing(cfg, desired, replies, n, false) == 0
    ensures (forall i | 0 <= i < n && desired[i] != cfg.myIP && replies(i).Some? ::
               forall m | m in replies(i).value :: m.name != cfg.myName) ==>
            Listing(cfg, desired, replies, n, true) == 0
  {
    if n > 0 {
      Unanimous(cfg, desired, replies, n - 1);
      hide ByName;
      if replies(n - 1).Some? { NamedInList(replies(n - 1).value, cfg.myName); }
    }
  }

  /** Every peer that answers names this node in its list; none does. */
  ghost predicate AllNameUs(cfg: Config, desired: seq<string>, replies: Replies) {
    forall i | 0 <= i < |desired| && desired[i] != cfg.myIP && replies(i).Some? ::
      exists m :: m in replies(i).value && m.name == cfg.myName
  }

  ghost predicate NoneNamesUs(cfg: Config, desired: seq<string>, replies: Replies) {
    forall i | 0 <= i < |desired| && desired[i] != cfg.myIP && replies(i).Some? ::
      forall m | m in replies(i).value :: m.name != cfg.myName
  }

  lemma UnanimousPeers(cfg: Config, desired: seq<string>, replies: Replies)
    ensures AllNameUs(cfg, desired, replies) ==> DontKnowUs(cfg, desired, replies) == 0
    ensures NoneNamesUs(cfg, desired, replies) ==> KnowUs(cfg, desired, replies) == 0
  {
    hide Listing;
    Unanimous(cfg, desired, replies, |desired|);
  }

  method EvaluatePeerVotes(cfg: Config, desired: seq<string>, replies: Replies)
    returns (reachable: nat, matching: nat, mismatched: nat)
    ensures matching == KnowUs(cfg, desired, replies) && mismatched == DontKnowUs(cfg, desired, replies)
    // The peers counted are those that answer, one by one, by whether their list names this node.
    ensures matching == |(set i | 0 <= i < |desired| && desired[i] != cfg.myIP && replies(i).Some? &&
                                 exists m :: m in replies(i).value && m.name == cfg.myName)|
    ensures mismatched == |(set i | 0 <= i < |desired| && desired[i] != cfg.myIP && replies(i).Some? &&
                                   forall m | m in replies(i).value :: m.name != cfg.myName)|
    ensures reachable == matching + mismatched
    ensures reachable == 0 <==> NobodyReachable(cfg, desired, replies)
    ensures reachable == 0 <==> forall i | 0 <= i < |desired| && desired[i] != cfg.myIP :: replies(i).None?
  {
    VotesCounted(cfg, desired, replies);
    reachable, matching, mismatched := 0, 0, 0;
    for i := 0 to |desired|
      invariant matching == Listing(cfg, desired, replies, i, true)
      invariant mismatched == Listing(cfg, desired, replies, i, false)
      invariant reachable == matching + mismatched
      invariant reachable == 0 <==> forall k | 0 <= k < i && Asks(cfg, desired, k) :: replies(k).None?
    {
      if desired[i] == cfg.myIP {
        continue;
      }
      var members := replies(i);
      if members.None? {
        continue;
      }
      reachable := reachable + 1;
      var us := FindByName(members.value, cfg.myName);
      FirstByName(members.value, cfg.myName, us);
      if us.Some? {
        matching := matching + 1;
      } else {
        mismatched := mismatched + 1;
      }
    }
  }

  // ----- the daemon's state -----

  datatype Action = Wait | Triggered | JoinAuthority | RejoinAfterWipe | RestartOnly

  /** A counter file: its number, 0 when missing or unreadable. */
  function Count(file: Option<string>): int {
    match file case None => 0 case Some(text) => AtoiOrZero(Trim(text))
  }

  /** What a counter file holds after n cycles in a row that each count one up and write it. */
  function CountedUp(n: nat): Option<string> {
    if n == 0 then Some("0") else Some(IntText(Count(CountedUp(n - 1)) + 1))
  }

  /** Each cycle reads what the last one wrote: n cycles count to n, from a missing file or a reset one. */
  lemma {:induction false} CountsCycles(n: nat)
    requires n <= MAX_INT
    ensures Count(None) == 0 && Count(CountedUp(n)) == n
  {
    hide Trim, IntText, AtoiOrZero, ParseInt;
    if n == 0 {
      CountsZero();
    } else {
      CountsCycles(n - 1);
      IntTextRoundTrip(n);
    }
  }

  lemma CountsZero()
    ensures Count(Some("0")) == 0
  {
    assert ParseNat("0", 10) == Some(0);
    assert Trim("0") == "0";
  }

  /** Patroni's keys in the DCS. */
  function ScopeKey(scope: string, name: string): string {
    "/patroni/" + scope + "/" + name
  }

  /** The single keys of the dead epoch's election state. */
  const ELECTION_KEYS: seq<string> := ["leader", "status", "failsafe", "failover", "sync"]

  predicate IsElectionKey(scope: string, key: string) {
    (exists i | 0 <= i < |ELECTION_KEYS| :: key == ScopeKey(scope, ELECTION_KEYS[i])) ||
    ScopeKey(scope, "members") <= key
  }

  /** The DCS with the election state removed and the recovered system recorded. */
  function Cleaned(dcs: map<string, string>, scope: string, systemId: string): map<string, string> {
    var kept := map key | key in dcs && !IsElectionKey(scope, key) :: dcs[key];
    if systemId == "" then kept else kept[ScopeKey(scope, "initialize") := systemId]
  }

  lemma ElectionKeys(scope: string, key: string)
    ensures IsElectionKey(scope, key) <==>
            || key == "/patroni/" + scope + "/" + "leader" || key == "/patroni/" + scope + "/" + "status"
            || key == "/patroni/" + scope + "/" + "failsafe" || key == "/patroni/" + scope + "/" + "failover"
            || key == "/patroni/" + scope + "/" + "sync" || "/patroni/" + scope + "/" + "members" <= key
  {
    assert |ELECTION_KEYS| == 5;
    assert ELECTION_KEYS[0] == "leader" && ELECTION_KEYS[1] == "status" && ELECTION_KEYS[2] == "failsafe";
    assert ELECTION_KEYS[3] == "failover" && ELECTION_KEYS[4] == "sync";
  }

  /** After cleaning, a key is there if the recovered system was recorded under it, or it was there and
      is neither leader, status, failsafe, failover nor sync, nor below members. */
  lemma CleanedExactly(dcs: map<string, string>, scope: string, systemId: string, key: string)
    ensures var prefix := "/patroni/" + scope + "/";
            var recorded := systemId != "" && key == prefix + "initialize";
            && (key in Cleaned(dcs, scope, systemId) <==>
                  || recorded
                  || (&& key in dcs && key != prefix + "leader" && key != prefix + "status"
                      && key != prefix + "failsafe" && key != prefix + "failover" && key != prefix + "sync"
                      && !(prefix + "members" <= key)))
            && (key in Cleaned(dcs, scope, systemId) ==>
                  Cleaned(dcs, scope, systemId)[key] == if recorded then systemId else dcs[key])
  {
    hide IsElectionKey;
    ElectionKeys(scope, key);
  }

  /** Delete the election keys one by one, then everything under members/. */
  method CleanElectionState(dcs: map<string, string>, scope: string, systemId: string) returns (r: map<string, string>)
    ensures r == Cleaned(dcs, scope, systemId)
  {
    hide ScopeKey;
    r := dcs;
    for i := 0 to |ELECTION_KEYS|
      invariant forall key :: key in r <==> key in dcs && forall k | 0 <= k < i ::
          key != ScopeKey(scope, ELECTION_KEYS[k])
      invariant forall key | key in r :: r[key] == dcs[key]
    {
      r := r - {ScopeKey(scope, ELECTION_KEYS[i])};
    }
    r := map key | key in r && !(ScopeKey(scope, "members") <= key) :: r[key];
    if systemId != "" {
      r := r[ScopeKey(scope, "initialize") := systemId];
    }
  }

  /** The files and directories the daemon works on, and the DCS it reaches. */
  class Agent {
    var unavailFile: Option<string>
    var noQuorumFile: Option<string>
    var cooldownFile: Option<string>
    var restartMarker: Option<string>
    var fnfFlag: bool
    var etcd: EtcdDir
    var dcs: map<string, string>

    /** triggerForceNewCluster; the DCS is cleaned only when etcd comes up again. */
    method TriggerForceNewCluster(scope: string, systemId: string, now: int, etcdReady: bool)
      modifies this
      ensures fnfFlag && cooldownFile == Some(IntText(now)) && noQuorumFile == Some("0")
      ensures dcs == if etcdReady then Cleaned(old(dcs), scope, systemId) else old(dcs)
      ensures unavailFile == old(unavailFile) && restartMarker == old(restartMarker) && etcd == old(etcd)
    {
      fnfFlag := true;
      cooldownFile := Some(IntText(now));
      noQuorumFile := Some("0");
      if !etcdReady {
        return;
      }
      dcs := CleanElectionState(dcs, scope, systemId);
    }

    /** The part of handleEtcdUnreachable after an authority was confirmed: be it, or make room for it. */
    method FollowAuthority(cfg: Config, authority: Authority, now: int, later: int, cooldownSecs: int,
                           wipeOk: bool, wipeLeaves: EtcdDir, etcdReady: bool)
      returns (action: Action)
      modifies this
      ensures action.Triggered? <==> authority.ip == cfg.myIP && CooldownOver(old(cooldownFile), cooldownSecs, now)
      ensures action.JoinAuthority? <==>
                authority.ip != cfg.myIP && RestartSettled(old(restartMarker), now) && wipeOk
      ensures action.Wait? || action.Triggered? || action.JoinAuthority?
      ensures if action.Triggered?
              then && fnfFlag && cooldownFile == Some(IntText(later)) && noQuorumFile == Some("0")
                   && dcs == (if etcdReady then Cleaned(old(dcs), cfg.patroniScope, authority.systemId) else old(dcs))
              else && fnfFlag == old(fnfFlag) && cooldownFile == old(cooldownFile)
                   && noQuorumFile == old(noQuorumFile) && dcs == old(dcs)
      ensures if action.JoinAuthority?
              then restartMarker == Some(IntText(later)) && unavailFile == Some("0") && etcd == wipeLeaves
              else restartMarker == old(restartMarker) && unavailFile == old(unavailFile)
      ensures action.Triggered? ==> etcd == old(etcd)
      ensures action.Wait? ==>
                etcd == old(etcd) || (etcd == wipeLeaves && !wipeOk && RestartSettled(old(restartMarker), now))
    {
      hide *;
      if authority.ip == cfg.myIP {
        if CooldownOver(cooldownFile, cooldownSecs, now) {
          TriggerForceNewCluster(cfg.patroniScope, authority.systemId, later, etcdReady);
          return Triggered;
        }
        return Wait;
      }
      if !RestartSettled(restartMarker, now) {
        return Wait;
      }
      etcd := wipeLeaves;
      if !wipeOk {
        return Wait;
      }
      restartMarker := Some(IntText(later));
      unavailFile := Some("0");
      return JoinAuthority;
    }

    /** The part of handleEtcdUnreachable for answering peers: rejoin when most of them do not list this
        node, restart when they do. */
    method HeedPeers(knowUs: nat, dontKnowUs: nat, now: int, later: int, wipeLeaves: EtcdDir) returns (action: Action)
      modifies this
      ensures action.RejoinAfterWipe? <==> dontKnowUs > knowUs && RestartSettled(old(restartMarker), now)
      ensures action.RestartOnly? <==>
                0 < knowUs && dontKnowUs <= knowUs && RestartSettled(old(restartMarker), now)
      ensures action.Wait? || action.RejoinAfterWipe? || action.RestartOnly?
      ensures if action.Wait?
              then restartMarker == old(restartMarker) && unavailFile == old(unavailFile)
              else restartMarker == Some(IntText(later)) && unavailFile == Some("0")
      ensures etcd == if action.RejoinAfterWipe? then wipeLeaves else old(etcd)
      ensures fnfFlag == old(fnfFlag) && cooldownFile == old(cooldownFile)
      ensures noQuorumFile == old(noQuorumFile) && dcs == old(dcs)
    {
      hide *;
      if dontKnowUs > knowUs {
        if !RestartSettled(restartMarker, now) {
          return Wait;
        }
        etcd := wipeLeaves;
        restartMarker := Some(IntText(later));
        unavailFile := Some("0");
        return RejoinAfterWipe;
      }
      if knowUs > 0 {
        if !RestartSettled(restartMarker, now) {
          return Wait;
        }
        restartMarker := Some(IntText(later));
        unavailFile := Some("0");
        return RestartOnly;
      }
      return Wait;
    }

    /** handleEtcdUnreachable. `wipeLeaves` is what a wipe of the etcd directory leaves
        behind; cooldowns are checked at `now` and stamps written at `later`. */
    method HandleEtcdUnreachable(cfg: Config, desired: seq<string>, stable: bool, replies: Replies,
                                 rounds: nat -> Round, now: int, later: int, cooldownSecs: int,
                                 wipeOk: bool, wipeLeaves: EtcdDir, etcdReady: bool)
      returns (action: Action)
      modifies this
      // A force-new trigger needs persistence, stability, silence, confirmed authority and a cooldown.
      ensures action.Triggered? <==>
                && Count(old(unavailFile)) + 1 >= cfg.etcdUnavailableRecoveryCycles && stable
                && cfg.deadClusterRecovery && NobodyReachable(cfg, desired, replies)
                && Confirmed(cfg, rounds).Some? && Confirmed(cfg, rounds).value.ip == cfg.myIP
                && CooldownOver(old(cooldownFile), cooldownSecs, now)
      ensures action.Triggered? ==>
                && fnfFlag && cooldownFile == Some(IntText(later)) && noQuorumFile == Some("0")
                && dcs == (if etcdReady then Cleaned(old(dcs), cfg.patroniScope, Confirmed(cfg, rounds).value.systemId)
                           else old(dcs))
      ensures !action.Triggered? ==>
                && fnfFlag == old(fnfFlag) && cooldownFile == old(cooldownFile)
                && noQuorumFile == old(noQuorumFile) && dcs == old(dcs)
      // Otherwise the local etcd state is dropped to join a confirmed authority elsewhere,
      ensures action.JoinAuthority? <==>
                && Count(old(unavailFile)) + 1 >= cfg.etcdUnavailableRecoveryCycles && stable
                && cfg.deadClusterRecovery && NobodyReachable(cfg, desired, replies)
                && Confirmed(cfg, rounds).Some? && Confirmed(cfg, rounds).value.ip != cfg.myIP
                && RestartSettled(old(restartMarker), now) && wipeOk
      // or because most answering peers do not list this node,
      ensures action.RejoinAfterWipe? <==>
                && Count(old(unavailFile)) + 1 >= cfg.etcdUnavailableRecoveryCycles
                && DontKnowUs(cfg, desired, replies) > KnowUs(cfg, desired, replies)
                && RestartSettled(old(restartMarker), now)
      // or kept and merely restarted when they do.
      ensures action.RestartOnly? <==>
                && Count(old(unavailFile)) + 1 >= cfg.etcdUnavailableRecoveryCycles
                && 0 < KnowUs(cfg, desired, replies)
                && DontKnowUs(cfg, desired, replies) <= KnowUs(cfg, desired, replies)
                && RestartSettled(old(restartMarker), now)
      // When all answering peers list this node its etcd directory is never wiped on their account, and
      // when none does it is not merely restarted.
      ensures AllNameUs(cfg, desired, replies) ==> !action.RejoinAfterWipe?
      ensures NoneNamesUs(cfg, desired, replies) ==> !action.RestartOnly?
      // A stamp goes with every restart, the counter starts over then, and a directory changes only by a wipe.
      ensures action.JoinAuthority? || action.RejoinAfterWipe? || action.RestartOnly? ==>
                restartMarker == Some(IntText(later)) && unavailFile == Some("0")
      ensures action.Wait? || action.Triggered? ==>
                restartMarker == old(restartMarker) && unavailFile == Some(IntText(Count(old(unavailFile)) + 1))
      ensures action.JoinAuthority? ==> etcd == wipeLeaves
      ensures action.RejoinAfterWipe? ==> etcd == wipeLeaves
      ensures action.RestartOnly? || action.Triggered? ==> etcd == old(etcd)
      ensures action.Wait? ==>
                etcd == old(etcd) || (etcd == wipeLeaves && !wipeOk && RestartSettled(old(restartMarker), now))
    {
      assert Count(unavailFile) == if unavailFile.Some? then AtoiOrZero(Trim(unavailFile.value)) else 0;
      UnanimousPeers(cfg, desired, replies);
      hide Confirmed, CooldownOver, RestartSettled, Listing, NobodyReachable, IntText, AtoiOrZero, Cleaned, AllNameUs,
           NoneNamesUs, KnowUs, DontKnowUs, Trim;
      var count := if unavailFile.Some? then AtoiOrZero(Trim(unavailFile.value)) else 0;
      count := count + 1;
      unavailFile := Some(IntText(count));
      var reachable, knowUs, dontKnowUs := EvaluatePeerVotes(cfg, desired, replies);
      if count < cfg.etcdUnavailableRecoveryCycles {
        return Wait;
      }
      if stable && cfg.deadClusterRecovery && reachable == 0 {
        var authority := ConfirmRecoveryAuthority(cfg, rounds);
        if authority.None? {
          return Wait;
        }
        action := FollowAuthority(cfg, authority.value, now, later, cooldownSecs, wipeOk, wipeLeaves, etcdReady);
        return;
      }
      action := HeedPeers(knowUs, dontKnowUs, now, later, wipeLeaves);
    }

    /** The cluster-ID check of a reconcile cycle: drop the local etcd state when most of the peers
        that answer do not list this node. */
    method VerifyMembership(cfg: Config, desired: seq<string>, replies: Replies, now: int, later: int,
                            wipeLeaves: EtcdDir)
      returns (wiped: bool)
      modifies this
      ensures wiped <==> DontKnowUs(cfg, desired, replies) > KnowUs(cfg, desired, replies) &&
                         RestartSettled(old(restartMarker), now)
      ensures wiped ==> etcd == wipeLeaves && restartMarker == Some(IntText(later))
      ensures !wiped ==> etcd == old(etcd) && restartMarker == old(restartMarker)
      // All answering peers list this node: no wipe. None does, and some answer: a wipe once the last
      // restart has settled.
      ensures (forall i | 0 <= i < |desired| && desired[i] != cfg.myIP && replies(i).Some? ::
                 exists m :: m in replies(i).value && m.name == cfg.myName) ==> !wiped
      ensures (forall i | 0 <= i < |desired| && desired[i] != cfg.myIP && replies(i).Some? ::
                 forall m | m in replies(i).value :: m.name != cfg.myName) ==>
              (wiped <==> (exists i | 0 <= i < |desired| :: desired[i] != cfg.myIP && replies(i).Some?) &&
                          RestartSettled(old(restartMarker), now))
      ensures unavailFile == old(unavailFile) && noQuorumFile == old(noQuorumFile)
      ensures cooldownFile == old(cooldownFile) && fnfFlag == old(fnfFlag) && dcs == old(dcs)
    {
      UnanimousPeers(cfg, desired, replies);
      hide RestartSettled, Listing, IntText;
      var reachable, matching, mismatched := EvaluatePeerVotes(cfg, desired, replies);
      if reachable > 0 && mismatched > matching && RestartSettled(restartMarker, now) {
        etcd := wipeLeaves;
        restartMarker := Some(IntText(later));
        return true;
      }
      return false;
    }

    /** The quorum part of a reconcile cycle: count the cycles without a write quorum, and trigger
        force-new-cluster once a stable list and confirmed authority allow it. */
    method CheckQuorum(cfg: Config, hasQuorum: bool, stable: bool, hasGlobal: bool, rounds: nat -> Round,
                       now: int, later: int, cooldownSecs: int, etcdReady: bool)
      returns (triggered: bool)
      modifies this
      ensures triggered <==>
                && !hasQuorum && stable && hasGlobal
                && Count(old(noQuorumFile)) + 1 >= cfg.desiredStateStabilityCycles
                && Confirmed(cfg, rounds).Some? && Confirmed(cfg, rounds).value.ip == cfg.myIP
                && CooldownOver(old(cooldownFile), cooldownSecs, now)
      ensures triggered ==>
                && fnfFlag && cooldownFile == Some(IntText(later)) && noQuorumFile == Some("0")
                && dcs == (if etcdReady then Cleaned(old(dcs), cfg.patroniScope, Confirmed(cfg, rounds).value.systemId)
                           else old(dcs))
      ensures !triggered ==>
                && fnfFlag == old(fnfFlag) && cooldownFile == old(cooldownFile) && dcs == old(dcs)
                && noQuorumFile == if hasQuorum then Some("0") else Some(IntText(Count(old(noQuorumFile)) + 1))
      ensures unavailFile == Some("0") && restartMarker == old(restartMarker) && etcd == old(etcd)
    {
      hide Confirmed, CooldownOver, IntText, AtoiOrZero, Cleaned;
      unavailFile := Some("0");
      var noQuorumCount := if noQuorumFile.Some? then AtoiOrZero(Trim(noQuorumFile.value)) else 0;
      if !hasQuorum {
        noQuorumCount := noQuorumCount + 1;
        noQuorumFile := Some(IntText(noQuorumCount));
      } else {
        noQuorumFile := Some("0");
      }
      if !hasQuorum && noQuorumCount >= cfg.desiredStateStabilityCycles && stable && hasGlobal {
        var authority := ConfirmRecoveryAuthority(cfg, rounds);
        if authority.Some? && authority.value.ip == cfg.myIP && CooldownOver(cooldownFile, cooldownSecs, now) {
          TriggerForceNewCluster(cfg.patroniScope, authority.value.systemId, later, etcdReady);
          return true;
        }
      }
      return false;
    }
  }

  /** Cleaning keeps Patroni's dynamic configuration and history. */
  lemma ConfigurationSurvives(dcs: map<string, string>, scope: string, systemId: string, name: string)
    requires name in ["config", "history"] && ScopeKey(scope, name) in dcs
    ensures ScopeKey(scope, name) in Cleaned(dcs, scope, systemId)
    ensures Cleaned(dcs, scope, systemId)[ScopeKey(scope, name)] == dcs[ScopeKey(scope, name)]
  {
    var key := ScopeKey(scope, name);
    var p := |"/patroni/" + scope + "/"|;
    assert key[p] == name[0];
    forall i | 0 <= i < |ELECTION_KEYS| ensures key != ScopeKey(scope, ELECTION_KEYS[i]) {
      assert ScopeKey(scope, ELECTION_KEYS[i])[p] == ELECTION_KEYS[i][0];
    }
    assert ScopeKey(scope, "members")[p] == 'm';
    assert ScopeKey(scope, "initialize")[p] == 'i';
  }

  /** Whenever force-new-cluster is triggered and some member's answer of a round shows retained
      etcd state, the triggering node is the only holder of data in that round. */
  lemma RetainedEtcdImpliesSoleCopy(cfg: Config, rounds: nat -> Round, k: nat, retained: PeerResult, copy: PeerResult)
    requires Confirmed(cfg, rounds).Some? && Confirmed(cfg, rounds).value.ip == cfg.myIP
    requires k < Cycles(cfg)
    requires var all := Everyone(cfg, rounds(k).local, rounds(k).results);
             DistinctAddresses(all) && retained in all && copy in all
    requires retained.answer.Some? && !retained.answer.value.etcdDataEmpty
    requires HoldsData(copy)
    ensures copy.ip == cfg.myIP
  {
    hide Consistent, Outranks;
    var round := rounds(k);
    var all := Everyone(cfg, round.local, round.results);
    var a := Confirmed(cfg, rounds).value;
    assert Verdict(cfg, rounds(k)) == Some(a);
    AuthorityIsWinner(cfg, round.local, round.results, a);
    var winner :| Wins(all, winner) && a == AuthorityOf(winner);
    EtcdLostIn(all);
    assert copy == winner;
  }
}
