/** The daemon's system-ID check, the only place where the agent deletes PostgreSQL data, and
    what every run of it preserves. */
module DataSafety {
  import opened Text
  import opened Settings
  import opened WalPosition
  import opened Identity
  import opened Counters

  /** What a node's Patroni reports about itself. */
  datatype PatroniInfo = PatroniInfo(role: string, systemId: string)

  /** The reports of the desired addresses, by position; nothing when Patroni does not answer. */
  type Reports = nat -> Option<PatroniInfo>

  predicate Informs(reports: Reports, i: nat) {
    reports(i).Some? && reports(i).value.systemId != ""
  }

  predicate SaysPrimary(reports: Reports, i: nat) {
    Informs(reports, i) && (reports(i).value.role == "primary" || reports(i).value.role == "master")
  }

  /** p is the last of the first n addresses whose Patroni says it is the primary. */
  predicate LastPrimary(reports: Reports, n: nat, p: Option<nat>) {
    match p
    case None => forall i | 0 <= i < n :: !SaysPrimary(reports, i)
    case Some(i) => i < n && SaysPrimary(reports, i) && forall j | i < j < n :: !SaysPrimary(reports, j)
  }

  lemma LastPrimaryExactly(reports: Reports, n: nat, p: Option<nat>)
    requires LastPrimary(reports, n, p)
    ensures forall i | 0 <= i < n && reports(i).Some? && reports(i).value.systemId != "" &&
                       reports(i).value.role in ["primary", "master"] :: p.Some? && i <= p.value
    ensures p.Some? ==> && p.value < n && reports(p.value).Some? && reports(p.value).value.systemId != ""
                        && reports(p.value).value.role in ["primary", "master"]
  {
    assert forall i ::
        Informs(reports, i) && reports(i).value.role in ["primary", "master"] ==> SaysPrimary(reports, i);
  }

  predicate SomeoneMatches(reports: Reports, n: nat, systemId: string) {
    exists i | 0 <= i < n :: Informs(reports, i) && reports(i).value.systemId == systemId
  }

  /** The /initialize key after healing: the primary's ID when nobody confirms the recorded one. */
  function Healed(reports: Reports, n: nat, p: Option<nat>, initialize: string): string
    requires p.Some? ==> Informs(reports, p.value)
  {
    if initialize != "" && p.Some? && reports(p.value).value.systemId != initialize &&
       !SomeoneMatches(reports, n, initialize)
    then reports(p.value).value.systemId
    else initialize
  }

  /** This node's readable data belongs to another system than the one its primary confirms. */
  predicate Condemned(cfg: Config, desired: seq<string>, reports: Reports, p: Option<nat>, initialize: string,
                      pg: PGData) {
    && initialize != "" && p.Some? && p.value < |desired| && Informs(reports, p.value)
    && reports(p.value).value.systemId == Healed(reports, |desired|, p, initialize)
    && desired[p.value] != cfg.myIP
    && pg.hasGlobal && pg.control.Some? && pg.control.value.systemId != reports(p.value).value.systemId
    && cfg.allowPGDataWipe
  }

  /** The key left behind is one that somebody confirms, whenever a primary answers; a key that somebody
      confirms is left alone. */
  lemma HealedIsConfirmed(reports: Reports, n: nat, p: Option<nat>, initialize: string)
    requires LastPrimary(reports, n, p)
    ensures var healed := Healed(reports, n, p, initialize);
            && (initialize != "" && p.Some? ==>
                  exists i | 0 <= i < n :: reports(i).Some? && reports(i).value.systemId == healed)
            && (initialize == "" || p.None? ==> healed == initialize)
            && ((exists i | 0 <= i < n :: reports(i).Some? && reports(i).value.systemId == initialize) ==>
                  healed == initialize)
            && (healed != initialize ==> p.Some? && reports(p.value).value.systemId == healed)
  {
    if i :| 0 <= i < n && reports(i).Some? && reports(i).value.systemId == initialize {
      assert initialize != "" ==> Informs(reports, i);
    }
  }

  class DataNode {
    var pg: PGData
    var wipeCooldownFile: Option<string>

    constructor (pg: PGData, wipeCooldownFile: Option<string>)
      ensures this.pg == pg && this.wipeCooldownFile == wipeCooldownFile
    {
      this.pg, this.wipeCooldownFile := pg, wipeCooldownFile;
    }

    /** checkPatroniSystemID. Returns the /initialize key it leaves, whether it wiped this node's
        data, and the position of the primary it relied on. */
    method CheckPatroniSystemID(cfg: Config, desired: seq<string>, reports: Reports, initialize: string,
                                now: int, later: int, cooldownSecs: int, wipeLeaves: PGData)
      returns (healed: string, wiped: bool, p: Option<nat>)
      modifies this
      ensures LastPrimary(reports, |desired|, p) && healed == Healed(reports, |desired|, p, initialize)
      // The primary is the last address that reports a system ID and the role "primary" or "master".
      ensures forall i | 0 <= i < |desired| && reports(i).Some? && reports(i).value.systemId != "" &&
                         reports(i).value.role in ["primary", "master"] :: p.Some? && i <= p.value
      ensures p.Some? ==>
                && p.value < |desired| && reports(p.value).Some? && reports(p.value).value.systemId != ""
                && reports(p.value).value.role in ["primary", "master"]
      // A recorded key becomes the primary's when nobody reports it; with a primary, somebody reports
      // the key that is left.
      ensures initialize == "" || p.None? ==> healed == initialize
      ensures initialize != "" && p.Some? ==>
                healed ==
                if exists i | 0 <= i < |desired| :: reports(i).Some? && reports(i).value.systemId == initialize
                then initialize else reports(p.value).value.systemId
      ensures initialize != "" && p.Some? ==>
                exists i | 0 <= i < |desired| :: reports(i).Some? && reports(i).value.systemId == healed
      ensures wiped <==> Condemned(cfg, desired, reports, p, initialize, old(pg)) &&
                         CooldownOver(old(wipeCooldownFile), cooldownSecs, now)
      // Data goes exactly when another node is the primary and reports the key that is left, this node's
      // system ID can be read and differs, and both permission and cooldown allow it.
      ensures wiped <==>
                && initialize != "" && p.Some? && reports(p.value).value.systemId == healed
                && desired[p.value] != cfg.myIP
                && old(pg).hasGlobal && old(pg).control.Some? && old(pg).control.value.systemId != healed
                && cfg.allowPGDataWipe && CooldownOver(old(wipeCooldownFile), cooldownSecs, now)
      ensures pg == if wiped then wipeLeaves else old(pg)
      ensures wipeCooldownFile == if wiped then Some(IntText(later)) else old(wipeCooldownFile)
    {
      hide CooldownOver, IntText;
      var primaryIP := "";
      var primarySysID := "";
      var anyMatchingMember := false;
      p := None;
      for i := 0 to |desired|
        invariant LastPrimary(reports, i, p)
        invariant p.Some? ==> primarySysID == reports(p.value).value.systemId && primaryIP == desired[p.value]
        invariant anyMatchingMember <==> SomeoneMatches(reports, i, initialize)
      {
        var info := reports(i);
        if info.None? || info.value.systemId == "" {
          continue;
        }
        if info.value.role == "primary" || info.value.role == "master" {
          primarySysID := info.value.systemId;
          primaryIP := desired[i];
          p := Some(i);
        }
        if info.value.systemId == initialize {
          anyMatchingMember := true;
        }
      }
      LastPrimaryExactly(reports, |desired|, p);
      HealedIsConfirmed(reports, |desired|, p, initialize);
      healed := initialize;
      wiped := false;
      if initialize == "" {
        return;
      }
      if p.Some? && primarySysID != initialize && !anyMatchingMember {
        healed := primarySysID;
      }
      if p.None? || primarySysID != healed {
        return;
      }
      if cfg.myIP == primaryIP {
        return;
      }
      if !pg.hasGlobal {
        return;
      }
      if pg.control.None? || pg.control.value.systemId == healed {
        return;
      }
      if !cfg.allowPGDataWipe {
        return;
      }
      if !CooldownOver(wipeCooldownFile, cooldownSecs, now) {
        return;
      }
      wipeCooldownFile := Some(IntText(later));
      pg := wipeLeaves;
      wiped := true;
    }
  }

  // ----- runs -----

  /** Every node's data directory, and the /initialize key of the DCS. */
  datatype World = World(data: map<string, PGData>, initialize: string)

  /** A daemon cycle as one atomic step, Patroni working on a node's data, or Patroni or an
      operator writing the key. */
  datatype Move =
    | Cycle(node: string, cfg: Config, desired: seq<string>, reports: Reports, primary: Option<nat>,
            cooldownOver: bool, wipeLeaves: PGData)
    | PatroniWorks(node: string, pg: PGData)
    | SetInitialize(value: string)

  /** The system ID of a data directory, if it can be read. */
  function SystemOf(pg: PGData): Option<string> {
    if pg.isEmpty || pg.control.None? then None else Some(pg.control.value.systemId)
  }

  /** Patroni reports the system of the data it runs on. */
  predicate Truthful(w: World, desired: seq<string>, reports: Reports) {
    forall i | 0 <= i < |desired| && Informs(reports, i) ::
      desired[i] in w.data && SystemOf(w.data[desired[i]]) == Some(reports(i).value.systemId)
  }

  /** A cycle whose evidence was collected in one world wipes in a later one: the local system ID is
      read right before the wipe. */
  predicate WipesFrom(seen: World, w: World, m: Move) {
    m.Cycle? && m.node in w.data && m.cooldownOver &&
    Condemned(m.cfg, m.desired, m.reports, m.primary, seen.initialize, w.data[m.node])
  }

  predicate NextFrom(seen: World, w: World, x: World, m: Move) {
    match m
    case Cycle(node, cfg, desired, reports, primary, cooldownOver, wipeLeaves) =>
      && node in w.data && cfg.myIP == node && Truthful(seen, desired, reports)
      && LastPrimary(reports, |desired|, primary)
      && x.data == (if WipesFrom(seen, w, m) then w.data[node := wipeLeaves] else w.data)
      && (x.initialize == w.initialize || x.initialize == Healed(reports, |desired|, primary, seen.initialize))
    case PatroniWorks(node, pg) =>
      // Cloning fills an empty directory; running or promoting changes neither existence nor system.
      && node in w.data && Plausible(pg)
      && (!w.data[node].isEmpty ==> !pg.isEmpty && SystemOf(pg) == SystemOf(w.data[node]))
      && x == w.(data := w.data[node := pg])
    case SetInitialize(value) =>
      x == w.(initialize := value)
  }

  /** A cycle as one atomic step: the evidence is that of the world it acts on. */
  predicate Wipes(w: World, m: Move) {
    WipesFrom(w, w, m)
  }

  predicate Next(w: World, x: World, m: Move) {
    NextFrom(w, w, x, m)
  }

  /** What the check does is such a step: it may leave the healed key, and wipes this node's data exactly
      when it is condemned and the cooldown is over. */
  lemma CheckIsACycle(w: World, cfg: Config, desired: seq<string>, reports: Reports, p: Option<nat>,
                      cooldownOver: bool, wipeLeaves: PGData)
    requires cfg.myIP in w.data && Truthful(w, desired, reports) && LastPrimary(reports, |desired|, p)
    ensures var pg := w.data[cfg.myIP];
            var wiped := Condemned(cfg, desired, reports, p, w.initialize, pg) && cooldownOver;
            Next(w, World(w.data[cfg.myIP := if wiped then wipeLeaves else pg],
                          Healed(reports, |desired|, p, w.initialize)),
                 Cycle(cfg.myIP, cfg, desired, reports, p, cooldownOver, wipeLeaves))
  {
    hide Condemned, Healed, Truthful, LastPrimary;
    assert w.data[cfg.myIP := w.data[cfg.myIP]] == w.data;
  }

  /** The system that a wiping cycle's primary confirms. */
  function ConfirmedSystem(m: Move): string
    requires m.Cycle? && m.primary.Some? && Informs(m.reports, m.primary.value)
  {
    m.reports(m.primary.value).value.systemId
  }

  /** A wipe is permitted by configuration, spares the confirming primary, whose data carries the
      (possibly just healed) key, and hits only data of another system. */
  lemma WipeIsJustified(w: World, x: World, m: Move)
    requires Next(w, x, m) && Wipes(w, m)
    ensures m.cfg.allowPGDataWipe
    ensures m.primary.Some? && m.primary.value < |m.desired| && Informs(m.reports, m.primary.value)
    ensures var primary := m.desired[m.primary.value];
            && primary != m.node && primary in x.data && x.data[primary] == w.data[primary]
            && SystemOf(x.data[primary]) == Some(ConfirmedSystem(m))
    ensures ConfirmedSystem(m) == Healed(m.reports, |m.desired|, m.primary, w.initialize)
    ensures w.data[m.node].control.Some? && w.data[m.node].control.value.systemId != ConfirmedSystem(m)
    ensures forall n | n in w.data && SystemOf(w.data[n]) == Some(ConfirmedSystem(m)) :: x.data[n] == w.data[n]
  {
  }

  /** A run in which other moves may come between the collecting and the wiping of a cycle: move i
      relies on the evidence of world since[i]. */
  ghost predicate SplitRun(trace: seq<World>, moves: seq<Move>, since: seq<nat>) {
    && |trace| == |moves| + 1 && |since| == |moves|
    && forall i | 0 <= i < |moves| :: since[i] <= i && NextFrom(trace[since[i]], trace[i], trace[i + 1], moves[i])
  }

  /** A run of atomic cycles. */
  ghost predicate Run(trace: seq<World>, moves: seq<Move>) {
    && |trace| == |moves| + 1
    && forall i | 0 <= i < |moves| :: Next(trace[i], trace[i + 1], moves[i])
  }

  lemma AtomicIsSplit(trace: seq<World>, moves: seq<Move>)
    requires Run(trace, moves)
    ensures SplitRun(trace, moves, seq(|moves|, i requires i >= 0 => i))
  {
  }

  /** Some node holds data. */
  ghost predicate SomeData(w: World) {
    exists n :: n in w.data && !w.data[n].isEmpty
  }

  lemma DataStep(w: World, x: World, m: Move)
    requires Next(w, x, m) && SomeData(w)
    ensures SomeData(x)
  {
    hide Condemned;
    var n :| n in w.data && !w.data[n].isEmpty;
    if Wipes(w, m) {
      WipeIsJustified(w, x, m);
      assert m.desired[m.primary.value] in x.data;
    } else {
      assert n in x.data;
    }
  }

  /** No run takes the cluster from some data to none. */
  lemma {:induction false} DataSurvives(trace: seq<World>, moves: seq<Move>, i: nat)
    requires Run(trace, moves) && i < |trace| && SomeData(trace[0])
    ensures SomeData(trace[i])
  {
    hide Next, SomeData;
    if i > 0 {
      DataSurvives(trace, moves, i - 1);
      DataStep(trace[i - 1], trace[i], moves[i - 1]);
    }
  }

  /** Without permission to wipe, a node's data is never removed. */
  lemma {:induction false} NothingWipedWithoutPermission(trace: seq<World>, moves: seq<Move>, since: seq<nat>, i: nat,
                                                         node: string)
    requires SplitRun(trace, moves, since) && i < |trace|
    requires node in trace[0].data && !trace[0].data[node].isEmpty
    requires forall k | 0 <= k < |moves| && moves[k].Cycle? && moves[k].node == node :: !moves[k].cfg.allowPGDataWipe
    ensures node in trace[i].data && !trace[i].data[node].isEmpty
    ensures SystemOf(trace[i].data[node]) == SystemOf(trace[0].data[node])
  {
    hide Truthful, LastPrimary, Healed;
    if i > 0 {
      NothingWipedWithoutPermission(trace, moves, since, i - 1, node);
      assert NextFrom(trace[since[i - 1]], trace[i - 1], trace[i], moves[i - 1]);
    }
  }

  /** Move k relies on a primary of this system if it wipes. */
  predicate Confirms(seen: World, w: World, m: Move, systemId: string) {
    WipesFrom(seen, w, m) ==>
      m.primary.Some? && Informs(m.reports, m.primary.value) && ConfirmedSystem(m) == systemId
  }

  lemma CopyStays(seen: World, w: World, x: World, m: Move, systemId: string, node: string)
    requires NextFrom(seen, w, x, m) && Confirms(seen, w, m, systemId)
    requires node in w.data && SystemOf(w.data[node]) == Some(systemId)
    ensures node in x.data && SystemOf(x.data[node]) == Some(systemId)
  {
    hide Truthful, LastPrimary, Healed;
  }

  /** While every wiping cycle's primary confirms one system, no copy of that system is lost, however
      the cycles overlap. */
  lemma {:induction false} ConfirmedSystemSurvives(trace: seq<World>, moves: seq<Move>, since: seq<nat>, i: nat, j: nat,
                                                   systemId: string, node: string)
    requires SplitRun(trace, moves, since) && i <= j < |trace|
    requires forall k | i <= k < j :: Confirms(trace[since[k]], trace[k], moves[k], systemId)
    requires node in trace[i].data && SystemOf(trace[i].data[node]) == Some(systemId)
    ensures node in trace[j].data && SystemOf(trace[j].data[node]) == Some(systemId)
  {
    hide NextFrom, Confirms, SystemOf;
    if i < j {
      ConfirmedSystemSurvives(trace, moves, since, i, j - 1, systemId, node);
      CopyStays(trace[since[j - 1]], trace[j - 1], trace[j], moves[j - 1], systemId, node);
    }
  }

  /** What a wiping cycle relied on: data of the confirmed system, where its evidence was collected. */
  lemma ConfirmingCopy(seen: World, w: World, x: World, m: Move)
    requires NextFrom(seen, w, x, m) && WipesFrom(seen, w, m)
    ensures m.Cycle? && m.primary.Some? && m.primary.value < |m.desired| && Informs(m.reports, m.primary.value)
    ensures var p := m.desired[m.primary.value]; p in seen.data && SystemOf(seen.data[p]) == Some(ConfirmedSystem(m))
  {
    hide LastPrimary, Healed;
  }

  lemma DataWithoutWipe(seen: World, w: World, x: World, m: Move)
    requires NextFrom(seen, w, x, m) && !WipesFrom(seen, w, m) && SomeData(w)
    ensures SomeData(x)
  {
    hide Truthful, LastPrimary, Healed, WipesFrom;
    var n :| n in w.data && !w.data[n].isEmpty;
    assert n in x.data;
  }

  /** Nor does such a run take the cluster from some data to none: one confirmed system does for
      overlapping cycles what atomic cycles do for any. */
  lemma {:induction false} OneSystemDataSurvives(trace: seq<World>, moves: seq<Move>, since: seq<nat>, i: nat,
                                                 systemId: string)
    requires SplitRun(trace, moves, since) && i < |trace| && SomeData(trace[0])
    requires forall k | 0 <= k < |moves| :: Confirms(trace[since[k]], trace[k], moves[k], systemId)
    ensures SomeData(trace[i])
  {
    hide NextFrom, SomeData, WipesFrom, SystemOf;
    if i > 0 {
      OneSystemDataSurvives(trace, moves, since, i - 1, systemId);
      var k, m := since[i - 1], moves[i - 1];
      assert NextFrom(trace[k], trace[i - 1], trace[i], m) && Confirms(trace[k], trace[i - 1], m, systemId);
      if WipesFrom(trace[k], trace[i - 1], m) {
        ConfirmingCopy(trace[k], trace[i - 1], trace[i], m);
        ConfirmedSystemSurvives(trace, moves, since, k, i, systemId, m.desired[m.primary.value]);
        CopyIsData(trace[i], m.desired[m.primary.value]);
      } else {
        DataWithoutWipe(trace[k], trace[i - 1], trace[i], m);
      }
    }
  }

  lemma CopyIsData(w: World, node: string)
    requires node in w.data && SystemOf(w.data[node]).Some?
    ensures SomeData(w)
  {
  }

  // ----- why a cycle must be one step -----

  function DataOf(systemId: string): PGData {
    PGData(false, true, false, false, Some(ControlData(systemId, "", "", 0, "", 0)))
  }

  /** The reports of two nodes: the primary of one system, and a node that does not answer. */
  function OnePrimary(at: nat, systemId: string): Reports {
    (i: nat) => if i == at then Some(PatroniInfo("primary", systemId)) else None
  }

  /** A cycle that collects truthful reports, is overtaken, and wipes late can take the cluster from
      data everywhere to none: b's evidence against its own data comes from a, which is wiped on b's
      evidence in between. */
  lemma LateWipeLosesData(a: Config, b: Config)
    requires a.myIP != b.myIP && a.allowPGDataWipe && b.allowPGDataWipe
    ensures exists trace: seq<World>, moves: seq<Move>, since: seq<nat> ::
      SplitRun(trace, moves, since) && SomeData(trace[0]) && !SomeData(trace[|moves|])
  {
    var nodes, gone := [a.myIP, b.myIP], PGData(true, false, false, false, None);
    var before := World(map[a.myIP := DataOf("1"), b.myIP := DataOf("2")], "1");
    var late := Cycle(b.myIP, b, nodes, OnePrimary(0, "1"), Some(0), true, gone);
    var overtaking := Cycle(a.myIP, a, nodes, OnePrimary(1, "2"), Some(1), true, gone);
    var rekeyed := before.(initialize := "2");
    var between := rekeyed.(data := rekeyed.data[a.myIP := gone]);
    var after := between.(data := between.data[b.myIP := gone]);
    assert nodes[0] == a.myIP && nodes[1] == b.myIP && "1" != "2";
    assert NextFrom(before, before, rekeyed, SetInitialize("2"));
    assert NextFrom(rekeyed, rekeyed, between, overtaking);
    assert NextFrom(before, between, after, late);
    assert a.myIP in before.data && !before.data[a.myIP].isEmpty;
    hide NextFrom;
    assert SplitRun([before, rekeyed, between, after], [SetInitialize("2"), overtaking, late], [0, 1, 0]);
  }
}
