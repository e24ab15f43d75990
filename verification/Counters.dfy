/** The daemon's memory across cycles, kept in small files: the desired-state tracker and the
    cooldown stamps. */
module Counters {
  import opened Text
  import opened Topology

  // ----- the desired-state tracker -----

  ghost predicate AllIPv4(ips: seq<string>) {
    forall i | 0 <= i < |ips| :: IsIPv4(ips[i])
  }

  /** The text a list of addresses is compared by. */
  function Signature(ips: seq<string>): string {
    Join(ips, ",")
  }

  function TrackerText(signature: string, count: int): string {
    signature + "\n" + IntText(count) + "\n"
  }

  /** The signature and count last written: nothing and zero when the file is missing. */
  function ReadTracker(file: Option<string>): (string, int) {
    match file
    case None => ("", 0)
    case Some(text) =>
      var lines := Split(text, '\n');
      (Trim(lines[0]), if |lines| >= 2 then AtoiOrZero(Trim(lines[1])) else 0)
  }

  function NextCount(file: Option<string>, desired: string): int {
    var last := ReadTracker(file);
    if desired == last.0 then last.1 + 1 else 1
  }

  function FileAfter(file: Option<string>, desired: string): string {
    TrackerText(desired, NextCount(file, desired))
  }

  class StateTracker {
    var file: Option<string>

    constructor ()
      ensures file == None
    {
      file := None;
    }

    /** updateStateTracker. */
    method Update(desired: string, threshold: int) returns (stable: bool, count: int)
      modifies this
      ensures file == Some(FileAfter(old(file), desired))
      ensures count == NextCount(old(file), desired) && (stable <==> count >= threshold)
      // The count goes up by one when the first line is the same list, and starts at one otherwise.
      ensures file == Some(desired + "\n" + IntText(count) + "\n")
      ensures count ==
              if old(file).Some? && Trim(Split(old(file).value, '\n')[0]) == desired
                 && |Split(old(file).value, '\n')| >= 2
              then AtoiOrZero(Trim(Split(old(file).value, '\n')[1])) + 1 else 1
    {
      var lastSig := "";
      count := 0;
      if file.Some? {
        var lines := Split(file.value, '\n');
        if |lines| >= 1 {
          lastSig := Trim(lines[0]);
        }
        if |lines| >= 2 {
          count := AtoiOrZero(Trim(lines[1]));
        }
      }
      if desired == lastSig {
        count := count + 1;
      } else {
        count := 1;
      }
      file := Some(TrackerText(desired, count));
      stable := count >= threshold;
    }
  }

  lemma SignatureShape(ips: seq<string>)
    requires ips != [] && AllIPv4(ips)
    ensures Signature(ips) != "" && Trim(Signature(ips)) == Signature(ips) && '\n' !in Signature(ips)
  {
    SignatureChars(ips);
    var s := Signature(ips);
    assert s[0] in s && s[|s| - 1] in s;
  }

  lemma {:induction false} SignatureChars(ips: seq<string>)
    requires ips != [] && AllIPv4(ips)
    ensures Signature(ips) != "" && forall c | c in Signature(ips) :: c == ',' || c == '.' || '0' <= c <= '9'
  {
    if |ips| > 1 {
      SignatureChars(ips[1..]);
    }
  }

  /** Signatures tell lists apart. */
  lemma SignatureInjective(a: seq<string>, b: seq<string>)
    requires a != [] && b != []
    requires AllIPv4(a) && AllIPv4(b)
    requires Signature(a) == Signature(b)
    ensures a == b
  {
    SplitJoin(a, ',');
    SplitJoin(b, ',');
  }

  lemma TrackerRoundTrip(signature: string, count: int)
    requires Trim(signature) == signature && '\n' !in signature && MIN_INT <= count <= MAX_INT
    ensures ReadTracker(Some(TrackerText(signature, count))) == (signature, count)
  {
    hide IntText, AtoiOrZero, ParseInt;
    var rest := IntText(count) + "\n";
    assert TrackerText(signature, count) == signature + ['\n'] + rest;
    SplitPrefix(signature, rest, '\n');
    IntTextRoundTrip(count);
    assert rest == IntText(count) + ['\n'] + "";
    SplitPrefix(IntText(count), "", '\n');
  }

  /** The tracker file after the desired lists of a history, one per cycle that got one. */
  function TrackerAfter(history: seq<seq<string>>): Option<string> {
    if history == [] then None
    else Some(FileAfter(TrackerAfter(history[..|history| - 1]), Signature(history[|history| - 1])))
  }

  /** After any history of desired lists, the stored count is the number of cycles the latest list
      has stood unchanged. */
  lemma {:induction false} TrackerCountsStability(history: seq<seq<string>>) returns (n: nat)
    requires 0 < |history| <= MAX_INT
    requires forall i | 0 <= i < |history| :: history[i] != [] && AllIPv4(history[i])
    // The last n lists are the same, and the one before them, if any, is another.
    ensures 0 < n <= |history| && forall i | |history| - n <= i < |history| :: history[i] == history[|history| - 1]
    ensures n < |history| ==> history[|history| - n - 1] != history[|history| - 1]
    ensures TrackerAfter(history) == Some(TrackerText(Signature(history[|history| - 1]), n))
  {
    hide IntText, Signature, ReadTracker;
    var rest, last := history[..|history| - 1], history[|history| - 1];
    SignatureShape(last);
    if rest == [] {
      n := 1;
      assert ReadTracker(None) == ("", 0) by { ReadNothing(); }
    } else {
      var previous := rest[|rest| - 1];
      var m := TrackerCountsStability(rest);
      SignatureShape(previous);
      TrackerRoundTrip(Signature(previous), m);
      if last == previous {
        n := m + 1;
      } else {
        if Signature(last) == Signature(previous) { SignatureInjective(last, previous); }
        n := 1;
      }
    }
  }

  lemma ReadNothing()
    ensures ReadTracker(None) == ("", 0)
  {
  }

  // ----- cooldowns -----

  const ETCD_RESTART_COOLDOWN_SECS: int := 90

  /** shouldFNFNow. */
  predicate CooldownOver(file: Option<string>, cooldownSecs: int, now: int) {
    cooldownSecs <= 0 || file.None? || now - AtoiOrZero(Trim(file.value)) >= cooldownSecs
  }

  /** etcdRestartCooldownExpired. */
  predicate RestartSettled(file: Option<string>, now: int) {
    file.None? || ParseInt(Trim(file.value)).None? ||
    now - ParseInt(Trim(file.value)).value > ETCD_RESTART_COOLDOWN_SECS
  }

  /** A stamp holds a guard back for its cooldown and no longer; a missing file never does, and an
      unreadable one only the first guard, which then counts from time zero. */
  lemma GuardsExactly(t: int, secs: int, now: int)
    requires MIN_INT <= t <= MAX_INT
    ensures CooldownOver(Some(IntText(t)), secs, now) <==> secs <= 0 || now - t >= secs
    ensures RestartSettled(Some(IntText(t)), now) <==> now - t > 90
    ensures CooldownOver(None, secs, now) && RestartSettled(None, now)
    ensures (CooldownOver(Some("?"), secs, now) <==> secs <= 0 || now >= secs) && RestartSettled(Some("?"), now)
  {
    hide IntText;
    IntTextRoundTrip(t);
    assert Trim("?") == "?" && ParseNat("?", 10) == None;
    hide AtoiOrZero, ParseInt;
  }

  /** The two guarded actions: force-new triggers, and wipes of the local etcd directory. */
  datatype Guard = TriggerGuard(cooldownSecs: int) | WipeGuard

  predicate Passes(guard: Guard, file: Option<string>, now: int) {
    match guard
    case TriggerGuard(secs) => CooldownOver(file, secs, now)
    case WipeGuard => RestartSettled(file, now)
  }

  /** An event on a stamp file. An attempt checks the guard at one time and, if it goes through,
      stamps the file at a later time; other parts of the agent stamp the file as well. */
  datatype Event = Attempt(check: int, stamp: int) | Stamp(stamp: int)

  function StartOf(e: Event): int {
    match e case Attempt(check, _) => check case Stamp(stamp) => stamp
  }

  /** Events in the order of a non-decreasing clock. */
  ghost predicate InOrder(events: seq<Event>) {
    && (forall i | 0 <= i < |events| :: 0 <= StartOf(events[i]) <= events[i].stamp <= MAX_INT)
    && (forall i, j | 0 <= i < j < |events| :: events[i].stamp <= StartOf(events[j]))
  }

  function StampAfter(guard: Guard, events: seq<Event>): Option<string> {
    if events == [] then None
    else
      var before, e := StampAfter(guard, events[..|events| - 1]), events[|events| - 1];
      if e.Stamp? || Passes(guard, before, e.check) then Some(IntText(e.stamp)) else before
  }

  /** The attempt at position i goes through. */
  predicate GoesThrough(guard: Guard, events: seq<Event>, i: nat)
    requires i < |events|
  {
    events[i].Attempt? && Passes(guard, StampAfter(guard, events[..i]), events[i].check)
  }

  /** Once an attempt has gone through, the file holds a stamp at least as late as its own. */
  lemma {:induction false} StampStays(guard: Guard, events: seq<Event>, i: nat) returns (last: int)
    requires InOrder(events) && i < |events| && GoesThrough(guard, events, i)
    ensures StampAfter(guard, events) == Some(IntText(last)) && events[i].stamp <= last <= MAX_INT
    decreases |events|
  {
    hide Passes, IntText;
    var rest, e := events[..|events| - 1], events[|events| - 1];
    if i == |events| - 1 {
      assert events[..i] == rest;
      last := e.stamp;
    } else {
      assert rest[..i] == events[..i];
      last := StampStays(guard, rest, i);
      if e.Stamp? || Passes(guard, StampAfter(guard, rest), e.check) {
        last := e.stamp;
      }
    }
  }

  /** Over any run, two guarded actions are apart by at least the cooldown: force-new triggers by
      their positive cooldown, wipes by more than 90 seconds. */
  lemma CooldownsHold(guard: Guard, events: seq<Event>, i: nat, j: nat)
    requires InOrder(events) && i < j < |events|
    requires GoesThrough(guard, events, i) && GoesThrough(guard, events, j)
    ensures match guard
            case TriggerGuard(secs) => secs <= 0 || events[j].check - events[i].stamp >= secs
            case WipeGuard => events[j].check - events[i].stamp > 90
  {
    hide IntText, AtoiOrZero, ParseInt;
    var before := events[..j];
    assert before[..i] == events[..i];
    var last := StampStays(guard, before, i);
    IntTextRoundTrip(last);
  }

  /** What the file holds was written by one of the events. */
  lemma {:induction false} StampIsOne(guard: Guard, events: seq<Event>)
    ensures StampAfter(guard, events).Some? ==>
              exists i | 0 <= i < |events| :: StampAfter(guard, events) == Some(IntText(events[i].stamp))
  {
    hide Passes, IntText;
    if events != [] {
      var rest := events[..|events| - 1];
      StampIsOne(guard, rest);
      if StampAfter(guard, events) == StampAfter(guard, rest) && StampAfter(guard, rest).Some? {
        var i :| 0 <= i < |rest| && StampAfter(guard, rest) == Some(IntText(rest[i].stamp));
        assert events[i] == rest[i];
      }
    }
  }

  /** And cooldowns end: an attempt goes through once every earlier stamp is old enough. */
  lemma CooldownEnds(guard: Guard, events: seq<Event>, j: nat)
    requires InOrder(events) && j < |events| && events[j].Attempt?
    requires forall i | 0 <= i < j ::
               match guard
               case TriggerGuard(secs) => events[j].check - events[i].stamp >= secs
               case WipeGuard => events[j].check - events[i].stamp > 90
    ensures GoesThrough(guard, events, j)
  {
    hide IntText, CooldownOver, RestartSettled;
    StampIsOne(guard, events[..j]);
    var secs := if guard.TriggerGuard? then guard.cooldownSecs else 0;
    GuardsExactly(0, secs, events[j].check);
    if StampAfter(guard, events[..j]).Some? {
      var i :| 0 <= i < j && StampAfter(guard, events[..j]) == Some(IntText(events[..j][i].stamp));
      GuardsExactly(events[i].stamp, secs, events[j].check);
    }
  }
}
