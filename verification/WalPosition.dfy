/** Durable WAL positions: the log sequence number codec, the position a data directory
    is recovered to, and the wire form in which peers compare them. */
module WalPosition {
  import opened Text

  const WORD: nat := 0x1_0000_0000

  datatype Position = Position(timeline: nat, lsn: nat) {
    /** The order recovery uses: timeline first, then log sequence number. */
    predicate AheadOf(other: Position) {
      timeline > other.timeline || (timeline == other.timeline && lsn > other.lsn)
    }
  }

  /** The pg_controldata fields recovery depends on. */
  datatype ControlData = ControlData(
    systemId: string,
    state: string,
    checkpointLsn: string,
    checkpointTimeline: nat,
    minimumLsn: string,
    minimumTimeline: nat)

  /** strconv.ParseUint(s, 16, 32). */
  function ParseWord(s: string): (r: Option<nat>)
    ensures r.Some? ==> r.value < WORD
  {
    match ParseNat(s, 16)
    case None => None
    case Some(n) => if n < WORD then Some(n) else None
  }

  function ParseLsn(text: string): (r: Option<nat>)
    ensures r.Some? ==> r.value < WORD * WORD
  {
    var parts := Split(Trim(text), '/');
    if |parts| != 2 then None
    else match (ParseWord(parts[0]), ParseWord(parts[1]))
      case (Some(high), Some(low)) => Some(high * WORD + low)
      case _ => None
  }

  function FormatLsn(lsn: nat): string {
    NatText(lsn / WORD, 16) + "/" + NatText(lsn % WORD, 16)
  }

  lemma HexTextIsTrimmed(s: string)
    requires s != "" && forall c | c in s :: !IsSpace(c)
    ensures Trim(s) == s
  {
    assert s[0] in s && s[|s| - 1] in s;
  }

  /** Every 64-bit log sequence number survives printing and parsing. */
  lemma LsnRoundTrip(lsn: nat)
    requires lsn < WORD * WORD
    ensures ParseLsn(FormatLsn(lsn)) == Some(lsn)
  {
    hide NatText, ParseNat;
    var high, low := NatText(lsn / WORD, 16), NatText(lsn % WORD, 16);
    HexTextIsTrimmed(FormatLsn(lsn));
    assert FormatLsn(lsn) == high + ['/'] + low;
    SplitPrefix(high, low, '/');
    SplitPrefix(low, "", '/');
    ParseNatText(lsn / WORD, 16);
    ParseNatText(lsn % WORD, 16);
  }

  /** What a text must look like: two hexadecimal numbers of at most 32 bits around one slash, the first
      counting in units of 4294967296. */
  lemma ParseLsnExactly(text: string, high: string, low: string)
    requires Trim(text) == high + "/" + low && '/' !in high && '/' !in low
    ensures ParseLsn(text) ==
            match (ParseNat(high, 16), ParseNat(low, 16))
            case (Some(x), Some(y)) =>
              if x < 4294967296 && y < 4294967296 then Some(x * 4294967296 + y) else None
            case _ => None
  {
    hide ParseNat, Trim, Split;
    TwoParts(high, low);
    assert WORD == 4294967296;
  }

  lemma TwoParts(high: string, low: string)
    requires '/' !in high && '/' !in low
    ensures Split(high + "/" + low, '/') == [high, low]
  {
    hide Split;
    assert high + "/" + low == high + ['/'] + low;
    SplitPrefix(high, low, '/');
    SplitPrefix(low, "", '/');
  }

  lemma NoOtherLsn(text: string)
    requires |Split(Trim(text), '/')| != 2
    ensures ParseLsn(text) == None
  {
  }

  /** The text itself must not be compared: its order is not the order of positions. */
  lemma TextOrderIsNotPositionOrder()
    ensures var behind, ahead := 0x9 * WORD, 0x10 * WORD;
            behind < ahead && Less(FormatLsn(ahead), FormatLsn(behind))
  {
    assert NatText(0x1, 16) == "1";
    assert NatText(0x10, 16) == "10";
    assert FormatLsn(0x10 * WORD)[0] == '1';
    assert FormatLsn(0x9 * WORD)[0] == '9';
  }

  /** One of the two positions pg_controldata can name, when it is usable. */
  function Candidate(timeline: nat, text: string): Option<Position> {
    match ParseLsn(text)
    case None => None
    case Some(lsn) => if timeline == 0 || lsn == 0 then None else Some(Position(timeline, lsn))
  }

  /** The most advanced usable position: one of the two fields, and neither is ahead of it. */
  function BestPosition(control: ControlData): (best: Option<Position>)
    ensures var fields := {Candidate(control.checkpointTimeline, control.checkpointLsn),
                           Candidate(control.minimumTimeline, control.minimumLsn)};
            best in fields && forall p | p in fields && p.Some? :: best.Some? && !p.value.AheadOf(best.value)
    ensures best.Some? ==> best.value.timeline > 0 && 0 < best.value.lsn < WORD * WORD
  {
    var checkpoint := Candidate(control.checkpointTimeline, control.checkpointLsn);
    var minimum := Candidate(control.minimumTimeline, control.minimumLsn);
    if checkpoint.None? then minimum
    else if minimum.Some? && minimum.value.AheadOf(checkpoint.value) then minimum
    else checkpoint
  }

  /** The best position exactly: a field with a timeline and a position above zero, which the other field
      does not exceed by timeline or, on its timeline, by position. */
  lemma BestPositionExactly(control: ControlData, p: Position)
    ensures BestPosition(control) == Some(p) <==>
            && p.timeline > 0 && p.lsn > 0
            && (|| (control.checkpointTimeline == p.timeline && ParseLsn(control.checkpointLsn) == Some(p.lsn))
                || (control.minimumTimeline == p.timeline && ParseLsn(control.minimumLsn) == Some(p.lsn)))
            && (ParseLsn(control.checkpointLsn).Some? && ParseLsn(control.checkpointLsn).value > 0 ==>
                  control.checkpointTimeline < p.timeline ||
                  (control.checkpointTimeline == p.timeline && ParseLsn(control.checkpointLsn).value <= p.lsn))
            && (ParseLsn(control.minimumLsn).Some? && ParseLsn(control.minimumLsn).value > 0 ==>
                  control.minimumTimeline < p.timeline ||
                  (control.minimumTimeline == p.timeline && ParseLsn(control.minimumLsn).value <= p.lsn))
  {
    hide ParseLsn;
  }

  /** recoveryPosition: consider both fields in turn, keep the greatest seen. */
  method RecoveryPosition(control: ControlData) returns (r: Option<Position>)
    ensures r == BestPosition(control)
  {
    var best := Position(0, 0);
    best := Consider(best, control.checkpointTimeline, control.checkpointLsn);
    best := Consider(best, control.minimumTimeline, control.minimumLsn);
    if best.timeline == 0 || best.lsn == 0 {
      return None;
    }
    return Some(best);
  }

  method Consider(best: Position, timeline: nat, text: string) returns (r: Position)
    ensures var p := Candidate(timeline, text);
            r == if p.Some? && p.value.AheadOf(best) then p.value else best
  {
    var lsn := ParseLsn(text);
    if lsn.None? || timeline == 0 || lsn.value == 0 {
      return best;
    }
    if timeline > best.timeline || (timeline == best.timeline && lsn.value > best.lsn) {
      return Position(timeline, lsn.value);
    }
    return best;
  }

  /** A position as it travels in an identity: a timeline and a printed log sequence number. */
  function WirePosition(timeline: nat, wal: string): Option<Position> {
    Candidate(timeline, wal)
  }

  /** What a peer reads back is the position the node read from its own control data. */
  lemma WireRoundTrip(control: ControlData)
    requires BestPosition(control).Some?
    ensures var best := BestPosition(control).value;
            WirePosition(best.timeline, FormatLsn(best.lsn)) == Some(best)
  {
    LsnRoundTrip(BestPosition(control).value.lsn);
  }
}
