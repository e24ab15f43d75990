/** /etc/cluster_env: the quoting of credentials, its two readers, and what writing and loading
    the file preserves. */
module ClusterEnv {
  import opened Text

  const QUOTE: string := "'"
  const QUOTED_QUOTE: string := "'\"'\"'"

  // ----- the quoting codec -----

  function Escaped(value: string): string {
    ReplaceAll(value, QUOTE, QUOTED_QUOTE)
  }

  /** shellQuoteValue. */
  function Quote(value: string): string {
    QUOTE + Escaped(value) + QUOTE
  }

  predicate Enclosed(text: string) {
    |text| >= 2 && text[0] == '\'' && text[|text| - 1] == '\''
  }

  /** decodeShellValue. */
  function Decode(text: string): string {
    if Enclosed(text) then ReplaceAll(text[1..|text| - 1], QUOTED_QUOTE, QUOTE) else text
  }

  lemma EscapedStep(value: string)
    requires value != ""
    ensures Escaped(value) == (if value[0] == '\'' then QUOTED_QUOTE else [value[0]]) + Escaped(value[1..])
  {
  }

  /** Left-to-right replacement stays in step with the escapes. */
  lemma {:induction false} UnescapeEscaped(value: string)
    ensures ReplaceAll(Escaped(value), QUOTED_QUOTE, QUOTE) == value
  {
    if value != "" {
      UnescapeEscaped(value[1..]);
      EscapedStep(value);
      var e := Escaped(value);
      if value[0] == '\'' {
        assert QUOTED_QUOTE <= e && e[|QUOTED_QUOTE|..] == Escaped(value[1..]);
      } else {
        assert e[0] == value[0] && e[1..] == Escaped(value[1..]);
        assert !(QUOTED_QUOTE <= e) by { assert QUOTED_QUOTE[0] != e[0]; }
      }
      assert value == [value[0]] + value[1..];
    }
  }

  /** Go reads every quoted value back. */
  lemma DecodeQuote(value: string)
    ensures Decode(Quote(value)) == value
  {
    UnescapeEscaped(value);
    assert Quote(value)[1..|Quote(value)| - 1] == Escaped(value);
  }

  // ----- the shell's reading -----

  /** The quoting contexts of the POSIX shell (sections 2.2.2 and 2.2.3). */
  datatype Context = Unquoted | SingleQuoted | DoubleQuoted

  /** Characters that, unquoted, end a word, start an operator, a comment or an expansion, or match
      file names. */
  const SPECIAL: string := "|&;<>()$`\\\" \t\n*?[#~'"

  /** The value of an assignment word after quote removal (section 2.6.7); nothing when the text is
      unterminated or contains an operator, a blank or an expansion. */
  function ShellWord(text: string, context: Context): Option<string> {
    if text == "" then (if context.Unquoted? then Some("") else None)
    else
      var c, rest := text[0], text[1..];
      match context
      case SingleQuoted =>
        if c == '\'' then ShellWord(rest, Unquoted) else Literal(c, ShellWord(rest, SingleQuoted))
      case DoubleQuoted =>
        if c == '"' then ShellWord(rest, Unquoted)
        else if c == '$' || c == '`' then None
        else if c == '\\' then
          if rest != "" && rest[0] in "$`\"\\" then Literal(rest[0], ShellWord(rest[1..], DoubleQuoted))
          else if rest != "" && rest[0] == '\n' then ShellWord(rest[1..], DoubleQuoted)
          else Literal(c, ShellWord(rest, DoubleQuoted))
        else Literal(c, ShellWord(rest, DoubleQuoted))
      case Unquoted =>
        if c == '\'' then ShellWord(rest, SingleQuoted)
        else if c == '"' then ShellWord(rest, DoubleQuoted)
        else if c == '\\' then
          if rest == "" then None
          else if rest[0] == '\n' then ShellWord(rest[1..], Unquoted)
          else Literal(rest[0], ShellWord(rest[1..], Unquoted))
        else if c in SPECIAL then None
        else Literal(c, ShellWord(rest, Unquoted))
  }

  function Literal(c: char, rest: Option<string>): Option<string> {
    match rest case None => None case Some(s) => Some([c] + s)
  }

  /** Inside single quotes, an escaped quote closes them, adds a quote, and opens them again. */
  lemma ShellReadsQuotedQuote(rest: string)
    ensures ShellWord(QUOTED_QUOTE + rest, SingleQuoted) == Literal('\'', ShellWord(rest, SingleQuoted))
  {
    var t := QUOTED_QUOTE + rest;
    assert t[1..][1..][1..][1..][1..] == rest;
    assert t[0] == '\'' && t[1] == '"' && t[2] == '\'' && t[3] == '"' && t[4] == '\'';
    assert ShellWord(t, SingleQuoted) == ShellWord(t[1..], Unquoted);
    assert ShellWord(t[1..], Unquoted) == ShellWord(t[1..][1..], DoubleQuoted);
    assert ShellWord(t[1..][1..], DoubleQuoted) == Literal('\'', ShellWord(t[1..][1..][1..], DoubleQuoted));
    assert ShellWord(t[1..][1..][1..], DoubleQuoted) == ShellWord(t[1..][1..][1..][1..], Unquoted);
    assert ShellWord(t[1..][1..][1..][1..], Unquoted) == ShellWord(t[1..][1..][1..][1..][1..], SingleQuoted);
  }

  lemma {:induction false} ShellReadsEscaped(value: string)
    ensures ShellWord(Escaped(value) + QUOTE, SingleQuoted) == Some(value)
  {
    if value == "" {
      assert Escaped(value) + QUOTE == QUOTE;
      assert ShellWord(QUOTE, SingleQuoted) == ShellWord(QUOTE[1..], Unquoted);
    } else {
      ShellReadsEscaped(value[1..]);
      EscapedStep(value);
      var rest := Escaped(value[1..]) + QUOTE;
      assert value == [value[0]] + value[1..];
      if value[0] == '\'' {
        assert Escaped(value) + QUOTE == QUOTED_QUOTE + rest;
        ShellReadsQuotedQuote(rest);
      } else {
        var t := Escaped(value) + QUOTE;
        assert t == [value[0]] + rest;
        assert t[1..] == rest;
      }
    }
  }

  /** A POSIX shell reads the same value: one word, no operator, no expansion. */
  lemma ShellReadsQuote(value: string)
    ensures ShellWord(Quote(value), Unquoted) == Some(value)
  {
    var t := Quote(value);
    assert t == QUOTE + (Escaped(value) + QUOTE);
    assert t[1..] == Escaped(value) + QUOTE;
    ShellReadsEscaped(value);
  }

  lemma {:induction false} ShellWordLength(text: string, context: Context)
    requires ShellWord(text, context).Some?
    ensures |ShellWord(text, context).value| <= |text|
    ensures !context.Unquoted? ==> |ShellWord(text, context).value| < |text|
    decreases |text|
  {
    if text != "" {
      var c, rest := text[0], text[1..];
      if ShellWord(rest, Unquoted).Some? { ShellWordLength(rest, Unquoted); }
      if ShellWord(rest, SingleQuoted).Some? { ShellWordLength(rest, SingleQuoted); }
      if ShellWord(rest, DoubleQuoted).Some? { ShellWordLength(rest, DoubleQuoted); }
      if rest != "" {
        if ShellWord(rest[1..], Unquoted).Some? { ShellWordLength(rest[1..], Unquoted); }
        if ShellWord(rest[1..], DoubleQuoted).Some? { ShellWordLength(rest[1..], DoubleQuoted); }
      }
    }
  }

  /** The shell reads an unquoted value as it stands exactly when it holds no special character. */
  lemma {:induction false} ShellReadsPlain(value: string)
    ensures ShellWord(value, Unquoted) == Some(value) <==> forall c | c in value :: c !in SPECIAL
  {
    if value != "" {
      var c, rest := value[0], value[1..];
      ShellReadsPlain(rest);
      assert value == [c] + rest;
      if c in SPECIAL && ShellWord(value, Unquoted) == Some(value) {
        SpecialShortens(value);
      }
    }
  }

  lemma SpecialShortens(value: string)
    requires value != "" && value[0] in SPECIAL && ShellWord(value, Unquoted).Some?
    ensures |ShellWord(value, Unquoted).value| < |value|
  {
    var c, rest := value[0], value[1..];
    if c == '\'' {
      ShellWordLength(rest, SingleQuoted);
    } else if c == '"' {
      ShellWordLength(rest, DoubleQuoted);
    } else if c == '\\' {
      ShellWordLength(rest[1..], Unquoted);
    }
  }

  // ----- the file -----

  datatype Kind = PlainText | QuotedText | Number | Flag

  datatype Value = TextValue(text: string) | NumberValue(number: int) | FlagValue(flag: bool)

  type Fields = map<string, Value>

  /** Keys begin with a letter and hold neither an equals sign nor a newline. */
  predicate KeyOk(key: string) {
    key != "" && 'A' <= key[0] <= 'Z' && '=' !in key && '\n' !in key
  }

  type KeyName = key: string | KeyOk(key) witness "A"

  const ADDRESSES: seq<(KeyName, Kind)> := [
    ("MY_NAME", PlainText), ("MY_IP", PlainText), ("ETCD_HOSTS", PlainText), ("PATRONI_ETCD_HOSTS", PlainText),
    ("ETCD_INITIAL_CLUSTER", PlainText)]

  const HOST_PORTS: seq<(KeyName, Kind)> := [
    ("HOST_POSTGRES_PORT", Number), ("HOST_PROXY_PORT", Number), ("HOST_PATRONI_API_PORT", Number),
    ("HOST_ETCD_CLIENT_PORT", Number), ("HOST_ETCD_PEER_PORT", Number)]

  const PORTS: seq<(KeyName, Kind)> := [
    ("POSTGRES_PORT", Number), ("PATRONI_API_PORT", Number), ("ETCD_CLIENT_PORT", Number),
    ("ETCD_PEER_PORT", Number)]

  const CREDENTIALS: seq<(KeyName, Kind)> := [
    ("POSTGRES_SUPERUSER_PASSWORD", QuotedText), ("POSTGRES_REPLICATION_PASSWORD", QuotedText)]

  const SYNCHRONOUS: seq<(KeyName, Kind)> := [
    ("PATRONI_SYNCHRONOUS_MODE", Flag), ("PATRONI_SYNCHRONOUS_MODE_STRICT", Flag),
    ("PATRONI_SYNCHRONOUS_NODE_COUNT", Number)]

  const SCOPES: seq<(KeyName, Kind)> := [
    ("APP_NAME", PlainText), ("PATRONI_SCOPE", PlainText), ("SSL_ENABLED", Flag),
    ("SSL_CERT_VALIDITY_DAYS", Number)]

  const OVERRIDES: seq<(KeyName, Kind)> := [
    ("ALLOW_NEW_CLUSTER_BOOTSTRAP", Flag), ("ALLOW_ANY_NODE_BOOTSTRAP", Flag)]

  const PERMISSIONS: seq<(KeyName, Kind)> := [
    ("AUTO_BOOTSTRAP_IF_FRESH", Flag), ("DEAD_CLUSTER_RECOVERY", Flag), ("ALLOW_PG_DATA_WIPE", Flag)]

  const JOINING: seq<(KeyName, Kind)> := [
    ("ETCD_JOIN_MAX_RETRIES", Number), ("ETCD_JOIN_RETRY_DELAY_SECONDS", Number),
    ("UPDATE_INTERVAL_SECONDS", Number)]

  const CYCLES: seq<(KeyName, Kind)> := [
    ("DESIRED_STATE_STABILITY_CYCLES", Number), ("ETCD_UNAVAILABLE_RECOVERY_CYCLES", Number)]

  const PEER: string := "BOOTSTRAP_PEER_"

  const PROBES: seq<(KeyName, Kind)> := [
    (PEER + "CONFIRM_CYCLES", Number), (PEER + "PROBE_INTERVAL_SECONDS", Number),
    (PEER + "PROBE_TIMEOUT_SECONDS", Number)]

  const TIMEOUTS: seq<(KeyName, Kind)> := [
    ("PATRONI_TTL", Number), ("PATRONI_LOOP_WAIT", Number), ("PATRONI_RETRY_TIMEOUT", Number),
    ("PATRONI_MAX_LAG", Number), ("PATRONI_MASTER_START_TIMEOUT", Number),
    ("PATRONI_MASTER_STOP_TIMEOUT", Number)]

  const BEHAVIOUR: seq<(KeyName, Kind)> := [
    ("PATRONI_USE_SLOTS", Flag), ("PATRONI_LOG_LEVEL", PlainText), ("PATRONI_FAILSAFE_MODE", Flag)]

  /** The fields of the file in the order they are written. */
  const SCHEMA: seq<(KeyName, Kind)> :=
    ADDRESSES + HOST_PORTS + PORTS + CREDENTIALS + SYNCHRONOUS + SCOPES + OVERRIDES +
    PERMISSIONS + JOINING + CYCLES + PROBES + TIMEOUTS + BEHAVIOUR

  function KindIn(schema: seq<(KeyName, Kind)>, key: string): Option<Kind> {
    if schema == [] then None else if schema[0].0 == key then Some(schema[0].1) else KindIn(schema[1..], key)
  }

  /** The kind of a field; nothing for a key the loader ignores. */
  function KindOf(key: string): Option<Kind> {
    KindIn(SCHEMA, key)
  }

  predicate HasKind(v: Value, k: Kind) {
    match k
    case PlainText => v.TextValue?
    case QuotedText => v.TextValue?
    case Number => v.NumberValue? && MIN_INT <= v.number <= MAX_INT
    case Flag => v.FlagValue?
  }

  /** Every written field is present with a value of its kind. */
  predicate Complete(fields: Fields) {
    forall i | 0 <= i < |SCHEMA| ::
      SCHEMA[i].0 in fields && KindOf(SCHEMA[i].0).Some? && HasKind(fields[SCHEMA[i].0], KindOf(SCHEMA[i].0).value)
  }

  function ValueText(v: Value, quoted: bool): string {
    match v
    case TextValue(s) => if quoted then Quote(s) else s
    case NumberValue(n) => IntText(n)
    case FlagValue(b) => if b then "true" else "false"
  }

  /** The text a field is written as. */
  function FieldText(fields: Fields, key: string): string
    requires key in fields
  {
    ValueText(fields[key], KindOf(key) == Some(QuotedText))
  }

  /** Flags are written as words, numbers in decimal, passwords quoted and other texts as they are. */
  lemma WrittenTexts(fields: Fields, key: string)
    requires key in fields
    ensures fields[key] == FlagValue(true) ==> FieldText(fields, key) == "true"
    ensures fields[key] == FlagValue(false) ==> FieldText(fields, key) == "false"
    ensures fields[key].NumberValue? ==> FieldText(fields, key) == IntText(fields[key].number)
    ensures fields[key].TextValue? ==>
              FieldText(fields, key) ==
              if KindOf(key) == Some(QuotedText) then Quote(fields[key].text) else fields[key].text
  {
    hide IntText, Quote, KindOf;
  }

  function Line(fields: Fields, key: string): string
    requires key in fields
  {
    key + "=" + FieldText(fields, key)
  }

  function Lines(fields: Fields): (lines: seq<string>)
    requires Complete(fields)
    ensures |lines| == |SCHEMA| && forall i | 0 <= i < |SCHEMA| :: lines[i] == Line(fields, SCHEMA[i].0)
  {
    hide KindOf, Line;
    seq(|SCHEMA|, i requires 0 <= i < |SCHEMA| => Line(fields, SCHEMA[i].0))
  }

  /** What WriteClusterEnv writes. */
  function Written(fields: Fields): string
    requires Complete(fields)
  {
    Join(Lines(fields), "\n") + "\n"
  }

  /** The longest line bufio.Scanner accepts, in bytes, its newline not counted. */
  const MAX_LINE: nat := 65535

  function CharBytes(c: char): nat {
    if c < '\U{80}' then 1 else if c < '\U{800}' then 2 else if c < '\U{10000}' then 3 else 4
  }

  /** The length of a text in bytes, encoded in UTF-8. */
  function ByteLength(s: string): nat {
    if s == "" then 0 else ByteLength(s[1..]) + CharBytes(s[0])
  }

  /** The lines of a text: a final newline ends the last line and begins none. */
  function PhysicalLines(text: string): seq<string> {
    var parts := Split(text, '\n');
    if parts[|parts| - 1] == "" then parts[..|parts| - 1] else parts
  }

  predicate WithinLimit(lines: seq<string>) {
    forall i | 0 <= i < |lines| :: ByteLength(lines[i]) <= MAX_LINE
  }

  /** The key and the decoded value a line assigns; nothing for blanks, comments and other text. */
  function Assignment(line: string): Option<(string, string)> {
    var l := Trim(line);
    if l == "" || l[0] == '#' then None
    else match Cut(l, '=')
      case None => None
      case Some(halves) => Some((halves.0, Decode(halves.1)))
  }

  /** What a line assigns, apart from spaces around it: blank lines, comments and lines without an equals
      sign nothing, any other the text behind the first equals sign, unquoted, to the key before it. */
  lemma AssignmentExactly(line: string, key: string, text: string)
    ensures '=' !in Trim(line) ==> Assignment(line) == None
    ensures Trim(line) == key + "=" + text && '=' !in key ==>
              Assignment(line) ==
              if key != "" && key[0] == '#' then None
              else Some((key, if |text| >= 2 && text[0] == '\'' && text[|text| - 1] == '\''
                              then ReplaceAll(text[1..|text| - 1], "'\"'\"'", "'") else text))
  {
    hide Trim, ReplaceAll;
    CutExactly(Trim(line), '=');
    if Trim(line) == key + "=" + text && '=' !in key {
      assert Trim(line) == key + ['='] + text;
      CutAt(key, text, '=');
    }
  }

  /** Sizes in bytes, and flags in any case. */
  lemma SizesAndFlags()
    ensures ByteLength("aZ") == 2 && ByteLength("\U{7F}\U{80}") == 3 && ByteLength("\U{7FF}\U{800}") == 5
    ensures ByteLength("\U{FFFF}\U{10000}") == 7
    ensures EqualsFolded("TRUE", "true") && EqualsFolded("tRue", "true") && EqualsFolded("true", "true")
    ensures !EqualsFolded("", "true") && !EqualsFolded("true ", "true") && !EqualsFolded("1", "true")
    ensures !EqualsFolded("fals", "true")
  {
    assert ByteLength("Z") == 1 && ByteLength("\U{80}") == 2 && ByteLength("\U{800}") == 3;
    assert ByteLength("\U{10000}") == 4;
    assert LowerChar("fals"[0]) != 't';
  }

  /** How a field of each kind takes a text. */
  function Parsed(k: Kind, val: string): Value {
    match k
    case PlainText => TextValue(val)
    case QuotedText => TextValue(val)
    case Number => NumberValue(AtoiOrZero(val))
    case Flag => FlagValue(EqualsFolded(val, "true"))
  }

  function Assigned(fields: Fields, line: string): Fields {
    match Assignment(line)
    case None => fields
    case Some(kv) => if KindOf(kv.0).None? then fields else fields[kv.0 := Parsed(KindOf(kv.0).value, kv.1)]
  }

  /** The fields after reading lines in order. */
  function AfterLines(fields: Fields, lines: seq<string>): Fields {
    if lines == [] then fields else Assigned(AfterLines(fields, lines[..|lines| - 1]), lines[|lines| - 1])
  }

  /** The last value the lines give a key. */
  function LastValue(lines: seq<string>, key: string): Option<string> {
    if lines == [] then None
    else
      var a := Assignment(lines[|lines| - 1]);
      if a.Some? && a.value.0 == key then Some(a.value.1) else LastValue(lines[..|lines| - 1], key)
  }

  /** Lines read before the scanner gives up. */
  function Readable(lines: seq<string>): (n: nat)
    ensures n <= |lines| && WithinLimit(lines[..n])
    ensures n < |lines| ==> ByteLength(lines[n]) > MAX_LINE
  {
    if lines == [] || ByteLength(lines[0]) > MAX_LINE then 0
    else
      var n := Readable(lines[1..]);
      assert forall k | 0 <= k < n :: lines[..1 + n][k + 1] == lines[1..][..n][k];
      1 + n
  }

  class Environment {
    var fields: Fields

    constructor (fields: Fields)
      ensures this.fields == fields
    {
      this.fields := fields;
    }

    method ApplyKV(key: string, val: string)
      modifies this
      ensures KindOf(key).None? ==> fields == old(fields)
      ensures KindOf(key).Some? ==> fields == old(fields)[key := Parsed(KindOf(key).value, val)]
    {
      var kind := KindOf(key);
      match kind {
        case None =>
        case Some(k) =>
          match k {
            case PlainText => fields := fields[key := TextValue(val)];
            case QuotedText => fields := fields[key := TextValue(val)];
            case Number => fields := fields[key := NumberValue(AtoiOrZero(val))];
            case Flag => fields := fields[key := FlagValue(EqualsFolded(val, "true"))];
          }
      }
    }

    /** LoadClusterEnv: apply line after line; a line over the limit ends the reading with an error. */
    method Load(text: string) returns (ok: bool)
      modifies this
      ensures ok <==> WithinLimit(PhysicalLines(text))
      ensures ok <==> forall line | line in PhysicalLines(text) :: ByteLength(line) <= 65535
      ensures ok ==> fields == AfterLines(old(fields), PhysicalLines(text))
      ensures fields == AfterLines(old(fields), PhysicalLines(text)[..Readable(PhysicalLines(text))])
    {
      hide KindOf, Trim, Cut, Decode, Split, Parsed;
      var lines := PhysicalLines(text);
      assert forall i | 0 <= i < |lines| :: lines[i] in lines;
      ReadableIsWithin(lines);
      var i := 0;
      while i < |lines|
        invariant 0 <= i <= |lines| && WithinLimit(lines[..i])
        invariant fields == AfterLines(old(fields), lines[..i])
      {
        if ByteLength(lines[i]) > MAX_LINE {
          ReadableUnique(lines, i);
          return false;
        }
        assert lines[..i + 1][..i] == lines[..i];
        var line := Trim(lines[i]);
        i := i + 1;
        if line == "" || line[0] == '#' { continue; }
        var halves := Cut(line, '=');
        if halves.None? { continue; }
        ApplyKV(halves.value.0, Decode(halves.value.1));
      }
      assert lines[..i] == lines;
      return true;
    }

    /** WriteClusterEnv. What it writes restores the fields in any configuration that loads it, exactly
        when they survive a round trip. */
    method Write() returns (text: string)
      requires Complete(fields)
      ensures text == Written(fields)
      ensures forall i | 0 <= i < |SCHEMA| :: LastValue(PhysicalLines(text), SCHEMA[i].0).Some?
      ensures forall start :: AllRestored(fields, AfterLines(start, PhysicalLines(text))) <==> AllSurvive(fields)
      // A shell that sources the file reads each password as one word with its value.
      ensures forall key | key in ["POSTGRES_SUPERUSER_PASSWORD", "POSTGRES_REPLICATION_PASSWORD"] ::
                && key in fields && fields[key].TextValue? && key + "=" + FieldText(fields, key) in Lines(fields)
                && ShellWord(FieldText(fields, key), Unquoted) == Some(fields[key].text)
    {
      forall key | key in ["POSTGRES_SUPERUSER_PASSWORD", "POSTGRES_REPLICATION_PASSWORD"]
        ensures key in fields && fields[key].TextValue? && key + "=" + FieldText(fields, key) in Lines(fields)
        ensures ShellWord(FieldText(fields, key), Unquoted) == Some(fields[key].text)
      {
        PasswordsAreWords(fields, key);
      }
      hide Lines, Join, SCHEMA, AllRestored, AllSurvive, LastValue, AfterLines, PhysicalLines;
      text := Join(Lines(fields), "\n") + "\n";
      forall start { WriteThenLoad(fields, start); }
      forall i | 0 <= i < |SCHEMA| { EveryKeyIsAssigned(fields, i); }
    }
  }

  lemma ReadableIsWithin(lines: seq<string>)
    ensures WithinLimit(lines) <==> Readable(lines) == |lines|
  {
    assert Readable(lines) == |lines| ==> lines[..|lines|] == lines;
  }

  lemma {:induction false} ReadableUnique(lines: seq<string>, i: nat)
    requires i < |lines| && WithinLimit(lines[..i]) && ByteLength(lines[i]) > MAX_LINE
    ensures Readable(lines) == i
  {
    if i > 0 {
      assert lines[1..][..i - 1] == lines[..i][1..];
      assert lines[..i][0] == lines[0];
      ReadableUnique(lines[1..], i - 1);
    }
  }

  // ----- the schema -----

  lemma {:induction false} KindInAppend(a: seq<(KeyName, Kind)>, b: seq<(KeyName, Kind)>, key: string)
    ensures KindIn(a + b, key) == if KindIn(a, key).Some? then KindIn(a, key) else KindIn(b, key)
  {
    if a == [] {
      assert a + b == b;
    } else {
      KindInAppend(a[1..], b, key);
      assert (a + b)[1..] == a[1..] + b;
    }
  }

  /** A key of another length than every key of a section is not one of that section. */
  lemma {:induction false} NoKindIn(schema: seq<(KeyName, Kind)>, key: string)
    requires forall i | 0 <= i < |schema| :: |schema[i].0| < |key|
    ensures KindIn(schema, key) == None
  {
    if schema != [] { NoKindIn(schema[1..], key); }
  }

  lemma KeyLengths()
    ensures forall i | 0 <= i < |ADDRESSES| :: |ADDRESSES[i].0| < 24
    ensures forall i | 0 <= i < |HOST_PORTS| :: |HOST_PORTS[i].0| < 24
    ensures forall i | 0 <= i < |PORTS| :: |PORTS[i].0| < 24
  {
  }

  lemma CredentialKinds(key: string)
    requires key in ["POSTGRES_SUPERUSER_PASSWORD", "POSTGRES_REPLICATION_PASSWORD"]
    ensures |key| >= 24 && KindIn(CREDENTIALS, key) == Some(QuotedText)
  {
  }

  /** Both passwords are written quoted. */
  lemma KindOfCredentials(key: string)
    requires key in ["POSTGRES_SUPERUSER_PASSWORD", "POSTGRES_REPLICATION_PASSWORD"]
    ensures KindOf(key) == Some(QuotedText)
  {
    CredentialKinds(key);
    KeyLengths();
    hide ADDRESSES, HOST_PORTS, PORTS, CREDENTIALS, SYNCHRONOUS, SCOPES, OVERRIDES, PERMISSIONS, JOINING, CYCLES,
         PROBES, TIMEOUTS, BEHAVIOUR, KindIn;
    NoKindIn(ADDRESSES, key);
    NoKindIn(HOST_PORTS, key);
    NoKindIn(PORTS, key);
    KindInAppend(ADDRESSES, HOST_PORTS, key);
    KindInAppend(ADDRESSES + HOST_PORTS, PORTS, key);
    KindInAppend(ADDRESSES + HOST_PORTS + PORTS, CREDENTIALS, key);
    var found := ADDRESSES + HOST_PORTS + PORTS + CREDENTIALS;
    KindInAppend(found, SYNCHRONOUS, key);
    KindInAppend(found + SYNCHRONOUS, SCOPES, key);
    KindInAppend(found + SYNCHRONOUS + SCOPES, OVERRIDES, key);
    var longer := found + SYNCHRONOUS + SCOPES + OVERRIDES;
    KindInAppend(longer, PERMISSIONS, key);
    KindInAppend(longer + PERMISSIONS, JOINING, key);
    KindInAppend(longer + PERMISSIONS + JOINING, CYCLES, key);
    var longest := longer + PERMISSIONS + JOINING + CYCLES;
    KindInAppend(longest, PROBES, key);
    KindInAppend(longest + PROBES, TIMEOUTS, key);
    KindInAppend(longest + PROBES + TIMEOUTS, BEHAVIOUR, key);
  }

  lemma CredentialsAreWritten()
    ensures SCHEMA[14].0 == "POSTGRES_SUPERUSER_PASSWORD" && SCHEMA[15].0 == "POSTGRES_REPLICATION_PASSWORD"
  {
    assert SCHEMA[14] == CREDENTIALS[0] && SCHEMA[15] == CREDENTIALS[1];
  }

  /** The file has a line for each password, and a shell that sources the file reads it as one word with
      the password as value, whatever characters it holds. */
  lemma PasswordsAreWords(fields: Fields, key: string)
    requires Complete(fields) && key in ["POSTGRES_SUPERUSER_PASSWORD", "POSTGRES_REPLICATION_PASSWORD"]
    ensures key in fields && fields[key].TextValue?
    ensures key + "=" + FieldText(fields, key) in Lines(fields)
    ensures ShellWord(FieldText(fields, key), Unquoted) == Some(fields[key].text)
  {
    KindOfCredentials(key);
    CredentialsAreWritten();
    var i := if key == "POSTGRES_SUPERUSER_PASSWORD" then 14 else 15;
    assert SCHEMA[i].0 == key;
    hide SCHEMA, KindOf, Quote, ShellWord;
    assert Lines(fields)[i] == Line(fields, key);
    ShellReadsQuote(fields[key].text);
  }

  /** How the loader's switch takes each key. */
  predicate TakenAsText(key: string) {
    key == "MY_NAME" || key == "MY_IP" || key == "APP_NAME" || key == "PATRONI_SCOPE" || key == "ETCD_HOSTS" ||
    key == "PATRONI_ETCD_HOSTS" || key == "ETCD_INITIAL_CLUSTER" || key == "POSTGRES_SUPERUSER_PASSWORD" ||
    key == "POSTGRES_REPLICATION_PASSWORD" || key == "PATRONI_LOG_LEVEL"
  }

  predicate TakenAsFlag(key: string) {
    key == "SSL_ENABLED" || key == "ALLOW_NEW_CLUSTER_BOOTSTRAP" || key == "ALLOW_ANY_NODE_BOOTSTRAP" ||
    key == "AUTO_BOOTSTRAP_IF_FRESH" || key == "DEAD_CLUSTER_RECOVERY" || key == "ALLOW_PG_DATA_WIPE" ||
    key == "PATRONI_USE_SLOTS" || key == "PATRONI_SYNCHRONOUS_MODE" || key == "PATRONI_SYNCHRONOUS_MODE_STRICT" ||
    key == "PATRONI_FAILSAFE_MODE"
  }

  predicate TakenAsNumber(key: string) {
    key == "HOST_POSTGRES_PORT" || key == "HOST_PROXY_PORT" || key == "HOST_PATRONI_API_PORT" ||
    key == "HOST_ETCD_CLIENT_PORT" || key == "HOST_ETCD_PEER_PORT" || key == "POSTGRES_PORT" ||
    key == "PATRONI_API_PORT" || key == "ETCD_CLIENT_PORT" || key == "ETCD_PEER_PORT" ||
    key == "ETCD_JOIN_MAX_RETRIES" || key == "ETCD_JOIN_RETRY_DELAY_SECONDS" || key == "UPDATE_INTERVAL_SECONDS" ||
    key == "DESIRED_STATE_STABILITY_CYCLES" || key == "ETCD_UNAVAILABLE_RECOVERY_CYCLES" ||
    key == PEER + "CONFIRM_CYCLES" || key == PEER + "PROBE_INTERVAL_SECONDS" ||
    key == PEER + "PROBE_TIMEOUT_SECONDS" || key == "PATRONI_TTL" || key == "PATRONI_LOOP_WAIT" ||
    key == "PATRONI_RETRY_TIMEOUT" || key == "PATRONI_MAX_LAG" || key == "PATRONI_MASTER_START_TIMEOUT" ||
    key == "PATRONI_MASTER_STOP_TIMEOUT" || key == "PATRONI_SYNCHRONOUS_NODE_COUNT" || key == "SSL_CERT_VALIDITY_DAYS"
  }

  predicate TakenAsWritten(section: seq<(KeyName, Kind)>) {
    forall i | 0 <= i < |section| ::
      match section[i].1
      case Flag => TakenAsFlag(section[i].0)
      case Number => TakenAsNumber(section[i].0)
      case _ => TakenAsText(section[i].0)
  }

  lemma TakenTogether(a: seq<(KeyName, Kind)>, b: seq<(KeyName, Kind)>)
    requires TakenAsWritten(a) && TakenAsWritten(b)
    ensures TakenAsWritten(a + b)
  {
    hide TakenAsText, TakenAsFlag, TakenAsNumber;
  }

  lemma TextsTaken()
    ensures TakenAsWritten(ADDRESSES) && TakenAsWritten(CREDENTIALS)
  {
    hide TakenAsFlag, TakenAsNumber;
  }

  lemma PortsTaken()
    ensures TakenAsWritten(HOST_PORTS) && TakenAsWritten(PORTS)
  {
    hide TakenAsText, TakenAsFlag;
  }

  lemma SwitchesTaken()
    ensures TakenAsWritten(OVERRIDES) && TakenAsWritten(PERMISSIONS)
  {
    hide TakenAsText, TakenAsNumber;
  }

  lemma CyclesTaken()
    ensures TakenAsWritten(JOINING) && TakenAsWritten(CYCLES)
  {
    hide TakenAsText, TakenAsFlag;
  }

  lemma ProbesTaken()
    ensures TakenAsWritten(PROBES)
  {
    hide TakenAsText, TakenAsFlag;
  }

  lemma TimeoutsTaken()
    ensures TakenAsWritten(TIMEOUTS)
  {
    hide TakenAsText, TakenAsFlag;
  }

  lemma ModesTaken()
    ensures TakenAsWritten(SYNCHRONOUS)
  {
    hide TakenAsText;
  }

  lemma ScopesTaken()
    ensures TakenAsWritten(SCOPES)
  {
  }

  lemma BehaviourTaken()
    ensures TakenAsWritten(BEHAVIOUR)
  {
    hide TakenAsNumber;
  }

  /** The writer and the loader's switch agree on every key: it is known to the loader, and taken as the
      kind of value it is written as. */
  lemma LoaderTakesEveryKey()
    ensures TakenAsWritten(SCHEMA) && |SCHEMA| == 45
  {
    assert |SCHEMA| == 45;
    TextsTaken();
    PortsTaken();
    SwitchesTaken();
    CyclesTaken();
    ProbesTaken();
    TimeoutsTaken();
    ModesTaken();
    ScopesTaken();
    BehaviourTaken();
    hide TakenAsWritten, ADDRESSES, HOST_PORTS, PORTS, CREDENTIALS, SYNCHRONOUS, SCOPES, OVERRIDES, PERMISSIONS,
         JOINING, CYCLES, PROBES, TIMEOUTS, BEHAVIOUR;
    TakenTogether(ADDRESSES, HOST_PORTS);
    TakenTogether(ADDRESSES + HOST_PORTS, PORTS);
    var ports := ADDRESSES + HOST_PORTS + PORTS;
    TakenTogether(ports, CREDENTIALS);
    TakenTogether(ports + CREDENTIALS, SYNCHRONOUS);
    TakenTogether(ports + CREDENTIALS + SYNCHRONOUS, SCOPES);
    var scopes := ports + CREDENTIALS + SYNCHRONOUS + SCOPES;
    TakenTogether(scopes, OVERRIDES);
    TakenTogether(scopes + OVERRIDES, PERMISSIONS);
    TakenTogether(scopes + OVERRIDES + PERMISSIONS, JOINING);
    var joining := scopes + OVERRIDES + PERMISSIONS + JOINING;
    TakenTogether(joining, CYCLES);
    TakenTogether(joining + CYCLES, PROBES);
    TakenTogether(joining + CYCLES + PROBES, TIMEOUTS);
    TakenTogether(joining + CYCLES + PROBES + TIMEOUTS, BEHAVIOUR);
  }

  // ----- write, then load -----

  /** After a load every field holds the last value its key was given, or what it held before. */
  lemma {:induction false} FieldAfter(fields: Fields, lines: seq<string>, key: string)
    ensures KindOf(key).Some? && LastValue(lines, key).Some? ==>
              key in AfterLines(fields, lines) &&
              AfterLines(fields, lines)[key] == Parsed(KindOf(key).value, LastValue(lines, key).value)
    ensures KindOf(key).None? || LastValue(lines, key).None? ==>
              (key in AfterLines(fields, lines) <==> key in fields) &&
              (key in fields ==> AfterLines(fields, lines)[key] == fields[key])
  {
    hide KindOf, Assignment, Parsed;
    if lines != [] { FieldAfter(fields, lines[..|lines| - 1], key); }
  }

  lemma {:induction false} TrimRightAppend(a: string, s: string)
    requires a != "" && !IsSpace(a[|a| - 1])
    ensures TrimRight(a + s) == a + TrimRight(s)
  {
    if s == "" {
      assert a + s == a;
    } else if IsSpace(s[|s| - 1]) {
      TrimRightAppend(a, s[..|s| - 1]);
      assert (a + s)[..|a + s| - 1] == a + s[..|s| - 1];
    }
  }

  lemma LineAssigns(key: string, text: string)
    requires KeyOk(key)
    ensures Assignment(key + "=" + text) == Some((key, Decode(TrimRight(text))))
  {
    hide Decode;
    var l := key + "=" + text;
    assert TrimLeft(l) == l by { assert l[0] == key[0]; }
    assert l == (key + "=") + text;
    TrimRightAppend(key + "=", text);
    assert Trim(l) == key + ['='] + TrimRight(text);
    CutAt(key, TrimRight(text), '=');
  }

  lemma {:induction false} ReplaceNeverLonger(s: string, pattern: string, replacement: string)
    requires pattern != "" && |replacement| <= |pattern|
    ensures |ReplaceAll(s, pattern, replacement)| <= |s|
  {
    if s == "" {
    } else if pattern <= s {
      ReplaceNeverLonger(s[|pattern|..], pattern, replacement);
    } else {
      ReplaceNeverLonger(s[1..], pattern, replacement);
    }
  }

  /** What a value needs besides being free of newlines: quoted values, numbers and flags nothing,
      plain text no trailing space and no enclosing quotes. */
  predicate Sturdy(v: Value, k: Kind) {
    k.PlainText? ==> v.TextValue? && TrimRight(v.text) == v.text && !Enclosed(v.text)
  }

  lemma PlainReadBack(s: string)
    ensures Decode(TrimRight(s)) == s <==> TrimRight(s) == s && !Enclosed(s)
  {
    var t := TrimRight(s);
    if Enclosed(t) {
      ReplaceNeverLonger(t[1..|t| - 1], QUOTED_QUOTE, QUOTE);
      assert |Decode(t)| < |s|;
    }
  }

  lemma NumberReadBack(n: int)
    requires MIN_INT <= n <= MAX_INT
    ensures AtoiOrZero(Decode(TrimRight(IntText(n)))) == n
  {
    hide IntText, AtoiOrZero;
    IntTextRoundTrip(n);
    var t := IntText(n);
    assert t[0] in t && t[|t| - 1] in t;
    assert !IsSpace(t[|t| - 1]) && !Enclosed(t);
  }

  lemma ValueReadBack(v: Value, k: Kind)
    requires HasKind(v, k)
    ensures Parsed(k, Decode(TrimRight(ValueText(v, k.QuotedText?)))) == v <==> Sturdy(v, k)
  {
    match k
    case PlainText =>
      hide Decode;
      PlainReadBack(v.text);
    case QuotedText =>
      var q := Quote(v.text);
      assert q[|q| - 1] == '\'';
      DecodeQuote(v.text);
    case Number =>
      hide AtoiOrZero, IntText;
      NumberReadBack(v.number);
    case Flag =>
      assert !IsSpace("true"[3]) && !IsSpace("false"[4]);
  }

  /** When the lines are read as they were written, the last value of a key is its own text. */
  lemma {:induction false} LastValueOfLines(fields: Fields, n: nat, i: nat)
    requires Complete(fields) && i < n <= |SCHEMA|
    ensures LastValue(Lines(fields)[..n], SCHEMA[i].0) == Some(Decode(TrimRight(FieldText(fields, SCHEMA[i].0))))
  {
    hide SCHEMA, KindOf, HasKind, Decode, TrimRight, ValueText, Assignment, FieldText, Lines, KeyOk;
    var lines := Lines(fields)[..n];
    var key := SCHEMA[n - 1].0;
    assert lines[n - 1] == key + "=" + FieldText(fields, key);
    LineAssigns(key, FieldText(fields, key));
    assert lines[..n - 1] == Lines(fields)[..n - 1];
    if key != SCHEMA[i].0 {
      LastValueOfLines(fields, n - 1, i);
    }
  }

  // ----- newlines -----

  /** A written text is read line by line as the parts of its joined lines. */
  lemma PhysicalLinesOfWritten(joined: string)
    ensures PhysicalLines(joined + "\n") == Split(joined, '\n')
  {
    SplitAppend(joined, "", '\n');
    assert joined + "\n" == joined + ['\n'] + "";
    assert (Split(joined, '\n') + [""])[..|Split(joined, '\n')|] == Split(joined, '\n');
  }

  lemma {:induction false} LastPart(s: string, sep: char)
    ensures Split(s, sep)[|Split(s, sep)| - 1] == "" <==> s == "" || s[|s| - 1] == sep
  {
    if s != "" { LastPart(s[1..], sep); }
  }

  /** A text whose last line is unfinished keeps it. */
  lemma UnfinishedLine(text: string)
    requires text != "" && text[|text| - 1] != '\n'
    ensures PhysicalLines(text) == Split(text, '\n')
  {
    LastPart(text, '\n');
  }

  lemma {:induction false} SplitHead(a: string, b: string, sep: char)
    requires sep !in a
    ensures Split(a + b, sep)[0] == a + Split(b, sep)[0]
  {
    if a == "" {
      assert a + b == b;
    } else {
      SplitHead(a[1..], b, sep);
      assert (a + b)[1..] == a[1..] + b;
    }
  }

  /** The first part of every joined line is a line of the file. */
  lemma {:induction false} HeadIsALine(lines: seq<string>, i: nat) returns (j: nat)
    requires i < |lines|
    ensures j < |Split(Join(lines, "\n"), '\n')| && Split(Join(lines, "\n"), '\n')[j] == Split(lines[i], '\n')[0]
  {
    hide Split;
    if |lines| == 1 {
      j := 0;
    } else {
      SplitAppend(lines[0], Join(lines[1..], "\n"), '\n');
      if i == 0 {
        j := 0;
      } else {
        j := HeadIsALine(lines[1..], i - 1);
        j := |Split(lines[0], '\n')| + j;
      }
    }
  }

  lemma {:induction false} AssignedSomewhere(lines: seq<string>, j: nat, key: string)
    requires j < |lines| && Assignment(lines[j]).Some? && Assignment(lines[j]).value.0 == key
    ensures LastValue(lines, key).Some?
  {
    hide Assignment;
    if j < |lines| - 1 { AssignedSomewhere(lines[..|lines| - 1], j, key); }
  }

  /** Every key is assigned at least once, whatever its text holds. */
  lemma EveryKeyIsAssigned(fields: Fields, i: nat)
    requires Complete(fields) && i < |SCHEMA|
    ensures LastValue(PhysicalLines(Written(fields)), SCHEMA[i].0).Some?
  {
    hide SCHEMA, KindOf, HasKind, Decode, TrimRight, ValueText, Assignment, FieldText, Lines, PhysicalLines,
         LastValue, Join;
    var key := SCHEMA[i].0;
    var lines := Lines(fields);
    var text := FieldText(fields, key);
    assert lines[i] == (key + "=") + text;
    PhysicalLinesOfWritten(Join(lines, "\n"));
    var j := HeadIsALine(lines, i);
    SplitHead(key + "=", text, '\n');
    LineAssigns(key, Split(text, '\n')[0]);
    AssignedSomewhere(PhysicalLines(Written(fields)), j, key);
  }

  lemma {:induction false} TrimElements(s: string, c: char)
    requires c !in s
    ensures c !in Trim(s)
  {
    assert c !in TrimLeft(s) by { TrimLeftElements(s, c); }
  }

  lemma {:induction false} TrimLeftElements(s: string, c: char)
    requires c !in s
    ensures c !in TrimLeft(s)
  {
    if s != "" { TrimLeftElements(s[1..], c); }
  }

  lemma {:induction false} CutElements(s: string, sep: char, c: char)
    requires c !in s && Cut(s, sep).Some?
    ensures c !in Cut(s, sep).value.1
  {
    if s != "" && s[0] != sep { CutElements(s[1..], sep, c); }
  }

  lemma {:induction false} ReplaceElements(s: string, pattern: string, replacement: string, c: char)
    requires c !in s && c !in replacement && pattern != ""
    ensures c !in ReplaceAll(s, pattern, replacement)
  {
    if s == "" {
    } else if pattern <= s {
      ReplaceElements(s[|pattern|..], pattern, replacement, c);
    } else {
      ReplaceElements(s[1..], pattern, replacement, c);
    }
  }

  lemma AssignedValueElements(line: string)
    requires '\n' !in line && Assignment(line).Some?
    ensures '\n' !in Assignment(line).value.1
  {
    hide Trim, Cut, ReplaceAll;
    TrimElements(line, '\n');
    CutElements(Trim(line), '=', '\n');
    var text := Cut(Trim(line), '=').value.1;
    if Enclosed(text) { ReplaceElements(text[1..|text| - 1], QUOTED_QUOTE, QUOTE, '\n'); }
  }

  /** No loaded value holds a newline. */
  lemma {:induction false} LastValueElements(lines: seq<string>, key: string)
    requires forall i | 0 <= i < |lines| :: '\n' !in lines[i]
    requires LastValue(lines, key).Some?
    ensures '\n' !in LastValue(lines, key).value
  {
    hide Assignment;
    var last := lines[|lines| - 1];
    if Assignment(last).Some? && Assignment(last).value.0 == key {
      AssignedValueElements(last);
    } else {
      LastValueElements(lines[..|lines| - 1], key);
    }
  }

  // ----- what a round trip through the file preserves -----

  predicate OneLine(v: Value) {
    v.TextValue? ==> '\n' !in v.text
  }

  lemma ValueTextOneLine(v: Value, quoted: bool)
    requires OneLine(v)
    ensures '\n' !in ValueText(v, quoted)
  {
    match v
    case TextValue(s) => ReplaceElements(s, QUOTE, QUOTED_QUOTE, '\n');
    case NumberValue(n) => hide NatText;
    case FlagValue(b) =>
  }

  predicate Restored(fields: Fields, loaded: Fields, i: nat)
    requires i < |SCHEMA|
  {
    var key := SCHEMA[i].0;
    key in fields && key in loaded && loaded[key] == fields[key]
  }

  predicate Survives(fields: Fields, i: nat)
    requires Complete(fields) && i < |SCHEMA|
  {
    var key := SCHEMA[i].0;
    OneLine(fields[key]) && Sturdy(fields[key], KindOf(key).value)
  }

  predicate AllRestored(fields: Fields, loaded: Fields) {
    forall i | 0 <= i < |SCHEMA| :: Restored(fields, loaded, i)
  }

  predicate AllSurvive(fields: Fields)
    requires Complete(fields)
  {
    forall i | 0 <= i < |SCHEMA| :: Survives(fields, i)
  }

  lemma RestoredIsOneLine(fields: Fields, start: Fields, i: nat)
    requires Complete(fields) && i < |SCHEMA|
    requires Restored(fields, AfterLines(start, PhysicalLines(Written(fields))), i)
    ensures OneLine(fields[SCHEMA[i].0])
  {
    var key := SCHEMA[i].0;
    assert KindOf(key).Some?;
    hide SCHEMA, KindOf, LastValue, AfterLines, Lines, Join, Split;
    var lines := PhysicalLines(Written(fields));
    EveryKeyIsAssigned(fields, i);
    FieldAfter(start, lines, key);
    PhysicalLinesOfWritten(Join(Lines(fields), "\n"));
    forall j | 0 <= j < |lines| ensures '\n' !in lines[j] { SplitFree(Join(Lines(fields), "\n"), '\n', j); }
    LastValueElements(lines, key);
  }

  /** Without newlines the file is read as it was written. */
  lemma OneLineFieldsReadBack(fields: Fields, i: nat)
    requires Complete(fields) && i < |SCHEMA|
    requires forall k | 0 <= k < |SCHEMA| :: OneLine(fields[SCHEMA[k].0])
    ensures LastValue(PhysicalLines(Written(fields)), SCHEMA[i].0) ==
        Some(Decode(TrimRight(FieldText(fields, SCHEMA[i].0))))
  {
    hide SCHEMA, KindOf, HasKind, ValueText, TrimRight, Decode, LastValue, Split, Join, PhysicalLines;
    var lines := Lines(fields);
    PhysicalLinesOfWritten(Join(lines, "\n"));
    forall l | l in lines ensures '\n' !in l {
      var k :| 0 <= k < |lines| && lines[k] == l;
      var key := SCHEMA[k].0;
      ValueTextOneLine(fields[key], KindOf(key) == Some(QuotedText));
    }
    SplitJoin(lines, '\n');
    assert lines[..|SCHEMA|] == lines;
    LastValueOfLines(fields, |SCHEMA|, i);
  }

  lemma RestoredIffSturdy(fields: Fields, start: Fields, i: nat)
    requires Complete(fields) && i < |SCHEMA|
    requires forall k | 0 <= k < |SCHEMA| :: OneLine(fields[SCHEMA[k].0])
    ensures Restored(fields, AfterLines(start, PhysicalLines(Written(fields))), i) <==> Survives(fields, i)
  {
    var key := SCHEMA[i].0;
    assert KindOf(key).Some? && HasKind(fields[key], KindOf(key).value);
    hide SCHEMA, KindOf, HasKind, Parsed, ValueText, TrimRight, Decode, LastValue, AfterLines, Lines, PhysicalLines;
    OneLineFieldsReadBack(fields, i);
    FieldAfter(start, PhysicalLines(Written(fields)), key);
    ValueReadBack(fields[key], KindOf(key).value);
  }

  lemma RestoredSurvive(fields: Fields, start: Fields)
    requires Complete(fields)
    requires AllRestored(fields, AfterLines(start, PhysicalLines(Written(fields))))
    ensures AllSurvive(fields)
  {
    hide SCHEMA, KindOf, HasKind, Sturdy, OneLine, LastValue, AfterLines, Lines, PhysicalLines, Restored, Survives;
    forall i | 0 <= i < |SCHEMA| ensures OneLine(fields[SCHEMA[i].0]) { RestoredIsOneLine(fields, start, i); }
    forall i | 0 <= i < |SCHEMA| ensures Survives(fields, i) { RestoredIffSturdy(fields, start, i); }
  }

  lemma SurviveRestored(fields: Fields, start: Fields)
    requires Complete(fields)
    requires AllSurvive(fields)
    ensures AllRestored(fields, AfterLines(start, PhysicalLines(Written(fields))))
  {
    hide SCHEMA, KindOf, HasKind, Sturdy, OneLine, LastValue, AfterLines, Lines, PhysicalLines, Restored;
    forall i | 0 <= i < |SCHEMA| ensures OneLine(fields[SCHEMA[i].0]) { assert Survives(fields, i); }
    forall i | 0 <= i < |SCHEMA| ensures Restored(fields, AfterLines(start, PhysicalLines(Written(fields))), i) {
      RestoredIffSturdy(fields, start, i);
    }
  }

  /** Write, then load into any configuration: all the written fields come back if and only if every
      text is free of newlines and every unquoted one has no trailing space and no enclosing quotes.
      (Load applies all the lines exactly when it succeeds, that is within the scanner's limit.) */
  lemma WriteThenLoad(fields: Fields, start: Fields)
    requires Complete(fields)
    ensures AllRestored(fields, AfterLines(start, PhysicalLines(Written(fields)))) <==> AllSurvive(fields)
  {
    hide AllRestored, AllSurvive, Complete, AfterLines, PhysicalLines;
    if AllSurvive(fields) { SurviveRestored(fields, start); }
    if AllRestored(fields, AfterLines(start, PhysicalLines(Written(fields)))) { RestoredSurvive(fields, start); }
  }
}
