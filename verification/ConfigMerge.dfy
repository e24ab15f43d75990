/** The continuous repair of Patroni's dynamic configuration in the DCS. */
module ConfigMerge {
  import opened Text

  /** A JSON value; a number is kept as its text. */
  datatype Json =
    | Null
    | Bool(value: bool)
    | Num(text: string)
    | Str(chars: string)
    | Arr(items: seq<Json>)
    | Obj(fields: map<string, Json>)

  /** What the DCS holds under the configuration key. */
  datatype Document = Blank | Malformed | Encoded(json: Json)

  datatype Defaults = Defaults(ttl: int, loopWait: int, retryTimeout: int, maxLag: int)

  /** Panic is Go's write to the nil map that decoding the document `null` leaves behind. */
  datatype Outcome = Unchanged | Rewritten(root: map<string, Json>) | DecodeError | Panic

  const REQUIRED: seq<string> := [
    "hostssl replication replicator 0.0.0.0/0 cert clientcert=verify-full",
    "hostssl all all 0.0.0.0/0 md5",
    "host replication replicator 0.0.0.0/0 md5",
    "host all all 0.0.0.0/0 md5"]

  // ----- decoding -----

  /** A number as decoding to float64 and encoding again leaves its text. */
  type Rounding = string -> string

  /** What Go decodes a value to: every number, at any depth, is rounded. */
  function Decoded(json: Json, round: Rounding): Json {
    match json
    case Num(text) => Num(round(text))
    case Arr(items) => Arr(seq(|items|, i requires 0 <= i < |items| => Decoded(items[i], round)))
    case Obj(fields) => Obj(map key | key in fields :: Decoded(fields[key], round))
    case _ => json
  }

  function DecodedFields(fields: map<string, Json>, round: Rounding): map<string, Json> {
    map key | key in fields :: Decoded(fields[key], round)
  }

  /** Every number in the value is as its encoder writes it. */
  predicate Canonical(json: Json, round: Rounding) {
    match json
    case Num(text) => round(text) == text
    case Arr(items) => forall i | 0 <= i < |items| :: Canonical(items[i], round)
    case Obj(fields) => forall key | key in fields :: Canonical(fields[key], round)
    case _ => true
  }

  /** Decoding changes nothing exactly when every number is canonical. */
  lemma {:induction false} DecodedExactly(json: Json, round: Rounding)
    ensures Decoded(json, round) == json <==> Canonical(json, round)
  {
    match json
    case Arr(items) =>
      var after := Decoded(json, round).items;
      forall i | 0 <= i < |items| ensures after[i] == items[i] <==> Canonical(items[i], round) {
        DecodedExactly(items[i], round);
      }
      assert (forall i | 0 <= i < |items| :: after[i] == items[i]) <==> after == items;
    case Obj(fields) =>
      var after := Decoded(json, round).fields;
      forall key | key in fields ensures after[key] == fields[key] <==> Canonical(fields[key], round) {
        DecodedExactly(fields[key], round);
      }
      assert (forall key | key in fields :: after[key] == fields[key]) <==> after == fields;
    case _ =>
  }

  // ----- the specification -----

  function WithDefault(root: map<string, Json>, key: string, value: int): map<string, Json> {
    if key in root then root else root[key := Num(IntText(value))]
  }

  function WithDefaults(root: map<string, Json>, d: Defaults): map<string, Json> {
    WithDefault(WithDefault(WithDefault(WithDefault(root,
      "ttl", d.ttl), "loop_wait", d.loopWait), "retry_timeout", d.retryTimeout), "maximum_lag_on_failover", d.maxLag)
  }

  /** The fields below `postgresql`; none when it is missing or no object. */
  function PostgresFields(root: map<string, Json>): map<string, Json> {
    if "postgresql" in root && root["postgresql"].Obj? then root["postgresql"].fields else map[]
  }

  function StringsOf(items: seq<Json>): seq<string> {
    if items == [] then []
    else
      var init := StringsOf(items[..|items| - 1]);
      if items[|items| - 1].Str? then init + [items[|items| - 1].chars] else init
  }

  function Strs(rules: seq<string>): seq<Json> {
    seq(|rules|, i requires 0 <= i < |rules| => Str(rules[i]))
  }

  /** The access rules in force: the string entries of `pg_hba`, when it is a list. */
  function Rules(postgresql: map<string, Json>): seq<string> {
    if "pg_hba" in postgresql && postgresql["pg_hba"].Arr? then StringsOf(postgresql["pg_hba"].items) else []
  }

  /** Rules with each of the wanted ones appended that is not there yet. */
  function AppendMissing(rules: seq<string>, wanted: seq<string>): seq<string> {
    if wanted == [] then rules
    else
      var r := AppendMissing(rules, wanted[..|wanted| - 1]);
      if wanted[|wanted| - 1] in r then r else r + [wanted[|wanted| - 1]]
  }

  function Merged(root: map<string, Json>, d: Defaults): map<string, Json> {
    var pg := PostgresFields(root);
    WithDefaults(root, d)["postgresql" :=
      Obj(pg["use_pg_rewind" := Bool(true)]["pg_hba" := Arr(Strs(AppendMissing(Rules(pg), REQUIRED)))])]
  }

  // ----- the procedure -----

  method AppendRequired(existing: seq<string>) returns (rules: seq<string>)
    ensures rules == AppendMissing(existing, REQUIRED)
  {
    hide REQUIRED;
    rules := existing;
    for i := 0 to |REQUIRED|
      invariant rules == AppendMissing(existing, REQUIRED[..i])
    {
      assert REQUIRED[..i + 1][..i] == REQUIRED[..i];
      if REQUIRED[i] !in rules { rules := rules + [REQUIRED[i]]; }
    }
    assert REQUIRED[..|REQUIRED|] == REQUIRED;
  }

  method ExistingRules(postgresql: map<string, Json>) returns (rules: seq<string>)
    ensures rules == Rules(postgresql)
  {
    rules := [];
    if "pg_hba" in postgresql && postgresql["pg_hba"].Arr? {
      var items := postgresql["pg_hba"].items;
      for i := 0 to |items|
        invariant rules == StringsOf(items[..i])
      {
        assert items[..i + 1][..i] == items[..i];
        if items[i].Str? { rules := rules + [items[i].chars]; }
      }
      assert items[..|items|] == items;
    }
  }

  /** The defaults fill exactly the missing keys; nothing that is set changes. */
  method SetDefaults(root: map<string, Json>, d: Defaults) returns (r: map<string, Json>)
    ensures r == WithDefaults(root, d)
    ensures r.Keys == root.Keys + {"ttl", "loop_wait", "retry_timeout", "maximum_lag_on_failover"}
    ensures forall key | key in root :: r[key] == root[key]
    ensures "ttl" !in root ==> r["ttl"] == Num(IntText(d.ttl))
    ensures "loop_wait" !in root ==> r["loop_wait"] == Num(IntText(d.loopWait))
    ensures "retry_timeout" !in root ==> r["retry_timeout"] == Num(IntText(d.retryTimeout))
    ensures "maximum_lag_on_failover" !in root ==> r["maximum_lag_on_failover"] == Num(IntText(d.maxLag))
  {
    hide IntText;
    r := root;
    if "ttl" !in r { r := r["ttl" := Num(IntText(d.ttl))]; }
    if "loop_wait" !in r { r := r["loop_wait" := Num(IntText(d.loopWait))]; }
    if "retry_timeout" !in r { r := r["retry_timeout" := Num(IntText(d.retryTimeout))]; }
    if "maximum_lag_on_failover" !in r { r := r["maximum_lag_on_failover" := Num(IntText(d.maxLag))]; }
  }

  /** The repair of a decoded document. */
  method MergeFields(before: map<string, Json>, d: Defaults) returns (root: map<string, Json>)
    ensures root == Merged(before, d)
  {
    hide IntText, AppendMissing, StringsOf, REQUIRED, Strs;
    root := SetDefaults(before, d);
    var postgresql: map<string, Json> := map[];
    if "postgresql" in root && root["postgresql"].Obj? { postgresql := root["postgresql"].fields; }
    assert postgresql == PostgresFields(before);
    hide WithDefaults, PostgresFields;
    postgresql := postgresql["use_pg_rewind" := Bool(true)];
    var rules := ExistingRules(postgresql);
    rules := AppendRequired(rules);
    postgresql := postgresql["pg_hba" := Arr(Strs(rules))];
    root := root["postgresql" := Obj(postgresql)];
  }

  /** A merged document is never empty, so a blank one is always rewritten. */
  lemma EmptyIsNotMerged(before: map<string, Json>, d: Defaults)
    ensures Merged(before, d) != map[]
  {
    hide WithDefaults;
    assert "postgresql" in Merged(before, d);
  }

  /** mergePatroniRecoveryConfig: the texts before and after are equal exactly when the values are. */
  method MergePatroniRecoveryConfig(raw: Document, d: Defaults, round: Rounding) returns (outcome: Outcome)
    ensures raw.Malformed? || (raw.Encoded? && !raw.json.Obj? && !raw.json.Null?) ==> outcome == DecodeError
    ensures raw.Encoded? && raw.json.Null? ==> outcome == Panic
    ensures raw.Blank? ==> outcome == Rewritten(Merged(map[], d))
    ensures raw.Encoded? && raw.json.Obj? ==>
      var root := DecodedFields(raw.json.fields, round);
      outcome == if Merged(root, d) == root then Unchanged else Rewritten(Merged(root, d))
  {
    hide Merged, DecodedFields;
    var root: map<string, Json> := map[];
    match raw {
      case Blank =>
      case Malformed => return DecodeError;
      case Encoded(json) =>
        if json.Null? { return Panic; }
        if !json.Obj? { return DecodeError; }
        root := DecodedFields(json.fields, round);
    }
    var before := root;
    root := MergeFields(root, d);
    EmptyIsNotMerged(before, d);
    if root == before { return Unchanged; }
    return Rewritten(root);
  }

  // ----- what the merge keeps, adds and repairs -----

  predicate IsDefaultKey(key: string) {
    key == "ttl" || key == "loop_wait" || key == "retry_timeout" || key == "maximum_lag_on_failover"
  }

  /** Every key the agent does not own survives, and so does every default that was already set,
      at both levels of the document. */
  lemma KeepsForeignSettings(root: map<string, Json>, d: Defaults, key: string)
    ensures key != "postgresql" && key in root ==> key in Merged(root, d) && Merged(root, d)[key] == root[key]
    ensures !IsDefaultKey(key) && key != "postgresql" ==> (key in Merged(root, d) <==> key in root)
    ensures key != "use_pg_rewind" && key != "pg_hba" ==>
              var kept := "postgresql" in root && root["postgresql"].Obj? && key in root["postgresql"].fields;
              && "postgresql" in Merged(root, d) && Merged(root, d)["postgresql"].Obj?
              && var after := Merged(root, d)["postgresql"].fields;
                 (key in after <==> kept) && (kept ==> after[key] == root["postgresql"].fields[key])
  {
    hide IntText, AppendMissing, Rules, REQUIRED, Strs;
  }

  lemma {:induction false} StringsOfStrs(rules: seq<string>)
    ensures StringsOf(Strs(rules)) == rules
  {
    if rules != [] {
      var n := |rules| - 1;
      assert Strs(rules)[..n] == Strs(rules[..n]);
      StringsOfStrs(rules[..n]);
    }
  }

  lemma MergedRules(root: map<string, Json>, d: Defaults)
    ensures Rules(PostgresFields(Merged(root, d))) == AppendMissing(Rules(PostgresFields(root)), REQUIRED)
  {
    hide IntText, AppendMissing, REQUIRED, WithDefaults;
    StringsOfStrs(AppendMissing(Rules(PostgresFields(root)), REQUIRED));
  }

  /** Existing rules stay in order as a prefix; what follows them are wanted rules that were missing. */
  lemma {:induction false} AppendMissingShape(rules: seq<string>, wanted: seq<string>)
    ensures var r := AppendMissing(rules, wanted);
      rules <= r && (forall w | w in wanted :: w in r) &&
      (forall i | |rules| <= i < |r| :: r[i] in wanted && r[i] !in r[..i])
  {
    if wanted != [] {
      var init := wanted[..|wanted| - 1];
      AppendMissingShape(rules, init);
      var p, r := AppendMissing(rules, init), AppendMissing(rules, wanted);
      assert wanted == init + [wanted[|wanted| - 1]];
      forall i | |rules| <= i < |r| ensures r[i] in wanted && r[i] !in r[..i] {
        assert r[..i] == p[..i];
      }
    }
  }

  lemma {:induction false} AppendMissingComplete(rules: seq<string>, wanted: seq<string>)
    requires forall w | w in wanted :: w in rules
    ensures AppendMissing(rules, wanted) == rules
  {
    if wanted != [] { AppendMissingComplete(rules, wanted[..|wanted| - 1]); }
  }

  /** Occurrences of a rule. */
  function Occurrences(rules: seq<string>, rule: string): nat {
    multiset(rules)[rule]
  }

  /** Every required rule that was missing is there exactly once; the others are as often there as before. */
  lemma RequiredRulesOnce(root: map<string, Json>, d: Defaults, rule: string)
    ensures var before, after := Rules(PostgresFields(root)), Rules(PostgresFields(Merged(root, d)));
      before <= after &&
      Occurrences(after, rule) ==
        if rule in REQUIRED && rule !in before then 1 else Occurrences(before, rule)
  {
    hide Merged, PostgresFields, Rules, REQUIRED;
    MergedRules(root, d);
    var before, after := Rules(PostgresFields(root)), Rules(PostgresFields(Merged(root, d)));
    AppendMissingShape(before, REQUIRED);
    SuffixOccurrences(before, after, rule, |after|);
    assert after[..|after|] == after;
  }

  lemma {:induction false} SuffixOccurrences(before: seq<string>, after: seq<string>, rule: string, n: nat)
    requires before <= after && |before| <= n <= |after|
    requires forall i | |before| <= i < |after| :: after[i] !in after[..i]
    ensures Occurrences(after[..n], rule) == if rule in after[..n] &&
        rule !in before then 1 else Occurrences(before, rule)
  {
    if n == |before| {
      assert after[..n] == before;
    } else {
      SuffixOccurrences(before, after, rule, n - 1);
      assert after[..n] == after[..n - 1] + [after[n - 1]];
      assert after[n - 1] !in after[..n - 1];
      assert forall x | x in before :: x in after[..n - 1] by {
        assert before == after[..n - 1][..|before|];
      }
    }
  }

  /** What a repaired configuration looks like. */
  predicate Repaired(root: map<string, Json>) {
    "ttl" in root && "loop_wait" in root && "retry_timeout" in root && "maximum_lag_on_failover" in root &&
    "postgresql" in root && root["postgresql"].Obj? &&
    var pg := root["postgresql"].fields;
    "use_pg_rewind" in pg && pg["use_pg_rewind"] == Bool(true) &&
    "pg_hba" in pg && pg["pg_hba"].Arr? &&
    (forall item | item in pg["pg_hba"].items :: item.Str?) &&
    (forall rule | rule in REQUIRED :: Str(rule) in pg["pg_hba"].items)
  }

  lemma {:induction false} StrsOfStringsOf(items: seq<Json>)
    requires forall item | item in items :: item.Str?
    ensures Strs(StringsOf(items)) == items
  {
    if items != [] {
      var n := |items| - 1;
      StrsOfStringsOf(items[..n]);
      assert items[n] in items;
    }
  }

  lemma MergedIsRepaired(root: map<string, Json>, d: Defaults)
    ensures Repaired(Merged(root, d))
  {
    hide IntText, AppendMissing, REQUIRED;
    var before := Rules(PostgresFields(root));
    var after := AppendMissing(before, REQUIRED);
    AppendMissingShape(before, REQUIRED);
    forall rule | rule in REQUIRED ensures Str(rule) in Strs(after) {
      assert rule in after;
      var i :| 0 <= i < |after| && after[i] == rule;
      assert Strs(after)[i] == Str(rule);
    }
  }

  lemma RepairedIsFixed(root: map<string, Json>, d: Defaults)
    requires Repaired(root)
    ensures Merged(root, d) == root
  {
    hide IntText, REQUIRED;
    var items := root["postgresql"].fields["pg_hba"].items;
    StrsOfStringsOf(items);
    var rules := StringsOf(items);
    forall rule | rule in REQUIRED ensures rule in rules {
      var i :| 0 <= i < |items| && items[i] == Str(rule);
      assert Strs(rules)[i] == items[i];
      assert rules[i] == rule;
    }
    AppendMissingComplete(rules, REQUIRED);
    var pg := root["postgresql"].fields;
    assert pg["use_pg_rewind" := Bool(true)]["pg_hba" := Arr(Strs(rules))] == pg;
    assert WithDefaults(root, d) == root;
  }

  lemma {:induction false} StringsOfExactly(items: seq<Json>, rule: string)
    ensures rule in StringsOf(items) <==> Str(rule) in items
  {
    if items != [] {
      var n := |items| - 1;
      StringsOfExactly(items[..n], rule);
      assert items == items[..n] + [items[n]];
    }
  }

  lemma {:induction false} AppendMissingElements(rules: seq<string>, wanted: seq<string>, rule: string)
    ensures rule in AppendMissing(rules, wanted) <==> rule in rules || rule in wanted
  {
    if wanted != [] {
      var n := |wanted| - 1;
      AppendMissingElements(rules, wanted[..n], rule);
      assert wanted == wanted[..n] + [wanted[n]];
    }
  }

  lemma StrsExactly(rules: seq<string>, item: Json)
    ensures item in Strs(rules) <==> item.Str? && item.chars in rules
  {
    if item.Str? && item.chars in rules {
      var i :| 0 <= i < |rules| && rules[i] == item.chars;
      assert Strs(rules)[i] == item;
    }
  }

  lemma RequiredRules(rule: string)
    ensures rule in REQUIRED <==>
            || rule == "hostssl replication replicator 0.0.0.0/0 cert clientcert=verify-full"
            || rule == "hostssl all all 0.0.0.0/0 md5"
            || rule == "host replication replicator 0.0.0.0/0 md5"
            || rule == "host all all 0.0.0.0/0 md5"
  {
    assert REQUIRED[0] in REQUIRED && REQUIRED[1] in REQUIRED && REQUIRED[2] in REQUIRED && REQUIRED[3] in REQUIRED;
  }

  /** The access rules in force, as entries of the stored list. */
  predicate HasRule(root: map<string, Json>, rule: string) {
    && "postgresql" in root && root["postgresql"].Obj?
    && "pg_hba" in root["postgresql"].fields && root["postgresql"].fields["pg_hba"].Arr?
    && Str(rule) in root["postgresql"].fields["pg_hba"].items
  }

  lemma RulesExactly(root: map<string, Json>, rule: string)
    ensures rule in Rules(PostgresFields(root)) <==> HasRule(root, rule)
  {
    hide StringsOf;
    if "postgresql" in root && root["postgresql"].Obj? && "pg_hba" in root["postgresql"].fields &&
       root["postgresql"].fields["pg_hba"].Arr?
    {
      StringsOfExactly(root["postgresql"].fields["pg_hba"].items, rule);
    }
  }

  /** What the merge writes below `postgresql`, whatever was there: rewind is on, and the access rules are
      the string entries of the old list and the four required rules, nothing else. */
  lemma MergedPostgres(root: map<string, Json>, d: Defaults, item: Json)
    ensures var after := Merged(root, d);
            && "postgresql" in after && after["postgresql"].Obj?
            && var pg := after["postgresql"].fields;
               && "use_pg_rewind" in pg && pg["use_pg_rewind"] == Bool(true)
               && "pg_hba" in pg && pg["pg_hba"].Arr?
               && (item in pg["pg_hba"].items <==>
                     && item.Str?
                     && (|| HasRule(root, item.chars)
                         || item.chars == "hostssl replication replicator 0.0.0.0/0 cert clientcert=verify-full"
                         || item.chars == "hostssl all all 0.0.0.0/0 md5"
                         || item.chars == "host replication replicator 0.0.0.0/0 md5"
                         || item.chars == "host all all 0.0.0.0/0 md5"))
  {
    hide IntText, AppendMissing, Strs, StringsOf, WithDefaults, REQUIRED, Rules, PostgresFields, HasRule;
    var rules := Rules(PostgresFields(root));
    StrsExactly(AppendMissing(rules, REQUIRED), item);
    if item.Str? {
      AppendMissingElements(rules, REQUIRED, item.chars);
      RequiredRules(item.chars);
      RulesExactly(root, item.chars);
    }
  }

  /** And next to it: the four defaults where they were missing, and nothing else. */
  lemma MergedDefaults(root: map<string, Json>, d: Defaults, key: string)
    requires key != "postgresql"
    ensures key in Merged(root, d) <==>
            || key in root || key == "ttl" || key == "loop_wait" || key == "retry_timeout"
            || key == "maximum_lag_on_failover"
    ensures key in Merged(root, d) ==>
              Merged(root, d)[key] ==
              if key in root then root[key]
              else if key == "ttl" then Num(IntText(d.ttl))
              else if key == "loop_wait" then Num(IntText(d.loopWait))
              else if key == "retry_timeout" then Num(IntText(d.retryTimeout))
              else Num(IntText(d.maxLag))
  {
    hide IntText, AppendMissing, Rules, REQUIRED, Strs;
  }

  /** The agent rewrites the configuration exactly when it is not repaired. */
  lemma UnchangedIffRepaired(root: map<string, Json>, d: Defaults)
    ensures Merged(root, d) == root <==> Repaired(root)
  {
    hide Merged, Repaired;
    MergedIsRepaired(root, d);
    if Repaired(root) { RepairedIsFixed(root, d); }
  }

  lemma DecodedRepaired(root: map<string, Json>, round: Rounding)
    requires Repaired(root)
    ensures Repaired(DecodedFields(root, round))
  {
    hide REQUIRED;
    var pg := root["postgresql"].fields;
    var items := pg["pg_hba"].items;
    assert Canonical(Arr(items), round) by {
      forall i | 0 <= i < |items| ensures Canonical(items[i], round) { assert items[i] in items; }
    }
    DecodedExactly(Arr(items), round);
    assert DecodedFields(root, round)["postgresql"] == Obj(DecodedFields(pg, round));
    assert DecodedFields(pg, round)["pg_hba"] == Arr(items);
  }

  /** A second run on what the first one wrote, decoded again and even under other defaults, changes
      nothing. */
  lemma Idempotent(root: map<string, Json>, d: Defaults, later: Defaults, round: Rounding)
    ensures var again := DecodedFields(Merged(root, d), round); Merged(again, later) == again
  {
    hide Merged, Repaired;
    MergedIsRepaired(root, d);
    DecodedRepaired(Merged(root, d), round);
    RepairedIsFixed(DecodedFields(Merged(root, d), round), later);
  }

  /** A setting the agent does not own keeps its text through a rewrite exactly when its numbers are
      canonical. */
  lemma SettingKeepsText(root: map<string, Json>, d: Defaults, round: Rounding, key: string)
    requires key in root && key != "postgresql"
    ensures var after := Merged(DecodedFields(root, round), d);
            key in after && (after[key] == root[key] <==> Canonical(root[key], round))
  {
    hide Merged;
    KeepsForeignSettings(DecodedFields(root, round), d, key);
    DecodedExactly(root[key], round);
  }
}
