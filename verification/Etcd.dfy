/** etcd membership: the member list as etcdctl prints it, and the finders over it. */
module Etcd {
  import opened Text

  datatype Member = Member(
    id: string,
    name: string,
    peerURLs: string,
    clientURLs: string,
    isLearner: bool,
    unstarted: bool)

  // ----- the member list as text -----

  /** Cut at the first ", ". */
  function CutField(s: string): Option<(string, string)> {
    if s == "" then None
    else if ", " <= s then Some(("", s[2..]))
    else match CutField(s[1..])
      case None => None
      case Some(halves) => Some(([s[0]] + halves.0, halves.1))
  }

  /** strings.SplitN(s, ", ", n). */
  function SplitFields(s: string, n: nat): (fields: seq<string>)
    ensures n > 0 ==> 1 <= |fields| <= n
    decreases n
  {
    if n == 0 then []
    else if n == 1 then [s]
    else match CutField(s)
      case None => [s]
      case Some(halves) => [halves.0] + SplitFields(halves.1, n - 1)
  }

  /** The member a trimmed line describes, if the line has at least an ID and a status. */
  function MemberIn(line: string): Option<Member> {
    var fields := SplitFields(line, 6);
    if line == "" || |fields| < 2 then None
    else
      var clientURLs := if |fields| > 4 then Trim(fields[4]) else "";
      Some(Member(
        Trim(fields[0]),
        if |fields| > 2 then Trim(fields[2]) else "",
        if |fields| > 3 then Trim(fields[3]) else "",
        clientURLs,
        |fields| > 5 && EqualsFolded(Trim(fields[5]), "true"),
        Trim(fields[1]) == "unstarted" || (|fields| > 4 && clientURLs == "")))
  }

  function MembersIn(lines: seq<string>): seq<Member> {
    if lines == [] then []
    else
      MembersIn(lines[..|lines| - 1]) +
      match MemberIn(Trim(lines[|lines| - 1])) case None => [] case Some(m) => [m]
  }

  function MemberList(output: string): seq<Member> {
    MembersIn(Split(output, '\n'))
  }

  method ParseMemberList(output: string) returns (members: seq<Member>)
    ensures members == MemberList(output)
  {
    hide SplitFields;
    var lines := Split(output, '\n');
    members := [];
    for i := 0 to |lines|
      invariant members == MembersIn(lines[..i])
    {
      assert lines[..i + 1][..i] == lines[..i];
      var line := Trim(lines[i]);
      if line == "" {
        continue;
      }
      var fields := SplitFields(line, 6);
      if |fields| < 2 {
        continue;
      }
      var m := Member(Trim(fields[0]), "", "", "", false, Trim(fields[1]) == "unstarted");
      if |fields| > 2 {
        m := m.(name := Trim(fields[2]));
      }
      if |fields| > 3 {
        m := m.(peerURLs := Trim(fields[3]));
      }
      if |fields| > 4 {
        m := m.(clientURLs := Trim(fields[4]));
        if m.clientURLs == "" {
          m := m.(unstarted := true);
        }
      }
      if |fields| > 5 {
        m := m.(isLearner := EqualsFolded(Trim(fields[5]), "true"));
      }
      members := members + [m];
    }
    assert lines[..|lines|] == lines;
  }

  /** The fields etcdctl 3.5 prints for a member. */
  function MemberFields(m: Member): seq<string> {
    [m.id, if m.unstarted then "unstarted" else "started", m.name, m.peerURLs, m.clientURLs,
     if m.isLearner then "true" else "false"]
  }

  function MemberLine(m: Member): string {
    Join(MemberFields(m), ", ")
  }

  function MemberLines(members: seq<Member>): (lines: seq<string>)
    ensures |lines| == |members| && forall i | 0 <= i < |members| :: lines[i] == MemberLine(members[i])
  {
    if members == [] then [] else MemberLines(members[..|members| - 1]) + [MemberLine(members[|members| - 1])]
  }

  /** A field that the list's separators and trimming leave alone: no comma followed by a space, no
      newline, no space at either end. Several URLs joined by commas are such a field. */
  predicate PlainField(s: string) {
    Trim(s) == s && '\n' !in s && forall i | 0 <= i < |s| - 1 :: !(s[i] == ',' && s[i + 1] == ' ')
  }

  /** A member as etcd reports it: without a client URL exactly while it has not started. */
  predicate Reported(m: Member) {
    && m.id != "" && PlainField(m.id) && PlainField(m.name) && PlainField(m.peerURLs) && PlainField(m.clientURLs)
    && (m.unstarted <==> m.clientURLs == "")
  }

  lemma {:induction false} CutFieldAt(a: string, b: string)
    requires forall i | 0 <= i < |a| - 1 :: !(a[i] == ',' && a[i + 1] == ' ')
    ensures CutField(a + ", " + b) == Some((a, b))
  {
    var s := a + ", " + b;
    if a == "" {
      assert s == ", " + b;
    } else {
      CutFieldAt(a[1..], b);
      assert s[1..] == a[1..] + ", " + b;
      assert a == [a[0]] + a[1..];
      assert s[0] == a[0] && s[1] == if |a| > 1 then a[1] else ',';
    }
  }

  lemma {:induction false} NoCutField(s: string)
    requires forall i | 0 <= i < |s| - 1 :: !(s[i] == ',' && s[i + 1] == ' ')
    ensures CutField(s) == None
  {
    if s != "" {
      assert |s| >= 2 ==> !(s[0] == ',' && s[1] == ' ');
      NoCutField(s[1..]);
    }
  }

  lemma {:induction false} SplitFieldsJoin(fields: seq<string>, n: nat)
    requires 0 < |fields| <= n && forall i | 0 <= i < |fields| :: PlainField(fields[i])
    ensures SplitFields(Join(fields, ", "), n) == fields && '\n' !in Join(fields, ", ")
  {
    hide Trim;
    if |fields| == 1 {
      assert fields == [fields[0]];
      NoCutField(fields[0]);
    } else {
      SplitFieldsJoin(fields[1..], n - 1);
      CutFieldAt(fields[0], Join(fields[1..], ", "));
      assert fields == [fields[0]] + fields[1..];
    }
  }

  /** What a line says, by the number of its fields: an older etcdctl prints no learner column, and what
      is missing counts as empty; without a status it is no member. */
  lemma MemberOfFields(fields: seq<string>)
    requires 0 < |fields| <= 6 && Join(fields, ", ") != ""
    requires forall i | 0 <= i < |fields| :: PlainField(fields[i])
    ensures MemberIn(Join(fields, ", ")) ==
            if |fields| < 2 then None
            else Some(Member(fields[0],
                             if |fields| > 2 then fields[2] else "",
                             if |fields| > 3 then fields[3] else "",
                             if |fields| > 4 then fields[4] else "",
                             |fields| == 6 && EqualsFolded(fields[5], "true"),
                             fields[1] == "unstarted" || (|fields| > 4 && fields[4] == "")))
  {
    hide SplitFields, Trim, Join, IsSpace, EqualsFolded;
    SplitFieldsJoin(fields, 6);
  }

  lemma JoinEnds(fields: seq<string>, sep: string)
    requires fields != [] && fields[0] != "" && fields[|fields| - 1] != ""
    ensures var s, last := Join(fields, sep), fields[|fields| - 1];
            s != "" && s[0] == fields[0][0] && s[|s| - 1] == last[|last| - 1]
  {
    JoinLast(fields, sep);
  }

  lemma {:induction false} JoinLast(fields: seq<string>, sep: string)
    requires fields != [] && fields[|fields| - 1] != ""
    ensures var s, last := Join(fields, sep), fields[|fields| - 1];
            s != "" && s[|s| - 1] == last[|last| - 1]
  {
    if |fields| > 1 {
      JoinLast(fields[1..], sep);
    }
  }

  lemma MemberLineRoundTrip(m: Member)
    requires Reported(m)
    ensures MemberIn(MemberLine(m)) == Some(m)
    ensures Trim(MemberLine(m)) == MemberLine(m) && '\n' !in MemberLine(m)
  {
    hide SplitFields, Trim, Join;
    var fields := MemberFields(m);
    PlainWords();
    assert forall i | 0 <= i < |fields| :: PlainField(fields[i]);
    MemberLineShape(fields);
    MemberLineParses(m);
  }

  lemma MemberLineShape(fields: seq<string>)
    requires fields != [] && fields[0] != "" && fields[|fields| - 1] != ""
    requires forall i | 0 <= i < |fields| :: PlainField(fields[i])
    ensures var line := Join(fields, ", "); line != "" && Trim(line) == line && '\n' !in line
  {
    hide SplitFields, Trim, Join;
    SplitFieldsJoin(fields, |fields|);
    JoinEnds(fields, ", ");
    TrimmedEnds(fields[0]);
    TrimmedEnds(fields[|fields| - 1]);
    TrimEnds(Join(fields, ", "));
  }

  lemma MemberLineParses(m: Member)
    requires Reported(m) && MemberLine(m) != ""
    ensures MemberIn(MemberLine(m)) == Some(m)
  {
    hide SplitFields, Trim, Join, IsSpace;
    var fields := MemberFields(m);
    PlainWords();
    assert forall i | 0 <= i < |fields| :: PlainField(fields[i]);
    SplitFieldsJoin(fields, 6);
  }

  lemma PlainWords()
    ensures PlainField("started") && PlainField("unstarted") && PlainField("true") && PlainField("false")
  {
    TrimEnds("started");
    TrimEnds("unstarted");
    TrimEnds("true");
    TrimEnds("false");
    hide Trim;
  }

  lemma TrimmedEnds(s: string)
    requires Trim(s) == s && s != ""
    ensures !IsSpace(s[0]) && !IsSpace(s[|s| - 1])
  {
    hide IsSpace;
    TrimLeftShorter(s);
  }

  lemma {:induction false} TrimLeftShorter(s: string)
    ensures |TrimLeft(s)| <= |s| && (s != "" && IsSpace(s[0]) ==> |TrimLeft(s)| < |s|)
  {
    hide IsSpace;
    if s != "" { TrimLeftShorter(s[1..]); }
  }

  lemma TrimEnds(s: string)
    requires s != "" && !IsSpace(s[0]) && !IsSpace(s[|s| - 1])
    ensures Trim(s) == s
  {
  }

  lemma {:induction false} MembersInRoundTrip(members: seq<Member>)
    requires forall i | 0 <= i < |members| :: Reported(members[i])
    ensures MembersIn(MemberLines(members)) == members
  {
    hide MemberIn, MemberLine, Reported;
    if members != [] {
      var rest, last := members[..|members| - 1], members[|members| - 1];
      MembersInRoundTrip(rest);
      MemberLineRoundTrip(last);
      assert MemberLines(members)[..|members| - 1] == MemberLines(rest);
      assert members == rest + [last];
    }
  }

  /** What etcdctl printed is read back member by member. */
  lemma MemberListRoundTrip(members: seq<Member>)
    requires forall i | 0 <= i < |members| :: Reported(members[i])
    ensures MemberList(Join(MemberLines(members), "\n")) == members
  {
    hide MemberIn, MemberLine, Reported, MembersIn;
    if members == [] {
      assert Split("", '\n') == [""];
      EmptyLine();
    } else {
      forall l | l in MemberLines(members) ensures '\n' !in l {
        var i :| 0 <= i < |members| && MemberLines(members)[i] == l;
        MemberLineRoundTrip(members[i]);
      }
      SplitJoin(MemberLines(members), '\n');
      MembersInRoundTrip(members);
    }
  }

  lemma EmptyLine()
    ensures MembersIn([""]) == []
  {
    assert MembersIn([""][..0]) == [];
    assert MemberIn(Trim("")) == None;
  }

  // ----- finders -----

  /** r is the first member satisfying p, if any does. */
  ghost predicate FirstWith(members: seq<Member>, p: Member -> bool, r: Option<Member>) {
    match r
    case None => forall i | 0 <= i < |members| :: !p(members[i])
    case Some(m) => exists i | 0 <= i < |members| ::
      members[i] == m && p(m) && forall j | 0 <= j < i :: !p(members[j])
  }

  method FindByName(members: seq<Member>, name: string) returns (r: Option<Member>)
    ensures FirstWith(members, (m: Member) => m.name == name, r)
  {
    for i := 0 to |members|
      invariant forall j | 0 <= j < i :: members[j].name != name
    {
      if members[i].name == name {
        return Some(members[i]);
      }
    }
    return None;
  }

  method FindByPeerURL(members: seq<Member>, peerURL: string) returns (r: Option<Member>)
    ensures FirstWith(members, (m: Member) => m.peerURLs == peerURL, r)
  {
    for i := 0 to |members|
      invariant forall j | 0 <= j < i :: members[j].peerURLs != peerURL
    {
      if members[i].peerURLs == peerURL {
        return Some(members[i]);
      }
    }
    return None;
  }

  method FindByClientIP(members: seq<Member>, ipPort: string) returns (r: Option<Member>)
    ensures FirstWith(members, (m: Member) => Contains(m.clientURLs, ipPort), r)
  {
    for i := 0 to |members|
      invariant forall j | 0 <= j < i :: !Contains(members[j].clientURLs, ipPort)
    {
      if Contains(members[i].clientURLs, ipPort) {
        return Some(members[i]);
      }
    }
    return None;
  }
}
