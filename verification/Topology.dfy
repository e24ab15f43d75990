/** The cluster topology as text: how it is printed, the parsers that read it back,
    and the node names derived from addresses. */
module Topology {
  import opened Text
  import opened Settings

  // ----- addresses and names -----

  /** IPv4 text: digits and dots. */
  predicate IsIPv4(ip: string) {
    ip != "" && forall i | 0 <= i < |ip| :: ip[i] == '.' || '0' <= ip[i] <= '9'
  }

  lemma AnyDigit()
    ensures IsIPv4("10.234.56.789") && !IsIPv4("") && !IsIPv4("1:2") && !IsIPv4("1-2")
  {
    assert "1:2"[1] == ':' && "1-2"[1] == '-';
  }

  /** An address list as the Flux client delivers it. */
  ghost predicate AddressList(ips: seq<string>) {
    Increasing(ips) && forall ip | ip in ips :: IsIPv4(ip)
  }

  function Dashed(ip: string): string {
    ReplaceAll(ip, ".", "-")
  }

  function NodeName(ip: string): string {
    "node-" + Dashed(ip)
  }

  function NodeNames(ips: seq<string>): (names: seq<string>)
    ensures |names| == |ips| && forall i | 0 <= i < |ips| :: names[i] == NodeName(ips[i])
  {
    if ips == [] then [] else NodeNames(ips[..|ips| - 1]) + [NodeName(ips[|ips| - 1])]
  }

  lemma {:induction false} DashedOrder(a: string, b: string)
    requires forall i | 0 <= i < |a| :: a[i] == '.' || '0' <= a[i] <= '9'
    requires forall i | 0 <= i < |b| :: b[i] == '.' || '0' <= b[i] <= '9'
    ensures Less(Dashed(a), Dashed(b)) <==> Less(a, b)
  {
    if a != "" && b != "" {
      DashedOrder(a[1..], b[1..]);
      assert Dashed(a) == [if a[0] == '.' then '-' else a[0]] + Dashed(a[1..]);
      assert Dashed(b) == [if b[0] == '.' then '-' else b[0]] + Dashed(b[1..]);
    }
  }

  lemma {:induction false} LessCommonPrefix(p: string, a: string, b: string)
    ensures Less(p + a, p + b) <==> Less(a, b)
  {
    if p == "" {
      assert p + a == a && p + b == b;
    } else {
      LessCommonPrefix(p[1..], a, b);
      assert (p + a)[1..] == p[1..] + a && (p + b)[1..] == p[1..] + b;
    }
  }

  /** Replacing dots by dashes keeps the order: both sort below every digit. */
  lemma NodeNameOrder(a: string, b: string)
    requires IsIPv4(a) && IsIPv4(b)
    ensures Less(NodeName(a), NodeName(b)) <==> Less(a, b)
    ensures NodeName(a) == NodeName(b) <==> a == b
  {
    DashedOrder(a, b);
    DashedOrder(b, a);
    LessCommonPrefix("node-", Dashed(a), Dashed(b));
    LessCommonPrefix("node-", Dashed(b), Dashed(a));
    LessTotal(a, b);
    LessIrreflexive(NodeName(a));
  }

  lemma NodeNamesIncreasing(ips: seq<string>)
    requires AddressList(ips)
    ensures Increasing(NodeNames(ips))
  {
    var names := NodeNames(ips);
    forall i, j | 0 <= i < j < |names| ensures Less(names[i], names[j]) {
      assert ips[i] in ips && ips[j] in ips;
      NodeNameOrder(ips[i], ips[j]);
    }
  }

  /** The address the stale-leader check derives from a leader's name. */
  function LeaderIP(leader: string): string {
    ReplaceAll(if "node-" <= leader then leader[5..] else leader, "-", ".")
  }

  lemma LeaderIPInvertsNodeName(ip: string)
    requires IsIPv4(ip)
    ensures LeaderIP(NodeName(ip)) == ip
  {
    assert NodeName(ip)[5..] == Dashed(ip);
    ReplaceChar(ip, '.', '-');
    ReplaceChar(Dashed(ip), '-', '.');
    var back := LeaderIP(NodeName(ip));
    forall i | 0 <= i < |ip| ensures back[i] == ip[i] {
      assert ip[i] in ip;
    }
  }

  // ----- printing -----

  function HostText(cfg: Config, ip: string): string {
    ip + ":" + IntText(cfg.hostEtcdClientPort)
  }

  function PeerURL(cfg: Config, ip: string): string {
    EtcdProtocol(cfg) + "://" + ip + ":" + IntText(cfg.hostEtcdPeerPort)
  }

  function MemberText(cfg: Config, ip: string): string {
    NodeName(ip) + "=" + PeerURL(cfg, ip)
  }

  function HostTexts(cfg: Config, ips: seq<string>): (parts: seq<string>)
    ensures |parts| == |ips| && forall i | 0 <= i < |ips| :: parts[i] == HostText(cfg, ips[i])
  {
    if ips == [] then [] else HostTexts(cfg, ips[..|ips| - 1]) + [HostText(cfg, ips[|ips| - 1])]
  }

  function MemberTexts(cfg: Config, ips: seq<string>): (parts: seq<string>)
    ensures |parts| == |ips| && forall i | 0 <= i < |ips| :: parts[i] == MemberText(cfg, ips[i])
  {
    if ips == [] then [] else MemberTexts(cfg, ips[..|ips| - 1]) + [MemberText(cfg, ips[|ips| - 1])]
  }

  function HostsLine(cfg: Config, ips: seq<string>): string {
    Join(HostTexts(cfg, ips), ",")
  }

  function InitialCluster(cfg: Config, ips: seq<string>): string {
    Join(MemberTexts(cfg, ips), ",")
  }

  method BuildEtcdTopology(cfg: Config, ips: seq<string>)
    returns (hosts: string, patroniHosts: string, initial: string)
    ensures hosts == HostsLine(cfg, ips)
    ensures patroniHosts == "127.0.0.1:" + IntText(cfg.etcdClientPort)
    ensures initial == InitialCluster(cfg, ips)
  {
    var hostsParts, initialParts := [], [];
    for i := 0 to |ips|
      invariant hostsParts == HostTexts(cfg, ips[..i])
      invariant initialParts == MemberTexts(cfg, ips[..i])
    {
      assert ips[..i + 1][..i] == ips[..i];
      hostsParts := hostsParts + [ips[i] + ":" + IntText(cfg.hostEtcdClientPort)];
      var peerURL := EtcdProtocol(cfg) + "://" + ips[i] + ":" + IntText(cfg.hostEtcdPeerPort);
      initialParts := initialParts + [NodeName(ips[i]) + "=" + peerURL];
    }
    assert ips[..|ips|] == ips;
    return Join(hostsParts, ","), "127.0.0.1:" + IntText(cfg.etcdClientPort), Join(initialParts, ",");
  }

  // ----- parsing the member list -----

  /** The name a part of the initial cluster contributes to the membership view. */
  function NameIn(part: string): seq<string> {
    match Cut(Trim(part), '=')
    case Some(halves) => if halves.0 != "" then [halves.0] else []
    case None => []
  }

  /** Malformed parts: without an equals sign or a name they name nobody. */
  lemma PartExactly(part: string, name: string, rest: string, myName: string)
    ensures '=' !in Trim(part) ==> NameIn(part) == [] && PeerIn(part, myName) == []
    ensures Trim(part) == name + "=" + rest && '=' !in name ==>
              NameIn(part) == (if name == "" then [] else [name]) &&
              PeerIn(part, myName) == if name == myName || HostOfURL(rest) == "" then [] else [HostOfURL(rest)]
  {
    hide Trim, HostOfURL;
    CutExactly(Trim(part), '=');
    if Trim(part) == name + "=" + rest && '=' !in name {
      assert Trim(part) == name + ['='] + rest;
      CutAt(name, rest, '=');
    }
  }

  /** The candidate's names and the proxy's hosts are cut, not split; the name is trimmed afterwards. */
  lemma CutPartExactly(head: string, tail: string)
    ensures '=' !in head ==> CandidateName(head + "=" + tail) == if head == "" then [] else [Trim(head)]
    ensures '=' !in head ==> CandidateName(head) == []
    ensures ':' !in head && head != "" ==> HostIn(head + ":" + tail) == [head] && HostIn(head) == [head]
    ensures HostIn(":" + tail) == [":" + tail] && HostIn("") == []
  {
    hide Trim;
    if '=' !in head { FirstAt(head, tail, '='); }
    if ':' !in head { FirstAt(head, tail, ':'); }
    FirstAt("", tail, ':');
  }

  lemma FirstAt(head: string, tail: string, c: char)
    requires c !in head
    ensures IndexOf(head + [c] + tail, c) == |head| && (head + [c] + tail)[..|head|] == head && IndexOf(head, c) == -1
  {
    var s := head + [c] + tail;
    assert s[|head|] == c && forall k | 0 <= k < |head| :: s[k] == head[k] && head[k] in head;
  }

  function NamesIn(parts: seq<string>): seq<string> {
    if parts == [] then [] else NamesIn(parts[..|parts| - 1]) + NameIn(parts[|parts| - 1])
  }

  function MembershipNames(initial: string): seq<string> {
    SortStrings(NamesIn(Split(initial, ',')))
  }

  method ParseMembershipNames(initial: string) returns (names: seq<string>)
    ensures names == MembershipNames(initial)
  {
    var parts := Split(initial, ',');
    names := [];
    for i := 0 to |parts|
      invariant names == NamesIn(parts[..i])
    {
      assert parts[..i + 1][..i] == parts[..i];
      var halves := Cut(Trim(parts[i]), '=');
      if halves.Some? && halves.value.0 != "" {
        names := names + [halves.value.0];
      }
    }
    assert parts[..|parts|] == parts;
    names := SortStrings(names);
  }

  /** The text after the first "://", if there is one. */
  function AfterScheme(u: string): Option<string> {
    if u == "" then None
    else if "://" <= u then Some(u[3..])
    else AfterScheme(u[1..])
  }

  /** extractHostFromURL: drop the scheme and the port. */
  function HostOfURL(url: string): string {
    var u := match AfterScheme(url) case Some(rest) => rest case None => url;
    var i := LastIndexOf(u, ':');
    if i > 0 then u[..i] else u
  }

  lemma {:induction false} NoScheme(u: string)
    requires forall i | 0 <= i < |u| - 2 :: u[i] == ':' ==> u[i + 1] != '/' || u[i + 2] != '/'
    ensures AfterScheme(u) == None
  {
    if u != "" {
      assert |u| >= 3 ==> u[0] != ':' || u[1] != '/' || u[2] != '/';
      NoScheme(u[1..]);
    }
  }

  /** The host of a URL is what stands behind the scheme and before the last colon; */
  lemma HostBehindScheme(scheme: string, host: string, port: string)
    requires ':' !in scheme && host != "" && ':' !in port
    ensures HostOfURL(scheme + "://" + host + ":" + port) == host
    ensures ':' !in host ==> HostOfURL(scheme + "://" + host) == host
  {
    var rest := host + ":" + port;
    assert scheme + "://" + rest == scheme + "://" + host + ":" + port;
    AfterSchemeAt(scheme, rest);
    AfterSchemeAt(scheme, host);
    hide AfterScheme;
    LastColonAt(host, port);
  }

  lemma LastColonAt(host: string, port: string)
    requires ':' !in port
    ensures var rest := host + ":" + port; LastIndexOf(rest, ':') == |host| && rest[..|host|] == host
  {
    var rest := host + ":" + port;
    assert rest[|host|] == ':' && rest[..|host|] == host;
    assert forall k | |host| < k < |rest| :: rest[k] == port[k - |host| - 1] && port[k - |host| - 1] in port;
  }

  /** without a scheme it begins at once, and without a colon behind its first letter it is everything. */
  lemma HostAlone(host: string, port: string)
    requires ':' !in host && ':' !in port && (port == "" || port[0] != '/')
    ensures HostOfURL(host + ":" + port) == (if host == "" then ":" + port else host) && HostOfURL(host) == host
  {
    NoSchemeIn(host, port);
    NoScheme(host);
    LastColonAt(host, port);
    hide AfterScheme, LastIndexOf;
    assert host == "" ==> host + ":" + port == ":" + port;
  }

  lemma NoSchemeIn(host: string, port: string)
    requires ':' !in host && ':' !in port && (port == "" || port[0] != '/')
    ensures AfterScheme(host + ":" + port) == None
  {
    var rest := host + ":" + port;
    assert forall i | 0 <= i < |host| :: rest[i] == host[i] && host[i] in host;
    assert forall i | 0 <= i < |port| :: rest[|host| + 1 + i] == port[i] && port[i] in port;
    NoScheme(rest);
  }

  function PeerIn(part: string, myName: string): seq<string> {
    match Cut(Trim(part), '=')
    case None => []
    case Some(halves) =>
      var ip := HostOfURL(halves.1);
      if halves.0 == myName || ip == "" then [] else [ip]
  }

  function PeersIn(parts: seq<string>, myName: string): seq<string> {
    if parts == [] then []
    else PeersIn(parts[..|parts| - 1], myName) + PeerIn(parts[|parts| - 1], myName)
  }

  function OtherIPs(initial: string, myName: string): seq<string> {
    PeersIn(Split(initial, ','), myName)
  }

  method ParseOtherIPs(initial: string, myName: string) returns (out: seq<string>)
    ensures out == OtherIPs(initial, myName)
  {
    var parts := Split(initial, ',');
    out := [];
    for i := 0 to |parts|
      invariant out == PeersIn(parts[..i], myName)
    {
      assert parts[..i + 1][..i] == parts[..i];
      var halves := Cut(Trim(parts[i]), '=');
      if halves.None? || halves.value.0 == myName {
        continue;
      }
      var ip := HostOfURL(halves.value.1);
      if ip != "" {
        out := out + [ip];
      }
    }
    assert parts[..|parts|] == parts;
  }

  /** The names bootstrapCandidate compares. */
  function CandidateName(part: string): seq<string> {
    var i := IndexOf(part, '=');
    if i > 0 then [Trim(part[..i])] else []
  }

  function CandidateNames(parts: seq<string>): seq<string> {
    if parts == [] then [] else CandidateNames(parts[..|parts| - 1]) + CandidateName(parts[|parts| - 1])
  }

  /** The least of the names, keeping the earlier one on a tie. */
  function Least(names: seq<string>): (least: string)
    ensures names == [] ==> least == ""
    ensures names != [] ==> least in names && forall n | n in names :: !Less(n, least)
  {
    if names == [] then ""
    else if |names| == 1 then LessIrreflexive(names[0]); names[0]
    else
      var rest, last := names[..|names| - 1], names[|names| - 1];
      var least := Least(rest);
      assert names == rest + [last];
      if Less(last, least) then
        LeastStep(rest, last, least);
        last
      else least
  }

  lemma LeastStep(rest: seq<string>, last: string, least: string)
    requires Less(last, least) && forall n | n in rest :: !Less(n, least)
    ensures !Less(last, last) && forall n | n in rest :: !Less(n, last)
  {
    LessIrreflexive(last);
    forall n | n in rest ensures !Less(n, last) {
      if Less(n, last) { LessTransitive(n, last, least); }
    }
  }

  function BootstrapCandidate(initial: string): string {
    Least(CandidateNames(Split(initial, ',')))
  }

  method FindBootstrapCandidate(initial: string) returns (smallest: string)
    ensures smallest == BootstrapCandidate(initial)
  {
    hide Trim, Split, Less;
    var parts := Split(initial, ',');
    var names := [];
    for i := 0 to |parts|
      invariant names == CandidateNames(parts[..i])
    {
      assert parts[..i + 1][..i] == parts[..i];
      var eq := IndexOf(parts[i], '=');
      if eq > 0 {
        names := names + [Trim(parts[i][..eq])];
      }
    }
    assert parts[..|parts|] == parts;
    if names == [] {
      return "";
    }
    smallest := names[0];
    for i := 1 to |names|
      invariant smallest == Least(names[..i])
    {
      assert names[..i + 1][..i] == names[..i];
      if Less(names[i], smallest) {
        smallest := names[i];
      }
    }
    assert names[..|names|] == names;
  }

  // ----- parsing the host list -----

  function NonEmpty(parts: seq<string>): seq<string> {
    if parts == [] then [] else (if parts[0] == "" then [] else [parts[0]]) + NonEmpty(parts[1..])
  }

  /** The non-empty comma-separated parts of a text. */
  function Fields(s: string): seq<string> {
    NonEmpty(Split(s, ','))
  }

  lemma FieldsStep(cur: string, s: string, i: nat)
    requires ',' !in cur && i < |s|
    ensures s[i] == ',' ==>
              Fields(cur + s[i..]) == (if cur == "" then [] else [cur]) + Fields("" + s[i + 1..])
    ensures s[i] != ',' ==> cur + s[i..] == (cur + [s[i]]) + s[i + 1..]
  {
    if s[i] == ',' {
      var tail := s[i + 1..];
      SplitPrefix(cur, tail, ',');
      assert cur + s[i..] == cur + [','] + tail && "" + tail == tail;
      assert ([cur] + Split(tail, ','))[1..] == Split(tail, ',');
    }
  }

  lemma FieldsEnd(cur: string)
    requires ',' !in cur
    ensures Fields(cur) == if cur == "" then [] else [cur]
  {
    SplitPrefix(cur, "", ',');
    assert NonEmpty([cur][1..]) == [];
  }

  /** splitCSV reads the same parts as strings.Split, without the empty ones. */
  method SplitCSV(s: string) returns (out: seq<string>)
    ensures out == Fields(s)
  {
    out := [];
    var cur := "";
    ghost var rest := Fields(s);
    assert cur + s[0..] == s;
    for i := 0 to |s|
      invariant ',' !in cur
      invariant rest == Fields(cur + s[i..]) && out + rest == Fields(s)
    {
      FieldsStep(cur, s, i);
      if s[i] == ',' {
        rest := Fields("" + s[i + 1..]);
        if cur != "" {
          out := out + [cur];
        }
        cur := "";
        continue;
      }
      cur := cur + [s[i]];
    }
    assert cur + s[|s|..] == cur;
    FieldsEnd(cur);
    if cur != "" {
      out := out + [cur];
    }
  }

  function HostIn(part: string): seq<string> {
    var i := IndexOf(part, ':');
    if i > 0 then [part[..i]] else if part != "" then [part] else []
  }

  function HostsIn(parts: seq<string>): seq<string> {
    if parts == [] then [] else HostsIn(parts[..|parts| - 1]) + HostIn(parts[|parts| - 1])
  }

  function CandidateIPs(hosts: string): seq<string> {
    HostsIn(Fields(hosts))
  }

  lemma NoFields()
    ensures Fields("") == []
  {
    FieldsEnd("");
  }

  method ParseCandidateIPs(hosts: string) returns (ips: seq<string>)
    ensures ips == CandidateIPs(hosts)
  {
    hide Fields;
    ips := [];
    if hosts == "" {
      NoFields();
      return;
    }
    var parts := SplitCSV(hosts);
    for k := 0 to |parts|
      invariant ips == HostsIn(parts[..k])
    {
      assert parts[..k + 1][..k] == parts[..k];
      var i := IndexOf(parts[k], ':');
      if i > 0 {
        ips := ips + [parts[k][..i]];
      } else if parts[k] != "" {
        ips := ips + [parts[k]];
      }
    }
    assert parts[..|parts|] == parts;
  }

  // ----- round trips -----

  /** The address list without one address. */
  function Without(ips: seq<string>, ip: string): (r: seq<string>)
    ensures forall x :: x in r <==> x in ips && x != ip
  {
    if ips == [] then []
    else
      var last := ips[|ips| - 1];
      assert ips == ips[..|ips| - 1] + [last];
      Without(ips[..|ips| - 1], ip) + if last == ip then [] else [last]
  }

  lemma MemberTextShape(cfg: Config, ip: string)
    requires IsIPv4(ip)
    ensures ',' !in MemberText(cfg, ip) && Trim(MemberText(cfg, ip)) == MemberText(cfg, ip)
    ensures Cut(MemberText(cfg, ip), '=') == Some((NodeName(ip), PeerURL(cfg, ip)))
    ensures IndexOf(MemberText(cfg, ip), '=') == |NodeName(ip)|
    ensures '=' !in NodeName(ip) && Trim(NodeName(ip)) == NodeName(ip)
  {
    NameShape(ip);
    PeerURLShape(cfg, ip);
    var t, name, url := MemberText(cfg, ip), NodeName(ip), PeerURL(cfg, ip);
    assert t == name + ['='] + url;
    CutAt(name, url, '=');
    assert forall k | 0 <= k < |name| :: t[k] == name[k] && name[k] in name;
    assert t[|name|] == '=';
    assert t[0] == 'n' && t[|t| - 1] == url[|url| - 1];
  }

  lemma NameShape(ip: string)
    requires IsIPv4(ip)
    ensures forall c | c in NodeName(ip) :: c in "node-" || '0' <= c <= '9'
    ensures ',' !in NodeName(ip) && '=' !in NodeName(ip)
    ensures Trim(NodeName(ip)) == NodeName(ip)
  {
    ReplaceChar(ip, '.', '-');
    var d := Dashed(ip);
    forall c | c in d ensures c == '-' || '0' <= c <= '9' {
      var i :| 0 <= i < |d| && d[i] == c;
      assert ip[i] in ip;
    }
    assert NodeName(ip)[0] == 'n';
    assert NodeName(ip)[|NodeName(ip)| - 1] == d[|d| - 1] && d[|d| - 1] in d;
  }

  lemma PeerURLShape(cfg: Config, ip: string)
    requires IsIPv4(ip)
    ensures ',' !in PeerURL(cfg, ip) && PeerURL(cfg, ip) != ""
    ensures !IsSpace(PeerURL(cfg, ip)[|PeerURL(cfg, ip)| - 1])
  {
    var url, port := PeerURL(cfg, ip), IntText(cfg.hostEtcdPeerPort);
    assert url[|url| - 1] == port[|port| - 1] && port[|port| - 1] in port;
  }

  lemma {:induction false} AfterSchemeAt(a: string, b: string)
    requires ':' !in a
    ensures AfterScheme(a + "://" + b) == Some(b)
  {
    var u := a + "://" + b;
    if a == "" {
      assert u == "://" + b;
    } else {
      AfterSchemeAt(a[1..], b);
      assert u[1..] == a[1..] + "://" + b;
      assert u[0] == a[0];
    }
  }

  lemma HostOfPeerURL(cfg: Config, ip: string)
    requires IsIPv4(ip)
    ensures HostOfURL(PeerURL(cfg, ip)) == ip
  {
    var port := IntText(cfg.hostEtcdPeerPort);
    var rest := ip + ":" + port;
    assert PeerURL(cfg, ip) == EtcdProtocol(cfg) + "://" + rest;
    AfterSchemeAt(EtcdProtocol(cfg), rest);
    LastColon(ip, port);
  }

  lemma OnlyOccurrence(s: string, c: char, k: nat)
    requires k < |s| && s[k] == c && forall j | 0 <= j < |s| && j != k :: s[j] != c
    ensures IndexOf(s, c) == k && LastIndexOf(s, c) == k
  {
    var i, j := IndexOf(s, c), LastIndexOf(s, c);
  }

  lemma LastColon(ip: string, port: string)
    requires IsIPv4(ip) && ':' !in port
    ensures var rest := ip + ":" + port;
            LastIndexOf(rest, ':') == |ip| && IndexOf(rest, ':') == |ip| && rest[..|ip|] == ip
  {
    var rest := ip + ":" + port;
    assert rest[|ip|] == ':' && rest[..|ip|] == ip;
    assert forall k | 0 <= k < |ip| :: rest[k] == ip[k] && ip[k] in ip;
    assert forall k | |ip| < k < |rest| :: rest[k] == port[k - |ip| - 1] && port[k - |ip| - 1] in port;
    OnlyOccurrence(rest, ':', |ip|);
  }

  lemma MemberPartsRoundTrip(cfg: Config, ips: seq<string>)
    requires forall ip | ip in ips :: IsIPv4(ip)
    ensures ips != [] ==> Split(InitialCluster(cfg, ips), ',') == MemberTexts(cfg, ips)
    ensures ips == [] ==> Split(InitialCluster(cfg, ips), ',') == [""]
  {
    forall p | p in MemberTexts(cfg, ips) ensures ',' !in p {
      var i :| 0 <= i < |ips| && MemberTexts(cfg, ips)[i] == p;
      assert ips[i] in ips;
      MemberTextShape(cfg, ips[i]);
    }
    if ips != [] {
      SplitJoin(MemberTexts(cfg, ips), ',');
    }
  }

  lemma {:induction false} NamesInRoundTrip(cfg: Config, ips: seq<string>)
    requires forall ip | ip in ips :: IsIPv4(ip)
    ensures NamesIn(MemberTexts(cfg, ips)) == NodeNames(ips)
    ensures CandidateNames(MemberTexts(cfg, ips)) == NodeNames(ips)
  {
    if ips != [] {
      var rest, last := ips[..|ips| - 1], ips[|ips| - 1];
      assert ips == rest + [last];
      NamesInRoundTrip(cfg, rest);
      MemberTextShape(cfg, last);
      assert MemberTexts(cfg, ips)[..|ips| - 1] == MemberTexts(cfg, rest);
      assert MemberText(cfg, last)[..|NodeName(last)|] == NodeName(last);
    }
  }

  lemma {:induction false} PeersInRoundTrip(cfg: Config, ips: seq<string>, me: string)
    requires IsIPv4(me) && forall ip | ip in ips :: IsIPv4(ip)
    ensures PeersIn(MemberTexts(cfg, ips), NodeName(me)) == Without(ips, me)
  {
    if ips != [] {
      var rest, last := ips[..|ips| - 1], ips[|ips| - 1];
      assert ips == rest + [last];
      PeersInRoundTrip(cfg, rest, me);
      MemberTextShape(cfg, last);
      HostOfPeerURL(cfg, last);
      NodeNameOrder(last, me);
      assert MemberTexts(cfg, ips)[..|ips| - 1] == MemberTexts(cfg, rest);
    }
  }

  /** Reading a printed topology back: the view is the list of names in order, the peers are
      the other addresses in order, and the bootstrap candidate is the first address's node. */
  lemma TopologyRoundTrip(cfg: Config, ips: seq<string>, me: string)
    requires AddressList(ips) && IsIPv4(me)
    ensures MembershipNames(InitialCluster(cfg, ips)) == NodeNames(ips)
    ensures OtherIPs(InitialCluster(cfg, ips), NodeName(me)) == Without(ips, me)
    ensures BootstrapCandidate(InitialCluster(cfg, ips)) == if ips == [] then "" else NodeName(ips[0])
  {
    MemberPartsRoundTrip(cfg, ips);
    if ips == [] {
      assert NamesIn([""]) == NamesIn([]) + NameIn("") == [];
      assert PeersIn([""], NodeName(me)) == PeersIn([], NodeName(me)) + PeerIn("", NodeName(me)) == [];
      assert CandidateNames([""]) == CandidateNames([]) + CandidateName("") == [];
    } else {
      NamesInRoundTrip(cfg, ips);
      PeersInRoundTrip(cfg, ips, me);
      NodeNamesIncreasing(ips);
      SortIncreasing(NodeNames(ips));
      LeastIsFirst(NodeNames(ips));
    }
  }

  lemma LeastIsFirst(names: seq<string>)
    requires names != [] && Increasing(names)
    ensures Least(names) == names[0]
  {
    var least := Least(names);
    var k :| 0 <= k < |names| && names[k] == least;
    assert names[0] in names;
    assert forall j | 0 < j < |names| :: Less(names[0], names[j]);
  }

  lemma {:induction false} HostsInRoundTrip(cfg: Config, ips: seq<string>)
    requires forall ip | ip in ips :: IsIPv4(ip)
    ensures HostsIn(HostTexts(cfg, ips)) == ips
  {
    if ips != [] {
      var rest, last := ips[..|ips| - 1], ips[|ips| - 1];
      assert ips == rest + [last];
      HostsInRoundTrip(cfg, rest);
      LastColon(last, IntText(cfg.hostEtcdClientPort));
      assert HostTexts(cfg, ips)[..|ips| - 1] == HostTexts(cfg, rest);
    }
  }

  lemma {:induction false} NonEmptyAll(parts: seq<string>)
    requires forall i | 0 <= i < |parts| :: parts[i] != ""
    ensures NonEmpty(parts) == parts
  {
    if parts != [] {
      NonEmptyAll(parts[1..]);
      assert parts == [parts[0]] + parts[1..];
    }
  }

  /** The proxy reads the whole address list back from the printed host list. */
  lemma HostsRoundTrip(cfg: Config, ips: seq<string>)
    requires forall ip | ip in ips :: IsIPv4(ip)
    ensures CandidateIPs(HostsLine(cfg, ips)) == ips
  {
    var parts := HostTexts(cfg, ips);
    forall p | p in parts ensures p != "" && ',' !in p {
      var i :| 0 <= i < |ips| && parts[i] == p;
      assert ips[i] in ips;
    }
    if ips != [] {
      SplitJoin(parts, ',');
      NonEmptyAll(parts);
      HostsInRoundTrip(cfg, ips);
    } else {
      assert Split("", ',') == [""];
      assert NonEmpty([""]) == [] + NonEmpty([""][1..]) == [];
    }
  }

  // ----- rewriting the configuration -----

  /** A node whose topology is the given address list, of which it is a member. */
  ghost predicate Formed(cfg: Config, ips: seq<string>) {
    && AddressList(ips)
    && cfg.myIP in ips
    && cfg.myName == NodeName(cfg.myIP)
    && cfg.etcdInitialCluster == InitialCluster(cfg, ips)
  }

  lemma {:induction false} InsertIncreasing(x: string, s: seq<string>)
    requires Increasing(s) && x !in s
    ensures Increasing(Insert(x, s))
  {
    var r := Insert(x, s);
    if s != [] && Less(s[0], x) {
      assert s == [s[0]] + s[1..];
      InsertIncreasing(x, s[1..]);
      forall j | 0 < j < |r| ensures Less(r[0], r[j]) {
        assert r[j] in multiset(Insert(x, s[1..]));
        if r[j] != x {
          assert r[j] in s[1..];
          var k :| 0 <= k < |s[1..]| && s[1..][k] == r[j];
          assert Less(s[0], s[k + 1]);
        }
      }
    } else if s != [] {
      LessTotal(s[0], x);
      assert s[0] in s;
      forall j | 0 < j < |r| ensures Less(r[0], r[j]) {
        if j > 1 { LessTransitive(x, s[0], s[j - 1]); }
      }
    }
  }

  lemma {:induction false} SortStringsIncreasing(s: seq<string>)
    requires forall i, j | 0 <= i < j < |s| :: s[i] != s[j]
    ensures Increasing(SortStrings(s))
  {
    if s != [] {
      SortStringsIncreasing(s[1..]);
      assert s[0] in SortStrings(s[1..]) <==> s[0] in multiset(SortStrings(s[1..]));
      assert s[0] in multiset(s[1..]) <==> s[0] in s[1..];
      InsertIncreasing(s[0], SortStrings(s[1..]));
    }
  }

  /** The addresses init works with: the API's, and the local one. */
  function WithLocal(cfg: Config): seq<string> {
    if cfg.myIP in cfg.clusterIPs then cfg.clusterIPs else cfg.clusterIPs + [cfg.myIP]
  }

  lemma WithLocalElements(cfg: Config)
    ensures forall ip :: ip in SortStrings(WithLocal(cfg)) <==> ip in cfg.clusterIPs || ip == cfg.myIP
  {
    hide SortStrings;
    var ips, all := WithLocal(cfg), SortStrings(WithLocal(cfg));
    forall ip ensures ip in all <==> ip in ips {
      assert ip in all <==> ip in multiset(all);
      assert ip in ips <==> ip in multiset(ips);
    }
  }

  /** The first loop of buildEtcdConfig. */
  method AddLocal(cfg: Config) returns (ips: seq<string>)
    ensures ips == WithLocal(cfg)
  {
    ips := cfg.clusterIPs;
    var have := false;
    for i := 0 to |ips|
      invariant have <==> cfg.myIP in ips[..i]
    {
      if ips[i] == cfg.myIP {
        have := true;
        assert ips[..|ips|] == ips;
        break;
      }
    }
    assert ips[..|ips|] == ips;
    if !have {
      ips := ips + [cfg.myIP];
    }
  }

  /** The configuration with the topology of an address list printed into it. */
  function Printed(cfg: Config, ips: seq<string>): Config {
    cfg.(etcdHosts := HostsLine(cfg, ips),
         patroniEtcdHosts := "127.0.0.1:" + IntText(cfg.etcdClientPort),
         etcdInitialCluster := InitialCluster(cfg, ips))
  }

  /** The configuration object the agent's subcommands rewrite. */
  class AgentConfig {
    var cfg: Config

    constructor (initial: Config)
      ensures cfg == initial
    {
      cfg := initial;
    }

    /** buildEtcdConfig: add the local address when the API omits it, sort, and print the topology. */
    method BuildEtcdConfig()
      modifies this
      ensures var all := SortStrings(WithLocal(old(cfg)));
              cfg == Printed(old(cfg), all).(clusterIPs := all)
      ensures forall ip :: ip in cfg.clusterIPs <==> ip in old(cfg).clusterIPs || ip == cfg.myIP
    {
      WithLocalElements(cfg);
      hide SortStrings, HostsLine, InitialCluster, IntText, WithLocal;
      var ips := AddLocal(cfg);
      ips := SortStrings(ips);
      var hosts, patroniHosts, initial := BuildEtcdTopology(cfg, ips);
      cfg := cfg.(clusterIPs := ips, etcdHosts := hosts, patroniEtcdHosts := patroniHosts,
                  etcdInitialCluster := initial);
    }

    /** updateClusterEnv: the daemon prints exactly the desired addresses. */
    method UpdateClusterEnv(desired: seq<string>) returns (changed: bool)
      modifies this
      ensures cfg == Printed(old(cfg), desired)
      ensures cfg == old(cfg).(
                etcdHosts := HostsLine(old(cfg), desired),
                patroniEtcdHosts := "127.0.0.1:" + IntText(old(cfg).etcdClientPort),
                etcdInitialCluster := InitialCluster(old(cfg), desired))
      ensures changed <==> cfg != old(cfg)
    {
      var hosts, patroniHosts, initial := BuildEtcdTopology(cfg, desired);
      if initial == cfg.etcdInitialCluster && hosts == cfg.etcdHosts && patroniHosts == cfg.patroniEtcdHosts {
        return false;
      }
      cfg := cfg.(etcdHosts := hosts, patroniEtcdHosts := patroniHosts, etcdInitialCluster := initial);
      return true;
    }

    /** configureSingleMemberBootstrap: shrink the topology to this node alone. A node named after its
        address then is its whole view, has no peers, and is the candidate. */
    method ConfigureSingleMemberBootstrap()
      modifies this
      ensures cfg == old(cfg).(etcdInitialCluster := old(cfg).myName + "=" + PeerURL(old(cfg), old(cfg).myIP))
      ensures IsIPv4(cfg.myIP) && cfg.myName == NodeName(cfg.myIP) ==>
                && Formed(cfg, [cfg.myIP]) && OtherIPs(cfg.etcdInitialCluster, cfg.myName) == []
                && MembershipNames(cfg.etcdInitialCluster) == [cfg.myName]
                && BootstrapCandidate(cfg.etcdInitialCluster) == cfg.myName
    {
      hide Formed, OtherIPs, MembershipNames, BootstrapCandidate, NodeName;
      if IsIPv4(cfg.myIP) && cfg.myName == NodeName(cfg.myIP) { AloneForms(cfg); }
      cfg := cfg.(etcdInitialCluster := cfg.myName + "=" + PeerURL(cfg, cfg.myIP));
    }
  }

  lemma AloneForms(cfg: Config)
    requires IsIPv4(cfg.myIP) && cfg.myName == NodeName(cfg.myIP)
    ensures var alone := cfg.(etcdInitialCluster := cfg.myName + "=" + PeerURL(cfg, cfg.myIP));
            && Formed(alone, [cfg.myIP]) && OtherIPs(alone.etcdInitialCluster, cfg.myName) == []
            && MembershipNames(alone.etcdInitialCluster) == [cfg.myName]
            && BootstrapCandidate(alone.etcdInitialCluster) == cfg.myName
  {
    hide OtherIPs, MembershipNames, BootstrapCandidate, NodeName;
    var ips := [cfg.myIP];
    assert ips[..0] == [];
    assert MemberTexts(cfg, ips) == [MemberText(cfg, cfg.myIP)];
    assert InitialCluster(cfg, ips) == MemberText(cfg, cfg.myIP);
    var alone := cfg.(etcdInitialCluster := InitialCluster(cfg, ips));
    assert MemberTexts(alone, ips) == [MemberText(cfg, cfg.myIP)];
    assert Without([], cfg.myIP) == [] && NodeNames(ips) == [NodeName(cfg.myIP)];
    TopologyRoundTrip(cfg, ips, cfg.myIP);
  }

  lemma WithLocalDistinct(cfg: Config)
    requires Increasing(cfg.clusterIPs)
    ensures var ips := WithLocal(cfg); forall i, j | 0 <= i < j < |ips| :: ips[i] != ips[j]
  {
    var ips := WithLocal(cfg);
    forall i, j | 0 <= i < j < |ips| ensures ips[i] != ips[j] {
      if j < |cfg.clusterIPs| {
        LessIrreflexive(ips[i]);
      } else {
        assert ips[i] in cfg.clusterIPs;
      }
    }
  }

  lemma SortedWithLocal(cfg: Config)
    requires AddressList(cfg.clusterIPs) && IsIPv4(cfg.myIP)
    ensures var all := SortStrings(WithLocal(cfg));
            AddressList(all) && forall ip :: ip in all <==> ip in cfg.clusterIPs || ip == cfg.myIP
  {
    var ips, all := WithLocal(cfg), SortStrings(WithLocal(cfg));
    WithLocalDistinct(cfg);
    SortStringsIncreasing(ips);
    WithLocalElements(cfg);
  }

  /** What init prints always makes the node a member of its own view. */
  lemma InitForms(cfg: Config)
    requires AddressList(cfg.clusterIPs) && IsIPv4(cfg.myIP) && cfg.myName == NodeName(cfg.myIP)
    ensures var all := SortStrings(WithLocal(cfg));
            && Formed(Printed(cfg, all).(clusterIPs := all), all)
            && forall ip :: ip in all <==> ip in cfg.clusterIPs || ip == cfg.myIP
  {
    var all := SortStrings(WithLocal(cfg));
    SortedWithLocal(cfg);
    SameTopology(cfg, Printed(cfg, all).(clusterIPs := all), all);
  }

  /** Only ports and protocol matter to what is printed. */
  lemma {:induction false} SameTopology(a: Config, b: Config, ips: seq<string>)
    requires a.sslEnabled == b.sslEnabled && a.hostEtcdPeerPort == b.hostEtcdPeerPort
    ensures InitialCluster(a, ips) == InitialCluster(b, ips)
  {
    assert MemberTexts(a, ips) == MemberTexts(b, ips);
  }

  // ----- a printed topology, spelled out -----

  lemma PrintedTexts(cfg: Config, ip: string)
    ensures HostText(cfg, ip) == ip + ":" + IntText(cfg.hostEtcdClientPort)
    ensures MemberText(cfg, ip) ==
            ("node-" + ReplaceAll(ip, ".", "-")) + "=" +
            ((if cfg.sslEnabled then "https" else "http") + "://" + ip + ":" + IntText(cfg.hostEtcdPeerPort))
  {
    hide IntText, ReplaceAll;
  }

  lemma JoinTwo(a: string, b: string)
    ensures Join([a, b], ",") == a + "," + b
  {
    assert [a, b][1..] == [b];
  }

  /** What init and the daemon print for two nodes. */
  lemma PrintedTopology(cfg: Config, a: string, b: string)
    ensures HostsLine(cfg, [a, b]) ==
            (a + ":" + IntText(cfg.hostEtcdClientPort)) + "," + (b + ":" + IntText(cfg.hostEtcdClientPort))
    ensures var protocol := if cfg.sslEnabled then "https" else "http";
            InitialCluster(cfg, [a, b]) ==
            ("node-" + ReplaceAll(a, ".", "-")) + "=" + (protocol + "://" + a + ":" + IntText(cfg.hostEtcdPeerPort)) +
            "," +
            (("node-" + ReplaceAll(b, ".", "-")) + "=" + (protocol + "://" + b + ":" + IntText(cfg.hostEtcdPeerPort)))
  {
    PrintedTexts(cfg, a);
    PrintedTexts(cfg, b);
    hide HostText, MemberText, IntText, ReplaceAll;
    var ips := [a, b];
    assert HostTexts(cfg, ips) == [HostText(cfg, a), HostText(cfg, b)];
    assert MemberTexts(cfg, ips) == [MemberText(cfg, a), MemberText(cfg, b)];
    JoinTwo(HostText(cfg, a), HostText(cfg, b));
    JoinTwo(MemberText(cfg, a), MemberText(cfg, b));
  }
}
