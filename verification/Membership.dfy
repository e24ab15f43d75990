/** The daemon's reconciliation of etcd's members with the addresses the Flux API desires. */
module Membership {
  import opened Text
  import opened Settings
  import opened Topology
  import opened Etcd

  /** The client URL a node of the cluster advertises. */
  function ClientURL(cfg: Config, ip: string): string {
    EtcdProtocol(cfg) + "://" + ip + ":" + IntText(cfg.hostEtcdClientPort)
  }

  predicate IsSuffix(b: string, a: string) {
    |b| <= |a| && a[|a| - |b|..] == b
  }

  lemma ColonsOfURL(proto: string, ip: string, port: string)
    requires ':' !in proto && IsIPv4(ip) && ':' !in port && port != "" && port[0] != '/'
    ensures var url := proto + "://" + ip + ":" + port;
            && |url| == |proto| + 4 + |ip| + |port|
            && url[|proto| + 1] == '/' && url[|proto| + 2] == '/'
            && (forall k | 0 <= k < |ip| :: url[|proto| + 3 + k] == ip[k])
            && (forall k | 0 <= k < |port| :: url[|proto| + 4 + |ip| + k] == port[k])
            && forall k | 0 <= k < |url| :: url[k] == ':' <==> k == |proto| || k == |proto| + 3 + |ip|
  {
    var url := proto + "://" + ip + ":" + port;
    forall k | 0 <= k < |url| ensures url[k] == ':' <==> k == |proto| || k == |proto| + 3 + |ip| {
      if k < |proto| {
        assert url[k] == proto[k] && proto[k] in proto;
      } else if k >= |proto| + 4 + |ip| {
        assert url[k] == port[k - (|proto| + 4 + |ip|)] && port[k - (|proto| + 4 + |ip|)] in port;
      }
    }
  }

  lemma SuffixIsContained(proto: string, a: string, b: string, port: string)
    requires IsSuffix(b, a)
    ensures Contains(proto + "://" + a + ":" + port, b + ":" + port)
  {
    var url, needle := proto + "://" + a + ":" + port, b + ":" + port;
    var i := |url| - |needle|;
    var head := proto + "://" + a[..|a| - |b|];
    assert a == a[..|a| - |b|] + b;
    assert url == head + needle;
    assert OccursAt(url, needle, i);
  }

  lemma ContainedIsSuffix(proto: string, a: string, b: string, port: string, i: int)
    requires ':' !in proto && IsIPv4(a) && IsIPv4(b) && ':' !in port && port != "" && port[0] != '/'
    requires OccursAt(proto + "://" + a + ":" + port, b + ":" + port, i)
    ensures IsSuffix(b, a)
  {
    var url, needle := proto + "://" + a + ":" + port, b + ":" + port;
    ColonsOfURL(proto, a, port);
    OccursChars(url, needle, i);
    assert needle[|b|] == ':' && needle[|b| + 1] == port[0] && forall k | 0 <= k < |b| :: needle[k] == b[k];
    hide OccursAt;
    MatchEndsAtPort(url, |proto|, a, b, port, i);
  }

  lemma OccursChars(hay: string, needle: string, i: int)
    requires OccursAt(hay, needle, i)
    ensures forall k | 0 <= k < |needle| :: hay[i + k] == needle[k]
  {
    forall k | 0 <= k < |needle| ensures hay[i + k] == needle[k] {
      assert hay[i..i + |needle|][k] == needle[k];
    }
  }

  /** A match of an address and port inside a URL ends with the URL's own port. */
  lemma MatchEndsAtPort(url: string, p: nat, a: string, b: string, port: string, i: nat)
    requires IsIPv4(a) && IsIPv4(b) && port != "" && port[0] != '/'
    requires |url| == p + 4 + |a| + |port| && i + |b| + 1 < |url|
    requires url[p + 1] == '/' && url[p + 2] == '/'
    requires forall k | 0 <= k < |a| :: url[p + 3 + k] == a[k]
    requires forall k | 0 <= k < |url| :: url[k] == ':' <==> k == p || k == p + 3 + |a|
    requires forall k | 0 <= k < |b| :: url[i + k] == b[k]
    requires url[i + |b|] == ':' && url[i + |b| + 1] == port[0]
    ensures IsSuffix(b, a)
  {
    assert i + |b| == p + 3 + |a|;
    forall j | i <= j < i + |b| ensures url[j] != '/' {
      assert url[i + (j - i)] == b[j - i];
    }
    assert |b| <= |a|;
    forall k | 0 <= k < |b| ensures b[k] == a[|a| - |b| + k] {
      assert url[i + k] == url[p + 3 + (|a| - |b| + k)];
    }
    assert a[|a| - |b|..] == b;
  }

  /** The substring test of FindByClientIP is a suffix test on addresses. */
  lemma ContainsIsSuffix(proto: string, a: string, b: string, port: string)
    requires ':' !in proto && IsIPv4(a) && IsIPv4(b) && ':' !in port && port != "" && port[0] != '/'
    ensures Contains(proto + "://" + a + ":" + port, b + ":" + port) <==> IsSuffix(b, a)
  {
    hide OccursAt, IsSuffix;
    var url, needle := proto + "://" + a + ":" + port, b + ":" + port;
    if IsSuffix(b, a) {
      SuffixIsContained(proto, a, b, port);
    }
    if Contains(url, needle) {
      var i :| 0 <= i <= |url| - |needle| && OccursAt(url, needle, i);
      ContainedIsSuffix(proto, a, b, port, i);
    }
  }

  /** The address a member stands for: where its clients reach it, or where its peers will. */
  function AddressOf(m: Member): string {
    HostOfURL(if m.clientURLs == "" then m.peerURLs else m.clientURLs)
  }

  /** Members as this cluster registers them: one ID each, unstarted exactly while they have no
      client URL, and one client URL each. */
  ghost predicate Registered(cfg: Config, members: seq<Member>) {
    && (forall m | m in members ::
          && m.id != ""
          && (m.unstarted <==> m.clientURLs == "")
          && (!m.unstarted ==> IsIPv4(AddressOf(m)) && m.clientURLs == ClientURL(cfg, AddressOf(m))))
    && (forall m, n | m in members && n in members && m.id == n.id :: m == n)
  }

  /** Registered members none of whose client addresses is a suffix of another's. */
  ghost predicate Orderly(cfg: Config, members: seq<Member>) {
    && Registered(cfg, members)
    && (forall m, n | m in members && n in members && !m.unstarted && !n.unstarted && m != n ::
          !IsSuffix(AddressOf(m), AddressOf(n)))
  }

  function ClientNeedle(cfg: Config, ip: string): string {
    ip + ":" + IntText(cfg.hostEtcdClientPort)
  }

  lemma MatchIsSuffix(cfg: Config, a: string, b: string)
    requires IsIPv4(a) && IsIPv4(b)
    ensures Contains(ClientURL(cfg, a), ClientNeedle(cfg, b)) <==> IsSuffix(b, a)
  {
    var port := IntText(cfg.hostEtcdClientPort);
    assert port[0] in port;
    ContainsIsSuffix(EtcdProtocol(cfg), a, b, port);
  }

  /** Looking a member up by its own address finds it exactly when no earlier member's address
      ends in that address. */
  lemma FindsItself(cfg: Config, members: seq<Member>, k: nat)
    requires forall i | 0 <= i < |members| ::
               IsIPv4(AddressOf(members[i])) && members[i].clientURLs == ClientURL(cfg, AddressOf(members[i]))
    requires k < |members| && forall i | 0 <= i < k :: members[i] != members[k]
    ensures var needle := ClientNeedle(cfg, AddressOf(members[k]));
            FirstWith(members, (m: Member) => Contains(m.clientURLs, needle), Some(members[k])) <==>
            forall i | 0 <= i < k :: !IsSuffix(AddressOf(members[k]), AddressOf(members[i]))
  {
    hide Contains, IsSuffix, HostOfURL;
    var ip := AddressOf(members[k]);
    forall i | 0 <= i < |members|
      ensures Contains(members[i].clientURLs, ClientNeedle(cfg, ip)) <==> IsSuffix(ip, AddressOf(members[i]))
    {
      MatchIsSuffix(cfg, AddressOf(members[i]), ip);
    }
    assert IsSuffix(ip, ip) by { SuffixOfItself(ip); }
    assert Contains(members[k].clientURLs, ClientNeedle(cfg, ip));
  }

  lemma SuffixOfItself(s: string)
    ensures IsSuffix(s, s)
  {
  }

  /** Without that condition the wrong member is found: a desired one, say. */
  lemma SuffixMisleads(cfg: Config)
    ensures var wanted := Member("a", "node-11-2-3-4", "", ClientURL(cfg, "11.2.3.4"), false, false);
            var departed := Member("b", "node-1-2-3-4", "", ClientURL(cfg, "1.2.3.4"), false, false);
            FirstWith([wanted, departed],
                      (m: Member) => Contains(m.clientURLs, ClientNeedle(cfg, "1.2.3.4")), Some(wanted))
  {
    var wanted := Member("a", "node-11-2-3-4", "", ClientURL(cfg, "11.2.3.4"), false, false);
    var departed := Member("b", "node-1-2-3-4", "", ClientURL(cfg, "1.2.3.4"), false, false);
    MatchIsSuffix(cfg, "11.2.3.4", "1.2.3.4");
    assert "11.2.3.4"[1..] == "1.2.3.4";
    assert [wanted, departed][0] == wanted;
  }

  // ----- the registry and its removals -----

  /** The members whose ID is none of the given ones, in order. */
  function WithoutIds(members: seq<Member>, ids: set<string>): (r: seq<Member>)
    ensures forall m :: m in r <==> m in members && m.id !in ids
  {
    if members == [] then []
    else
      var rest, last := members[..|members| - 1], members[|members| - 1];
      assert members == rest + [last];
      WithoutIds(rest, ids) + if last.id in ids then [] else [last]
  }

  lemma LastRemoval(rest: seq<Member>, last: Member, ids: set<string>)
    ensures WithoutIds(rest + [last], ids) == WithoutIds(rest, ids) + if last.id in ids then [] else [last]
  {
    assert (rest + [last])[..|rest|] == rest;
  }

  /** Removals add up, whatever their order. */
  lemma {:induction false} RemovalsAddUp(members: seq<Member>, first: set<string>, later: set<string>)
    ensures WithoutIds(WithoutIds(members, first), later) == WithoutIds(members, first + later)
  {
    if members == [] {
      assert WithoutIds([], first) == [];
    } else {
      var rest, last := members[..|members| - 1], members[|members| - 1];
      assert members == rest + [last];
      RemovalsAddUp(rest, first, later);
      hide WithoutIds;
      LastRemoval(rest, last, first);
      LastRemoval(rest, last, first + later);
      if last.id in first {
        assert WithoutIds(members, first) == WithoutIds(rest, first);
        assert WithoutIds(members, first + later) == WithoutIds(rest, first + later);
      } else {
        LastRemoval(WithoutIds(rest, first), last, later);
      }
    }
  }

  lemma {:induction false} NothingRemoved(members: seq<Member>)
    ensures WithoutIds(members, {}) == members
  {
    if members != [] {
      var rest, last := members[..|members| - 1], members[|members| - 1];
      assert members == rest + [last];
      NothingRemoved(rest);
    }
  }

  /** etcd's member registry, as the daemon changes it. */
  class Registry {
    var members: seq<Member>

    constructor (initial: seq<Member>)
      ensures members == initial
    {
      members := initial;
    }

    /** `member remove`: the call may fail. */
    method MemberRemove(id: string, works: bool)
      modifies this
      ensures members == WithoutIds(old(members), if works then {id} else {})
    {
      if works {
        members := WithoutIds(members, {id});
      } else {
        NothingRemoved(members);
      }
    }
  }

  predicate IsGhost(m: Member, desired: seq<string>) {
    m.unstarted && HostOfURL(m.peerURLs) !in desired
  }

  /** The IDs that the ghost cleanup removes. */
  ghost function GhostIds(listing: seq<Member>, desired: seq<string>, works: string -> bool): set<string> {
    set m | m in listing && IsGhost(m, desired) && works(m.id) :: m.id
  }

  lemma GhostStep(listing: seq<Member>, i: nat, desired: seq<string>, works: string -> bool)
    requires i < |listing|
    ensures GhostIds(listing[..i + 1], desired, works) ==
            GhostIds(listing[..i], desired, works) +
            if IsGhost(listing[i], desired) && works(listing[i].id) then {listing[i].id} else {}
  {
    hide IsGhost;
    assert listing[..i + 1] == listing[..i] + [listing[i]];
  }

  /** Remove the unstarted members whose address is not desired. */
  method RemoveGhosts(reg: Registry, desired: seq<string>, works: string -> bool)
    modifies reg
    ensures reg.members == WithoutIds(old(reg.members), GhostIds(old(reg.members), desired, works))
  {
    hide HostOfURL, GhostIds, WithoutIds;
    var listing := reg.members;
    NoGhostYet(listing, desired, works);
    for i := 0 to |listing|
      invariant reg.members == WithoutIds(listing, GhostIds(listing[..i], desired, works))
    {
      GhostStep(listing, i, desired, works);
      var m := listing[i];
      if !m.unstarted {
        assert GhostIds(listing[..i + 1], desired, works) == GhostIds(listing[..i], desired, works);
        continue;
      }
      var ghostIP := HostOfURL(m.peerURLs);
      if ghostIP in desired {
        assert GhostIds(listing[..i + 1], desired, works) == GhostIds(listing[..i], desired, works);
        continue;
      }
      reg.MemberRemove(m.id, works(m.id));
      RemovalsAddUp(listing, GhostIds(listing[..i], desired, works), if works(m.id) then {m.id} else {});
    }
    assert listing[..|listing|] == listing;
  }

  lemma NoGhostYet(listing: seq<Member>, desired: seq<string>, works: string -> bool)
    ensures GhostIds(listing[..0], desired, works) == {} && WithoutIds(listing, {}) == listing
  {
    NothingRemoved(listing);
  }

  function MemberIP(m: Member): seq<string> {
    if m.clientURLs == "" || HostOfURL(m.clientURLs) == "" then [] else [HostOfURL(m.clientURLs)]
  }

  function MemberIPs(members: seq<Member>): (ips: seq<string>)
    ensures forall ip :: ip in ips <==> exists m :: m in members && ip in MemberIP(m)
  {
    if members == [] then []
    else
      var rest, last := members[..|members| - 1], members[|members| - 1];
      assert members == rest + [last];
      MemberIPs(rest) + MemberIP(last)
  }

  method ListMemberIPs(members: seq<Member>) returns (out: seq<string>)
    ensures out == MemberIPs(members)
    ensures forall ip :: ip in out <==>
              ip != "" && exists m :: m in members && m.clientURLs != "" && HostOfURL(m.clientURLs) == ip
  {
    out := [];
    for i := 0 to |members|
      invariant out == MemberIPs(members[..i])
    {
      assert members[..i + 1][..i] == members[..i];
      if members[i].clientURLs == "" {
        continue;
      }
      var ip := HostOfURL(members[i].clientURLs);
      if ip != "" {
        out := out + [ip];
      }
    }
    assert members[..|members|] == members;
  }

  /** An address that this cycle wants gone. */
  predicate Departing(ip: string, desired: seq<string>, stable: bool, reachable: string -> bool) {
    ip !in desired && (stable || !reachable(ip))
  }

  /** The lookup of an address by FindByClientIP ends at this member. */
  ghost predicate Strikes(cfg: Config, listing: seq<Member>, ip: string, m: Member) {
    FirstWith(listing, (x: Member) => Contains(x.clientURLs, ClientNeedle(cfg, ip)), Some(m))
  }

  /** Some departing address among these leads to this member. */
  ghost predicate StruckBy(cfg: Config, listing: seq<Member>, ips: seq<string>, desired: seq<string>, stable: bool,
                           reachable: string -> bool, m: Member) {
    exists ip | ip in ips :: Departing(ip, desired, stable, reachable) && Strikes(cfg, listing, ip, m)
  }

  /** The IDs that the lookups of some addresses of the listing remove. */
  ghost function StruckIds(cfg: Config, listing: seq<Member>, ips: seq<string>, desired: seq<string>, stable: bool,
                           reachable: string -> bool, works: string -> bool): set<string> {
    set m | m in listing && m.id != "" && works(m.id) && StruckBy(cfg, listing, ips, desired, stable, reachable, m) ::
        m.id
  }

  /** The IDs that the membership loop removes. */
  ghost function DepartedIds(cfg: Config, listing: seq<Member>, desired: seq<string>, stable: bool,
                             reachable: string -> bool, works: string -> bool): set<string> {
    StruckIds(cfg, listing, MemberIPs(listing), desired, stable, reachable, works)
  }

  lemma StruckStep(cfg: Config, listing: seq<Member>, ips: seq<string>, i: nat, desired: seq<string>, stable: bool,
                   reachable: string -> bool, works: string -> bool, r: Option<Member>)
    requires i < |ips|
    requires Departing(ips[i], desired, stable, reachable) ==>
      FirstWith(listing, (x: Member) => Contains(x.clientURLs, ClientNeedle(cfg, ips[i])), r)
    ensures StruckIds(cfg, listing, ips[..i + 1], desired, stable, reachable, works) ==
            StruckIds(cfg, listing, ips[..i], desired, stable, reachable, works) +
            if Departing(ips[i], desired, stable, reachable) && r.Some? && r.value.id != "" && works(r.value.id)
            then {r.value.id} else {}
  {
    hide Contains, Departing;
    var before, after := ips[..i], ips[..i + 1];
    assert after == before + [ips[i]];
    forall m | m in listing
      ensures StruckBy(cfg, listing, after, desired, stable, reachable, m) <==>
              StruckBy(cfg, listing, before, desired, stable, reachable, m) ||
              (Departing(ips[i], desired, stable, reachable) && r == Some(m))
    {
      if Departing(ips[i], desired, stable, reachable) && Strikes(cfg, listing, ips[i], m) {
        assert r == Some(m);
      }
    }
  }

  /** The membership loop of the reconcile cycle, over a listing of the registry. */
  method RemoveDeparted(cfg: Config, reg: Registry, listing: seq<Member>, desired: seq<string>, stable: bool,
                        reachable: string -> bool, works: string -> bool)
    modifies reg
    ensures reg.members == WithoutIds(old(reg.members), DepartedIds(cfg, listing, desired, stable, reachable, works))
  {
    hide HostOfURL, Contains, StruckIds, WithoutIds, FirstWith, ClientNeedle;
    var current := ListMemberIPs(listing);
    ghost var before := reg.members;
    NothingStruckYet(cfg, listing, current, before, desired, stable, reachable, works);
    for i := 0 to |current|
      invariant reg.members == WithoutIds(before, StruckIds(cfg, listing, current[..i], desired, stable, reachable,
          works))
    {
      var ip := current[i];
      ghost var struck := StruckIds(cfg, listing, current[..i], desired, stable, reachable, works);
      if ip in desired {
        StruckStep(cfg, listing, current, i, desired, stable, reachable, works, None);
        assert struck + {} == struck;
        continue;
      }
      if !stable && reachable(ip) {
        StruckStep(cfg, listing, current, i, desired, stable, reachable, works, None);
        assert struck + {} == struck;
        continue;
      }
      var m := FindByClientIP(listing, ClientNeedle(cfg, ip));
      StruckStep(cfg, listing, current, i, desired, stable, reachable, works, m);
      if m.Some? && m.value.id != "" {
        reg.MemberRemove(m.value.id, works(m.value.id));
        RemovalsAddUp(before, struck, if works(m.value.id) then {m.value.id} else {});
      } else {
        assert struck + {} == struck;
      }
    }
    assert current[..|current|] == current;
  }

  lemma NothingStruckYet(cfg: Config, listing: seq<Member>, ips: seq<string>, members: seq<Member>,
                         desired: seq<string>,
                         stable: bool, reachable: string -> bool, works: string -> bool)
    ensures StruckIds(cfg, listing, ips[..0], desired, stable, reachable, works) == {} &&
        WithoutIds(members, {}) == members
  {
    NothingRemoved(members);
  }

  /** What the cycle lists for the membership loop: the registry after the ghost cleanup, or nothing
      when that listing fails. */
  ghost function Relisted(members: seq<Member>, desired: seq<string>, works: string -> bool,
                          relisted: bool): seq<Member> {
    if relisted then WithoutIds(members, GhostIds(members, desired, works)) else []
  }

  /** The IDs a cycle removes. */
  ghost function RemovedIds(cfg: Config, members: seq<Member>, desired: seq<string>, stable: bool,
                            reachable: string -> bool, works: string -> bool, relisted: bool): set<string> {
    GhostIds(members, desired, works) +
    DepartedIds(cfg, Relisted(members, desired, works, relisted), desired, stable, reachable, works)
  }

  // ----- who goes, under the addresses of the listing -----

  /** x is the first started member whose address ends in ip. */
  ghost predicate FirstEndingIn(listing: seq<Member>, ip: string, x: Member) {
    FirstWith(listing, (m: Member) => !m.unstarted && IsSuffix(ip, AddressOf(m)), Some(x))
  }

  lemma StrikesFirst(cfg: Config, listing: seq<Member>, ip: string, x: Member)
    requires Registered(cfg, listing) && IsIPv4(ip)
    ensures Strikes(cfg, listing, ip, x) <==> FirstEndingIn(listing, ip, x)
  {
    hide Contains, HostOfURL, IsSuffix, IntText;
    forall i | 0 <= i < |listing|
      ensures Contains(listing[i].clientURLs, ClientNeedle(cfg, ip)) <==>
              !listing[i].unstarted && IsSuffix(ip, AddressOf(listing[i]))
    {
      assert listing[i] in listing;
      if listing[i].unstarted {
        NothingInEmpty(ClientNeedle(cfg, ip));
      } else {
        MatchIsSuffix(cfg, AddressOf(listing[i]), ip);
      }
    }
    hide ClientNeedle;
    SameFirst(listing, (m: Member) => Contains(m.clientURLs, ClientNeedle(cfg, ip)),
              (m: Member) => !m.unstarted && IsSuffix(ip, AddressOf(m)), x);
  }

  lemma SameFirst(listing: seq<Member>, p: Member -> bool, q: Member -> bool, x: Member)
    requires forall i | 0 <= i < |listing| :: p(listing[i]) <==> q(listing[i])
    ensures FirstWith(listing, p, Some(x)) <==> FirstWith(listing, q, Some(x))
  {
  }

  lemma NothingInEmpty(needle: string)
    requires needle != ""
    ensures !Contains("", needle)
  {
  }

  /** The addresses of a registered listing are those of its started members. */
  lemma AddressesOf(cfg: Config, listing: seq<Member>, ip: string)
    requires Registered(cfg, listing)
    ensures ip in MemberIPs(listing) <==> exists m :: m in listing && !m.unstarted && AddressOf(m) == ip
    ensures ip in MemberIPs(listing) ==> IsIPv4(ip)
  {
    hide HostOfURL;
    if m :| m in listing && !m.unstarted && AddressOf(m) == ip {
      assert ip in MemberIP(m);
    }
  }

  /** Exactly who the membership loop removes: the first started member whose address ends in some
      departing address. */
  lemma DepartedExactly(cfg: Config, listing: seq<Member>, desired: seq<string>, stable: bool,
                        reachable: string -> bool, works: string -> bool, x: Member)
    requires Registered(cfg, listing) && x in listing
    ensures x.id in DepartedIds(cfg, listing, desired, stable, reachable, works) <==>
            works(x.id) && exists ip ::
              ip in MemberIPs(listing) && Departing(ip, desired, stable, reachable) && FirstEndingIn(listing, ip, x)
  {
    hide Strikes, FirstEndingIn, Departing, MemberIPs, HostOfURL, IsIPv4;
    forall ip | ip in MemberIPs(listing) ensures Strikes(cfg, listing, ip, x) <==> FirstEndingIn(listing, ip, x) {
      AddressesOf(cfg, listing, ip);
      StrikesFirst(cfg, listing, ip, x);
    }
  }

  /** The loop spares every desired member if and only if no departing address ends a desired one that
      is listed before every other match, or the removal fails. */
  lemma SparesDesired(cfg: Config, listing: seq<Member>, desired: seq<string>, stable: bool,
                      reachable: string -> bool, works: string -> bool)
    requires Registered(cfg, listing)
    ensures (forall x | x in listing && AddressOf(x) in desired ::
               x.id !in DepartedIds(cfg, listing, desired, stable, reachable, works)) <==>
            (forall ip, x | ip in MemberIPs(listing) && Departing(ip, desired, stable, reachable) &&
                            x in listing && FirstEndingIn(listing, ip, x) && works(x.id) :: AddressOf(x) !in desired)
  {
    hide FirstEndingIn, Departing, MemberIPs, HostOfURL, IsIPv4, DepartedIds;
    forall x | x in listing
      ensures x.id in DepartedIds(cfg, listing, desired, stable, reachable, works) <==>
              works(x.id) && exists ip ::
                ip in MemberIPs(listing) && Departing(ip, desired, stable, reachable) && FirstEndingIn(listing, ip, x)
    {
      DepartedExactly(cfg, listing, desired, stable, reachable, works, x);
    }
  }

  lemma EndsIn(listing: seq<Member>, ip: string, x: Member)
    requires FirstEndingIn(listing, ip, x)
    ensures |ip| < |AddressOf(x)| || ip == AddressOf(x)
  {
    hide HostOfURL;
  }

  /** When the loop removes exactly the departing members, each of them is the first whose address ends
      in its own. */
  lemma {:induction false} EachFindsItself(cfg: Config, listing: seq<Member>, desired: seq<string>, stable: bool,
                                           reachable: string -> bool, works: string -> bool, x: Member)
    requires Registered(cfg, listing) && x in listing && !x.unstarted
    requires Departing(AddressOf(x), desired, stable, reachable)
    requires forall y | y in listing && !y.unstarted && Departing(AddressOf(y), desired, stable, reachable) ::
               y.id in DepartedIds(cfg, listing, desired, stable, reachable, works)
    ensures FirstEndingIn(listing, AddressOf(x), x)
    decreases |AddressOf(x)|
  {
    hide Departing, MemberIPs, HostOfURL, IsIPv4, DepartedIds, IsSuffix, FirstEndingIn;
    DepartedExactly(cfg, listing, desired, stable, reachable, works, x);
    var ip :| ip in MemberIPs(listing) && Departing(ip, desired, stable, reachable) && FirstEndingIn(listing, ip, x);
    AddressesOf(cfg, listing, ip);
    var y :| y in listing && !y.unstarted && AddressOf(y) == ip;
    EndsIn(listing, ip, x);
    if ip != AddressOf(x) {
      EachFindsItself(cfg, listing, desired, stable, reachable, works, y);
      FirstIsOne(listing, ip, x, y);
    }
  }

  /** With working removals, the loop removes exactly the departing members if and only if no departing
      member's address ends the address of an earlier started member. */
  lemma RemovesExactlyDeparting(cfg: Config, listing: seq<Member>, desired: seq<string>, stable: bool,
                                reachable: string -> bool, works: string -> bool)
    requires Registered(cfg, listing) && forall id :: works(id)
    ensures (forall x | x in listing && !x.unstarted ::
               x.id in DepartedIds(cfg, listing, desired, stable, reachable, works) <==>
               Departing(AddressOf(x), desired, stable, reachable)) <==>
            (forall x | x in listing && !x.unstarted && Departing(AddressOf(x), desired, stable, reachable) ::
               FirstEndingIn(listing, AddressOf(x), x))
  {
    hide Departing, MemberIPs, HostOfURL, IsIPv4, DepartedIds, FirstEndingIn;
    if forall x | x in listing && !x.unstarted ::
         x.id in DepartedIds(cfg, listing, desired, stable, reachable, works) <==>
         Departing(AddressOf(x), desired, stable, reachable)
    {
      forall x | x in listing && !x.unstarted && Departing(AddressOf(x), desired, stable, reachable)
        ensures FirstEndingIn(listing, AddressOf(x), x)
      {
        EachFindsItself(cfg, listing, desired, stable, reachable, works, x);
      }
    }
    if forall x | x in listing && !x.unstarted && Departing(AddressOf(x), desired, stable, reachable) ::
         FirstEndingIn(listing, AddressOf(x), x)
    {
      forall x | x in listing && !x.unstarted
        ensures x.id in DepartedIds(cfg, listing, desired, stable, reachable, works) <==>
                Departing(AddressOf(x), desired, stable, reachable)
      {
        DepartsAlone(cfg, listing, desired, stable, reachable, works, x);
      }
    }
  }

  lemma DepartsAlone(cfg: Config, listing: seq<Member>, desired: seq<string>, stable: bool,
                     reachable: string -> bool, works: string -> bool, x: Member)
    requires Registered(cfg, listing) && x in listing && !x.unstarted
    requires forall y | y in listing && !y.unstarted && Departing(AddressOf(y), desired, stable, reachable) ::
               FirstEndingIn(listing, AddressOf(y), y)
    ensures x.id in DepartedIds(cfg, listing, desired, stable, reachable, works) <==>
            works(x.id) && Departing(AddressOf(x), desired, stable, reachable)
  {
    hide Departing, MemberIPs, HostOfURL, IsIPv4, DepartedIds;
    DepartedExactly(cfg, listing, desired, stable, reachable, works, x);
    AddressesOf(cfg, listing, AddressOf(x));
    if ip :| ip in MemberIPs(listing) && Departing(ip, desired, stable, reachable) && FirstEndingIn(listing, ip, x) {
      AddressesOf(cfg, listing, ip);
      var y :| y in listing && !y.unstarted && AddressOf(y) == ip;
      FirstIsOne(listing, ip, x, y);
    }
  }

  lemma FirstIsOne(listing: seq<Member>, ip: string, x: Member, y: Member)
    requires FirstEndingIn(listing, ip, x) && FirstEndingIn(listing, ip, y)
    ensures x == y
  {
    hide IsSuffix, HostOfURL;
  }

  // ----- the whole cycle -----

  lemma RelistedRegistered(cfg: Config, members: seq<Member>, desired: seq<string>, works: string -> bool,
                           relisted: bool)
    requires Registered(cfg, members)
    ensures Registered(cfg, Relisted(members, desired, works, relisted))
    ensures forall x | x in Relisted(members, desired, works, relisted) :: x in members
    ensures forall x | relisted && x in members && !x.unstarted :: x in Relisted(members, desired, works, relisted)
  {
    hide HostOfURL, ClientURL, IsIPv4;
  }

  /** Which member a cycle removes: a ghost, or a started one that the membership loop strikes. */
  lemma CycleExactly(cfg: Config, members: seq<Member>, desired: seq<string>, stable: bool,
                     reachable: string -> bool, works: string -> bool, relisted: bool, x: Member)
    requires Registered(cfg, members) && x in members
    ensures x.id in RemovedIds(cfg, members, desired, stable, reachable, works, relisted) <==>
            if x.unstarted then IsGhost(x, desired) && works(x.id)
            else x.id in DepartedIds(cfg, Relisted(members, desired, works, relisted), desired, stable, reachable,
                works)
  {
    hide HostOfURL, ClientURL, IsIPv4, DepartedIds, FirstEndingIn, Departing, MemberIPs;
    var listing := Relisted(members, desired, works, relisted);
    RelistedRegistered(cfg, members, desired, works, relisted);
    if x.unstarted && x.id in DepartedIds(cfg, listing, desired, stable, reachable, works) {
      var m := StruckMember(cfg, listing, desired, stable, reachable, works, x.id);
    }
  }

  lemma StruckMember(cfg: Config, listing: seq<Member>, desired: seq<string>, stable: bool,
                     reachable: string -> bool, works: string -> bool, id: string) returns (m: Member)
    requires Registered(cfg, listing) && id in DepartedIds(cfg, listing, desired, stable, reachable, works)
    ensures m in listing && m.id == id && !m.unstarted
  {
    hide HostOfURL, IsIPv4, Departing, MemberIPs, Strikes;
    m :| m in listing && m.id == id && StruckBy(cfg, listing, MemberIPs(listing), desired, stable, reachable, m);
    var ip :| ip in MemberIPs(listing) && Departing(ip, desired, stable, reachable) && Strikes(cfg, listing, ip, m);
    AddressesOf(cfg, listing, ip);
    StrikesFirst(cfg, listing, ip, m);
  }

  /** A stable cycle whose calls all succeed leaves exactly the desired members if and only if no
      undesired started member's address ends the address of a started member listed before it. */
  lemma LeavesExactlyDesired(cfg: Config, members: seq<Member>, desired: seq<string>,
                             reachable: string -> bool, works: string -> bool)
    requires Registered(cfg, members) && forall id :: works(id)
    ensures (forall x | x in members ::
               x.id in RemovedIds(cfg, members, desired, true, reachable, works, true) <==>
                   AddressOf(x) !in desired) <==>
            (forall x | x in Relisted(members, desired, works, true) && !x.unstarted && AddressOf(x) !in desired ::
               FirstEndingIn(Relisted(members, desired, works, true), AddressOf(x), x))
  {
    hide HostOfURL, ClientURL, IsIPv4, DepartedIds, FirstEndingIn, MemberIPs, RemovedIds, Relisted, Registered;
    var listing := Relisted(members, desired, works, true);
    RelistedRegistered(cfg, members, desired, works, true);
    forall x | x in members
      ensures x.id in RemovedIds(cfg, members, desired, true, reachable, works, true) <==>
              if x.unstarted then AddressOf(x) !in desired
              else x.id in DepartedIds(cfg, listing, desired, true, reachable, works)
    {
      CycleExactly(cfg, members, desired, true, reachable, works, true, x);
      UnstartedAddress(cfg, members, x);
    }
    RemovesExactlyDeparting(cfg, listing, desired, true, reachable, works);
  }

  lemma UnstartedAddress(cfg: Config, members: seq<Member>, x: Member)
    requires Registered(cfg, members) && x in members
    ensures x.unstarted ==> AddressOf(x) == HostOfURL(x.peerURLs)
  {
  }

  /** What a completed cycle leaves under an orderly membership: a member goes exactly when its address
      is not desired, the removal works, and, if it has started, the cycle could list the members again
      and found the desired list stable or the member unreachable. */
  predicate Stays(m: Member, desired: seq<string>, stable: bool, reachable: string -> bool,
                  works: string -> bool, relisted: bool) {
    AddressOf(m) in desired || !works(m.id) ||
    (!m.unstarted && (!relisted || (!stable && reachable(AddressOf(m)))))
  }

  lemma OrderlyStays(cfg: Config, members: seq<Member>, desired: seq<string>, stable: bool,
                     reachable: string -> bool, works: string -> bool, relisted: bool, x: Member)
    requires Orderly(cfg, members) && x in members
    ensures x.id !in RemovedIds(cfg, members, desired, stable, reachable, works, relisted) <==>
            Stays(x, desired, stable, reachable, works, relisted)
  {
    hide HostOfURL, ClientURL, IsIPv4, DepartedIds, FirstEndingIn, MemberIPs, RemovedIds, IsSuffix, Relisted;
    var listing := Relisted(members, desired, works, relisted);
    RelistedRegistered(cfg, members, desired, works, relisted);
    CycleExactly(cfg, members, desired, stable, reachable, works, relisted, x);
    if x.unstarted {
      UnstartedAddress(cfg, members, x);
    } else {
      forall y | y in listing && !y.unstarted ensures FirstEndingIn(listing, AddressOf(y), y) {
        OrderlyFirst(cfg, members, listing, y);
      }
      if relisted {
        DepartsAlone(cfg, listing, desired, stable, reachable, works, x);
      } else {
        NothingRelisted(cfg, members, desired, stable, reachable, works, x);
      }
    }
  }

  lemma OrderlyFirst(cfg: Config, members: seq<Member>, listing: seq<Member>, y: Member)
    requires Orderly(cfg, members) && y in listing && !y.unstarted && forall x | x in listing :: x in members
    ensures FirstEndingIn(listing, AddressOf(y), y)
  {
    hide IsSuffix, HostOfURL;
    SuffixOfItself(AddressOf(y));
    var k := FirstIndex(listing, y);
  }

  lemma {:induction false} FirstIndex(listing: seq<Member>, y: Member) returns (k: nat)
    requires y in listing
    ensures k < |listing| && listing[k] == y && forall j | 0 <= j < k :: listing[j] != y
  {
    if listing[0] == y {
      k := 0;
    } else {
      k := FirstIndex(listing[1..], y);
      k := k + 1;
    }
  }

  /** In an orderly listing, an address leads to its own member. */
  lemma FindsOwner(cfg: Config, listing: seq<Member>, ip: string, r: Option<Member>)
    requires Orderly(cfg, listing) && ip in MemberIPs(listing)
    requires FirstWith(listing, (m: Member) => Contains(m.clientURLs, ClientNeedle(cfg, ip)), r)
    ensures r.Some? && r.value in listing && !r.value.unstarted && AddressOf(r.value) == ip
    ensures forall m | m in listing && !m.unstarted && AddressOf(m) == ip :: m == r.value
  {
    hide Contains, HostOfURL, IsSuffix;
    var owner :| owner in listing && ip in MemberIP(owner);
    assert AddressOf(owner) == ip && !owner.unstarted;
    forall m | m in listing && !m.unstarted
      ensures Contains(m.clientURLs, ClientNeedle(cfg, ip)) <==> m == owner
    {
      MatchIsSuffix(cfg, AddressOf(m), ip);
      SuffixOfItself(ip);
    }
    forall m | m in listing && m.unstarted ensures !Contains(m.clientURLs, ClientNeedle(cfg, ip)) {
      NothingInEmpty(ClientNeedle(cfg, ip));
    }
    var k :| 0 <= k < |listing| && listing[k] == owner;
    assert forall m | m in listing && !m.unstarted && AddressOf(m) == ip :: m == owner by {
      SuffixOfItself(ip);
    }
  }

  lemma NothingRelisted(cfg: Config, members: seq<Member>, desired: seq<string>, stable: bool,
                        reachable: string -> bool, works: string -> bool, x: Member)
    ensures x.id !in DepartedIds(cfg, Relisted(members, desired, works, false), desired, stable, reachable, works)
  {
  }

  /** A completed cycle, exactly; and what it keeps and leaves when no address ends another. */
  method ReconcileMembers(cfg: Config, reg: Registry, desired: seq<string>, stable: bool,
                          reachable: string -> bool, works: string -> bool, relisted: bool)
    modifies reg
    ensures reg.members ==
            WithoutIds(old(reg.members), RemovedIds(cfg, old(reg.members), desired, stable, reachable, works, relisted))
    ensures Orderly(cfg, old(reg.members)) ==>
              forall x :: x in reg.members <==>
                && x in old(reg.members)
                && (|| AddressOf(x) in desired || !works(x.id)
                    || (!x.unstarted && (!relisted || (!stable && reachable(AddressOf(x))))))
    ensures Orderly(cfg, old(reg.members)) ==>
              forall x | x in old(reg.members) && AddressOf(x) in desired :: x in reg.members
    ensures Orderly(cfg, old(reg.members)) && !stable ==>
              forall x | x in old(reg.members) && !x.unstarted && reachable(AddressOf(x)) :: x in reg.members
    ensures Orderly(cfg, old(reg.members)) && stable && relisted && (forall id :: works(id)) ==>
              forall x :: x in reg.members <==> x in old(reg.members) && AddressOf(x) in desired
  {
    hide HostOfURL, Orderly, GhostIds, DepartedIds;
    ghost var before := reg.members;
    RemoveGhosts(reg, desired, works);
    var listing := if relisted then reg.members else [];
    RemoveDeparted(cfg, reg, listing, desired, stable, reachable, works);
    RemovalsAddUp(before, GhostIds(before, desired, works), DepartedIds(cfg, listing, desired, stable, reachable,
        works));
    if Orderly(cfg, before) {
      forall x | x in before
        ensures x.id !in RemovedIds(cfg, before, desired, stable, reachable, works, relisted) <==>
                Stays(x, desired, stable, reachable, works, relisted)
      {
        OrderlyStays(cfg, before, desired, stable, reachable, works, relisted, x);
      }
    }
  }

  lemma HostOfClientURL(cfg: Config, ip: string)
    requires IsIPv4(ip)
    ensures HostOfURL(ClientURL(cfg, ip)) == ip
  {
    var port := IntText(cfg.hostEtcdClientPort);
    var rest := ip + ":" + port;
    assert ClientURL(cfg, ip) == EtcdProtocol(cfg) + "://" + rest;
    AfterSchemeAt(EtcdProtocol(cfg), rest);
    LastColon(ip, port);
  }

  /** A started member listed before one whose address its own ends in: when only the first is desired,
      a stable cycle removes it and keeps the departed one. */
  lemma RemovesDesired(cfg: Config, wanted: Member, departed: Member, reachable: string -> bool, works: string -> bool)
    requires Registered(cfg, [wanted, departed]) && !wanted.unstarted && !departed.unstarted
    requires IsSuffix(AddressOf(departed), AddressOf(wanted)) && AddressOf(departed) != AddressOf(wanted)
    requires wanted.id != departed.id && works(wanted.id)
    ensures var ids := RemovedIds(cfg, [wanted, departed], [AddressOf(wanted)], true, reachable, works, true);
            wanted.id in ids && departed.id !in ids
  {
    hide HostOfURL, ClientURL, IsIPv4, DepartedIds, MemberIPs, RemovedIds, IsSuffix, Relisted;
    var members, desired := [wanted, departed], [AddressOf(wanted)];
    assert members[0] == wanted && members[1] == departed && wanted in members && departed in members;
    CycleExactly(cfg, members, desired, true, reachable, works, true, wanted);
    CycleExactly(cfg, members, desired, true, reachable, works, true, departed);
    NoGhosts(members, desired, works);
    AddressesOf(cfg, members, AddressOf(departed));
    DepartedExactly(cfg, members, desired, true, reachable, works, wanted);
    DepartedExactly(cfg, members, desired, true, reachable, works, departed);
    assert FirstEndingIn(members, AddressOf(departed), wanted);
    forall ip | ip in MemberIPs(members) && Departing(ip, desired, true, reachable)
      ensures !FirstEndingIn(members, ip, departed)
    {
      AddressesOf(cfg, members, ip);
      if FirstEndingIn(members, ip, departed) { FirstIsOne(members, ip, wanted, departed); }
    }
  }

  lemma NoGhosts(members: seq<Member>, desired: seq<string>, works: string -> bool)
    requires forall m | m in members :: !m.unstarted
    ensures Relisted(members, desired, works, true) == members
  {
    assert GhostIds(members, desired, works) == {};
    NothingRemoved(members);
  }

  /** So a cycle that wants 11.2.3.4 and not 1.2.3.4 can leave only the latter. */
  lemma RemovesDesiredAddress(cfg: Config, reachable: string -> bool)
    ensures var wanted := Member("a", "node-11-2-3-4", "", ClientURL(cfg, "11.2.3.4"), false, false);
            var departed := Member("b", "node-1-2-3-4", "", ClientURL(cfg, "1.2.3.4"), false, false);
            var ids := RemovedIds(cfg, [wanted, departed], ["11.2.3.4"], true, reachable, _ => true, true);
            WithoutIds([wanted, departed], ids) == [departed]
  {
    hide HostOfURL, RemovedIds;
    var wanted := Member("a", "node-11-2-3-4", "", ClientURL(cfg, "11.2.3.4"), false, false);
    var departed := Member("b", "node-1-2-3-4", "", ClientURL(cfg, "1.2.3.4"), false, false);
    HostOfClientURL(cfg, "11.2.3.4");
    HostOfClientURL(cfg, "1.2.3.4");
    assert "11.2.3.4"[1..] == "1.2.3.4";
    hide ClientURL;
    RemovesDesired(cfg, wanted, departed, reachable, _ => true);
    TwoWithout(wanted, departed, RemovedIds(cfg, [wanted, departed], ["11.2.3.4"], true, reachable, _ => true, true));
  }

  lemma TwoWithout(a: Member, b: Member, ids: set<string>)
    requires a.id in ids && b.id !in ids
    ensures WithoutIds([a, b], ids) == [b]
  {
    assert [a, b][..1] == [a] && [a][..0] == [];
    assert WithoutIds([], ids) == [] && WithoutIds([a], ids) == [];
  }
}
