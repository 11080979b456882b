/**
 Which site lives on which guest: the merge of three sources (`resolve` and its
 helpers, site_discovery/sync.py).

 Host names and addresses are sequences of labels (`a.example.com` is
 ["a", "example", "com"]), already trimmed and lower-cased; the empty text is [].
 The free-text `note` of a row is left out.
 */
module SiteDiscovery {
  import opened Wrappers

  const MAX_CNAME_HOPS := 5

  type Host = seq<string>

  datatype RecordType = A | AAAA | CNAME

  datatype DnsRecord = DnsRecord(rtype: RecordType, content: Host, proxied: bool)

  type Records = map<Host, seq<DnsRecord>>

  datatype ProxyHost = ProxyHost(domains: seq<Host>, forwardHost: Host, forwardPort: Option<int>)

  datatype Npm = Npm(name: string, server: string, ips: set<Host>, ok: bool, hosts: seq<ProxyHost>)

  datatype Cloudflare = Cloudflare(enabled: bool, ok: bool, records: Records)

  datatype Guest = Guest(name: string, server: string, guestName: Host, ips: set<Host>)

  datatype AgentSite = AgentSite(domain: Host, guest: string)

  /** The two questions asked of an address text. */
  datatype Addresses = Addresses(isIp: Host -> bool, isPrivate: Host -> bool)

  datatype Source = FromNpm | DirectDns | PulseAgent

  datatype Status = Active | NotInCloudflare | DnsMismatch | Ambiguous | Unmatched

  datatype Forward = NoForward | Forward(host: Host, port: Option<int>)

  datatype Row = Row(
    source: Source, status: Status, target: Option<Host>, proxied: bool, guest: Option<string>,
    npm: Option<string>, server: Option<string>, forward: Forward, seenByAgent: bool)

  // ---------------------------------------------------------------------------
  // Cloudflare lookup
  // ---------------------------------------------------------------------------

  /** The nearest wildcard above a name, walking up from label `i`; [] if there is none. */
  function Wildcard(records: Records, name: Host, i: nat): seq<DnsRecord>
    decreases |name| - i
  {
    if i + 1 >= |name| then []
    else if ["*"] + name[i..] in records && records[["*"] + name[i..]] != [] then records[["*"] + name[i..]]
    else Wildcard(records, name, i + 1)
  }

  /** The records that answer a name. */
  function Answer(records: Records, name: Host): seq<DnsRecord> {
    if name in records && records[name] != [] then records[name] else Wildcard(records, name, 1)
  }

  predicate IsAddress(r: DnsRecord) {
    r.rtype.A? || r.rtype.AAAA?
  }

  function FirstAddress(recs: seq<DnsRecord>): Option<Host> {
    if recs == [] then None
    else if IsAddress(recs[0]) then Some(recs[0].content)
    else FirstAddress(recs[1..])
  }

  predicate AnyProxied(recs: seq<DnsRecord>) {
    recs != [] && (recs[0].proxied || AnyProxied(recs[1..]))
  }

  datatype Found = Found(target: Option<Host>, proxied: bool, inCloudflare: bool)

  const NOT_CHECKED := Found(None, false, false)

  /** Follow the records from `name`, the `hop`-th name of the chain. */
  function Follow(records: Records, name: Host, hop: nat, proxied: bool, found: bool): Found
    decreases MAX_CNAME_HOPS + 1 - hop
  {
    var recs := Answer(records, name);
    if hop > MAX_CNAME_HOPS then Found(Some(name), proxied, found)
    else if recs == [] then Found(if found then Some(name) else None, proxied, found)
    else
      var proxied' := if hop == 0 then AnyProxied(recs) else proxied;
      if FirstAddress(recs).Some? then Found(FirstAddress(recs), proxied', true)
      else Follow(records, recs[0].content, hop + 1, proxied', true)
  }

  function Lookup(records: Records, domain: Host): Found {
    Follow(records, domain, 0, false, false)
  }

  method CfLookup(records: Records, domain: Host) returns (f: Found)
    ensures f == Lookup(records, domain)
  {
    var name, proxied, found := domain, false, false;
    for hop := 0 to MAX_CNAME_HOPS + 1
      invariant Follow(records, name, hop, proxied, found) == Lookup(records, domain)
    {
      var recs := Answer(records, name);
      if recs == [] {
        return Found(if found then Some(name) else None, proxied, found);
      }
      found := true;
      if hop == 0 {
        proxied := AnyProxied(recs);
      }
      var address := FirstAddress(recs);
      if address.Some? {
        return Found(address, proxied, true);
      }
      name := recs[0].content;
    }
    return Found(Some(name), proxied, found);
  }

  /** The name reached after following `hops` records from `domain`. */
  function NameAt(records: Records, domain: Host, hops: nat): Host {
    if hops == 0 then domain
    else
      var before := NameAt(records, domain, hops - 1);
      if Answer(records, before) == [] then before else Answer(records, before)[0].content
  }

  /** The chain goes on past this name. */
  predicate Continues(records: Records, name: Host) {
    Answer(records, name) != [] && FirstAddress(Answer(records, name)).None?
  }

  /** The chain stops at its `h`-th name with that target: the first address found within the
      hop limit, else the name it leaves Cloudflare at, else the name after the last hop. */
  ghost predicate StopsAt(records: Records, domain: Host, h: nat, target: Option<Host>) {
    var name := NameAt(records, domain, h);
    && (forall k :: 0 <= k < h ==> Continues(records, NameAt(records, domain, k)))
    && (if h == MAX_CNAME_HOPS + 1 then target == Some(name)
        else
          && !Continues(records, name)
          && target == (if Answer(records, name) != [] then FirstAddress(Answer(records, name))
                        else if h > 0 then Some(name) else None))
  }

  lemma {:induction false} FollowStops(records: Records, domain: Host, hop: nat, proxied: bool) returns (h: nat)
    requires hop <= MAX_CNAME_HOPS + 1
    requires forall k :: 0 <= k < hop ==> Continues(records, NameAt(records, domain, k))
    ensures hop <= h <= MAX_CNAME_HOPS + 1
    ensures
      var f := Follow(records, NameAt(records, domain, hop), hop, proxied, hop > 0);
      && StopsAt(records, domain, h, f.target)
      && (hop > 0 ==> f.inCloudflare && f.proxied == proxied)
    decreases MAX_CNAME_HOPS + 1 - hop
  {
    var name := NameAt(records, domain, hop);
    if hop <= MAX_CNAME_HOPS && Continues(records, name) {
      h := FollowStops(records, domain, hop + 1, if hop == 0 then AnyProxied(Answer(records, name)) else proxied);
    } else {
      h := hop;
    }
  }

  /** The lookup always ends, loops or not, and returns the end of the chain. */
  lemma {:induction false} LookupEndsTheChain(records: Records, domain: Host)
    ensures
      var f := Lookup(records, domain);
      && (f.inCloudflare <==> Answer(records, domain) != [])
      && f.proxied == AnyProxied(Answer(records, domain))
      && exists h :: 0 <= h <= MAX_CNAME_HOPS + 1 && StopsAt(records, domain, h, f.target)
  {
    var h := FollowStops(records, domain, 0, false);
    var recs := Answer(records, domain);
    if Continues(records, domain) {
      var h1 := FollowStops(records, domain, 1, AnyProxied(recs));
    }
  }

  /** The nearest wildcard answers a name that has no record of its own. */
  lemma {:induction false} NearestWildcardAnswers(records: Records, name: Host, i: nat, j: nat)
    requires i <= j < |name| - 1
    requires ["*"] + name[j..] in records && records[["*"] + name[j..]] != []
    requires forall k :: i <= k < j ==> ["*"] + name[k..] !in records || records[["*"] + name[k..]] == []
    ensures Wildcard(records, name, i) == records[["*"] + name[j..]]
    decreases j - i
  {
    if i < j {
      NearestWildcardAnswers(records, name, i + 1, j);
    }
  }

  lemma {:induction false} NoWildcardAnswers(records: Records, name: Host, i: nat)
    ensures Wildcard(records, name, i) == [] <==>
      forall j :: i <= j < |name| - 1 ==> ["*"] + name[j..] !in records || records[["*"] + name[j..]] == []
    decreases |name| - i
  {
    if i < |name| - 1 {
      NoWildcardAnswers(records, name, i + 1);
    }
  }

  /** A name with records of its own is answered by them; any other by the nearest wildcard above it
      that has records, and by nothing if there is none. */
  lemma {:induction false} AnswerMeans(records: Records, name: Host)
    ensures name in records && records[name] != [] ==> Answer(records, name) == records[name]
    ensures !(name in records && records[name] != []) ==> forall j ::
      && 1 <= j < |name| - 1 && ["*"] + name[j..] in records && records[["*"] + name[j..]] != []
      && (forall k :: 1 <= k < j ==> ["*"] + name[k..] !in records || records[["*"] + name[k..]] == [])
      ==> Answer(records, name) == records[["*"] + name[j..]]
    ensures Answer(records, name) == [] <==>
      && (name !in records || records[name] == [])
      && forall j :: 1 <= j < |name| - 1 ==> ["*"] + name[j..] !in records || records[["*"] + name[j..]] == []
  {
    NoWildcardAnswers(records, name, 1);
    forall j | 1 <= j < |name| - 1 && ["*"] + name[j..] in records && records[["*"] + name[j..]] != [] &&
               (forall k :: 1 <= k < j ==> ["*"] + name[k..] !in records || records[["*"] + name[k..]] == [])
      ensures Wildcard(records, name, 1) == records[["*"] + name[j..]]
    {
      NearestWildcardAnswers(records, name, 1, j);
    }
  }

  /** The content of the first A or AAAA record. */
  lemma {:induction false} FirstAddressMeans(recs: seq<DnsRecord>)
    ensures FirstAddress(recs).None? <==> forall i :: 0 <= i < |recs| ==> recs[i].rtype.CNAME?
    ensures FirstAddress(recs).Some? ==> exists i ::
      && 0 <= i < |recs| && !recs[i].rtype.CNAME? && FirstAddress(recs) == Some(recs[i].content)
      && forall j :: 0 <= j < i ==> recs[j].rtype.CNAME?
  {
    if recs != [] && recs[0].rtype.CNAME? {
      FirstAddressMeans(recs[1..]);
      assert forall i :: 0 < i < |recs| ==> recs[i] == recs[1..][i - 1];
      if FirstAddress(recs).Some? {
        var i :| && 0 <= i < |recs[1..]| && !recs[1..][i].rtype.CNAME?
                 && FirstAddress(recs) == Some(recs[1..][i].content)
                 && forall j :: 0 <= j < i ==> recs[1..][j].rtype.CNAME?;
        assert recs[i + 1] == recs[1..][i];
      }
    }
  }

  lemma {:induction false} AnyProxiedMeans(recs: seq<DnsRecord>)
    ensures AnyProxied(recs) <==> exists i :: 0 <= i < |recs| && recs[i].proxied
  {
    if recs != [] {
      AnyProxiedMeans(recs[1..]);
      if AnyProxied(recs[1..]) {
        var i :| 0 <= i < |recs[1..]| && recs[1..][i].proxied;
        assert recs[i + 1].proxied;
      }
      if i :| 0 < i < |recs| && recs[i].proxied {
        assert recs[1..][i - 1].proxied;
      }
    }
  }

  // ---------------------------------------------------------------------------
  // Guests
  // ---------------------------------------------------------------------------

  datatype Wanted = HasIp(ip: Host) | HasName(name: Host)

  /** A guest name matches the whole host name or its first label. */
  predicate Fits(g: Guest, wanted: Wanted) {
    match wanted
    case HasIp(ip) => ip in g.ips
    case HasName(name) => g.guestName == name || (name != [] && g.guestName == [name[0]])
  }

  /** The first guest that fits, on the given server if one is given. */
  function FirstGuest(guests: seq<Guest>, wanted: Wanted, server: Option<string>): Option<Guest> {
    if guests == [] then None
    else if Fits(guests[0], wanted) && (server.None? || guests[0].server == server.value) then Some(guests[0])
    else FirstGuest(guests[1..], wanted, server)
  }

  /** A guest on the proxy's own server is preferred over one elsewhere. */
  function Preferred(guests: seq<Guest>, wanted: Wanted, server: string): Option<Guest> {
    var near := FirstGuest(guests, wanted, Some(server));
    if near.Some? then near else FirstGuest(guests, wanted, None)
  }

  /** Match a forward host to a guest, by address first and then by name. */
  function GuestFor(target: Host, server: string, guests: seq<Guest>, addr: Addresses): Option<string> {
    if target == [] then None
    else
      var byIp := Preferred(guests, HasIp(target), server);
      if byIp.Some? then Some(byIp.value.name)
      else if addr.isIp(target) then None
      else
        var byName := Preferred(guests, HasName(target), server);
        if byName.Some? then Some(byName.value.name) else None
  }

  /** Place `i` is the first that holds a guest that fits, on that server if one is given. */
  ghost predicate FirstPlace(guests: seq<Guest>, wanted: Wanted, server: Option<string>, i: nat) {
    && i < |guests| && Fits(guests[i], wanted) && (server.Some? ==> guests[i].server == server.value)
    && forall j :: 0 <= j < i && Fits(guests[j], wanted) ==> server.Some? && guests[j].server != server.value
  }

  lemma {:induction false} FirstGuestFits(guests: seq<Guest>, wanted: Wanted, server: Option<string>)
    ensures FirstGuest(guests, wanted, server).None? <==>
      forall i :: 0 <= i < |guests| && Fits(guests[i], wanted) ==> server.Some? && guests[i].server != server.value
    ensures FirstGuest(guests, wanted, server).Some? ==>
      exists i :: 0 <= i < |guests| && FirstPlace(guests, wanted, server, i) &&
        FirstGuest(guests, wanted, server) == Some(guests[i])
  {
    if guests != [] {
      var rest := guests[1..];
      FirstGuestFits(rest, wanted, server);
      assert forall i :: 0 <= i < |rest| ==> rest[i] == guests[i + 1];
      if Fits(guests[0], wanted) && (server.None? || guests[0].server == server.value) {
        assert FirstPlace(guests, wanted, server, 0);
      } else {
        assert forall i :: 0 < i < |guests| ==> guests[i] == rest[i - 1];
        if FirstGuest(rest, wanted, server).Some? {
          var i :| 0 <= i < |rest| && FirstPlace(rest, wanted, server, i) &&
            FirstGuest(rest, wanted, server) == Some(rest[i]);
          assert FirstPlace(guests, wanted, server, i + 1);
        }
      }
    }
  }

  ghost predicate Someone(guests: seq<Guest>, wanted: Wanted, server: Option<string>) {
    exists i :: 0 <= i < |guests| && Fits(guests[i], wanted) && (server.Some? ==> guests[i].server == server.value)
  }

  /** `name` is that of the first guest that fits on that server, or the first anywhere if none there does. */
  ghost predicate FoundNear(guests: seq<Guest>, wanted: Wanted, server: string, name: string) {
    exists i :: 0 <= i < |guests| && guests[i].name == name &&
      FirstPlace(guests, wanted, if Someone(guests, wanted, Some(server)) then Some(server) else None, i)
  }

  lemma {:induction false} PreferredIsNear(guests: seq<Guest>, wanted: Wanted, server: string)
    ensures Preferred(guests, wanted, server).Some? <==> Someone(guests, wanted, None)
    ensures Preferred(guests, wanted, server).Some? ==>
      FoundNear(guests, wanted, server, Preferred(guests, wanted, server).value.name)
  {
    FirstGuestFits(guests, wanted, Some(server));
    FirstGuestFits(guests, wanted, None);
  }

  /** Some guest has the address. */
  ghost predicate HasAddress(guests: seq<Guest>, ip: Host) {
    exists i :: 0 <= i < |guests| && ip in guests[i].ips
  }

  /** Some guest is named by the whole host name or by its first label. */
  ghost predicate IsNamed(guests: seq<Guest>, name: Host)
    requires name != []
  {
    exists i :: 0 <= i < |guests| && (guests[i].guestName == name || guests[i].guestName == [name[0]])
  }

  /** The guest a forward host can be matched to. */
  ghost predicate Matchable(target: Host, guests: seq<Guest>, addr: Addresses) {
    target != [] && (HasAddress(guests, target) || (!addr.isIp(target) && IsNamed(guests, target)))
  }

  lemma {:induction false} SomeoneMeans(guests: seq<Guest>, target: Host)
    requires target != []
    ensures Someone(guests, HasIp(target), None) <==> HasAddress(guests, target)
    ensures Someone(guests, HasName(target), None) <==> IsNamed(guests, target)
  {
    if HasAddress(guests, target) {
      var i :| 0 <= i < |guests| && target in guests[i].ips;
      assert Fits(guests[i], HasIp(target));
    }
    if IsNamed(guests, target) {
      var i :| 0 <= i < |guests| && (guests[i].guestName == target || guests[i].guestName == [target[0]]);
      assert Fits(guests[i], HasName(target));
    }
  }

  /** A guest is found exactly when one has the address, or (for a host name) one has the name;
      an address match wins over a name match, and in either case the first guest on the proxy's own
      server over one elsewhere. */
  lemma {:induction false} GuestForFinds(target: Host, server: string, guests: seq<Guest>, addr: Addresses)
    ensures
      var r := GuestFor(target, server, guests, addr);
      && (r.Some? <==> Matchable(target, guests, addr))
      && (r.Some? ==>
          FoundNear(guests, if HasAddress(guests, target) then HasIp(target) else HasName(target), server, r.value))
  {
    if target != [] {
      PreferredIsNear(guests, HasIp(target), server);
      PreferredIsNear(guests, HasName(target), server);
      SomeoneMeans(guests, target);
    }
  }

  // ---------------------------------------------------------------------------
  // 1. Proxy hosts
  // ---------------------------------------------------------------------------

  /** The first proxy host of a list that names the domain. */
  function HostFor(hosts: seq<ProxyHost>, d: Host): Option<ProxyHost> {
    if hosts == [] then None
    else
      var front := HostFor(hosts[..|hosts| - 1], d);
      if front.Some? then front
      else if d in hosts[|hosts| - 1].domains then Some(hosts[|hosts| - 1])
      else None
  }

  /** A reachable NPM lists the domain. */
  predicate Lists(n: Npm, d: Host) {
    n.ok && d != [] && HostFor(n.hosts, d).Some?
  }

  datatype Candidate = Candidate(npm: Npm, host: ProxyHost)

  type Candidates = map<string, Candidate>

  ghost predicate UniqueNames(npms: set<Npm>) {
    forall m, n :: m in npms && n in npms && m.name == n.name ==> m == n
  }

  /** The NPMs that list the domain. */
  ghost function Listers(npms: set<Npm>, d: Host): set<Npm> {
    set n | n in npms && Lists(n, d)
  }

  /** Those with the Cloudflare target among their public IPs. */
  ghost function Hits(listers: set<Npm>, target: Option<Host>): set<Npm> {
    set n | n in listers && target.Some? && target.value in n.ips
  }

  ghost function Only<T>(s: set<T>): (x: T)
    requires |s| == 1
    ensures x in s
  {
    var x :| x in s;
    x
  }

  function CandidateOf(n: Npm, d: Host): Candidate
    requires Lists(n, d)
  {
    Candidate(n, HostFor(n.hosts, d).value)
  }

  /** The owner: the only NPM that lists the domain, or the only one the Cloudflare target points at. */
  ghost function Owner(npms: set<Npm>, d: Host, target: Option<Host>): Option<Candidate> {
    var listers := Listers(npms, d);
    if |listers| == 1 then Some(CandidateOf(Only(listers), d))
    else if |Hits(listers, target)| == 1 then Some(CandidateOf(Only(Hits(listers, target)), d))
    else None
  }

  /** Status before guest matching. */
  function DnsStatus(single: bool, owner: Option<Candidate>, checked: bool, f: Found): Status {
    if owner.None? then Ambiguous
    else if !single then Active
    else if checked && !f.inCloudflare then NotInCloudflare
    else if checked && owner.value.npm.ips != {} &&
      (f.target.None? || f.target.value !in owner.value.npm.ips) then DnsMismatch
    else Active
  }

  function ProxyRow(
    single: bool, owner: Option<Candidate>, checked: bool, f: Found, guests: seq<Guest>, addr: Addresses): Row
  {
    var status := DnsStatus(single, owner, checked, f);
    if owner.None? then Row(FromNpm, status, f.target, f.proxied, None, None, None, NoForward, false)
    else
      var c := owner.value;
      var guest := GuestFor(c.host.forwardHost, c.npm.server, guests, addr);
      Row(FromNpm, if guest.None? && status.Active? then Unmatched else status, f.target, f.proxied, guest,
          Some(c.npm.name), Some(c.npm.server), Forward(c.host.forwardHost, c.host.forwardPort), false)
  }

  predicate Checked(cf: Cloudflare) {
    cf.enabled && cf.ok
  }

  function LookupIf(cf: Cloudflare, d: Host): Found {
    if Checked(cf) then Lookup(cf.records, d) else NOT_CHECKED
  }

  ghost function ProxyRowFor(npms: set<Npm>, cf: Cloudflare, guests: seq<Guest>, addr: Addresses, d: Host): Row {
    var f := LookupIf(cf, d);
    ProxyRow(|Listers(npms, d)| == 1, Owner(npms, d, f.target), Checked(cf), f, guests, addr)
  }

  ghost function ListedDomains(npms: set<Npm>): set<Host> {
    set n, h, d | n in npms && h in n.hosts && d in h.domains && Lists(n, d) :: d
  }

  ghost function ProxyRows(npms: set<Npm>, cf: Cloudflare, guests: seq<Guest>, addr: Addresses): map<Host, Row> {
    map d | d in ListedDomains(npms) :: ProxyRowFor(npms, cf, guests, addr, d)
  }

  function Get(cands: map<Host, Candidates>, d: Host, k: string): Option<Candidate> {
    if d in cands && k in cands[d] then Some(cands[d][k]) else None
  }

  ghost predicate NoneEmpty(cands: map<Host, Candidates>) {
    forall d :: d in cands ==> cands[d] != map[]
  }

  /** What the first `i` proxy hosts and `j` domains of the next say about a domain. */
  ghost function HostSoFar(hosts: seq<ProxyHost>, i: nat, j: nat, d: Host): Option<ProxyHost>
    requires i <= |hosts| && (i < |hosts| ==> j <= |hosts[i].domains|)
  {
    if d == [] then None
    else if HostFor(hosts[..i], d).Some? then HostFor(hosts[..i], d)
    else if i < |hosts| && d in hosts[i].domains[..j] then Some(hosts[i])
    else None
  }

  /** `cands` is `before` with NPM `n` entered as far as (i, j). */
  ghost predicate Entered(before: map<Host, Candidates>, cands: map<Host, Candidates>, n: Npm, i: nat, j: nat)
    requires i <= |n.hosts| && (i < |n.hosts| ==> j <= |n.hosts[i].domains|)
  {
    && NoneEmpty(cands)
    && forall d, k :: Get(cands, d, k) ==
         if k != n.name then Get(before, d, k)
         else if HostSoFar(n.hosts, i, j, d).None? then None
         else Some(Candidate(n, HostSoFar(n.hosts, i, j, d).value))
  }

  /** Enter every domain of one NPM; the first proxy host that names a domain counts. */
  method EnterNpm(before: map<Host, Candidates>, n: Npm) returns (cands: map<Host, Candidates>)
    requires NoneEmpty(before) && forall d :: d in before ==> n.name !in before[d]
    ensures Entered(before, cands, n, |n.hosts|, 0)
  {
    cands := before;
    for i := 0 to |n.hosts|
      invariant Entered(before, cands, n, i, 0)
    {
      var h := n.hosts[i];
      for j := 0 to |h.domains|
        invariant Entered(before, cands, n, i, j)
      {
        var d := h.domains[j];
        ghost var was := cands;
        if d != [] && Get(cands, d, n.name).None? {
          var old' := if d in cands then cands[d] else map[];
          cands := cands[d := old'[n.name := Candidate(n, h)]];
        }
        EnterOne(before, was, cands, n, i, j);
      }
      NextHost(before, cands, n, i);
    }
  }

  lemma {:induction false} EnterOne(
    before: map<Host, Candidates>, was: map<Host, Candidates>, cands: map<Host, Candidates>, n: Npm, i: nat, j: nat)
    requires i < |n.hosts| && j < |n.hosts[i].domains| && Entered(before, was, n, i, j)
    requires
      var d := n.hosts[i].domains[j];
      cands == if d != [] && Get(was, d, n.name).None?
               then was[d := (if d in was then was[d] else map[])[n.name := Candidate(n, n.hosts[i])]] else was
    ensures Entered(before, cands, n, i, j + 1)
  {
    var h, d := n.hosts[i], n.hosts[i].domains[j];
    assert h.domains[..j + 1] == h.domains[..j] + [d];
    forall e, k
      ensures Get(cands, e, k) ==
        if k != n.name then Get(before, e, k)
        else if HostSoFar(n.hosts, i, j + 1, e).None? then None
        else Some(Candidate(n, HostSoFar(n.hosts, i, j + 1, e).value))
    {
      assert Get(was, e, k) == if k != n.name then Get(before, e, k)
        else if HostSoFar(n.hosts, i, j, e).None? then None
        else Some(Candidate(n, HostSoFar(n.hosts, i, j, e).value));
      if e != d {
        assert HostSoFar(n.hosts, i, j + 1, e) == HostSoFar(n.hosts, i, j, e);
      }
    }
    assert NoneEmpty(cands) by {
      if d in cands && cands != was {
        assert n.name in cands[d];
      }
    }
  }

  lemma {:induction false} NextHost(before: map<Host, Candidates>, cands: map<Host, Candidates>, n: Npm, i: nat)
    requires i < |n.hosts| && Entered(before, cands, n, i, |n.hosts[i].domains|)
    ensures Entered(before, cands, n, i + 1, 0)
  {
    var h := n.hosts[i];
    assert n.hosts[..i + 1][..i] == n.hosts[..i];
    assert h.domains[..|h.domains|] == h.domains;
    forall d
      ensures HostSoFar(n.hosts, i + 1, 0, d) == HostSoFar(n.hosts, i, |h.domains|, d)
    {
    }
  }

  ghost function SetOf(npms: seq<Npm>): set<Npm> {
    set n | n in npms
  }

  /** `cands` holds the candidates of every domain the NPMs list. */
  ghost predicate Collected(cands: map<Host, Candidates>, npms: set<Npm>) {
    && NoneEmpty(cands)
    && (forall d, k :: Get(cands, d, k).Some? ==>
          var c := Get(cands, d, k).value;
          c.npm in npms && c.npm.name == k && Lists(c.npm, d) && c.host == HostFor(c.npm.hosts, d).value)
    && (forall n, d :: n in npms && Lists(n, d) ==> Get(cands, d, n.name).Some?)
  }

  lemma {:induction false} EnterCollects(
    before: map<Host, Candidates>, cands: map<Host, Candidates>, npms: set<Npm>, n: Npm)
    requires Collected(before, npms) && n.ok && (forall m :: m in npms ==> m.name != n.name)
    requires Entered(before, cands, n, |n.hosts|, 0)
    ensures Collected(cands, npms + {n})
  {
    assert n.hosts[..|n.hosts|] == n.hosts;
    forall d, k | Get(cands, d, k).Some?
      ensures
        var c := Get(cands, d, k).value;
        c.npm in npms + {n} && c.npm.name == k && Lists(c.npm, d) && c.host == HostFor(c.npm.hosts, d).value
    {
      if k != n.name {
        assert Get(before, d, k) == Get(cands, d, k);
      }
    }
    forall m, d | m in npms + {n} && Lists(m, d)
      ensures Get(cands, d, m.name).Some?
    {
      if m != n {
        assert Get(before, d, m.name).Some?;
      }
    }
  }

  method CollectCandidates(npms: seq<Npm>) returns (cands: map<Host, Candidates>)
    requires UniqueNames(SetOf(npms)) && forall i, j :: 0 <= i < j < |npms| ==> npms[i] != npms[j]
    ensures Collected(cands, SetOf(npms))
  {
    cands := map[];
    for i := 0 to |npms|
      invariant Collected(cands, SetOf(npms[..i]))
    {
      var n := npms[i];
      assert npms[..i + 1] == npms[..i] + [n];
      assert SetOf(npms[..i + 1]) == SetOf(npms[..i]) + {n};
      if n.ok {
        assert forall m :: m in SetOf(npms[..i]) ==> m in SetOf(npms) && m != n;
        ghost var was := cands;
        forall d | d in cands
          ensures n.name !in cands[d]
        {
          assert Get(cands, d, n.name).None?;
        }
        cands := EnterNpm(cands, n);
        EnterCollects(was, cands, SetOf(npms[..i]), n);
      }
    }
    assert npms[..|npms|] == npms;
  }

  lemma {:induction false} HostForIn(hosts: seq<ProxyHost>, d: Host)
    ensures HostFor(hosts, d).Some? ==> HostFor(hosts, d).value in hosts && d in HostFor(hosts, d).value.domains
  {
    if hosts != [] {
      HostForIn(hosts[..|hosts| - 1], d);
    }
  }

  lemma {:induction false} CollectedDomain(cands: map<Host, Candidates>, npms: set<Npm>, d: Host)
    requires Collected(cands, npms)
    ensures d in cands <==> d in ListedDomains(npms)
  {
    if d in ListedDomains(npms) {
      var n, h :| n in npms && h in n.hosts && d in h.domains && Lists(n, d);
      assert Get(cands, d, n.name).Some?;
    }
    if d in cands {
      var k :| k in cands[d].Keys;
      var n := Get(cands, d, k).value.npm;
      HostForIn(n.hosts, d);
      assert n in npms && HostFor(n.hosts, d).value in n.hosts;
    }
  }

  /** `cands` holds exactly the candidates of one domain. */
  ghost predicate Mirrors(cands: Candidates, npms: set<Npm>, d: Host) {
    && (forall k :: k in cands ==>
      cands[k].npm in Listers(npms, d) && cands[k].npm.name == k && cands[k] == CandidateOf(cands[k].npm, d))
    && (forall n :: n in Listers(npms, d) ==> n.name in cands)
  }

  lemma {:induction false} CollectedMirrors(cands: map<Host, Candidates>, npms: set<Npm>, d: Host)
    requires Collected(cands, npms) && d in cands
    ensures Mirrors(cands[d], npms, d)
  {
    forall k | k in cands[d]
      ensures cands[d][k].npm in Listers(npms, d) && cands[d][k].npm.name == k &&
        cands[d][k] == CandidateOf(cands[d][k].npm, d)
    {
      assert Get(cands, d, k) == Some(cands[d][k]);
    }
    forall n | n in Listers(npms, d)
      ensures n.name in cands[d]
    {
      assert Get(cands, d, n.name).Some?;
    }
  }

  lemma {:induction false} OnlyElement<T>(s: set<T>, x: T)
    requires |s| == 1 && x in s
    ensures s == {x}
  {
    assert |s - {x}| == 0;
  }

  /** NPMs and their names are equally many. */
  lemma {:induction false} NamesCount(names: set<string>, ns: set<Npm>)
    requires UniqueNames(ns)
    requires forall n :: n in ns ==> n.name in names
    requires forall k :: k in names ==> exists n :: n in ns && n.name == k
    ensures |names| == |ns|
    decreases |ns|
  {
    if ns == {} {
      assert names == {};
    } else {
      var n :| n in ns;
      var names', ns' := names - {n.name}, ns - {n};
      forall k | k in names'
        ensures exists m :: m in ns' && m.name == k
      {
        var m :| m in ns && m.name == k;
        assert m in ns';
      }
      NamesCount(names', ns');
    }
  }

  /** Choose the owner of one domain. */
  method Choose(cands: Candidates, target: Option<Host>, ghost npms: set<Npm>, ghost d: Host)
    returns (owner: Option<Candidate>)
    requires UniqueNames(npms) && Mirrors(cands, npms, d)
    ensures owner == Owner(npms, d, target) && (|cands| == 1 <==> |Listers(npms, d)| == 1)
  {
    ghost var listers := Listers(npms, d);
    NamesCount(cands.Keys, listers);
    if |cands| == 1 {
      var k :| k in cands.Keys;
      OnlyElement(cands.Keys, k);
      OnlyElement(listers, cands[k].npm);
      return Some(cands[k]);
    }
    var matches := set k | k in cands && target.Some? && target.value in cands[k].npm.ips;
    MatchesCount(cands, matches, target, npms, d);
    if |matches| == 1 {
      var k :| k in matches;
      OnlyElement(matches, k);
      OnlyElement(Hits(listers, target), cands[k].npm);
      return Some(cands[k]);
    }
    return None;
  }

  lemma {:induction false} MatchesCount(
    cands: Candidates, matches: set<string>, target: Option<Host>, npms: set<Npm>, d: Host)
    requires UniqueNames(npms) && Mirrors(cands, npms, d)
    requires matches == set k | k in cands && target.Some? && target.value in cands[k].npm.ips
    ensures |matches| == |Hits(Listers(npms, d), target)|
    ensures forall k :: k in matches ==> cands[k].npm in Hits(Listers(npms, d), target)
  {
    var hits := Hits(Listers(npms, d), target);
    forall k | k in matches
      ensures exists n :: n in hits && n.name == k
    {
      assert cands[k].npm in hits;
    }
    forall n | n in hits
      ensures n.name in matches
    {
      assert cands[n.name].npm == n;
    }
    NamesCount(matches, hits);
  }

  method LookupDomain(cf: Cloudflare, d: Host) returns (f: Found)
    ensures f == LookupIf(cf, d)
  {
    f := NOT_CHECKED;
    if Checked(cf) {
      f := CfLookup(cf.records, d);
    }
  }

  // ---------------------------------------------------------------------------
  // 2. Direct DNS, 3. Pulse agent
  // ---------------------------------------------------------------------------

  /** The first guest with that public address. */
  function GuestAt(ip: Host, guests: seq<Guest>, addr: Addresses): Option<Guest> {
    if addr.isPrivate(ip) then None else FirstGuest(guests, HasIp(ip), None)
  }

  /** The row of a name whose address record points straight at a guest. */
  function DirectRow(recs: seq<DnsRecord>, guests: seq<Guest>, addr: Addresses): Option<Row> {
    if recs == [] then None
    else if IsAddress(recs[0]) && GuestAt(recs[0].content, guests, addr).Some? then
      Some(Row(DirectDns, Active, Some(recs[0].content), recs[0].proxied,
               Some(GuestAt(recs[0].content, guests, addr).value.name), None, None, NoForward, false))
    else DirectRow(recs[1..], guests, addr)
  }

  predicate IsWildcardName(d: Host) {
    |d| > 1 && d[0] == "*"
  }

  /** A name not covered by a proxy host that points straight at a guest. */
  predicate IsDirect(d: Host, rows: map<Host, Row>, records: Records, guests: seq<Guest>, addr: Addresses) {
    d in records && !IsWildcardName(d) && d !in rows && DirectRow(records[d], guests, addr).Some?
  }

  ghost function WithDirect(rows: map<Host, Row>, cf: Cloudflare, guests: seq<Guest>, addr: Addresses): map<Host, Row> {
    if !Checked(cf) then rows
    else
      var direct := set d | d in cf.records && IsDirect(d, rows, cf.records, guests, addr);
      rows + map d | d in direct :: DirectRow(cf.records[d], guests, addr).value
  }

  /** One agent report: note it on a known row, or make a row of its own. */
  function AgentRow(rows: map<Host, Row>, s: AgentSite, checked: bool, f: Found): Row {
    if s.domain in rows then
      var row := rows[s.domain].(seenByAgent := true);
      if row.guest.None? && row.status.Unmatched? then row.(guest := Some(s.guest), status := Active) else row
    else
      Row(PulseAgent, if checked && !f.inCloudflare then NotInCloudflare else Active, f.target, f.proxied,
          Some(s.guest), None, None, NoForward, false)
  }

  ghost function WithAgent(rows: map<Host, Row>, cf: Cloudflare, agents: seq<AgentSite>): map<Host, Row> {
    if agents == [] then rows
    else
      var before := WithAgent(rows, cf, agents[..|agents| - 1]);
      var s := agents[|agents| - 1];
      before[s.domain := AgentRow(before, s, Checked(cf), LookupIf(cf, s.domain))]
  }

  // ---------------------------------------------------------------------------
  // resolve
  // ---------------------------------------------------------------------------

  /** Everything a sync reads. */
  datatype View = View(npms: seq<Npm>, cf: Cloudflare, guests: seq<Guest>, agents: seq<AgentSite>, addr: Addresses)

  /** NPM names are record names, so they are unique. */
  ghost predicate ValidView(v: View) {
    forall i, j :: 0 <= i < j < |v.npms| ==> v.npms[i].name != v.npms[j].name
  }

  ghost function Resolved(v: View): map<Host, Row>
    requires ValidView(v)
  {
    WithAgent(WithDirect(ProxyRows(SetOf(v.npms), v.cf, v.guests, v.addr), v.cf, v.guests, v.addr), v.cf, v.agents)
  }

  method Resolve(v: View) returns (rows: map<Host, Row>)
    requires ValidView(v)
    ensures rows == Resolved(v)
  {
    rows := ResolveProxies(v);
    if Checked(v.cf) {
      rows := AddDirect(v, rows);
    }
    ghost var base := rows;
    for i := 0 to |v.agents|
      invariant rows == WithAgent(base, v.cf, v.agents[..i])
    {
      assert v.agents[..i + 1][..i] == v.agents[..i];
      var s := v.agents[i];
      var f := LookupDomain(v.cf, s.domain);
      rows := rows[s.domain := AgentRow(rows, s, Checked(v.cf), f)];
    }
    assert v.agents[..|v.agents|] == v.agents;
  }

  method ResolveProxies(v: View) returns (rows: map<Host, Row>)
    requires ValidView(v)
    ensures rows == ProxyRows(SetOf(v.npms), v.cf, v.guests, v.addr)
  {
    ghost var npms := SetOf(v.npms);
    var cands := CollectCandidates(v.npms);
    forall d
      ensures d in cands <==> d in ListedDomains(npms)
      ensures d in cands ==> Mirrors(cands[d], npms, d)
    {
      CollectedDomain(cands, npms, d);
      if d in cands {
        CollectedMirrors(cands, npms, d);
      }
    }
    rows := RowsOf(v, cands);
    assert cands.Keys == ListedDomains(npms);
    AllRows(rows, v);
  }

  /** `rows` holds the proxy rows of exactly these domains. */
  ghost predicate RowsFor(rows: map<Host, Row>, domains: set<Host>, v: View)
    requires ValidView(v)
  {
    rows.Keys == domains && forall d :: d in rows ==> rows[d] == ProxyRowFor(SetOf(v.npms), v.cf, v.guests, v.addr, d)
  }

  lemma {:induction false} OneMoreRow(rows: map<Host, Row>, domains: set<Host>, v: View, d: Host, row: Row)
    requires ValidView(v) && RowsFor(rows, domains, v)
    requires row == ProxyRowFor(SetOf(v.npms), v.cf, v.guests, v.addr, d)
    ensures RowsFor(rows[d := row], domains + {d}, v)
  {
  }

  lemma {:induction false} AllRows(rows: map<Host, Row>, v: View)
    requires ValidView(v) && RowsFor(rows, ListedDomains(SetOf(v.npms)), v)
    ensures rows == ProxyRows(SetOf(v.npms), v.cf, v.guests, v.addr)
  {
    var spec := ProxyRows(SetOf(v.npms), v.cf, v.guests, v.addr);
    assert spec.Keys == rows.Keys;
    forall d | d in rows
      ensures rows[d] == spec[d]
    {
    }
  }

  method RowsOf(v: View, cands: map<Host, Candidates>) returns (rows: map<Host, Row>)
    requires ValidView(v) && forall d :: d in cands ==> Mirrors(cands[d], SetOf(v.npms), d)
    ensures RowsFor(rows, cands.Keys, v)
  {
    rows := map[];
    var todo := cands.Keys;
    while todo != {}
      invariant todo <= cands.Keys
      invariant RowsFor(rows, cands.Keys - todo, v)
      decreases |todo|
    {
      var d :| d in todo;
      var row := ResolveProxy(v, d, cands[d]);
      OneMoreRow(rows, cands.Keys - todo, v, d, row);
      assert cands.Keys - (todo - {d}) == (cands.Keys - todo) + {d};
      rows := rows[d := row];
      todo := todo - {d};
    }
  }

  method ResolveProxy(v: View, d: Host, cands: Candidates) returns (row: Row)
    requires ValidView(v) && Mirrors(cands, SetOf(v.npms), d)
    ensures row == ProxyRowFor(SetOf(v.npms), v.cf, v.guests, v.addr, d)
  {
    var f := LookupDomain(v.cf, d);
    var owner := Choose(cands, f.target, SetOf(v.npms), d);
    row := ProxyRow(|cands| == 1, owner, Checked(v.cf), f, v.guests, v.addr);
  }

  /** `rows` is `before` with the direct names among `done` added. */
  ghost predicate AddedDirect(before: map<Host, Row>, rows: map<Host, Row>, done: set<Host>, v: View) {
    && rows.Keys == before.Keys + (set d | d in done && IsDirect(d, before, v.cf.records, v.guests, v.addr))
    && (forall d :: d in before ==> rows[d] == before[d])
    && (forall d :: d in rows && d !in before ==>
      d in v.cf.records && Some(rows[d]) == DirectRow(v.cf.records[d], v.guests, v.addr))
  }

  lemma {:induction false} AddOneDirect(
    before: map<Host, Row>, was: map<Host, Row>, rows: map<Host, Row>, done: set<Host>, v: View, d: Host)
    requires AddedDirect(before, was, done, v) && d in v.cf.records && d !in done
    requires
      var row := DirectRow(v.cf.records[d], v.guests, v.addr);
      rows == if !IsWildcardName(d) && d !in was && row.Some? then was[d := row.value] else was
    ensures AddedDirect(before, rows, done + {d}, v)
  {
  }

  lemma {:induction false} AddedAllDirect(before: map<Host, Row>, rows: map<Host, Row>, v: View)
    requires Checked(v.cf) && AddedDirect(before, rows, v.cf.records.Keys, v)
    ensures rows == WithDirect(before, v.cf, v.guests, v.addr)
  {
  }

  method AddDirect(v: View, before: map<Host, Row>) returns (rows: map<Host, Row>)
    requires Checked(v.cf)
    ensures rows == WithDirect(before, v.cf, v.guests, v.addr)
  {
    var records := v.cf.records;
    rows := before;
    var todo := records.Keys;
    while todo != {}
      invariant todo <= records.Keys
      invariant AddedDirect(before, rows, records.Keys - todo, v)
      decreases |todo|
    {
      var d :| d in todo;
      ghost var was := rows;
      if !IsWildcardName(d) && d !in rows {
        var row := DirectRow(records[d], v.guests, v.addr);
        if row.Some? {
          rows := rows[d := row.value];
        }
      }
      AddOneDirect(before, was, rows, records.Keys - todo, v, d);
      assert records.Keys - (todo - {d}) == (records.Keys - todo) + {d};
      todo := todo - {d};
    }
    assert records.Keys - todo == records.Keys;
    AddedAllDirect(before, rows, v);
  }

  /** The order of the NPM list does not matter: status, owner, server, forward target and
      guest of every domain are the same for any permutation. */
  lemma {:induction false} OrderDoesNotMatter(v: View, w: View)
    requires ValidView(v) && ValidView(w)
    requires multiset(v.npms) == multiset(w.npms) && w == v.(npms := w.npms)
    ensures Resolved(v) == Resolved(w)
  {
    forall n
      ensures n in v.npms <==> n in w.npms
    {
      assert n in multiset(v.npms) <==> n in multiset(w.npms);
    }
    assert SetOf(v.npms) == SetOf(w.npms);
  }

  /** A report from an agent never changes who owns a known domain. */
  lemma {:induction false} AgentKeepsOwner(rows: map<Host, Row>, cf: Cloudflare, agents: seq<AgentSite>, d: Host)
    requires d in rows
    ensures
      var after := WithAgent(rows, cf, agents);
      d in after && after[d].npm == rows[d].npm && after[d].server == rows[d].server &&
        after[d].forward == rows[d].forward
  {
    if agents != [] {
      AgentKeepsOwner(rows, cf, agents[..|agents| - 1], d);
    }
  }

  /** A domain that several NPMs list has an owner exactly when one of them, and only
      one, has its Cloudflare target among its public IPs; that one is the owner. */
  lemma {:induction false} OwnerIffOneMatch(v: View, d: Host)
    requires ValidView(v) && |Listers(SetOf(v.npms), d)| > 1
    ensures
      var hits := Hits(Listers(SetOf(v.npms), d), LookupIf(v.cf, d).target);
      && d in Resolved(v)
      && (Resolved(v)[d].npm.Some? <==> |hits| == 1)
      && (forall n :: n in hits && |hits| == 1 ==> OwnedBy(Resolved(v)[d], n, d))
  {
    var npms, f := SetOf(v.npms), LookupIf(v.cf, d);
    var listers := Listers(npms, d);
    var hits := Hits(listers, f.target);
    ListersListed(npms, d);
    ResolvedOwner(v, d, ProxyRowFor(npms, v.cf, v.guests, v.addr, d));
    ProxyRowNamesOwner(false, Owner(npms, d, f.target), Checked(v.cf), f, v.guests, v.addr);
    forall n | n in hits && |hits| == 1
      ensures n == Only(hits)
    {
      OnlyElement(hits, n);
    }
  }

  ghost predicate OwnedBy(row: Row, n: Npm, d: Host) {
    && row.npm == Some(n.name) && row.server == Some(n.server)
    && HostFor(n.hosts, d).Some?
    && row.forward == Forward(HostFor(n.hosts, d).value.forwardHost, HostFor(n.hosts, d).value.forwardPort)
  }

  lemma {:induction false} ListersListed(npms: set<Npm>, d: Host)
    requires Listers(npms, d) != {}
    ensures d in ListedDomains(npms)
  {
    var n :| n in Listers(npms, d);
    HostForIn(n.hosts, d);
  }

  lemma {:induction false} ProxyRowNamesOwner(
    single: bool, owner: Option<Candidate>, checked: bool, f: Found, guests: seq<Guest>, addr: Addresses)
    ensures
      var row := ProxyRow(single, owner, checked, f, guests, addr);
      if owner.None? then row.npm.None?
      else
        && row.npm == Some(owner.value.npm.name) && row.server == Some(owner.value.npm.server)
        && row.forward == Forward(owner.value.host.forwardHost, owner.value.host.forwardPort)
  {
  }

  /** The later stages leave the owner of a proxied domain alone. */
  lemma {:induction false} ResolvedOwner(v: View, d: Host, row: Row)
    requires ValidView(v) && d in ListedDomains(SetOf(v.npms))
    requires row == ProxyRowFor(SetOf(v.npms), v.cf, v.guests, v.addr, d)
    ensures d in Resolved(v)
    ensures Resolved(v)[d].npm == row.npm && Resolved(v)[d].server == row.server &&
      Resolved(v)[d].forward == row.forward
  {
    var rows := ProxyRows(SetOf(v.npms), v.cf, v.guests, v.addr);
    assert d in rows && rows[d] == row;
    DirectKeeps(rows, v.cf, v.guests, v.addr, d);
    AgentKeepsOwner(WithDirect(rows, v.cf, v.guests, v.addr), v.cf, v.agents, d);
  }

  lemma {:induction false} DirectKeeps(
    rows: map<Host, Row>, cf: Cloudflare, guests: seq<Guest>, addr: Addresses, d: Host)
    requires d in rows
    ensures d in WithDirect(rows, cf, guests, addr) && WithDirect(rows, cf, guests, addr)[d] == rows[d]
  {
  }

  // ---------------------------------------------------------------------------
  // Exactly which row each domain gets
  // ---------------------------------------------------------------------------

  ghost predicate Reported(agents: seq<AgentSite>, d: Host) {
    exists i :: 0 <= i < |agents| && agents[i].domain == d
  }

  /** `guest` is the one the first report of the domain names. */
  ghost predicate FirstReport(agents: seq<AgentSite>, d: Host, guest: Option<string>) {
    exists i :: 0 <= i < |agents| && agents[i].domain == d && guest == Some(agents[i].guest) &&
      forall j :: 0 <= j < i ==> agents[j].domain != d
  }

  lemma {:induction false} ReportsGrow(agents: seq<AgentSite>, d: Host, guest: Option<string>)
    requires agents != []
    ensures
      var (last, front) := (agents[|agents| - 1], agents[..|agents| - 1]);
      && (Reported(agents, d) <==> Reported(front, d) || last.domain == d)
      && (FirstReport(front, d, guest) ==> FirstReport(agents, d, guest))
      && (!Reported(front, d) && last.domain == d && guest == Some(last.guest) ==> FirstReport(agents, d, guest))
  {
    var front := agents[..|agents| - 1];
    if Reported(front, d) {
      var i :| 0 <= i < |front| && front[i].domain == d;
      assert agents[i].domain == d;
    }
    if FirstReport(front, d, guest) {
      var i :| 0 <= i < |front| && front[i].domain == d && guest == Some(front[i].guest) &&
        forall j :: 0 <= j < i ==> front[j].domain != d;
      assert agents[i] == front[i] && forall j :: 0 <= j < i ==> agents[j] == front[j];
    }
    if !Reported(front, d) {
      forall j | 0 <= j < |front|
        ensures agents[j].domain != d
      {
        assert front[j] == agents[j];
      }
    }
  }

  /** What all agent reports together do to a row of another source: note it as seen, and give a
      row that matched no guest the guest of the first report. */
  ghost predicate AgentEffect(before: Row, after: Row, agents: seq<AgentSite>, d: Host) {
    && after.source == before.source && after.target == before.target && after.proxied == before.proxied
    && after.npm == before.npm && after.server == before.server && after.forward == before.forward
    && (after.seenByAgent <==> before.seenByAgent || Reported(agents, d))
    && (if before.status.Unmatched? && before.guest.None? && Reported(agents, d)
        then after.status.Active? && FirstReport(agents, d, after.guest)
        else after.status == before.status && after.guest == before.guest)
  }

  lemma {:induction false} AgentsOnKnownRow(rows: map<Host, Row>, cf: Cloudflare, agents: seq<AgentSite>, d: Host)
    requires d in rows
    ensures d in WithAgent(rows, cf, agents) && AgentEffect(rows[d], WithAgent(rows, cf, agents)[d], agents, d)
  {
    if agents != [] {
      var front := agents[..|agents| - 1];
      AgentsOnKnownRow(rows, cf, front, d);
      ReportsGrow(agents, d, WithAgent(rows, cf, front)[d].guest);
      ReportsGrow(agents, d, Some(agents[|agents| - 1].guest));
    }
  }

  /** A domain only agents report gets a row of its own, with the guest of the first report. */
  ghost predicate AgentOwnRow(row: Row, cf: Cloudflare, agents: seq<AgentSite>, d: Host) {
    && row.source.PulseAgent? && FirstReport(agents, d, row.guest)
    && row.status == (if cf.enabled && cf.ok && Answer(cf.records, d) == [] then NotInCloudflare else Active)
    && row.target == LookupIf(cf, d).target && row.proxied == LookupIf(cf, d).proxied
    && row.npm.None? && row.server.None? && row.forward.NoForward?
  }

  lemma {:induction false} AgentsOnNewRow(rows: map<Host, Row>, cf: Cloudflare, agents: seq<AgentSite>, d: Host)
    requires d !in rows
    ensures d in WithAgent(rows, cf, agents) <==> Reported(agents, d)
    ensures d in WithAgent(rows, cf, agents) ==> AgentOwnRow(WithAgent(rows, cf, agents)[d], cf, agents, d)
  {
    if agents != [] {
      var (last, front) := (agents[|agents| - 1], agents[..|agents| - 1]);
      AgentsOnNewRow(rows, cf, front, d);
      var before := WithAgent(rows, cf, front);
      ReportsGrow(agents, d, if d in before then before[d].guest else Some(last.guest));
      LookupEndsTheChain(cf.records, d);
    }
  }

  /** Several NPMs list the domain, and not exactly one of them has its target. */
  ghost predicate Contested(v: View, d: Host) {
    var listers := Listers(SetOf(v.npms), d);
    |listers| >= 2 && |Hits(listers, LookupIf(v.cf, d).target)| != 1
  }

  /** One NPM lists it, and Cloudflare was read but has nothing to answer for it. */
  ghost predicate Missing(v: View, d: Host) {
    |Listers(SetOf(v.npms), d)| == 1 && v.cf.enabled && v.cf.ok && Answer(v.cf.records, d) == []
  }

  /** One NPM lists it, and Cloudflare answers with a target that is not one of its known public IPs. */
  ghost predicate Misdirected(v: View, d: Host) {
    var (listers, target) := (Listers(SetOf(v.npms), d), LookupIf(v.cf, d).target);
    && |listers| == 1 && v.cf.enabled && v.cf.ok && Answer(v.cf.records, d) != []
    && forall n :: n in listers ==> n.ips != {} && (target.None? || target.value !in n.ips)
  }

  /** `n` is the only NPM that lists the domain, or the only one its target points at. */
  ghost predicate Chosen(v: View, d: Host, n: Npm) {
    var listers := Listers(SetOf(v.npms), d);
    n in listers && (|listers| == 1 || n in Hits(listers, LookupIf(v.cf, d).target))
  }

  /** The forward host the NPM has for the domain is that of some guest. */
  ghost predicate ForwardsToGuest(v: View, d: Host, n: Npm)
    requires HostFor(n.hosts, d).Some?
  {
    Matchable(HostFor(n.hosts, d).value.forwardHost, v.guests, v.addr)
  }

  /** The status of a domain that one or more NPMs list, on the inputs alone: how many list it, how many
      of those have its Cloudflare target among their public IPs, whether Cloudflare was read and
      answers, and whether the owner's forward host is that of a guest, or an agent reported it. */
  lemma {:induction false} ListedStatus(v: View, d: Host)
    requires ValidView(v) && Listers(SetOf(v.npms), d) != {}
    ensures d in Resolved(v)
    ensures
      var row := Resolved(v)[d];
      && row.source.FromNpm? && row.target == LookupIf(v.cf, d).target && row.proxied == LookupIf(v.cf, d).proxied
      && (row.status.Ambiguous? <==> Contested(v, d))
      && (row.status.NotInCloudflare? <==> Missing(v, d))
      && (row.status.DnsMismatch? <==> Misdirected(v, d))
    ensures !Contested(v, d) ==> exists n :: Chosen(v, d, n) && OwnedBy(Resolved(v)[d], n, d)
    ensures forall n :: Chosen(v, d, n) && !Contested(v, d) && !Missing(v, d) && !Misdirected(v, d) ==>
      (Resolved(v)[d].status == if ForwardsToGuest(v, d, n) || Reported(v.agents, d) then Active else Unmatched)
  {
    var npms := SetOf(v.npms);
    var rows := ProxyRows(npms, v.cf, v.guests, v.addr);
    ListersListed(npms, d);
    ProxyStatus(v, d);
    assert d in rows && rows[d] == ProxyRowFor(npms, v.cf, v.guests, v.addr, d);
    DirectKeeps(rows, v.cf, v.guests, v.addr, d);
    AgentsOnKnownRow(WithDirect(rows, v.cf, v.guests, v.addr), v.cf, v.agents, d);
    assert AgentEffect(rows[d], Resolved(v)[d], v.agents, d);
    if !Contested(v, d) {
      var n :| Chosen(v, d, n) && OwnedBy(rows[d], n, d);
      assert OwnedBy(Resolved(v)[d], n, d);
    }
  }

  lemma {:induction false} ChosenIsOwner(v: View, d: Host, n: Npm)
    requires !Contested(v, d) && Chosen(v, d, n)
    ensures Owner(SetOf(v.npms), d, LookupIf(v.cf, d).target) == Some(CandidateOf(n, d))
  {
    var listers := Listers(SetOf(v.npms), d);
    if |listers| == 1 {
      OnlyElement(listers, n);
    } else {
      assert |listers| >= 2 by {
        assert n in listers;
      }
      OnlyElement(Hits(listers, LookupIf(v.cf, d).target), n);
    }
  }

  lemma {:induction false} SomeoneIsChosen(v: View, d: Host) returns (n: Npm)
    requires Listers(SetOf(v.npms), d) != {} && !Contested(v, d)
    ensures Chosen(v, d, n)
  {
    var listers := Listers(SetOf(v.npms), d);
    n :| n in listers;
    if |listers| != 1 {
      assert |listers| >= 2;
      n := Only(Hits(listers, LookupIf(v.cf, d).target));
    }
  }

  /** The same before the agents' reports. */
  lemma {:induction false} ProxyStatus(v: View, d: Host)
    requires Listers(SetOf(v.npms), d) != {}
    ensures
      var row := ProxyRowFor(SetOf(v.npms), v.cf, v.guests, v.addr, d);
      && row.source.FromNpm? && row.target == LookupIf(v.cf, d).target && row.proxied == LookupIf(v.cf, d).proxied
      && (row.status.Ambiguous? <==> Contested(v, d))
      && (row.status.NotInCloudflare? <==> Missing(v, d))
      && (row.status.DnsMismatch? <==> Misdirected(v, d))
      && (row.status.Unmatched? ==> row.guest.None?)
      && (!Contested(v, d) ==> exists n :: Chosen(v, d, n) && OwnedBy(row, n, d))
      && (forall n :: Chosen(v, d, n) && !Contested(v, d) && !Missing(v, d) && !Misdirected(v, d) ==>
            row.status == if ForwardsToGuest(v, d, n) then Active else Unmatched)
  {
    LookupEndsTheChain(v.cf.records, d);
    if !Contested(v, d) {
      var n := SomeoneIsChosen(v, d);
      ChosenIsOwner(v, d, n);
      ChosenStatus(v, d, n);
      forall m | Chosen(v, d, m)
        ensures m == n
      {
        ChosenIsOwner(v, d, m);
      }
    } else {
      assert Owner(SetOf(v.npms), d, LookupIf(v.cf, d).target).None?;
    }
  }

  lemma {:induction false} ChosenStatus(v: View, d: Host, n: Npm)
    requires !Contested(v, d) && Chosen(v, d, n)
    requires Owner(SetOf(v.npms), d, LookupIf(v.cf, d).target) == Some(CandidateOf(n, d))
    ensures
      var row := ProxyRowFor(SetOf(v.npms), v.cf, v.guests, v.addr, d);
      && OwnedBy(row, n, d) && !row.status.Ambiguous?
      && (row.status.NotInCloudflare? <==> Missing(v, d))
      && (row.status.DnsMismatch? <==> Misdirected(v, d))
      && (row.status.Unmatched? ==> row.guest.None?)
      && (!Missing(v, d) && !Misdirected(v, d) ==>
            row.status == if ForwardsToGuest(v, d, n) then Active else Unmatched)
  {
    var listers := Listers(SetOf(v.npms), d);
    LookupEndsTheChain(v.cf.records, d);
    GuestForFinds(HostFor(n.hosts, d).value.forwardHost, n.server, v.guests, v.addr);
    if |listers| == 1 {
      OnlyElement(listers, n);
    }
  }

  /** An address record that points straight at a guest, not at a private address. */
  ghost predicate PointsAtGuest(r: DnsRecord, guests: seq<Guest>, addr: Addresses) {
    !r.rtype.CNAME? && !addr.isPrivate(r.content) && HasAddress(guests, r.content)
  }

  /** The row is made from the first such record, with the first guest that has its address. */
  ghost predicate DirectFrom(row: Row, recs: seq<DnsRecord>, guests: seq<Guest>, addr: Addresses) {
    exists i, g ::
      && 0 <= i < |recs| && PointsAtGuest(recs[i], guests, addr) &&
        (forall j :: 0 <= j < i ==> !PointsAtGuest(recs[j], guests, addr))
      && 0 <= g < |guests| && FirstPlace(guests, HasIp(recs[i].content), None, g)
      && row == Row(DirectDns, Active, Some(recs[i].content), recs[i].proxied, Some(guests[g].name), None, None,
        NoForward, false)
  }

  lemma {:induction false} GuestAtMeans(ip: Host, guests: seq<Guest>, addr: Addresses)
    ensures GuestAt(ip, guests, addr).Some? <==> !addr.isPrivate(ip) && HasAddress(guests, ip)
    ensures GuestAt(ip, guests, addr).Some? ==>
      exists g :: 0 <= g < |guests| && FirstPlace(guests, HasIp(ip), None, g) &&
        GuestAt(ip, guests, addr) == Some(guests[g])
  {
    FirstGuestFits(guests, HasIp(ip), None);
    if HasAddress(guests, ip) {
      var i :| 0 <= i < |guests| && ip in guests[i].ips;
      assert Fits(guests[i], HasIp(ip));
    }
  }

  lemma {:induction false} DirectRowMeans(recs: seq<DnsRecord>, guests: seq<Guest>, addr: Addresses)
    ensures DirectRow(recs, guests, addr).Some? <==> exists i :: 0 <= i < |recs| && PointsAtGuest(recs[i], guests, addr)
    ensures DirectRow(recs, guests, addr).Some? ==> DirectFrom(DirectRow(recs, guests, addr).value, recs, guests, addr)
  {
    if recs != [] {
      var rest := recs[1..];
      GuestAtMeans(recs[0].content, guests, addr);
      if !PointsAtGuest(recs[0], guests, addr) {
        DirectRowMeans(rest, guests, addr);
        assert forall i :: 0 < i < |recs| ==> recs[i] == rest[i - 1];
        if DirectRow(recs, guests, addr).Some? {
          DirectFromLater(DirectRow(recs, guests, addr).value, recs, guests, addr);
        }
      } else {
        var g :| 0 <= g < |guests| && FirstPlace(guests, HasIp(recs[0].content), None, g) &&
          GuestAt(recs[0].content, guests, addr) == Some(guests[g]);
        assert recs[0] == recs[0] && PointsAtGuest(recs[0], guests, addr);
      }
    }
  }

  lemma {:induction false} DirectFromLater(row: Row, recs: seq<DnsRecord>, guests: seq<Guest>, addr: Addresses)
    requires recs != [] && !PointsAtGuest(recs[0], guests, addr) && DirectFrom(row, recs[1..], guests, addr)
    ensures DirectFrom(row, recs, guests, addr) && exists i :: 0 <= i < |recs| && PointsAtGuest(recs[i], guests, addr)
  {
    var rest := recs[1..];
    var i, g :|
      && 0 <= i < |rest| && PointsAtGuest(rest[i], guests, addr) &&
        (forall j :: 0 <= j < i ==> !PointsAtGuest(rest[j], guests, addr))
      && 0 <= g < |guests| && FirstPlace(guests, HasIp(rest[i].content), None, g)
      && row == Row(DirectDns, Active, Some(rest[i].content), rest[i].proxied, Some(guests[g].name), None, None,
        NoForward, false);
    assert recs[i + 1] == rest[i];
    assert forall j :: 0 < j < i + 1 ==> recs[j] == rest[j - 1];
  }

  /** A domain no NPM lists has a row exactly when Cloudflare was read and has an address record of
      that very name pointing at a guest's public address, or else when an agent reported it. */
  lemma {:induction false} UnlistedRow(v: View, d: Host)
    requires ValidView(v) && Listers(SetOf(v.npms), d) == {}
    ensures
      var direct := v.cf.enabled && v.cf.ok && d in v.cf.records && !(|d| > 1 && d[0] == "*") &&
        exists i :: 0 <= i < |v.cf.records[d]| && PointsAtGuest(v.cf.records[d][i], v.guests, v.addr);
      && (d in Resolved(v) <==> direct || Reported(v.agents, d))
      && (direct ==> exists row ::
            DirectFrom(row, v.cf.records[d], v.guests, v.addr) && AgentEffect(row, Resolved(v)[d], v.agents, d))
      && (!direct && d in Resolved(v) ==> AgentOwnRow(Resolved(v)[d], v.cf, v.agents, d))
  {
    var npms := SetOf(v.npms);
    var rows := ProxyRows(npms, v.cf, v.guests, v.addr);
    forall n | n in npms
      ensures !Lists(n, d)
    {
      assert n !in Listers(npms, d);
    }
    var both := WithDirect(rows, v.cf, v.guests, v.addr);
    if d in v.cf.records {
      DirectRowMeans(v.cf.records[d], v.guests, v.addr);
    }
    if d in both {
      AgentsOnKnownRow(both, v.cf, v.agents, d);
    } else {
      AgentsOnNewRow(both, v.cf, v.agents, d);
    }
  }

  // ---------------------------------------------------------------------------
  // What a status means
  // ---------------------------------------------------------------------------

  /** The owner can answer for the domain: it lists it and, where its public IPs are known and
      Cloudflare was read, the domain's target is one of them. */
  ghost predicate Answerable(n: Npm, v: View, d: Host) {
    && n in v.npms && Lists(n, d)
    && (Checked(v.cf) && n.ips != {} ==>
          LookupIf(v.cf, d).target.Some? && LookupIf(v.cf, d).target.value in n.ips)
  }

  /** An active row has a guest, an unmatched one has none, and an owned one of either kind
      belongs to an NPM that can answer for it. */
  ghost predicate Sane(row: Row, v: View, d: Host) {
    && (row.status.Active? ==> row.guest.Some?)
    && (row.status.Unmatched? ==> row.guest.None?)
    && ((row.status.Active? || row.status.Unmatched?) && row.npm.Some? ==>
      exists n :: Answerable(n, v, d) && row.npm == Some(n.name))
    && (row.status.Ambiguous? ==> row.npm.None? && row.guest.None?)
    && (row.status.NotInCloudflare? ==> Checked(v.cf) && Answer(v.cf.records, d) == [])
  }

  lemma {:induction false} OwnerIsAnswerable(v: View, d: Host, c: Candidate)
    requires Owner(SetOf(v.npms), d, LookupIf(v.cf, d).target) == Some(c)
    requires DnsStatus(|Listers(SetOf(v.npms), d)| == 1, Some(c), Checked(v.cf), LookupIf(v.cf, d)).Active?
    ensures Answerable(c.npm, v, d)
  {
    var listers := Listers(SetOf(v.npms), d);
    if |listers| == 1 {
      assert c.npm in listers;
    } else {
      assert c.npm in Hits(listers, LookupIf(v.cf, d).target);
    }
  }

  lemma {:induction false} ProxyRowIsSane(v: View, d: Host)
    ensures Sane(ProxyRowFor(SetOf(v.npms), v.cf, v.guests, v.addr, d), v, d)
  {
    var f := LookupIf(v.cf, d);
    var owner := Owner(SetOf(v.npms), d, f.target);
    LookupEndsTheChain(v.cf.records, d);
    if owner.Some? && DnsStatus(|Listers(SetOf(v.npms), d)| == 1, owner, Checked(v.cf), f).Active? {
      OwnerIsAnswerable(v, d, owner.value);
    }
  }

  lemma {:induction false} DirectRowIsSane(recs: seq<DnsRecord>, v: View, d: Host)
    ensures DirectRow(recs, v.guests, v.addr).Some? ==> Sane(DirectRow(recs, v.guests, v.addr).value, v, d)
  {
    if recs != [] {
      DirectRowIsSane(recs[1..], v, d);
    }
  }

  lemma {:induction false} AgentRowIsSane(rows: map<Host, Row>, s: AgentSite, v: View)
    requires s.domain in rows ==> Sane(rows[s.domain], v, s.domain)
    ensures Sane(AgentRow(rows, s, Checked(v.cf), LookupIf(v.cf, s.domain)), v, s.domain)
  {
    LookupEndsTheChain(v.cf.records, s.domain);
  }

  lemma {:induction false} AgentsKeepSane(rows: map<Host, Row>, v: View, agents: seq<AgentSite>)
    requires forall d :: d in rows ==> Sane(rows[d], v, d)
    ensures forall d :: d in WithAgent(rows, v.cf, agents) ==> Sane(WithAgent(rows, v.cf, agents)[d], v, d)
  {
    if agents != [] {
      var front := agents[..|agents| - 1];
      AgentsKeepSane(rows, v, front);
      AgentRowIsSane(WithAgent(rows, v.cf, front), agents[|agents| - 1], v);
    }
  }

  /** Every row the merge produces means what its status says. */
  lemma {:induction false} ResolvedRowsAreSane(v: View, d: Host)
    requires ValidView(v) && d in Resolved(v)
    ensures Sane(Resolved(v)[d], v, d)
  {
    var proxies := ProxyRows(SetOf(v.npms), v.cf, v.guests, v.addr);
    var rows := WithDirect(proxies, v.cf, v.guests, v.addr);
    forall e | e in rows
      ensures Sane(rows[e], v, e)
    {
      if e in proxies {
        DirectKeeps(proxies, v.cf, v.guests, v.addr, e);
        ProxyRowIsSane(v, e);
      } else {
        DirectRowIsSane(v.cf.records[e], v, e);
      }
    }
    AgentsKeepSane(rows, v, v.agents);
  }
}
