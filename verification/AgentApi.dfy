/**
  The report side of the agent protocol (`internal/agentapi/report.go` and
  `resolve.go`): the fingerprint of a machine, its parser, and the decision which
  host a report belongs to.  Parsing an address is left to Go's `net` package:
  `parse` gives the canonical form of a usable address, None for one that does not
  parse or is loopback or link-local.
 */
module AgentApi {
  import opened Wrappers
  import opened Sorting
  import opened Text

  type Parser = string -> Option<string>

  datatype Interface = Interface(mac: string, addrs: seq<string>)

  datatype Report = Report(schemaVersion: int, agentId: string, hostname: string, virtKind: string,
                           os: string, cpu: string, ram: string, disk: string, interfaces: seq<Interface>)

  /** `Validate`. */
  predicate ReportValid(r: Report) {
    r.schemaVersion == 1 && TrimSpace(r.agentId) != [] && TrimSpace(r.hostname) != []
  }

  /** The version this server speaks, an agent id and a hostname that are not all white space. */
  lemma {:induction false} ReportValidExactly(r: Report)
    ensures ReportValid(r) <==> r.schemaVersion == 1 && !AllBlank(r.agentId) && !AllBlank(r.hostname)
  {
    NormalizeEmptyExactly(r.agentId);
    NormalizeEmptyExactly(r.hostname);
  }

  // ---- Fingerprint ----

  /** An interface's normalized MAC, nothing when it has none. */
  function MACOf(i: Interface): seq<string> {
    var m := Normalize(i.mac);
    if m == [] then [] else [m]
  }

  /** The normalized MACs that are not empty, in interface order. */
  function MACs(ifs: seq<Interface>): seq<string> {
    Gather(ifs, MACOf)
  }

  /** `strings.Join` with a comma. */
  function Join(parts: seq<string>): string {
    if parts == [] then []
    else if |parts| == 1 then parts[0]
    else parts[0] + [','] + Join(parts[1..])
  }

  function SortedMACs(r: Report): seq<string> {
    Sort(MACs(r.interfaces), StringLess)
  }

  function Fingerprint(r: Report): string {
    Normalize(r.hostname) + ['|'] + Join(SortedMACs(r))
  }

  /** `Fingerprint`. */
  method MakeFingerprint(r: Report) returns (fp: string)
    ensures fp == Fingerprint(r)
  {
    var macs: seq<string> := [];
    for i := 0 to |r.interfaces|
      invariant macs == MACs(r.interfaces[..i])
    {
      assert r.interfaces[..i + 1][..i] == r.interfaces[..i];
      var m := Normalize(r.interfaces[i].mac);
      if m != [] {
        macs := macs + [m];
      }
    }
    assert r.interfaces[..|r.interfaces|] == r.interfaces;
    macs := Sort(macs, StringLess);
    fp := Normalize(r.hostname) + ['|'] + Join(macs);
  }

  /** The order in which interfaces are listed does not matter. */
  lemma {:induction false} FingerprintPermutation(r: Report, ifs: seq<Interface>)
    requires multiset(ifs) == multiset(r.interfaces)
    ensures Fingerprint(r.(interfaces := ifs)) == Fingerprint(r)
  {
    GatherPermutation(ifs, r.interfaces, MACOf);
    StringLessIsStrictTotal();
    SortPermutation(MACs(ifs), MACs(r.interfaces), StringLess);
  }

  /** The normalized MACs of every interface that has one, one after the other. */
  lemma {:induction false} MACsMeaning(a: seq<Interface>, b: seq<Interface>, i: Interface)
    ensures MACs([]) == [] && MACs(a + b) == MACs(a) + MACs(b)
    ensures MACs([i]) == if AllBlank(i.mac) then [] else [Normalize(i.mac)]
  {
    GatherConcat(a, b, MACOf);
    GatherAppend([], i, MACOf);
    assert [] + [i] == [i];
    NormalizeEmptyExactly(i.mac);
  }

  /** The interfaces pairwise have the same MAC, but for case and white space around it. */
  ghost predicate SameMACs(a: seq<Interface>, b: seq<Interface>) {
    |a| == |b| && forall i :: 0 <= i < |a| ==> SameButCase(TrimSpace(a[i].mac), TrimSpace(b[i].mac))
  }

  lemma {:induction false} MACsIgnoreCase(a: seq<Interface>, b: seq<Interface>)
    requires SameMACs(a, b)
    ensures MACs(a) == MACs(b)
  {
    if a != [] {
      var n := |a| - 1;
      MACsIgnoreCase(a[..n], b[..n]);
      NormalizeExactly(a[n].mac, b[n].mac);
    }
  }

  /** The case of the hostname and of the MACs, and white space around them, make no difference. */
  lemma {:induction false} FingerprintIgnoresCase(a: Report, b: Report)
    requires SameMACs(a.interfaces, b.interfaces)
    requires SameButCase(TrimSpace(a.hostname), TrimSpace(b.hostname))
    ensures Fingerprint(a) == Fingerprint(b)
  {
    MACsIgnoreCase(a.interfaces, b.interfaces);
    NormalizeExactly(a.hostname, b.hostname);
  }

  // ---- splitFingerprint ----

  /** `strings.Cut` at the first bar. */
  function Cut(s: string): (string, string) {
    if s == [] then ([], [])
    else if s[0] == '|' then ([], s[1..])
    else
      var rest := Cut(s[1..]);
      ([s[0]] + rest.0, rest.1)
  }

  /** `strings.Split` at commas. */
  function Split(s: string): (r: seq<string>)
    ensures r != []
  {
    if s == [] then [[]]
    else
      var rest := Split(s[1..]);
      if s[0] == ',' then [[]] + rest else [[s[0]] + rest[0]] + rest[1..]
  }

  function SplitFingerprint(fp: string): (string, seq<string>) {
    var (name, macs) := Cut(fp);
    (name, if macs == [] then [] else Split(macs))
  }

  lemma {:induction false} CutExactly(name: string, macs: string)
    ensures Cut(name + ['|'] + macs) == (name, macs) <==> '|' !in name
  {
    var s := name + ['|'] + macs;
    if name != [] {
      assert s[1..] == name[1..] + ['|'] + macs;
      assert name == [name[0]] + name[1..];
      CutExactly(name[1..], macs);
    } else {
      assert s[1..] == macs;
    }
  }

  lemma {:induction false} SplitOne(s: string)
    requires ',' !in s
    ensures Split(s) == [s]
  {
    if s != [] {
      SplitOne(s[1..]);
      assert s == [s[0]] + s[1..];
    }
  }

  lemma {:induction false} SplitFirst(s: string, t: string)
    requires ',' !in s
    ensures Split(s + [','] + t) == [s] + Split(t)
  {
    var u := s + [','] + t;
    if s == [] {
      assert u[1..] == t;
    } else {
      assert u[1..] == s[1..] + [','] + t;
      SplitFirst(s[1..], t);
      assert s == [s[0]] + s[1..];
    }
  }

  lemma {:induction false} SplitJoin(parts: seq<string>)
    requires parts != [] && forall p :: p in parts ==> ',' !in p
    ensures Split(Join(parts)) == parts
  {
    assert parts[0] in parts;
    if |parts| == 1 {
      SplitOne(parts[0]);
    } else {
      forall p | p in parts[1..] ensures ',' !in p {
        assert p in parts;
      }
      SplitJoin(parts[1..]);
      SplitFirst(parts[0], Join(parts[1..]));
      assert parts == [parts[0]] + parts[1..];
    }
  }

  /** No part that splitting gives holds a comma. */
  lemma {:induction false} SplitParts(s: string)
    ensures forall p :: p in Split(s) ==> ',' !in p
  {
    if s != [] {
      SplitParts(s[1..]);
      var rest := Split(s[1..]);
      assert rest[0] in rest;
      forall p | p in Split(s) ensures ',' !in p {
        if s[0] != ',' && p != [s[0]] + rest[0] {
          assert p in rest[1..];
        }
      }
    }
  }

  lemma {:induction false} JoinEmpty(parts: seq<string>)
    requires [] !in parts
    ensures Join(parts) == [] <==> parts == []
  {
    if parts != [] {
      assert parts[0] in parts;
    }
  }

  lemma {:induction false} NoEmptyMAC(ifs: seq<Interface>)
    ensures [] !in MACs(ifs)
  {
    if ifs != [] {
      NoEmptyMAC(ifs[..|ifs| - 1]);
    }
  }

  lemma {:induction false} SortedMACsMembers(r: Report)
    ensures forall m :: m in SortedMACs(r) <==> m in MACs(r.interfaces)
    ensures [] !in SortedMACs(r)
  {
    StringLessIsStrictTotal();
    SortCorrect(MACs(r.interfaces), StringLess);
    NoEmptyMAC(r.interfaces);
    forall m ensures m in SortedMACs(r) <==> m in MACs(r.interfaces) {
      assert m in multiset(SortedMACs(r)) <==> m in multiset(MACs(r.interfaces));
    }
  }

  /** A fingerprint can be read back when the name has no bar and no MAC has a comma. */
  predicate Separable(r: Report) {
    '|' !in Normalize(r.hostname) && forall m :: m in MACs(r.interfaces) ==> ',' !in m
  }

  /** Splitting a fingerprint gives the normalized name and the sorted MACs exactly when it is separable. */
  lemma {:induction false} SplitInvertsExactly(r: Report)
    ensures SplitFingerprint(Fingerprint(r)) == (Normalize(r.hostname), SortedMACs(r)) <==> Separable(r)
  {
    var name, macs := Normalize(r.hostname), SortedMACs(r);
    CutExactly(name, Join(macs));
    SortedMACsMembers(r);
    JoinEmpty(macs);
    if Separable(r) {
      if macs != [] {
        SplitJoin(macs);
      }
    } else if SplitFingerprint(Fingerprint(r)) == (name, macs) {
      NotSeparable(r);
    }
  }

  lemma {:induction false} NotSeparable(r: Report)
    requires SplitFingerprint(Fingerprint(r)) == (Normalize(r.hostname), SortedMACs(r))
    ensures Separable(r)
  {
    var name, macs := Normalize(r.hostname), Join(SortedMACs(r));
    SortedMACsMembers(r);
    var c := Cut(name + ['|'] + macs);
    CutHasNoBar(name + ['|'] + macs);
    SplitParts(c.1);
    forall m | m in MACs(r.interfaces) ensures ',' !in m {
      assert m in SortedMACs(r);
    }
  }

  lemma {:induction false} CutHasNoBar(s: string)
    ensures '|' !in Cut(s).0
  {
    if s != [] && s[0] != '|' {
      CutHasNoBar(s[1..]);
    }
  }

  // ---- Reported addresses ----

  /** What stands before the first c, all of it when there is none. */
  function Before(s: string, c: char): string {
    if s == [] || s[0] == c then [] else [s[0]] + Before(s[1..], c)
  }

  /** `sanitizeReportedIP`. */
  function Sanitize(a: string, parse: Parser): Option<string> {
    var t := TrimSpace(a);
    if t == [] then None else parse(Before(Before(t, '/'), '%'))
  }

  /** A usable address of an interface, nothing for the others. */
  function UsableOf(parse: Parser): string -> seq<string> {
    (a: string) => match Sanitize(a, parse) case Some(ip) => [ip] case None => []
  }

  function AddressesOf(parse: Parser): Interface -> seq<string> {
    (i: Interface) => Gather(i.addrs, UsableOf(parse))
  }

  function ReportedIPs(r: Report, parse: Parser): seq<string> {
    Gather(r.interfaces, AddressesOf(parse))
  }

  /** The inner loop of `ReportedIPs`. */
  method CollectUsable(addrs: seq<string>, parse: Parser) returns (out: seq<string>)
    ensures out == Gather(addrs, UsableOf(parse))
  {
    out := [];
    for j := 0 to |addrs|
      invariant out == Gather(addrs[..j], UsableOf(parse))
    {
      assert addrs[..j + 1] == addrs[..j] + [addrs[j]];
      GatherAppend(addrs[..j], addrs[j], UsableOf(parse));
      match Sanitize(addrs[j], parse) {
        case Some(ip) => out := out + [ip];
        case None =>
      }
    }
    assert addrs[..|addrs|] == addrs;
  }

  /** `ReportedIPs`. */
  method CollectIPs(r: Report, parse: Parser) returns (out: seq<string>)
    ensures out == ReportedIPs(r, parse)
  {
    out := [];
    for i := 0 to |r.interfaces|
      invariant out == Gather(r.interfaces[..i], AddressesOf(parse))
    {
      var more := CollectUsable(r.interfaces[i].addrs, parse);
      out := out + more;
      assert r.interfaces[..i + 1] == r.interfaces[..i] + [r.interfaces[i]];
      GatherAppend(r.interfaces[..i], r.interfaces[i], AddressesOf(parse));
    }
    assert r.interfaces[..|r.interfaces|] == r.interfaces;
  }

  lemma {:induction false} BeforeFirst(s: string, c: char, t: string)
    requires c !in s
    ensures Before(s + [c] + t, c) == s && Before(s, c) == s
  {
    if s != [] {
      assert (s + [c] + t)[1..] == s[1..] + [c] + t;
      assert s == [s[0]] + s[1..];
      BeforeFirst(s[1..], c, t);
    }
  }

  /** A prefix length and a zone are stripped: the agent and the server agree on the bare address. */
  lemma {:induction false} SanitizeStrips(ip: string, zone: string, length: string, parse: Parser)
    requires '/' !in ip && '%' !in ip && '/' !in zone
    requires ip != [] && TrimSpace(ip) == ip
    requires TrimSpace(ip + ['%'] + zone + ['/'] + length) == ip + ['%'] + zone + ['/'] + length
    ensures Sanitize(ip + ['%'] + zone + ['/'] + length, parse) == Sanitize(ip, parse) == parse(ip)
  {
    BeforeFirst(ip + ['%'] + zone, '/', length);
    BeforeFirst(ip, '%', zone);
    BeforeFirst(ip, '/', "");
  }

  /** Every address of every interface, in order: what is usable of each, one after the other. */
  lemma {:induction false} ReportedIPsMeaning(r: Report, a: seq<Interface>, b: seq<Interface>, mac: string,
                                              x: seq<string>, y: seq<string>, addr: string, parse: Parser)
    ensures ReportedIPs(r.(interfaces := []), parse) == []
    ensures ReportedIPs(r.(interfaces := a + b), parse) ==
      ReportedIPs(r.(interfaces := a), parse) + ReportedIPs(r.(interfaces := b), parse)
    ensures ReportedIPs(r.(interfaces := [Interface(mac, [])]), parse) == []
    ensures ReportedIPs(r.(interfaces := [Interface(mac, x + y)]), parse) ==
      ReportedIPs(r.(interfaces := [Interface(mac, x)]), parse) + ReportedIPs(r.(interfaces := [Interface(mac, y)]),
          parse)
    ensures ReportedIPs(r.(interfaces := [Interface(mac, [addr])]), parse) ==
      match Sanitize(addr, parse) case Some(ip) => [ip] case None => []
  {
    GatherConcat(a, b, AddressesOf(parse));
    forall z ensures ReportedIPs(r.(interfaces := [Interface(mac, z)]), parse) == Gather(z, UsableOf(parse)) {
      GatherAppend([], Interface(mac, z), AddressesOf(parse));
      assert [] + [Interface(mac, z)] == [Interface(mac, z)];
    }
    GatherConcat(x, y, UsableOf(parse));
    GatherAppend([], addr, UsableOf(parse));
    assert [] + [addr] == [addr];
  }

  lemma {:induction false} GatherHas<T, U>(s: seq<T>, f: T -> seq<U>, u: U)
    ensures u in Gather(s, f) <==> exists i :: 0 <= i < |s| && u in f(s[i])
  {
    if s != [] {
      var n := |s| - 1;
      GatherHas(s[..n], f, u);
      if i :| 0 <= i < |s| && u in f(s[i]) {
        assert i < n ==> u in f(s[..n][i]);
      }
    }
  }

  /** Address j of interface i is ip, once sanitized. */
  predicate Gives(r: Report, parse: Parser, i: nat, j: nat, ip: string) {
    && i < |r.interfaces| && j < |r.interfaces[i].addrs|
    && Sanitize(r.interfaces[i].addrs[j], parse) == Some(ip)
  }

  /** An address is reported exactly when some address of some interface is that one. */
  lemma {:induction false} ReportedExactly(r: Report, parse: Parser, ip: string)
    ensures ip in ReportedIPs(r, parse) <==> exists i: nat, j: nat :: Gives(r, parse, i, j, ip)
  {
    GatherHas(r.interfaces, AddressesOf(parse), ip);
    if i :| 0 <= i < |r.interfaces| && ip in AddressesOf(parse)(r.interfaces[i]) {
      var addrs := r.interfaces[i].addrs;
      GatherHas(addrs, UsableOf(parse), ip);
      var j :| 0 <= j < |addrs| && ip in UsableOf(parse)(addrs[j]);
      assert Gives(r, parse, i, j, ip);
    }
    if i: nat, j: nat :| Gives(r, parse, i, j, ip) {
      GatherHas(r.interfaces[i].addrs, UsableOf(parse), ip);
      assert ip in UsableOf(parse)(r.interfaces[i].addrs[j]);
      assert ip in AddressesOf(parse)(r.interfaces[i]);
    }
  }

  lemma {:induction false} BeforeNone(s: string, c: char)
    requires c !in s
    ensures Before(s, c) == s
  {
    if s != [] {
      BeforeNone(s[1..], c);
    }
  }

  /** A text up to its first c, where that is the first character of the rest. */
  lemma {:induction false} BeforeRest(s: string, c: char, rest: string)
    requires c !in s && (rest == [] || rest[0] == c)
    ensures Before(s + rest, c) == s
  {
    if rest == [] {
      assert s + rest == s;
      BeforeNone(s, c);
    } else {
      assert s + rest == s + [c] + rest[1..];
      BeforeFirst(s, c, rest[1..]);
    }
  }

  /** What is parsed is the trimmed text up to its first slash or percent sign; a blank text is no address. */
  lemma {:induction false} SanitizeExactly(a: string, ip: string, rest: string, parse: Parser)
    requires TrimSpace(a) == ip + rest && '/' !in ip && '%' !in ip
    requires rest == [] || rest[0] == '/' || rest[0] == '%'
    ensures Sanitize(a, parse) == if AllBlank(a) then None else parse(ip)
  {
    NormalizeEmptyExactly(a);
    if rest == [] || rest[0] == '/' {
      BeforeRest(ip, '/', rest);
      BeforeNone(ip, '%');
    } else {
      var zone := Before(rest, '/');
      BeforePrefix(ip, rest, '/');
      BeforeRest(ip, '%', zone);
    }
  }

  lemma {:induction false} BeforePrefix(s: string, rest: string, c: char)
    requires c !in s
    ensures Before(s + rest, c) == s + Before(rest, c)
  {
    if s == [] {
      assert s + rest == rest;
    } else {
      assert (s + rest)[1..] == s[1..] + rest;
      BeforePrefix(s[1..], rest, c);
      assert s == [s[0]] + s[1..];
    }
  }

  // ---- Clones ----

  /** Neither the name nor a single MAC is shared. */
  predicate IsClone(was: string, now: string) {
    var (oldName, oldMACs) := SplitFingerprint(was);
    var (newName, newMACs) := SplitFingerprint(now);
    oldName != newName && forall m :: m in newMACs ==> m !in oldMACs
  }

  /** `isClone`. */
  method CheckClone(was: string, now: string) returns (clone: bool)
    ensures clone == IsClone(was, now)
  {
    var (oldName, oldMACs) := SplitFingerprint(was);
    var (newName, newMACs) := SplitFingerprint(now);
    if oldName == newName {
      return false;
    }
    for i := 0 to |newMACs|
      invariant forall k :: 0 <= k < i ==> newMACs[k] !in oldMACs
    {
      for j := 0 to |oldMACs|
        invariant newMACs[i] !in oldMACs[..j]
      {
        if newMACs[i] == oldMACs[j] {
          assert newMACs[i] in newMACs && newMACs[i] in oldMACs;
          return false;
        }
      }
      assert oldMACs[..|oldMACs|] == oldMACs;
    }
    return true;
  }

  /**
    Between separable reports, a clone is a machine with another name and no MAC in
    common; with no MACs at all, just another name.
   */
  lemma {:induction false} CloneMeaning(a: Report, b: Report)
    requires Separable(a) && Separable(b)
    ensures IsClone(Fingerprint(a), Fingerprint(b)) <==>
              Normalize(a.hostname) != Normalize(b.hostname)
              && forall m :: m in MACs(b.interfaces) ==> m !in MACs(a.interfaces)
  {
    SplitInvertsExactly(a);
    SplitInvertsExactly(b);
    SortedMACsMembers(a);
    SortedMACsMembers(b);
  }

  /** Clones are mutual, and no machine is a clone of itself, separable or not. */
  lemma {:induction false} CloneSymmetric(a: string, b: string)
    ensures IsClone(a, b) == IsClone(b, a)
    ensures !IsClone(a, a)
  {
  }

  // ---- Which host a report belongs to ----

  datatype HostRef = HostRef(id: int, name: string, ips: seq<string>)

  datatype Bound = Bound(hostId: int, fingerprint: string)

  datatype Decision = Create | Adopt(host: int) | Update(host: int) | Conflict(host: int)

  predicate NameMatches(r: Report, h: HostRef) {
    Normalize(h.name) == Normalize(r.hostname)
  }

  predicate SharesIP(r: Report, parse: Parser, h: HostRef) {
    exists i :: 0 <= i < |h.ips| && h.ips[i] in ReportedIPs(r, parse)
  }

  /** The first host that matches by name, else the first that shares an address. */
  function MatchHost(r: Report, parse: Parser, hosts: seq<HostRef>): Option<int> {
    var i := First(hosts, (h: HostRef) => NameMatches(r, h));
    var j := First(hosts, (h: HostRef) => SharesIP(r, parse, h));
    if i < |hosts| then Some(hosts[i].id) else if j < |hosts| then Some(hosts[j].id) else None
  }

  function First<T>(s: seq<T>, p: T -> bool): (i: nat)
    ensures i <= |s| && (forall k :: 0 <= k < i ==> !p(s[k]))
    ensures i < |s| ==> p(s[i])
  {
    if s == [] || p(s[0]) then 0 else 1 + First(s[1..], p)
  }

  method HasReported(ips: seq<string>, reported: set<string>) returns (found: bool)
    ensures found <==> exists i :: 0 <= i < |ips| && ips[i] in reported
  {
    for i := 0 to |ips|
      invariant forall k :: 0 <= k < i ==> ips[k] !in reported
    {
      if ips[i] in reported {
        return true;
      }
    }
    return false;
  }

  /** `matchHost`. */
  method FindHost(r: Report, parse: Parser, hosts: seq<HostRef>) returns (id: Option<int>)
    ensures id == MatchHost(r, parse, hosts)
  {
    var byName := (h: HostRef) => NameMatches(r, h);
    ghost var first := First(hosts, byName);
    for i := 0 to |hosts|
      invariant i <= first
    {
      assert NameMatches(r, hosts[i]) == byName(hosts[i]);
      if Normalize(hosts[i].name) == Normalize(r.hostname) {
        assert first == i;
        return Some(hosts[i].id);
      }
    }
    var ips := CollectIPs(r, parse);
    var reported := set ip | ip in ips;
    var byIP := (h: HostRef) => SharesIP(r, parse, h);
    ghost var second := First(hosts, byIP);
    for i := 0 to |hosts|
      invariant i <= second
    {
      var found := HasReported(hosts[i].ips, reported);
      assert found == SharesIP(r, parse, hosts[i]) == byIP(hosts[i]);
      if found {
        return Some(hosts[i].id);
      }
    }
    return None;
  }

  /** A bound agent is updated unless the machine behind it is a clone; an unbound one adopts a match or creates. */
  function Resolve(r: Report, parse: Parser, existing: Option<Bound>, hosts: seq<HostRef>): Decision {
    if existing.Some? then
      if IsClone(existing.value.fingerprint, Fingerprint(r)) then Conflict(existing.value.hostId)
      else Update(existing.value.hostId)
    else
      match MatchHost(r, parse, hosts)
      case Some(id) => Adopt(id)
      case None => Create
  }

  /** `Resolve`. */
  method Decide(r: Report, parse: Parser, existing: Option<Bound>, hosts: seq<HostRef>) returns (d: Decision)
    ensures d == Resolve(r, parse, existing, hosts)
  {
    if existing.Some? {
      var fp := MakeFingerprint(r);
      var clone := CheckClone(existing.value.fingerprint, fp);
      if clone {
        return Conflict(existing.value.hostId);
      }
      return Update(existing.value.hostId);
    }
    var id := FindHost(r, parse, hosts);
    if id.Some? {
      return Adopt(id.value);
    }
    return Create;
  }

  /** The host at i is the one to adopt: the first by name, or with none by name the first by address. */
  ghost predicate Adoptable(r: Report, parse: Parser, hosts: seq<HostRef>, i: nat)
    requires i < |hosts|
  {
    || (NameMatches(r, hosts[i]) && forall k :: 0 <= k < i ==> !NameMatches(r, hosts[k]))
    || (&& (forall k :: 0 <= k < |hosts| ==> !NameMatches(r, hosts[k]))
        && SharesIP(r, parse, hosts[i]) && forall k :: 0 <= k < i ==> !SharesIP(r, parse, hosts[k]))
  }

  /** Names are compared without the white space around them and the case of their letters. */
  lemma {:induction false} NameMatchesExactly(r: Report, h: HostRef)
    ensures NameMatches(r, h) <==> SameButCase(TrimSpace(h.name), TrimSpace(r.hostname))
  {
    NormalizeExactly(h.name, r.hostname);
  }

  /** A host shares an address when one of its IPs is one of the report's. */
  lemma {:induction false} SharesIPExactly(r: Report, parse: Parser, h: HostRef)
    ensures SharesIP(r, parse, h) <==> exists ip :: ip in h.ips && ip in ReportedIPs(r, parse)
  {
    if ip :| ip in h.ips && ip in ReportedIPs(r, parse) {
      var i :| 0 <= i < |h.ips| && h.ips[i] == ip;
      assert h.ips[i] in ReportedIPs(r, parse);
    }
    if SharesIP(r, parse, h) {
      var i :| 0 <= i < |h.ips| && h.ips[i] in ReportedIPs(r, parse);
      assert h.ips[i] in h.ips;
    }
  }

  /** A bound agent's report is about its own host, or a conflict over it when the machine is a clone. */
  lemma {:induction false} BoundDecision(r: Report, parse: Parser, b: Bound, hosts: seq<HostRef>)
    ensures Resolve(r, parse, Some(b), hosts) ==
      if IsClone(b.fingerprint, Fingerprint(r)) then Conflict(b.hostId) else Update(b.hostId)
  {
  }

  /**
    An unbound agent only ever adopts a listed host that matches it, by name before by
    address, and creates only when none does.
   */
  lemma {:induction false} AdoptMeaning(r: Report, parse: Parser, hosts: seq<HostRef>)
    ensures var d := Resolve(r, parse, None, hosts);
            && (d.Create? <==> forall i :: 0 <= i < |hosts| ==>
              !NameMatches(r, hosts[i]) && !SharesIP(r, parse, hosts[i]))
            && (!d.Create? <==> d.Adopt?)
            && (d.Adopt? ==> exists i :: 0 <= i < |hosts| && hosts[i].id == d.host && Adoptable(r, parse, hosts, i))
  {
    var byName := (h: HostRef) => NameMatches(r, h);
    var byIP := (h: HostRef) => SharesIP(r, parse, h);
    var i, j := First(hosts, byName), First(hosts, byIP);
    forall k | 0 <= k < |hosts|
      ensures byName(hosts[k]) == NameMatches(r, hosts[k]) && byIP(hosts[k]) == SharesIP(r, parse, hosts[k])
    {
    }
    if i < |hosts| {
      assert Adoptable(r, parse, hosts, i);
    } else if j < |hosts| {
      assert Adoptable(r, parse, hosts, j);
    }
  }
}
