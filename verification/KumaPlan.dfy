/**
  The reconcile plan (`internal/kuma/reconcile.go`): the actions that turn Uptime
  Kuma's live monitors into the desired ones, touching only managed monitors.
 */
module KumaPlan {
  import opened Wrappers
  import opened Sorting

  /** Row and monitor ids. */
  type ID = nat

  /** A service, with the answer of `monitorURL`: None when it has no valid http(s) URL. */
  datatype Service = Service(id: ID, name: string, url: Option<string>)

  /** A monitor; `raw` stands for the fields the program round-trips without modelling. */
  datatype Monitor = Monitor(name: string, url: string, raw: string)

  datatype Action =
    | Create(sid: ID, want: Monitor)
    | Edit(sid: ID, id: ID, want: Monitor)
    | Delete(sid: ID, id: ID)
    | Forget(sid: ID)

  // ---- What is wanted ----

  /** Service id to wanted monitor: the last monitorable service with the id. */
  function Desired(services: seq<Service>): map<ID, Monitor> {
    if services == [] then map[]
    else
      var d, s := Desired(services[..|services| - 1]), services[|services| - 1];
      if s.url.None? then d else d[s.id := Monitor(s.name, s.url.value, "")]
  }

  function Skipped(services: seq<Service>): nat {
    if services == [] then 0
    else Skipped(services[..|services| - 1]) + (if services[|services| - 1].url.None? then 1 else 0)
  }

  /** A service is wanted exactly when some entry with its id is monitorable. */
  lemma {:induction false} DesiredMeaning(services: seq<Service>, sid: ID)
    ensures sid in Desired(services) <==> exists s :: s in services && s.id == sid && s.url.Some?
    ensures sid in Desired(services) ==>
      exists s :: s in services && s.id == sid && s.url.Some?
        && Desired(services)[sid] == Monitor(s.name, s.url.value, "")
  {
    if services != [] {
      var n := |services| - 1;
      DesiredMeaning(services[..n], sid);
      assert services == services[..n] + [services[n]];
      assert services[n] in services;
    }
  }

  /** Entry i is the last with the service id that has a URL. */
  predicate LastWith(services: seq<Service>, sid: ID, i: nat) {
    && i < |services| && services[i].id == sid && services[i].url.Some?
    && forall j :: i < j < |services| && services[j].id == sid ==> services[j].url.None?
  }

  /** Of several entries with one id and a URL, the last is wanted: its name and its URL. */
  lemma {:induction false} DesiredIsLast(services: seq<Service>, sid: ID, i: nat)
    requires LastWith(services, sid, i)
    ensures sid in Desired(services)
    ensures var m := Desired(services)[sid]; m.name == services[i].name && Some(m.url) == services[i].url && m.raw == ""
  {
    var n := |services| - 1;
    if i < n {
      DesiredIsLast(services[..n], sid, i);
    }
  }

  /** Skipped are the entries without a URL. */
  lemma {:induction false} SkippedMeaning(services: seq<Service>)
    ensures Skipped(services) == |set i | 0 <= i < |services| && services[i].url.None?|
  {
    if services != [] {
      var n := |services| - 1;
      var front := set i | 0 <= i < n && services[..n][i].url.None?;
      SkippedMeaning(services[..n]);
      assert (set i | 0 <= i < |services| && services[i].url.None?) ==
        if services[n].url.None? then front + {n} else front;
    }
  }

  // ---- Keys in ascending order ----

  predicate Less(a: ID, b: ID) { a < b }

  ghost function Greatest(s: set<ID>): (g: ID)
    requires s != {}
    ensures g in s && forall x :: x in s ==> x <= g
    decreases |s|
  {
    var x :| x in s;
    if s == {x} then x
    else
      assert |s - {x}| == |s| - 1;
      assert s == (s - {x}) + {x};
      var y := Greatest(s - {x});
      if x > y then x else y
  }

  /** A set as an ascending list. */
  ghost function Ascending(s: set<ID>): (r: seq<ID>)
    ensures forall x :: x in r <==> x in s
    decreases |s|
  {
    if s == {} then []
    else
      var g := Greatest(s);
      assert |s - {g}| == |s| - 1;
      assert s == (s - {g}) + {g};
      Ascending(s - {g}) + [g]
  }

  lemma {:induction false} AscendingIncreases(s: set<ID>)
    ensures forall i, j :: 0 <= i < j < |Ascending(s)| ==> Ascending(s)[i] < Ascending(s)[j]
    decreases |s|
  {
    if s != {} {
      var g := Greatest(s);
      assert |s - {g}| == |s| - 1;
      AscendingIncreases(s - {g});
      GrowAscending(Ascending(s - {g}), g);
    }
  }

  lemma {:induction false} AscendingElements(s: set<ID>)
    ensures multiset(Ascending(s)) == multiset(s)
    decreases |s|
  {
    if s != {} {
      var g := Greatest(s);
      var rest := s - {g};
      assert |rest| == |s| - 1;
      AscendingElements(rest);
      assert multiset(s) == multiset(rest) + multiset{g};
      assert multiset(Ascending(rest) + [g]) == multiset(Ascending(rest)) + multiset{g};
    }
  }

  lemma {:induction false} GrowAscending(front: seq<ID>, g: ID)
    requires forall i, j :: 0 <= i < j < |front| ==> front[i] < front[j]
    requires forall x :: x in front ==> x < g
    ensures forall i, j :: 0 <= i < j < |front + [g]| ==> (front + [g])[i] < (front + [g])[j]
  {
    forall i | 0 <= i < |front| ensures front[i] < g {
      assert front[i] in front;
    }
  }

  /** The keys of a map, collected in any order and sorted. */
  method SortedKeys(s: set<ID>) returns (r: seq<ID>)
    ensures r == Ascending(s)
  {
    var keys: seq<ID> := [];
    var todo := s;
    while todo != {}
      invariant multiset(keys) + multiset(todo) == multiset(s)
      decreases todo
    {
      var x :| x in todo;
      assert todo == (todo - {x}) + {x};
      todo := todo - {x};
      keys := keys + [x];
    }
    r := Sort(keys, Less);
    SortCorrect(keys, Less);
    AscendingIncreases(s);
    AscendingElements(s);
    SortedUnique(r, Ascending(s), Less);
  }

  // ---- plan ----

  /** What service sid still needs, given the mapping and the live monitors. */
  function Needs(desired: map<ID, Monitor>, mapping: map<ID, ID>, live: map<ID, Monitor>, sid: ID): Option<Action> {
    if sid !in mapping then (if sid in desired then Some(Create(sid, desired[sid])) else None)
    else
      var mid := mapping[sid];
      if sid in desired then
        if mid !in live then Some(Create(sid, desired[sid]))
        else if live[mid].name != desired[sid].name || live[mid].url != desired[sid].url
        then Some(Edit(sid, mid, desired[sid].(raw := live[mid].raw)))
        else None
      else if mid in live then Some(Delete(sid, mid))
      else Some(Forget(sid))
  }

  /** `Needs` as a function of the service id. */
  function NeedOf(desired: map<ID, Monitor>, mapping: map<ID, ID>, live: map<ID, Monitor>): ID -> Option<Action> {
    (sid: ID) => Needs(desired, mapping, live, sid)
  }

  /** The values of a partial function on a list, in order. */
  function Collect<S, T>(f: S -> Option<T>, s: seq<S>): seq<T> {
    if s == [] then []
    else
      var a := f(s[|s| - 1]);
      Collect(f, s[..|s| - 1]) + (if a.Some? then [a.value] else [])
  }

  /** Managed services first, then the wanted ones without a row, each in ascending order. */
  ghost function PlanOrder(services: seq<Service>, mapping: map<ID, ID>): seq<ID> {
    Ascending(mapping.Keys) + Ascending(Desired(services).Keys - mapping.Keys)
  }

  ghost function Plan(services: seq<Service>, mapping: map<ID, ID>, live: map<ID, Monitor>): seq<Action> {
    Collect(NeedOf(Desired(services), mapping, live), PlanOrder(services, mapping))
  }

  method WantedMonitors(services: seq<Service>) returns (desired: map<ID, Monitor>, skipped: nat)
    ensures desired == Desired(services) && skipped == Skipped(services)
  {
    desired, skipped := map[], 0;
    for i := 0 to |services|
      invariant desired == Desired(services[..i]) && skipped == Skipped(services[..i])
    {
      assert services[..i + 1][..i] == services[..i];
      var s := services[i];
      if s.url.None? {
        skipped := skipped + 1;
        continue;
      }
      desired := desired[s.id := Monitor(s.name, s.url.value, "")];
    }
    assert services[..|services|] == services;
  }

  /** The switch of the first loop of `plan`: one managed row. */
  function ManagedRow(cur: Option<Monitor>, want: Option<Monitor>, sid: ID, mid: ID): seq<Action> {
    match (want, cur)
    case (Some(w), Some(c)) => if c.name != w.name || c.url != w.url then [Edit(sid, mid, w.(raw := c.raw))] else []
    case (Some(w), None) => [Create(sid, w)]
    case (None, Some(c)) => [Delete(sid, mid)]
    case (None, None) => [Forget(sid)]
  }

  function Get(m: map<ID, Monitor>, k: ID): Option<Monitor> {
    if k in m then Some(m[k]) else None
  }

  /** The wanted monitors without the services planned so far. */
  function Without(wanted: map<ID, Monitor>, sids: seq<ID>): map<ID, Monitor> {
    if sids == [] then wanted else Without(wanted, sids[..|sids| - 1]) - {sids[|sids| - 1]}
  }

  lemma {:induction false} WithoutMeaning(wanted: map<ID, Monitor>, sids: seq<ID>)
    ensures forall k :: k in Without(wanted, sids) <==> k in wanted && k !in sids
    ensures forall k :: k in Without(wanted, sids) ==> Without(wanted, sids)[k] == wanted[k]
  {
    if sids != [] {
      WithoutMeaning(wanted, sids[..|sids| - 1]);
    }
  }

  function Listed<T>(a: Option<T>): seq<T> {
    if a.Some? then [a.value] else []
  }

  lemma {:induction false} CollectStep<S, T>(f: S -> Option<T>, s: seq<S>, i: nat)
    requires i < |s|
    ensures Collect(f, s[..i + 1]) == Collect(f, s[..i]) + Listed(f(s[i]))
  {
    assert s[..i + 1][..i] == s[..i];
  }

  /** One managed row is planned by what its service needs. */
  method PlanRow(existing: map<ID, Monitor>, desired: map<ID, Monitor>, mapping: map<ID, ID>, sid: ID,
                 ghost wanted: map<ID, Monitor>)
    returns (row: seq<Action>)
    requires sid in mapping && Get(desired, sid) == Get(wanted, sid)
    ensures row == Listed(Needs(wanted, mapping, existing, sid))
  {
    var mid := mapping[sid];
    row := ManagedRow(Get(existing, mid), Get(desired, sid), sid, mid);
  }

  lemma {:induction false} StillWanted(wanted: map<ID, Monitor>, sids: seq<ID>, i: nat)
    requires i < |sids| && forall a, b :: 0 <= a < b < |sids| ==> sids[a] < sids[b]
    ensures Get(Without(wanted, sids[..i]), sids[i]) == Get(wanted, sids[i])
    ensures Without(wanted, sids[..i + 1]) == Without(wanted, sids[..i]) - {sids[i]}
  {
    WithoutMeaning(wanted, sids[..i]);
    assert sids[..i + 1][..i] == sids[..i];
  }

  /** The first loop of `plan`; `desired` loses every managed service. */
  method PlanManaged(wanted: map<ID, Monitor>, mapping: map<ID, ID>, existing: map<ID, Monitor>)
    returns (actions: seq<Action>, desired: map<ID, Monitor>)
    ensures actions == Collect(NeedOf(wanted, mapping, existing), Ascending(mapping.Keys))
    ensures desired == Without(wanted, Ascending(mapping.Keys))
  {
    var sids := SortedKeys(mapping.Keys);
    ghost var f := NeedOf(wanted, mapping, existing);
    AscendingIncreases(mapping.Keys);
    actions, desired := [], wanted;
    for i := 0 to |sids|
      invariant actions == Collect(f, sids[..i])
      invariant desired == Without(wanted, sids[..i])
    {
      assert sids[i] in sids;
      StillWanted(wanted, sids, i);
      CollectStep(f, sids, i);
      var row := PlanRow(existing, desired, mapping, sids[i], wanted);
      actions := actions + row;
      desired := desired - {sids[i]};
    }
    assert sids[..|sids|] == sids;
  }

  /** The last loop of `plan`: services without a mapping row. */
  method PlanRest(wanted: map<ID, Monitor>, mapping: map<ID, ID>, existing: map<ID, Monitor>, desired: map<ID, Monitor>)
    returns (actions: seq<Action>)
    requires desired == Without(wanted, Ascending(mapping.Keys))
    ensures actions == Collect(NeedOf(wanted, mapping, existing), Ascending(wanted.Keys - mapping.Keys))
  {
    WithoutMeaning(wanted, Ascending(mapping.Keys));
    forall k ensures k in desired.Keys <==> k in wanted.Keys - mapping.Keys {}
    assert desired.Keys == wanted.Keys - mapping.Keys;
    var rest := SortedKeys(desired.Keys);
    actions := [];
    for i := 0 to |rest|
      invariant actions == Collect(NeedOf(wanted, mapping, existing), rest[..i])
    {
      assert rest[i] in rest;
      CollectStep(NeedOf(wanted, mapping, existing), rest, i);
      assert Needs(wanted, mapping, existing, rest[i]) == Some(Create(rest[i], desired[rest[i]]));
      actions := actions + [Create(rest[i], desired[rest[i]])];
    }
    assert rest[..|rest|] == rest;
  }

  lemma {:induction false} CollectAppend<S, T>(f: S -> Option<T>, a: seq<S>, b: seq<S>)
    ensures Collect(f, a + b) == Collect(f, a) + Collect(f, b)
    decreases |b|
  {
    if b == [] {
      assert a + b == a;
    } else {
      var n := |b| - 1;
      CollectAppend(f, a, b[..n]);
      assert (a + b)[..|a + b| - 1] == a + b[..n];
    }
  }

  /** `plan`. */
  method MakePlan(services: seq<Service>, mapping: map<ID, ID>, existing: map<ID, Monitor>)
    returns (actions: seq<Action>, skipped: nat)
    ensures actions == Plan(services, mapping, existing) && skipped == Skipped(services)
  {
    var wanted;
    wanted, skipped := WantedMonitors(services);
    var managed, desired := PlanManaged(wanted, mapping, existing);
    var rest := PlanRest(wanted, mapping, existing, desired);
    actions := managed + rest;
    CollectAppend(NeedOf(wanted, mapping, existing), Ascending(mapping.Keys), Ascending(wanted.Keys - mapping.Keys));
  }

  // ---- What the plan contains ----

  predicate DistinctSids(actions: seq<Action>) {
    forall i, j :: 0 <= i < j < |actions| ==> actions[i].sid != actions[j].sid
  }

  /** A need names its own service. */
  ghost predicate NamesSid(f: ID -> Option<Action>) {
    forall sid :: f(sid).Some? ==> f(sid).value.sid == sid
  }

  lemma {:induction false} CollectMembers(f: ID -> Option<Action>, sids: seq<ID>)
    requires NamesSid(f)
    ensures forall a :: a in Collect(f, sids) <==> a.sid in sids && f(a.sid) == Some(a)
  {
    if sids != [] {
      var n := |sids| - 1;
      CollectMembers(f, sids[..n]);
      assert sids == sids[..n] + [sids[n]];
    }
  }

  lemma {:induction false} CollectDistinct(f: ID -> Option<Action>, sids: seq<ID>)
    requires NamesSid(f)
    requires forall i, j :: 0 <= i < j < |sids| ==> sids[i] != sids[j]
    ensures DistinctSids(Collect(f, sids))
  {
    if sids != [] {
      var n := |sids| - 1;
      CollectDistinct(f, sids[..n]);
      CollectMembers(f, sids[..n]);
      var front := Collect(f, sids[..n]);
      forall i | 0 <= i < |front| ensures front[i].sid != sids[n] {
        assert front[i] in front;
        assert front[i].sid in sids[..n];
      }
    }
  }

  lemma {:induction false} PlanOrderMeaning(services: seq<Service>, mapping: map<ID, ID>)
    ensures forall i, j :: 0 <= i < j < |PlanOrder(services, mapping)| ==>
      PlanOrder(services, mapping)[i] != PlanOrder(services, mapping)[j]
    ensures forall sid :: sid in PlanOrder(services, mapping) <==> sid in mapping || sid in Desired(services)
  {
    var a, b := Ascending(mapping.Keys), Ascending(Desired(services).Keys - mapping.Keys);
    AscendingIncreases(mapping.Keys);
    AscendingIncreases(Desired(services).Keys - mapping.Keys);
    forall i, j | 0 <= i < |a| && 0 <= j < |b| ensures a[i] != b[j] {
      assert a[i] in a && b[j] in b;
    }
  }

  /** The plan holds exactly one action for each service that needs one, and nothing else. */
  lemma {:induction false} PlanMeaning(services: seq<Service>, mapping: map<ID, ID>, live: map<ID, Monitor>)
    ensures DistinctSids(Plan(services, mapping, live))
    ensures forall a :: a in Plan(services, mapping, live) <==>
      Needs(Desired(services), mapping, live, a.sid) == Some(a)
  {
    var f := NeedOf(Desired(services), mapping, live);
    PlanOrderMeaning(services, mapping);
    CollectDistinct(f, PlanOrder(services, mapping));
    CollectMembers(f, PlanOrder(services, mapping));
    forall a: Action | Needs(Desired(services), mapping, live, a.sid) == Some(a)
      ensures a.sid in PlanOrder(services, mapping) {}
  }

  /**
    Each kind of action, told by the inputs: who is created, edited, deleted and
    forgotten, and with what.  An edit carries the settings the live monitor has.
   */
  lemma {:induction false} PlanExactly(services: seq<Service>, mapping: map<ID, ID>, live: map<ID, Monitor>, sid: ID,
                                       id: ID, want: Monitor)
    ensures var (d, p, named) := (Desired(services), Plan(services, mapping, live), sid in mapping);
      var wanted := sid in d && want.name == d[sid].name && want.url == d[sid].url;
      && (Create(sid, want) in p <==> wanted && want.raw == "" && (named ==> mapping[sid] !in live))
      && (Edit(sid, id, want) in p <==>
            wanted && named && mapping[sid] == id && id in live && want.raw == live[id].raw && want != live[id])
      && (Delete(sid, id) in p <==> sid !in d && named && mapping[sid] == id && id in live)
      && (Forget(sid) in p <==> sid !in d && named && mapping[sid] !in live)
  {
    PlanMeaning(services, mapping, live);
    DesiredMeaning(services, sid);
    assert Create(sid, want).sid == sid && Edit(sid, id, want).sid == sid;
    assert Delete(sid, id).sid == sid && Forget(sid).sid == sid;
  }

  /** Services with a row come first, then those without, each in ascending order of their ids. */
  predicate PlannedBefore(mapping: map<ID, ID>, a: Action, b: Action) {
    (a.sid in mapping && b.sid !in mapping) || ((a.sid in mapping <==> b.sid in mapping) && a.sid < b.sid)
  }

  lemma {:induction false} CollectRelated(f: ID -> Option<Action>, sids: seq<ID>, mapping: map<ID, ID>)
    requires NamesSid(f)
    requires forall i, j :: 0 <= i < j < |sids| ==>
      (sids[i] in mapping && sids[j] !in mapping) || ((sids[i] in mapping <==> sids[j] in mapping) && sids[i] < sids[j])
    ensures forall i, j :: 0 <= i < j < |Collect(f, sids)| ==>
      PlannedBefore(mapping, Collect(f, sids)[i], Collect(f, sids)[j])
  {
    if sids != [] {
      var n := |sids| - 1;
      CollectRelated(f, sids[..n], mapping);
      CollectMembers(f, sids[..n]);
      var front := Collect(f, sids[..n]);
      forall i | 0 <= i < |front| && f(sids[n]).Some?
        ensures PlannedBefore(mapping, front[i], f(sids[n]).value) {
        assert front[i] in front;
        assert front[i].sid in sids[..n];
      }
    }
  }

  lemma {:induction false} PlanInOrder(services: seq<Service>, mapping: map<ID, ID>, live: map<ID, Monitor>)
    ensures forall i, j :: 0 <= i < j < |Plan(services, mapping, live)| ==>
      PlannedBefore(mapping, Plan(services, mapping, live)[i], Plan(services, mapping, live)[j])
  {
    var a, b := Ascending(mapping.Keys), Ascending(Desired(services).Keys - mapping.Keys);
    AscendingIncreases(mapping.Keys);
    AscendingIncreases(Desired(services).Keys - mapping.Keys);
    forall i | 0 <= i < |a| ensures a[i] in mapping {
      assert a[i] in a;
    }
    forall i | 0 <= i < |b| ensures b[i] !in mapping {
      assert b[i] in b;
    }
    CollectRelated(NeedOf(Desired(services), mapping, live), PlanOrder(services, mapping), mapping);
  }

  /** A monitor with the wanted name and URL. */
  predicate Matches(m: Monitor, want: Monitor) {
    m.name == want.name && m.url == want.url
  }

  /** Nothing is left to do exactly when mapping, live monitors and wanted services agree. */
  ghost predicate InSync(desired: map<ID, Monitor>, mapping: map<ID, ID>, live: map<ID, Monitor>) {
    && mapping.Keys == desired.Keys
    && (forall sid :: sid in mapping ==> mapping[sid] in live)
    && (forall sid :: sid in mapping ==> Matches(live[mapping[sid]], desired[sid]))
  }

  lemma {:induction false} PlanEmptyExactly(services: seq<Service>, mapping: map<ID, ID>, live: map<ID, Monitor>)
    ensures Plan(services, mapping, live) == [] <==> InSync(Desired(services), mapping, live)
  {
    var d, p := Desired(services), Plan(services, mapping, live);
    PlanMeaning(services, mapping, live);
    if p == [] {
      forall sid: ID ensures Needs(d, mapping, live, sid).None? {
        var n := Needs(d, mapping, live, sid);
        assert forall a :: n == Some(a) ==> a.sid == sid && a in p;
      }
      NothingNeeded(d, mapping, live);
    } else {
      var a := p[0];
      assert a in p && Needs(d, mapping, live, a.sid) == Some(a);
    }
  }

  /** When no service needs anything, everything is in sync. */
  lemma {:induction false} NothingNeeded(d: map<ID, Monitor>, mapping: map<ID, ID>, live: map<ID, Monitor>)
    requires forall sid: ID :: Needs(d, mapping, live, sid).None?
    ensures InSync(d, mapping, live)
  {
    forall sid: ID ensures sid in mapping <==> sid in d {
      assert Needs(d, mapping, live, sid).None?;
    }
    forall sid | sid in mapping ensures mapping[sid] in live && Matches(live[mapping[sid]], d[sid]) {
      assert Needs(d, mapping, live, sid).None?;
    }
  }
}
