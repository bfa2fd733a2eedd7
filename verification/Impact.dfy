/**
  Impact analysis (`internal/store/impact.go`): a breadth-first search over
  reversed dependency edges.
 */
module Impact {
  import opened Wrappers
  import opened Listing
  import opened Text

  /** `domain.EntityRef`. */
  datatype Ref = Ref(typ: string, id: int)

  datatype Relationship = Relationship(from: Ref, to: Ref, kind: string)

  /** `IsDependencyKind`. */
  predicate IsDependencyKind(kind: string) {
    kind in {"runs on", "connected to", "exposed via", "secured by", "depends on"}
  }

  /** The visited-map key "type:id". */
  function RefKey(r: Ref): string {
    r.typ + [':'] + Itoa(r.id)
  }

  /** Distinct entities have distinct keys, whatever their types and ids. */
  lemma {:induction false} RefKeyInjective(a: Ref, b: Ref)
    ensures RefKey(a) == RefKey(b) <==> a == b
  {
    if RefKey(a) == RefKey(b) {
      ItoaHasNo(a.id, ':');
      ItoaHasNo(b.id, ':');
      LastSeparator(a.typ, Itoa(a.id), b.typ, Itoa(b.id), ':');
      ItoaInjective(a.id, b.id);
    }
  }

  // ---- The dependency graph ----

  /** v depends directly on u. */
  predicate DependsOn(all: seq<Relationship>, v: Ref, u: Ref) {
    exists e :: e in all && IsDependencyKind(e.kind) && e.to == u && e.from == v
  }

  /** The relationship kinds that people may choose from. */
  const RELATIONSHIP_KINDS: seq<string> :=
    ["runs on", "connected to", "exposed via", "secured by", "backed up by", "depends on", "administered by",
     "owned by"]

  /** Of the relationship kinds, all mean a dependency but these three, and nothing else does. */
  lemma {:induction false} DependencyKindsMeaning(kind: string)
    ensures IsDependencyKind(kind) <==>
      kind in RELATIONSHIP_KINDS && kind != "backed up by" && kind != "administered by" && kind != "owned by"
  {
    var k := RELATIONSHIP_KINDS;
    assert k[0] == "runs on" && k[1] == "connected to" && k[2] == "exposed via" && k[3] == "secured by";
    assert k[4] == "backed up by" && k[5] == "depends on" && k[6] == "administered by" && k[7] == "owned by";
    if kind in k && kind != "backed up by" && kind != "administered by" && kind != "owned by" {
      var i :| 0 <= i < |k| && k[i] == kind;
      assert i == 0 || i == 1 || i == 2 || i == 3 || i == 5;
    }
  }

  /** The dependent is the one an edge comes from: what runs on a host depends on the host, and not the host on it. */
  lemma {:induction false} EdgeDirection(e: Relationship)
    requires e.from != e.to
    ensures DependsOn([e], e.from, e.to) <==> IsDependencyKind(e.kind)
    ensures !DependsOn([e], e.to, e.from)
    ensures e.kind == "runs on" ==> DependsOn([e], e.from, e.to)
  {
    assert e in [e];
  }

  /** v depends on u through a chain of n edges. */
  ghost predicate Reaches(all: seq<Relationship>, u: Ref, v: Ref, n: nat)
    decreases n
  {
    if n == 0 then u == v else exists m :: Reaches(all, u, m, n - 1) && DependsOn(all, v, m)
  }

  /** The direct dependents of the entity with a key, in listing order. */
  function DependentsOf(all: seq<Relationship>, k: string): seq<Ref> {
    if all == [] then []
    else
      var e := all[|all| - 1];
      DependentsOf(all[..|all| - 1], k) + (if IsDependencyKind(e.kind) && RefKey(e.to) == k then [e.from] else [])
  }

  lemma {:induction false} DependentsMeaning(all: seq<Relationship>, u: Ref, v: Ref)
    ensures v in DependentsOf(all, RefKey(u)) <==> DependsOn(all, v, u)
  {
    if all != [] {
      var n := |all| - 1;
      var e := all[n];
      DependentsMeaning(all[..n], u, v);
      RefKeyInjective(e.to, u);
      assert all == all[..n] + [e];
      DependsOnAppend(all[..n], e, v, u);
    }
  }

  /** Edge e leads to the entity with a key. */
  predicate LeadsTo(e: Relationship, k: string) {
    IsDependencyKind(e.kind) && RefKey(e.to) == k
  }

  /** The positions of the dependency edges to the entity with a key. */
  function EdgesTo(all: seq<Relationship>, k: string): set<nat> {
    set i | 0 <= i < |all| && LeadsTo(all[i], k)
  }

  /** Each dependent listed is the origin of its edge. */
  ghost predicate Origins(all: seq<Relationship>, deps: seq<Ref>, src: seq<nat>) {
    |src| == |deps| && forall p :: 0 <= p < |src| ==> src[p] < |all| && deps[p] == all[src[p]].from
  }

  lemma {:induction false} OriginsStep(all: seq<Relationship>, e: Relationship, deps: seq<Ref>, src: seq<nat>,
                                       more: bool)
    requires Origins(all, deps, src)
    ensures Origins(all + [e], deps + (if more then [e.from] else []), Extended(src, |all|, more))
  {
  }

  lemma {:induction false} EdgesToStep(all: seq<Relationship>, k: string, n: nat, src: seq<nat>)
    requires n + 1 == |all| && Lists(src, EdgesTo(all[..n], k))
    ensures Lists(Extended(src, n, LeadsTo(all[n], k)), EdgesTo(all, k))
  {
    EdgesToFront(all, k, n);
    ListsStep(src, EdgesTo(all[..n], k), n, LeadsTo(all[n], k));
  }

  lemma {:induction false} EdgesToFront(all: seq<Relationship>, k: string, n: nat)
    requires n + 1 == |all|
    ensures EdgesTo(all, k) == if LeadsTo(all[n], k) then EdgesTo(all[..n], k) + {n} else EdgesTo(all[..n], k)
  {
  }

  /** The positions of the edges to the entity with a key, in order. */
  function Leading(all: seq<Relationship>, k: string): seq<nat> {
    if all == [] then [] else Extended(Leading(all[..|all| - 1], k), |all| - 1, LeadsTo(all[|all| - 1], k))
  }

  /** The index lists the origins of the dependency edges to an entity, one for each edge, in listing order. */
  lemma {:induction false} DependentsInOrder(all: seq<Relationship>, k: string)
    ensures Lists(Leading(all, k), EdgesTo(all, k))
    ensures Origins(all, DependentsOf(all, k), Leading(all, k))
  {
    if all != [] {
      var n := |all| - 1;
      DependentsInOrder(all[..n], k);
      EdgesToStep(all, k, n, Leading(all[..n], k));
      OriginsStep(all[..n], all[n], DependentsOf(all[..n], k), Leading(all[..n], k), LeadsTo(all[n], k));
      assert all[..n] + [all[n]] == all;
    }
  }

  lemma {:induction false} DependsOnAppend(all: seq<Relationship>, e: Relationship, v: Ref, u: Ref)
    ensures DependsOn(all + [e], v, u) <==>
      DependsOn(all, v, u) || (IsDependencyKind(e.kind) && e.to == u && e.from == v)
  {
    if DependsOn(all, v, u) {
      var d :| d in all && IsDependencyKind(d.kind) && d.to == u && d.from == v;
      assert d in all + [e];
    } else if IsDependencyKind(e.kind) && e.to == u && e.from == v {
      assert e in all + [e];
    }
  }

  function Lookup(m: map<string, seq<Ref>>, k: string): seq<Ref> {
    if k in m then m[k] else []
  }

  method IndexDependents(all: seq<Relationship>) returns (index: map<string, seq<Ref>>)
    ensures forall k :: Lookup(index, k) == DependentsOf(all, k)
  {
    index := map[];
    for i := 0 to |all|
      invariant forall k :: Lookup(index, k) == DependentsOf(all[..i], k)
    {
      assert all[..i + 1][..i] == all[..i];
      var e := all[i];
      if !IsDependencyKind(e.kind) {
        continue;
      }
      var k := RefKey(e.to);
      index := index[k := Lookup(index, k) + [e.from]];
    }
    assert all[..|all|] == all;
  }

  // ---- The search ----

  function RefKeys(s: seq<Ref>): set<string> {
    set r | r in s :: RefKey(r)
  }

  /** Every entity that can ever be enqueued. */
  function Universe(all: seq<Relationship>, start: Ref): set<Ref> {
    {start} + set e | e in all :: e.from
  }

  /** v has been found, at distance at most d. */
  ghost predicate FoundBy(order: seq<Ref>, dist: seq<nat>, v: Ref, d: nat)
    requires |order| == |dist|
  {
    exists i :: 0 <= i < |order| && order[i] == v && dist[i] <= d
  }

  /** Enqueued entities with the distance each was found at, in order. */
  ghost predicate Explored(all: seq<Relationship>, start: Ref, order: seq<Ref>, dist: seq<nat>) {
    && |order| == |dist| > 0 && order[0] == start && dist[0] == 0 && Distinct(order)
    && (forall i, j :: 0 <= i < j < |dist| ==> dist[i] <= dist[j])
    && (forall i :: 0 <= i < |order| ==> Reaches(all, start, order[i], dist[i]))
    && (forall i :: 0 < i < |order| ==> dist[i] > 0)
    && (forall r :: r in order ==> r in Universe(all, start))
  }

  /** The first h entities have all their dependents enqueued, one step further at most. */
  ghost predicate Closed(all: seq<Relationship>, order: seq<Ref>, dist: seq<nat>, h: nat)
    requires |order| == |dist|
  {
    forall i, v :: 0 <= i < h && i < |order| && DependsOn(all, v, order[i]) ==> FoundBy(order, dist, v, dist[i] + 1)
  }

  lemma {:induction false} DistinctFits(order: seq<Ref>, u: set<Ref>)
    requires Distinct(order) && forall r :: r in order ==> r in u
    ensures |order| <= |u|
  {
    if order != [] {
      var n := |order| - 1;
      forall r | r in order[..n] ensures r in u - {order[n]} {}
      DistinctFits(order[..n], u - {order[n]});
      assert order[n] in order;
    }
  }

  /**
    When every enqueued entity has been processed, all that is reachable has been found,
    no later than its distance.
   */
  lemma {:induction false} ClosedFindsAll(all: seq<Relationship>, start: Ref, order: seq<Ref>, dist: seq<nat>, v: Ref,
                                          n: nat)
    requires Explored(all, start, order, dist) && Closed(all, order, dist, |order|)
    requires Reaches(all, start, v, n)
    ensures FoundBy(order, dist, v, n)
    decreases n
  {
    if n == 0 {
      assert order[0] == v;
    } else {
      var m :| Reaches(all, start, m, n - 1) && DependsOn(all, v, m);
      ClosedFindsAll(all, start, order, dist, m, n - 1);
      var i :| 0 <= i < |order| && order[i] == m && dist[i] <= n - 1;
      assert FoundBy(order, dist, v, dist[i] + 1);
    }
  }

  /** v is at distance exactly n from start. */
  ghost predicate AtDistance(all: seq<Relationship>, start: Ref, v: Ref, n: nat) {
    Reaches(all, start, v, n) && forall m: nat :: m < n ==> !Reaches(all, start, v, m)
  }

  /** Enqueueing one newly found dependent of the entity at h. */
  lemma {:induction false} ExploreOne(all: seq<Relationship>, start: Ref, order: seq<Ref>, dist: seq<nat>, h: nat,
                                      v: Ref)
    requires Explored(all, start, order, dist) && h < |order| && v !in order && DependsOn(all, v, order[h])
    requires forall i :: 0 <= i < |dist| ==> dist[i] <= dist[h] + 1
    requires Closed(all, order, dist, h)
    ensures Explored(all, start, order + [v], dist + [dist[h] + 1])
    ensures Closed(all, order + [v], dist + [dist[h] + 1], h)
    ensures FoundBy(order + [v], dist + [dist[h] + 1], v, dist[h] + 1)
  {
    var order', dist' := order + [v], dist + [dist[h] + 1];
    assert Reaches(all, start, v, dist[h] + 1);
    var e :| e in all && IsDependencyKind(e.kind) && e.to == order[h] && e.from == v;
    assert order'[|order|] == v;
    forall i, w | 0 <= i < h && DependsOn(all, w, order'[i]) ensures FoundBy(order', dist', w, dist'[i] + 1) {
      assert order'[i] == order[i];
      FoundStays(order, dist, v, dist[h] + 1, w, dist[i] + 1);
    }
  }

  lemma {:induction false} FoundStays(order: seq<Ref>, dist: seq<nat>, v: Ref, dv: nat, w: Ref, d: nat)
    requires |order| == |dist| && FoundBy(order, dist, w, d)
    ensures FoundBy(order + [v], dist + [dv], w, d)
  {
    var i :| 0 <= i < |order| && order[i] == w && dist[i] <= d;
    assert (order + [v])[i] == w;
  }

  /** The state of the search while the entity at h is being processed. */
  ghost predicate Exploring(all: seq<Relationship>, start: Ref, visited: set<string>, order: seq<Ref>, dist: seq<nat>,
                            h: nat) {
    && Explored(all, start, order, dist) && h < |order| && visited == RefKeys(order)
    && (forall i :: 0 <= i < |dist| ==> dist[i] <= dist[h] + 1)
    && Closed(all, order, dist, h)
  }

  /** The inner loop of `Impact`: enqueue the unvisited dependents of the entity at h. */
  method Visit(all: seq<Relationship>, ghost start: Ref, deps: seq<Ref>, visited0: set<string>, order0: seq<Ref>,
               ghost dist0: seq<nat>, ghost h: nat)
    returns (visited: set<string>, order: seq<Ref>, ghost dist: seq<nat>)
    requires Exploring(all, start, visited0, order0, dist0, h)
    requires forall v :: v in deps <==> DependsOn(all, v, order0[h])
    ensures Exploring(all, start, visited, order, dist, h)
    ensures order0 <= order && dist0 <= dist
    ensures Closed(all, order, dist, h + 1)
  {
    visited, order, dist := visited0, order0, dist0;
    for i := 0 to |deps|
      invariant Exploring(all, start, visited, order, dist, h)
      invariant order0 <= order && dist0 <= dist
      invariant AllFound(order, dist, deps[..i], dist[h] + 1)
    {
      assert deps[..i + 1] == deps[..i] + [deps[i]];
      assert deps[i] in deps;
      visited, order, dist := VisitOne(all, start, deps[i], visited, order, dist, h, deps[..i]);
    }
    assert deps[..|deps|] == deps;
    CloseNext(all, order, dist, h, deps);
  }

  method VisitOne(ghost all: seq<Relationship>, ghost start: Ref, dep: Ref, visited0: set<string>, order0: seq<Ref>,
                  ghost dist0: seq<nat>, ghost h: nat, ghost before: seq<Ref>)
    returns (visited: set<string>, order: seq<Ref>, ghost dist: seq<nat>)
    requires Exploring(all, start, visited0, order0, dist0, h) && DependsOn(all, dep, order0[h])
    requires AllFound(order0, dist0, before, dist0[h] + 1)
    ensures Exploring(all, start, visited, order, dist, h)
    ensures order0 <= order && dist0 <= dist
    ensures AllFound(order, dist, before + [dep], dist[h] + 1)
  {
    visited, order, dist := visited0, order0, dist0;
    var k := RefKey(dep);
    VisitedMeaning(order, dep);
    if k in visited {
      AlreadyFound(order, dist, dep, dist[h] + 1);
      return;
    }
    ExploreOne(all, start, order, dist, h, dep);
    AllStay(order, dist, dep, dist[h] + 1, before, dist[h] + 1);
    visited := visited + {k};
    order, dist := order + [dep], dist + [dist[h] + 1];
  }

  /** Every entity of deps has been found, at distance at most d. */
  ghost predicate AllFound(order: seq<Ref>, dist: seq<nat>, deps: seq<Ref>, d: nat)
    requires |order| == |dist|
  {
    forall v :: v in deps ==> FoundBy(order, dist, v, d)
  }

  lemma {:induction false} AlreadyFound(order: seq<Ref>, dist: seq<nat>, v: Ref, d: nat)
    requires |order| == |dist| && v in order && forall i :: 0 <= i < |dist| ==> dist[i] <= d
    ensures FoundBy(order, dist, v, d)
  {
    var i :| 0 <= i < |order| && order[i] == v;
    assert dist[i] <= d;
  }

  lemma {:induction false} AllStay(order: seq<Ref>, dist: seq<nat>, v: Ref, dv: nat, deps: seq<Ref>, d: nat)
    requires |order| == |dist| && AllFound(order, dist, deps, d)
    ensures AllFound(order + [v], dist + [dv], deps, d)
  {
    forall w | w in deps ensures FoundBy(order + [v], dist + [dv], w, d) {
      FoundStays(order, dist, v, dv, w, d);
    }
  }

  lemma {:induction false} CloseNext(all: seq<Relationship>, order: seq<Ref>, dist: seq<nat>, h: nat, deps: seq<Ref>)
    requires h < |order| == |dist| && Closed(all, order, dist, h) && AllFound(order, dist, deps, dist[h] + 1)
    requires forall v :: v in deps <==> DependsOn(all, v, order[h])
    ensures Closed(all, order, dist, h + 1)
  {
  }

  lemma {:induction false} VisitedMeaning(order: seq<Ref>, v: Ref)
    ensures RefKey(v) in RefKeys(order) <==> v in order
  {
    if RefKey(v) in RefKeys(order) {
      var r :| r in order && RefKey(r) == RefKey(v);
      RefKeyInjective(r, v);
    }
  }

  /**
    `Impact`.  On any graph the search ends with exactly the entities that depend
    on the start through one or more edges, never the start, each once, in order
    of non-decreasing distance; `dist` gives each one's exact distance.
   */
  method Impact(all: seq<Relationship>, start: Ref) returns (result: seq<Ref>, ghost dist: seq<nat>)
    ensures forall v :: v in result <==> Dependent(all, start, v)
    ensures Distinct(result)
    ensures |dist| == |result| && (forall i :: 0 <= i < |result| ==> AtDistance(all, start, result[i], dist[i]))
    ensures forall i, j :: 0 <= i < j < |dist| ==> dist[i] <= dist[j]
  {
    var index := IndexDependents(all);
    var visited := {RefKey(start)};
    var order := [start];
    ghost var d: seq<nat> := [0];
    var h := 0;
    ghost var u := Universe(all, start);
    while h < |order|
      invariant Explored(all, start, order, d) && visited == RefKeys(order) && h <= |order|
      invariant h < |order| ==> forall i :: 0 <= i < |d| ==> d[i] <= d[h] + 1
      invariant Closed(all, order, d, h)
      decreases |u| - h
    {
      var cur := order[h];
      var deps := Lookup(index, RefKey(cur));
      forall v ensures v in deps <==> DependsOn(all, v, cur) {
        DependentsMeaning(all, cur, v);
      }
      DistinctFits(order, u);
      visited, order, d := Visit(all, start, deps, visited, order, d, h);
      h := h + 1;
    }
    result, dist := order[1..], d[1..];
    SearchComplete(all, start, order, d);
  }

  /** v is not the start and depends on it through one or more edges. */
  ghost predicate Dependent(all: seq<Relationship>, start: Ref, v: Ref) {
    v != start && exists n: nat :: n > 0 && Reaches(all, start, v, n)
  }

  lemma {:induction false} SearchComplete(all: seq<Relationship>, start: Ref, order: seq<Ref>, d: seq<nat>)
    requires Explored(all, start, order, d) && Closed(all, order, d, |order|)
    ensures forall v :: v in order[1..] <==> Dependent(all, start, v)
    ensures forall i :: 0 <= i < |order[1..]| ==> AtDistance(all, start, order[1..][i], d[1..][i])
  {
    forall v ensures v in order[1..] <==> Dependent(all, start, v) {
      if v in order[1..] {
        var i :| 0 < i < |order| && order[i] == v;
        assert Reaches(all, start, v, d[i]);
      }
      if Dependent(all, start, v) {
        var n: nat :| n > 0 && Reaches(all, start, v, n);
        ClosedFindsAll(all, start, order, d, v, n);
        var i :| 0 <= i < |order| && order[i] == v;
        assert order[1..][i - 1] == v;
      }
    }
    forall i | 0 <= i < |order[1..]| ensures AtDistance(all, start, order[1..][i], d[1..][i]) {
      ExactDistance(all, start, order, d, i + 1, order[i + 1]);
    }
  }

  lemma {:induction false} ExactDistance(all: seq<Relationship>, start: Ref, order: seq<Ref>, d: seq<nat>, i: nat,
                                         v: Ref)
    requires Explored(all, start, order, d) && Closed(all, order, d, |order|)
    requires i < |order| && v == order[i]
    ensures AtDistance(all, start, v, d[i])
  {
    forall m: nat | m < d[i] ensures !Reaches(all, start, v, m) {
      if Reaches(all, start, v, m) {
        ClosedFindsAll(all, start, order, d, v, m);
      }
    }
  }
}
