/**
  Agents and hosts (`agentReport` in `internal/web/agent.go` over
  `internal/store/agent_repo.go`): the report transaction and everything else that
  touches the bindings, as serial transactions.
 */
module AgentBinding {
  import opened Wrappers
  import opened AgentApi
  import opened Listing
  import opened Text

  datatype Host = Host(name: string, typ: string, os: string, cpu: string, ram: string, disk: string, ips: seq<string>,
                       rest: string)

  datatype Binding = Binding(agentId: string, fingerprint: string, lastSeen: string, conflictAt: string,
                             conflictHost: string)

  /** The tables, by host id; `reports` holds each host's latest reports. */
  datatype State = State(hosts: map<int, Host>, bindings: map<int, Binding>, reports: map<int, seq<Report>>)

  /** Address parsing and host validation, which this model leaves open. */
  datatype Config = Config(parse: Parser, valid: Host -> bool)

  datatype Response = Accepted(host: int) | Rejected | Contested | Invalid | Failed

  // ---- Merging a report into a host ----

  function Prefer(reported: string, current: string): string {
    if reported == "" then current else reported
  }

  function HostType(virt: string): string {
    if virt == "vm" || virt == "kvm" then "vm" else if virt == "lxc" then "lxc" else "physical"
  }

  /** `mergeAgentReport`. */
  function Merge(c: Config, h: Host, r: Report, isCreate: bool): Host {
    var ips := ReportedIPs(r, c.parse);
    Host(if isCreate then r.hostname else h.name, if isCreate then HostType(r.virtKind) else h.typ,
         Prefer(r.os, h.os), Prefer(r.cpu, h.cpu), Prefer(r.ram, h.ram), Prefer(r.disk, h.disk),
         if ips == [] then h.ips else ips, h.rest)
  }

  const EMPTY_HOST := Host("", "", "", "", "", "", [], "")

  // ---- Looking up ----

  predicate BoundTo(s: State, h: int, agent: string) {
    h in s.bindings && s.bindings[h].agentId == agent
  }

  /** The host an agent is bound to. */
  ghost function HostOf(s: State, agent: string): Option<int> {
    if h :| BoundTo(s, h, agent) then Some(h) else None
  }

  ghost function Existing(s: State, agent: string): Option<Bound> {
    match HostOf(s, agent)
    case Some(h) => if h in s.bindings then Some(Bound(h, s.bindings[h].fingerprint)) else None
    case None => None
  }

  /** The hosts that may be adopted, in listing order: those not bound to any agent. */
  function Candidates(s: State, order: seq<int>): seq<HostRef> {
    if order == [] then []
    else
      var id := order[|order| - 1];
      Candidates(s, order[..|order| - 1])
      + (if id in s.hosts && id !in s.bindings then [HostRef(id, s.hosts[id].name, s.hosts[id].ips)] else [])
  }

  function Latest(all: seq<Report>): seq<Report> {
    if |all| <= 30 then all else all[|all| - 30..]
  }

  function ReportsOf(s: State, h: int): seq<Report> {
    if h in s.reports then s.reports[h] else []
  }

  // ---- Steps ----

  datatype Event =
    | Submit(rep: Report, newId: int, order: seq<int>, ok: bool, now: string)   // ok: the host write succeeds
    | Stamp(agentId: string, hostname: string, at: string)                      // RecordConflict
    | Unbind(host: int)
    | DeleteHost(host: int)                                                     // cascades to its binding and reports
    | WriteHost(host: int, h: Host)                                             // created or edited by hand
    | ImportHosts(hosts: map<int, Host>)                                        // an import replaces all hosts rows

  /** The host, its binding and its history after an accepted report. */
  function Saved(s: State, id: int, h: Host, r: Report, now: string): State {
    State(s.hosts[id := h], s.bindings[id := Binding(r.agentId, Fingerprint(r), now, "", "")],
          s.reports[id := Latest(ReportsOf(s, id) + [r])])
  }

  function SavedIf(c: Config, s: State, id: int, h: Host, e: Event): (State, Response)
    requires e.Submit?
  {
    if !c.valid(h) then (s, Invalid) else if !e.ok then (s, Failed) else (Saved(s, id, h, e.rep, e.now), Accepted(id))
  }

  ghost function DecisionOf(c: Config, s: State, e: Event): Decision
    requires e.Submit?
  {
    Resolve(e.rep, c.parse, Existing(s, e.rep.agentId), Candidates(s, e.order))
  }

  /** What is done on a decision. */
  function Carried(c: Config, s: State, e: Event, d: Decision): (State, Response)
    requires e.Submit?
  {
    match d
    case Conflict(_) => (s, Contested)
    case Create => SavedIf(c, s, e.newId, Merge(c, EMPTY_HOST, e.rep, true), e)
    case Adopt(id) => if id in s.hosts then SavedIf(c, s, id, Merge(c, s.hosts[id], e.rep, false), e) else (s, Failed)
    case Update(id) => if id in s.hosts then SavedIf(c, s, id, Merge(c, s.hosts[id], e.rep, false), e) else (s, Failed)
  }

  /** The report transaction. */
  ghost function Submitted(c: Config, s: State, e: Event): (State, Response)
    requires e.Submit?
  {
    if !ReportValid(e.rep) then (s, Rejected) else Carried(c, s, e, DecisionOf(c, s, e))
  }

  function Stamped(s: State, agent: string, hostname: string, at: string): State {
    s.(bindings := map h | h in s.bindings ::
         if s.bindings[h].agentId == agent then s.bindings[h].(conflictAt := at, conflictHost := hostname)
         else s.bindings[h])
  }

  ghost function Step(c: Config, s: State, e: Event): State {
    match e
    case Submit(_, _, _, _, _) => Submitted(c, s, e).0
    case Stamp(agent, hostname, at) => Stamped(s, agent, hostname, at)
    case Unbind(h) => s.(bindings := s.bindings - {h})
    case DeleteHost(h) => State(s.hosts - {h}, s.bindings - {h}, s.reports - {h})
    case WriteHost(id, h) => s.(hosts := s.hosts[id := h])
    case ImportHosts(hosts) => State(hosts, map[], map[])
  }

  /** A new host's id is new, and the listing holds every host. */
  predicate Possible(s: State, e: Event) {
    e.Submit? ==> e.newId !in s.hosts && forall id :: id in s.hosts ==> id in e.order
  }

  // ---- The invariant ----

  /** Each agent has one host. */
  ghost predicate OneHost(s: State) {
    forall h, k :: h in s.bindings && k in s.bindings && h != k ==> s.bindings[h].agentId != s.bindings[k].agentId
  }

  /** Agents and bound hosts are paired one to one, and bound hosts exist. */
  ghost predicate Inv(s: State) {
    && OneHost(s)
    && (forall h :: h in s.bindings ==> h in s.hosts)
    && (forall h :: h in s.reports ==> h in s.hosts)
  }

  lemma {:induction false} HostOfMeaning(s: State, agent: string)
    requires Inv(s)
    ensures forall h :: BoundTo(s, h, agent) <==> HostOf(s, agent) == Some(h)
  {
  }

  lemma {:induction false} CandidatesUnbound(s: State, order: seq<int>)
    ensures forall i :: 0 <= i < |Candidates(s, order)| ==>
              Candidates(s, order)[i].id in s.hosts && Candidates(s, order)[i].id !in s.bindings
  {
    if order != [] {
      CandidatesUnbound(s, order[..|order| - 1]);
    }
  }

  /** The decision names an unbound host for an unbound agent, and the agent's own host for a bound one. */
  lemma {:induction false} DecisionFits(c: Config, s: State, e: Event)
    requires Inv(s) && e.Submit?
    ensures var d := DecisionOf(c, s, e);
            && (d.Adopt? ==> d.host in s.hosts && d.host !in s.bindings && HostOf(s, e.rep.agentId).None?)
            && (d.Create? ==> HostOf(s, e.rep.agentId).None?)
            && (d.Update? || d.Conflict? ==> HostOf(s, e.rep.agentId) == Some(d.host) && d.host in s.hosts)
  {
    HostOfMeaning(s, e.rep.agentId);
    CandidatesUnbound(s, e.order);
    AdoptMeaning(e.rep, c.parse, Candidates(s, e.order));
  }

  /** Where an accepted report is saved, no other host is bound to its agent: the UNIQUE constraint is never met. */
  lemma {:induction false} UniqueNeverMet(c: Config, s: State, e: Event, id: int)
    requires Inv(s) && Possible(s, e) && e.Submit? && Submitted(c, s, e).1 == Accepted(id)
    ensures forall h :: h in s.bindings && s.bindings[h].agentId == e.rep.agentId ==> h == id
    ensures id in s.bindings ==> s.bindings[id].agentId == e.rep.agentId
  {
    DecisionFits(c, s, e);
    HostOfMeaning(s, e.rep.agentId);
    forall h | h in s.bindings && s.bindings[h].agentId == e.rep.agentId ensures h == id {
      assert BoundTo(s, h, e.rep.agentId);
    }
  }

  /** Only the given host, its binding and its history differ. */
  ghost predicate SameBut(s: State, t: State, id: int) {
    && t.hosts - {id} == s.hosts - {id} && t.bindings - {id} == s.bindings - {id}
    && t.reports - {id} == s.reports - {id}
    && t.bindings.Keys == s.bindings.Keys + {id} && t.hosts.Keys == s.hosts.Keys + {id}
  }

  lemma {:induction false} SavedFrame(s: State, id: int, h: Host, r: Report, now: string)
    ensures SameBut(s, Saved(s, id, h, r, now), id)
  {
    var t := Saved(s, id, h, r, now);
    assert t.hosts - {id} == s.hosts - {id};
    assert t.bindings - {id} == s.bindings - {id};
    assert t.reports - {id} == s.reports - {id};
  }

  /** The host record that an accepted report writes. */
  function Written(c: Config, s: State, id: int, r: Report): Host {
    if id in s.hosts then Merge(c, s.hosts[id], r, false) else Merge(c, EMPTY_HOST, r, true)
  }

  /** An accepted report is saved on the host it was accepted for; any other changes nothing. */
  lemma {:induction false} SubmitSaves(c: Config, s: State, e: Event)
    requires Possible(s, e) && e.Submit?
    ensures var (t, r) := Submitted(c, s, e);
            && (!r.Accepted? ==> t == s)
            && (r.Accepted? ==> t == Saved(s, r.host, Written(c, s, r.host, e.rep), e.rep, e.now)
                                && c.valid(Written(c, s, r.host, e.rep)) && ReportValid(e.rep) && e.ok)
  {
    CarriedSaves(c, s, e, DecisionOf(c, s, e));
  }

  lemma {:induction false} CarriedSaves(c: Config, s: State, e: Event, d: Decision)
    requires e.Submit? && e.newId !in s.hosts
    ensures var (t, r) := Carried(c, s, e, d);
            && (!r.Accepted? ==> t == s)
            && (r.Accepted? ==> t == Saved(s, r.host, Written(c, s, r.host, e.rep), e.rep, e.now)
                                && c.valid(Written(c, s, r.host, e.rep)) && e.ok)
  {
  }

  /** What a report can do: nothing unless it is accepted, and then only its own host, binding and history change. */
  lemma {:induction false} SubmitFrame(c: Config, s: State, e: Event)
    requires Possible(s, e) && e.Submit?
    ensures var (t, r) := Submitted(c, s, e);
            && (!r.Accepted? ==> t == s)
            && (r.Accepted? ==> SameBut(s, t, r.host) && r.host in t.bindings
                                && t.bindings[r.host] == Binding(e.rep.agentId, Fingerprint(e.rep), e.now, "", ""))
  {
    SubmitSaves(c, s, e);
    var (t, r) := Submitted(c, s, e);
    if r.Accepted? {
      SavedFrame(s, r.host, Written(c, s, r.host, e.rep), e.rep, e.now);
    }
  }

  lemma {:induction false} StepKeepsInv(c: Config, s: State, e: Event)
    requires Inv(s) && Possible(s, e)
    ensures Inv(Step(c, s, e))
  {
    if e.Submit? {
      var (t, r) := Submitted(c, s, e);
      SubmitFrame(c, s, e);
      if r.Accepted? {
        UniqueNeverMet(c, s, e, r.host);
        SavedInv(s, t, r.host, e.rep.agentId);
      }
    }
  }

  lemma {:induction false} SavedInv(s: State, t: State, id: int, agent: string)
    requires Inv(s) && BoundTo(t, id, agent) && id in t.hosts
    requires SameBut(s, t, id)
    requires forall h :: h in s.bindings && s.bindings[h].agentId == agent ==> h == id
    ensures Inv(t)
  {
    forall h | h in t.bindings && h != id ensures h in s.bindings && t.bindings[h] == s.bindings[h] {
      assert h in t.bindings - {id};
      assert (t.bindings - {id})[h] == (s.bindings - {id})[h];
    }
    forall h | h in t.reports && h != id ensures h in s.reports {
      assert h in t.reports - {id};
    }
  }

  // ---- The tables as an object: each method is one transaction ----

  class Store {
    var hosts: map<int, Host>
    var bindings: map<int, Binding>
    var reports: map<int, seq<Report>>

    function Value(): State
      reads this
    {
      State(hosts, bindings, reports)
    }

    constructor ()
      ensures Value() == State(map[], map[], map[]) && Inv(Value())
    {
      hosts, bindings, reports := map[], map[], map[];
    }

    /** `ByAgentID`. */
    method ByAgentID(agent: string) returns (r: Option<Bound>)
      requires Inv(Value())
      ensures r == Existing(Value(), agent)
    {
      HostOfMeaning(Value(), agent);
      if h :| h in bindings && bindings[h].agentId == agent {
        assert BoundTo(Value(), h, agent);
        return Some(Bound(h, bindings[h].fingerprint));
      }
      assert forall h :: !BoundTo(Value(), h, agent);
      return None;
    }

    /** `BoundHostIDs` and the loop over the host list. */
    method Adoptables(order: seq<int>) returns (refs: seq<HostRef>)
      ensures refs == Candidates(Value(), order)
    {
      var bound := bindings.Keys;
      refs := [];
      for i := 0 to |order|
        invariant refs == Candidates(Value(), order[..i])
      {
        assert order[..i + 1][..i] == order[..i];
        var id := order[i];
        if id !in hosts || id in bound {
          continue;
        }
        refs := refs + [HostRef(id, hosts[id].name, hosts[id].ips)];
      }
      assert order[..|order|] == order;
    }

    /** `Upsert`: refused when the agent id is bound to another host. */
    method Upsert(id: int, agent: string, fingerprint: string, now: string) returns (ok: bool)
      modifies this`bindings
      ensures ok <==> forall h :: h in old(bindings) && h != id ==> old(bindings)[h].agentId != agent
      ensures bindings == if ok then old(bindings)[id := Binding(agent, fingerprint, now, "", "")] else old(bindings)
    {
      ok := forall h :: h in bindings && h != id ==> bindings[h].agentId != agent;
      if ok {
        bindings := bindings[id := Binding(agent, fingerprint, now, "", "")];
      }
    }

    /** `RecordReport`: appends and prunes. */
    method RecordReport(id: int, r: Report)
      modifies this`reports
      ensures reports == old(reports)[id := Latest(ReportsOf(old(Value()), id) + [r])]
    {
      var all := (if id in reports then reports[id] else []) + [r];
      if |all| > 30 {
        all := all[|all| - 30..];
      }
      reports := reports[id := all];
    }

    /** The report's transaction, from the decision on.  A failure leaves the tables as they were. */
    method Carry(c: Config, e: Event, d: Decision) returns (r: Response)
      requires e.Submit? && e.newId !in hosts
      requires d.Create? ==> forall h :: h in bindings ==> bindings[h].agentId != e.rep.agentId
      requires d.Adopt? || d.Update? ==>
        forall h :: h in bindings && h != d.host ==> bindings[h].agentId != e.rep.agentId
      modifies this
      ensures (Value(), r) == Carried(c, old(Value()), e, d)
    {
      var id, h;
      match d {
        case Conflict(_) => return Contested;
        case Create =>
          id, h := e.newId, Merge(c, EMPTY_HOST, e.rep, true);
        case Adopt(_) =>
          id := d.host;
          if id !in hosts {
            return Failed;
          }
          h := Merge(c, hosts[id], e.rep, false);
        case Update(_) =>
          id := d.host;
          if id !in hosts {
            return Failed;
          }
          h := Merge(c, hosts[id], e.rep, false);
      }
      if !c.valid(h) {
        return Invalid;
      }
      if !e.ok {
        return Failed;
      }
      hosts := hosts[id := h];
      var ok := Upsert(id, e.rep.agentId, Fingerprint(e.rep), e.now);
      assert ok;
      RecordReport(id, e.rep);
      return Accepted(id);
    }

    /** `agentReport`. */
    method AgentReport(c: Config, e: Event) returns (r: Response)
      requires e.Submit? && Inv(Value()) && Possible(Value(), e)
      modifies this
      ensures (Value(), r) == Submitted(c, old(Value()), e)
      ensures Inv(Value())
    {
      StepKeepsInv(c, Value(), e);
      if !ReportValid(e.rep) {
        return Rejected;
      }
      var existing := ByAgentID(e.rep.agentId);
      var refs: seq<HostRef> := [];
      if existing.None? {
        refs := Adoptables(e.order);
      }
      var d := Decide(e.rep, c.parse, existing, refs);
      assert d == DecisionOf(c, Value(), e);
      DecisionFits(c, Value(), e);
      HostOfMeaning(Value(), e.rep.agentId);
      forall h | h in bindings && bindings[h].agentId == e.rep.agentId ensures BoundTo(Value(), h, e.rep.agentId) {
      }
      r := Carry(c, e, d);
    }

    /** `RecordConflict`: an agent id that is not bound is no error. */
    method RecordConflict(agent: string, hostname: string, at: string)
      modifies this
      ensures Value() == Stamped(old(Value()), agent, hostname, at)
    {
      bindings := map h | h in bindings ::
        if bindings[h].agentId == agent then bindings[h].(conflictAt := at, conflictHost := hostname) else bindings[h];
    }

    /** `Unbind`. */
    method UnbindHost(h: int) returns (found: bool)
      modifies this
      ensures found <==> h in old(bindings)
      ensures Value() == old(Value()).(bindings := old(bindings) - {h})
    {
      found := h in bindings;
      bindings := bindings - {h};
    }

    /** Deleting a host takes its binding and its reports with it. */
    method RemoveHost(h: int)
      modifies this
      ensures Value() == State(old(hosts) - {h}, old(bindings) - {h}, old(reports) - {h})
    {
      hosts, bindings, reports := hosts - {h}, bindings - {h}, reports - {h};
    }
  }

  // ---- Who keeps what ----

  /** The steps that take a host away from its agent. */
  predicate Frees(e: Event, h: int) {
    e == Unbind(h) || e == DeleteHost(h) || e.ImportHosts?
  }

  /** An agent keeps its host, and the host its agent, through every step but those. */
  lemma {:induction false} StepKeepsHost(c: Config, s: State, e: Event, h: int, agent: string)
    requires Inv(s) && Possible(s, e) && BoundTo(s, h, agent) && !Frees(e, h)
    ensures BoundTo(Step(c, s, e), h, agent)
  {
    if e.Submit? {
      var (t, r) := Submitted(c, s, e);
      SubmitFrame(c, s, e);
      if r.Accepted? {
        UniqueNeverMet(c, s, e, r.host);
        if h != r.host {
          assert h in s.bindings - {r.host};
          assert (t.bindings - {r.host})[h] == s.bindings[h];
        }
      }
    }
  }

  /**
    Another agent's report is never accepted for a bound host, and leaves the host, its
    binding and its history as they are.
   */
  lemma {:induction false} NeverAdopted(c: Config, s: State, e: Event, h: int, agent: string)
    requires Inv(s) && Possible(s, e) && e.Submit? && BoundTo(s, h, agent) && e.rep.agentId != agent
    ensures var (t, r) := Submitted(c, s, e);
            && r != Accepted(h)
            && h in t.hosts && t.hosts[h] == s.hosts[h] && h in t.bindings && t.bindings[h] == s.bindings[h]
            && ReportsOf(t, h) == ReportsOf(s, h)
  {
    var (t, r) := Submitted(c, s, e);
    SubmitFrame(c, s, e);
    if r.Accepted? {
      UniqueNeverMet(c, s, e, r.host);
      SameElsewhere(s, t, r.host, h);
    }
  }

  lemma {:induction false} SameElsewhere(s: State, t: State, id: int, h: int)
    requires SameBut(s, t, id) && h != id && h in s.hosts && h in s.bindings
    ensures h in t.hosts && t.hosts[h] == s.hosts[h] && h in t.bindings && t.bindings[h] == s.bindings[h]
    ensures ReportsOf(t, h) == ReportsOf(s, h)
  {
    assert (t.hosts - {id})[h] == (s.hosts - {id})[h];
    assert (t.bindings - {id})[h] == (s.bindings - {id})[h];
    assert h in t.reports <==> h in t.reports - {id};
    assert h in s.reports <==> h in s.reports - {id};
    if h in s.reports {
      assert (t.reports - {id})[h] == (s.reports - {id})[h];
    }
  }

  /**
    A report is contested exactly when its agent is bound and the machine behind it is a
    clone; it then changes nothing.
   */
  lemma {:induction false} ContestedExactly(c: Config, s: State, e: Event)
    requires Inv(s) && Possible(s, e) && e.Submit?
    ensures Submitted(c, s, e).1.Contested? <==>
      && ReportValid(e.rep)
      && exists h :: BoundTo(s, h, e.rep.agentId) && IsClone(s.bindings[h].fingerprint, Fingerprint(e.rep))
    ensures Submitted(c, s, e).1.Contested? ==> Submitted(c, s, e).0 == s
  {
    HostOfMeaning(s, e.rep.agentId);
    DecisionFits(c, s, e);
    if h :| BoundTo(s, h, e.rep.agentId) && IsClone(s.bindings[h].fingerprint, Fingerprint(e.rep)) {
      assert Existing(s, e.rep.agentId) == Some(Bound(h, s.bindings[h].fingerprint));
    }
  }

  predicate SameButStamp(a: Binding, b: Binding) {
    a == b.(conflictAt := a.conflictAt, conflictHost := a.conflictHost)
  }

  /** Recording a conflict changes only the stamp, and only of the contested agent's binding. */
  lemma {:induction false} StampOnly(s: State, agent: string, hostname: string, at: string)
    ensures var t := Stamped(s, agent, hostname, at);
            && t.hosts == s.hosts && t.reports == s.reports && t.bindings.Keys == s.bindings.Keys
            && (forall h :: h in s.bindings ==> SameButStamp(t.bindings[h], s.bindings[h]))
            && (forall h :: h in s.bindings && s.bindings[h].agentId != agent ==> t.bindings[h] == s.bindings[h])
            && (forall h :: h in s.bindings && s.bindings[h].agentId == agent ==>
                  t.bindings[h].conflictAt == at && t.bindings[h].conflictHost == hostname)
  {
  }

  /** An accepted machine is known again: the same report is next decided an update of the same host. */
  lemma {:induction false} AcceptedIsKnown(c: Config, s: State, e: Event, f: Event)
    requires Inv(s) && Possible(s, e) && e.Submit? && Submitted(c, s, e).1.Accepted?
    requires f.Submit? && f.rep == e.rep
    ensures DecisionOf(c, Submitted(c, s, e).0, f) == Update(Submitted(c, s, e).1.host)
  {
    var (t, r) := Submitted(c, s, e);
    StepKeepsInv(c, s, e);
    SubmitFrame(c, s, e);
    HostOfMeaning(t, e.rep.agentId);
    assert BoundTo(t, r.host, e.rep.agentId);
    CloneSymmetric(Fingerprint(e.rep), Fingerprint(e.rep));
  }

  // ---- Runs ----

  ghost predicate Run(c: Config, s: State, evs: seq<Event>)
    decreases |evs|
  {
    evs == [] || (Possible(s, evs[0]) && Run(c, Step(c, s, evs[0]), evs[1..]))
  }

  ghost function After(c: Config, s: State, evs: seq<Event>): State
    decreases |evs|
  {
    if evs == [] then s else After(c, Step(c, s, evs[0]), evs[1..])
  }

  /** In every reachable state agents and bound hosts are paired one to one, and bound hosts exist. */
  lemma {:induction false} RunKeepsInv(c: Config, s: State, evs: seq<Event>)
    requires Inv(s) && Run(c, s, evs)
    ensures Inv(After(c, s, evs))
    decreases |evs|
  {
    if evs != [] {
      StepKeepsInv(c, s, evs[0]);
      RunKeepsInv(c, Step(c, s, evs[0]), evs[1..]);
    }
  }

  /** Over any run, an agent and its host stay together until the host is unbound, deleted or replaced by an import. */
  lemma {:induction false} RunKeepsHost(c: Config, s: State, evs: seq<Event>, h: int, agent: string)
    requires Inv(s) && Run(c, s, evs) && BoundTo(s, h, agent) && forall i :: 0 <= i < |evs| ==> !Frees(evs[i], h)
    ensures BoundTo(After(c, s, evs), h, agent)
    ensures HostOf(After(c, s, evs), agent) == Some(h)
    decreases |evs|
  {
    if evs == [] {
      HostOfMeaning(s, agent);
    } else {
      StepKeepsHost(c, s, evs[0], h, agent);
      StepKeepsInv(c, s, evs[0]);
      RunKeepsHost(c, Step(c, s, evs[0]), evs[1..], h, agent);
    }
  }

  // ---- Adoption ----

  /** A host that may be adopted: it exists and no agent is bound to it. */
  predicate Unbound(s: State, h: int) {
    h in s.hosts && h !in s.bindings
  }

  /** The positions of the hosts that may be adopted. */
  function UnboundIn(s: State, order: seq<int>): set<nat> {
    set p | 0 <= p < |order| && Unbound(s, order[p])
  }

  /** The candidate is the host at position p: its id, name and addresses. */
  predicate RefersAt(s: State, order: seq<int>, ref: HostRef, p: nat) {
    p < |order| && Unbound(s, order[p]) && ref.id == order[p]
    && ref.name == s.hosts[order[p]].name && ref.ips == s.hosts[order[p]].ips
  }

  /** Each host that may be adopted, in listing order, under its own name and addresses. */
  ghost predicate RefersTo(s: State, order: seq<int>, refs: seq<HostRef>, src: seq<nat>) {
    && |src| == |refs| && Lists(src, UnboundIn(s, order))
    && (forall q :: 0 <= q < |src| ==> RefersAt(s, order, refs[q], src[q]))
  }

  lemma {:induction false} RefersStep(s: State, order: seq<int>, id: int, refs: seq<HostRef>, src: seq<nat>)
    requires RefersTo(s, order, refs, src)
    ensures RefersTo(s, order + [id],
                     refs + (if Unbound(s, id) then [HostRef(id, s.hosts[id].name, s.hosts[id].ips)] else []),
                     Extended(src, |order|, Unbound(s, id)))
  {
    ListsStep(src, UnboundIn(s, order), |order|, Unbound(s, id));
    assert UnboundIn(s, order + [id]) ==
      if Unbound(s, id) then UnboundIn(s, order) + {|order|} else UnboundIn(s, order);
    forall q | 0 <= q < |src| ensures RefersAt(s, order + [id], refs[q], src[q]) {
      assert RefersAt(s, order, refs[q], src[q]);
    }
  }

  /** The candidates are exactly the listed hosts that no agent is bound to, in order. */
  lemma {:induction false} CandidatesComplete(s: State, order: seq<int>) returns (src: seq<nat>)
    ensures RefersTo(s, order, Candidates(s, order), src)
  {
    src := [];
    if order != [] {
      var n := |order| - 1;
      var front := CandidatesComplete(s, order[..n]);
      RefersStep(s, order[..n], order[n], Candidates(s, order[..n]), front);
      src := Extended(front, n, Unbound(s, order[n]));
      assert order[..n] + [order[n]] == order;
    }
  }

  /** The host has the reported name, but for case and white space around it. */
  predicate SameName(s: State, h: int, r: Report)
    requires h in s.hosts
  {
    SameButCase(TrimSpace(s.hosts[h].name), TrimSpace(r.hostname))
  }

  /** The host has one of the reported addresses. */
  predicate SharesAddress(c: Config, s: State, h: int, r: Report)
    requires h in s.hosts
  {
    exists ip :: ip in s.hosts[h].ips && ip in ReportedIPs(r, c.parse)
  }

  lemma {:induction false} RefMatches(c: Config, s: State, h: int, r: Report, ref: HostRef)
    requires h in s.hosts && ref.name == s.hosts[h].name && ref.ips == s.hosts[h].ips
    ensures NameMatches(r, ref) <==> SameName(s, h, r)
    ensures SharesIP(r, c.parse, ref) <==> SharesAddress(c, s, h, r)
  {
    NameMatchesExactly(r, ref);
    SharesIPExactly(r, c.parse, ref);
  }

  /** Candidate q is the host at position src[q], and matches as that host does. */
  lemma {:induction false} CandidatesMatch(c: Config, s: State, order: seq<int>, r: Report, src: seq<nat>)
    requires RefersTo(s, order, Candidates(s, order), src)
    ensures forall q :: 0 <= q < |src| ==> src[q] < |order| && Unbound(s, order[src[q]])
    ensures forall q :: 0 <= q < |src| ==>
      (NameMatches(r, Candidates(s, order)[q]) <==> SameName(s, order[src[q]], r))
      && (SharesIP(r, c.parse, Candidates(s, order)[q]) <==> SharesAddress(c, s, order[src[q]], r))
  {
    forall q | 0 <= q < |src| ensures src[q] < |order| && Unbound(s, order[src[q]])
      && (NameMatches(r, Candidates(s, order)[q]) <==> SameName(s, order[src[q]], r))
      && (SharesIP(r, c.parse, Candidates(s, order)[q]) <==> SharesAddress(c, s, order[src[q]], r)) {
      assert RefersAt(s, order, Candidates(s, order)[q], src[q]);
      RefMatches(c, s, order[src[q]], r, Candidates(s, order)[q]);
    }
  }

  /**
    An unbound agent's report makes a new host exactly when no unbound host has its
    name or one of its addresses; otherwise it adopts such a host.
   */
  lemma {:induction false} CreatedExactly(c: Config, s: State, e: Event)
    requires e.Submit? && Inv(s) && Possible(s, e) && HostOf(s, e.rep.agentId).None?
    ensures DecisionOf(c, s, e).Create? <==>
      forall h :: Unbound(s, h) ==> !SameName(s, h, e.rep) && !SharesAddress(c, s, h, e.rep)
    ensures DecisionOf(c, s, e).Create? || DecisionOf(c, s, e).Adopt?
  {
    var refs := Candidates(s, e.order);
    var src := CandidatesComplete(s, e.order);
    CandidatesMatch(c, s, e.order, e.rep, src);
    AdoptMeaning(e.rep, c.parse, refs);
    if DecisionOf(c, s, e).Create? {
      forall h | Unbound(s, h) ensures !SameName(s, h, e.rep) && !SharesAddress(c, s, h, e.rep) {
        var p :| 0 <= p < |e.order| && e.order[p] == h;
        assert p in src;
        var q :| 0 <= q < |src| && src[q] == p;
        assert !NameMatches(e.rep, refs[q]) && !SharesIP(e.rep, c.parse, refs[q]);
      }
    }
  }

  /** Position p is the first in the listing of an unbound host that has the name. */
  ghost predicate FirstByName(s: State, order: seq<int>, r: Report, p: nat) {
    && p < |order| && Unbound(s, order[p]) && SameName(s, order[p], r)
    && forall q :: 0 <= q < p && Unbound(s, order[q]) ==> !SameName(s, order[q], r)
  }

  /** No unbound host has the name, and position p is the first of one that has an address. */
  ghost predicate FirstByAddress(c: Config, s: State, order: seq<int>, r: Report, p: nat) {
    && p < |order| && Unbound(s, order[p]) && SharesAddress(c, s, order[p], r)
    && (forall q :: 0 <= q < |order| && Unbound(s, order[q]) ==> !SameName(s, order[q], r))
    && forall q :: 0 <= q < p && Unbound(s, order[q]) ==> !SharesAddress(c, s, order[q], r)
  }

  /** An earlier unbound host is an earlier candidate. */
  lemma {:induction false} EarlierCandidate(s: State, order: seq<int>, src: seq<nat>, i: nat, p: nat)
    requires RefersTo(s, order, Candidates(s, order), src)
    requires i < |src| && p < |order| && Unbound(s, order[p]) && p < src[i]
    ensures exists k :: 0 <= k < i && src[k] == p
  {
    assert p in src;
    var k :| 0 <= k < |src| && src[k] == p;
    assert k < i;
  }

  lemma {:induction false} NamedFirst(s: State, order: seq<int>, r: Report, src: seq<nat>, i: nat)
    requires RefersTo(s, order, Candidates(s, order), src) && i < |src|
    requires forall q :: 0 <= q < |src| ==> (NameMatches(r, Candidates(s, order)[q]) <==> SameName(s, order[src[q]], r))
    requires NameMatches(r, Candidates(s, order)[i])
    requires forall k :: 0 <= k < i ==> !NameMatches(r, Candidates(s, order)[k])
    ensures FirstByName(s, order, r, src[i])
  {
    forall q | 0 <= q < src[i] && Unbound(s, order[q]) ensures !SameName(s, order[q], r) {
      EarlierCandidate(s, order, src, i, q);
    }
  }

  lemma {:induction false} AddressedFirst(c: Config, s: State, order: seq<int>, r: Report, src: seq<nat>, i: nat)
    requires RefersTo(s, order, Candidates(s, order), src) && i < |src|
    requires forall q :: 0 <= q < |src| ==> !SameName(s, order[src[q]], r)
    requires SharesAddress(c, s, order[src[i]], r)
    requires forall k :: 0 <= k < i ==> !SharesAddress(c, s, order[src[k]], r)
    ensures FirstByAddress(c, s, order, r, src[i])
  {
    forall q | 0 <= q < src[i] && Unbound(s, order[q]) ensures !SharesAddress(c, s, order[q], r) {
      EarlierCandidate(s, order, src, i, q);
    }
    forall q | 0 <= q < |order| && Unbound(s, order[q]) ensures !SameName(s, order[q], r) {
      assert q in src;
    }
  }

  /** What is adopted: the first unbound host with the reported name, or with none the first with a reported address. */
  lemma {:induction false} AdoptedFirst(c: Config, s: State, e: Event) returns (p: nat)
    requires e.Submit? && DecisionOf(c, s, e).Adopt? && Existing(s, e.rep.agentId).None?
    ensures p < |e.order| && e.order[p] == DecisionOf(c, s, e).host
    ensures FirstByName(s, e.order, e.rep, p) || FirstByAddress(c, s, e.order, e.rep, p)
  {
    var refs, r := Candidates(s, e.order), e.rep;
    var src := CandidatesComplete(s, e.order);
    CandidatesMatch(c, s, e.order, r, src);
    AdoptMeaning(r, c.parse, refs);
    var i :| 0 <= i < |refs| && refs[i].id == DecisionOf(c, s, e).host && Adoptable(r, c.parse, refs, i);
    p := src[i];
    if NameMatches(r, refs[i]) && forall k :: 0 <= k < i ==> !NameMatches(r, refs[k]) {
      NamedFirst(s, e.order, r, src, i);
    } else {
      AddressedFirst(c, s, e.order, r, src, i);
    }
  }

  // ---- What an accepted report writes ----

  /** A field is refreshed by what was reported, and kept when nothing was. */
  predicate Refreshed(now: string, reported: string, was: string) {
    if reported == "" then now == was else now == reported
  }

  /** The reported fields of a host, against what they were. */
  predicate AllRefreshed(c: Config, now: Host, r: Report, was: Host) {
    && Refreshed(now.os, r.os, was.os) && Refreshed(now.cpu, r.cpu, was.cpu)
    && Refreshed(now.ram, r.ram, was.ram) && Refreshed(now.disk, r.disk, was.disk)
    && var ips := ReportedIPs(r, c.parse); if ips == [] then now.ips == was.ips else now.ips == ips
  }

  /** On a host that exists, the name, the type and what else people wrote stay; an empty report erases nothing. */
  lemma {:induction false} ReportKeepsHuman(c: Config, s: State, e: Event)
    requires Possible(s, e) && e.Submit? && Submitted(c, s, e).1.Accepted? && Submitted(c, s, e).1.host in s.hosts
    ensures var (t, r) := Submitted(c, s, e);
      var (now, was) := (t.hosts[r.host], s.hosts[r.host]);
      && now.name == was.name && now.typ == was.typ && now.rest == was.rest
      && AllRefreshed(c, now, e.rep, was)
  {
    SubmitSaves(c, s, e);
  }

  /** The type of a new host, by the kind of machine reported. */
  predicate TypeFor(typ: string, virt: string) {
    if virt == "vm" || virt == "kvm" then typ == "vm" else if virt == "lxc" then typ == "lxc" else typ == "physical"
  }

  lemma {:induction false} MergeNew(c: Config, r: Report)
    ensures var h := Merge(c, EMPTY_HOST, r, true);
      && h.name == r.hostname && TypeFor(h.typ, r.virtKind) && h.rest == ""
      && h.os == r.os && h.cpu == r.cpu && h.ram == r.ram && h.disk == r.disk && h.ips == ReportedIPs(r, c.parse)
  {
  }

  /** A host made for a report has the hostname, the type of the machine and the reported fields, and nothing else. */
  lemma {:induction false} ReportMakesHost(c: Config, s: State, e: Event)
    requires Possible(s, e) && e.Submit? && Submitted(c, s, e).1.Accepted? && Submitted(c, s, e).1.host !in s.hosts
    ensures var (t, host) := (Submitted(c, s, e).0, Submitted(c, s, e).1.host);
      && host == e.newId && host in t.hosts
      && var (h, r) := (t.hosts[host], e.rep);
         && h.name == r.hostname && TypeFor(h.typ, r.virtKind) && h.rest == ""
         && h.os == r.os && h.cpu == r.cpu && h.ram == r.ram && h.disk == r.disk && h.ips == ReportedIPs(r, c.parse)
  {
    SubmitSaves(c, s, e);
    MergeNew(c, e.rep);
    CarriedFor(c, s, e, DecisionOf(c, s, e));
  }

  lemma {:induction false} CarriedFor(c: Config, s: State, e: Event, d: Decision)
    requires e.Submit? && Carried(c, s, e, d).1.Accepted?
    ensures Carried(c, s, e, d).1.host == if d.Create? then e.newId else d.host
    ensures !d.Create? ==> d.host in s.hosts
  {
  }

  /** The newest report is kept last, of the earlier ones as many of the latest as make thirty with it. */
  lemma {:induction false} HistoryKept(c: Config, s: State, e: Event)
    requires Possible(s, e) && e.Submit? && Submitted(c, s, e).1.Accepted?
    ensures var (t, r) := Submitted(c, s, e);
      && r.host in t.reports
      && var (was, now) := (if r.host in s.reports then s.reports[r.host] else [], t.reports[r.host]);
         && |now| == (if |was| < 30 then |was| + 1 else 30) && now[|now| - 1] == e.rep
         && forall i :: 0 <= i < |now| - 1 ==> now[i] == was[|was| + 1 - |now| + i]
  {
    SubmitSaves(c, s, e);
  }

  /** What each report is answered, by the decision, the validity of the host it would write and the write's success. */
  lemma {:induction false} AnswerExactly(c: Config, s: State, e: Event)
    requires Inv(s) && Possible(s, e) && e.Submit?
    ensures var (d, r) := (DecisionOf(c, s, e), Submitted(c, s, e).1);
      var id := if d.Create? then e.newId else d.host;
      && (r == Rejected <==> !ReportValid(e.rep))
      && (r == Contested <==> ReportValid(e.rep) && d.Conflict?)
      && (r == Accepted(id) <==>
            ReportValid(e.rep) && !d.Conflict? && c.valid(Written(c, s, id, e.rep)) && e.ok)
      && (r == Invalid <==> ReportValid(e.rep) && !d.Conflict? && !c.valid(Written(c, s, id, e.rep)))
      && (r.Accepted? ==> r.host == id)
  {
    DecisionFits(c, s, e);
  }
}
