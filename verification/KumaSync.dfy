/**
  Execution of a reconcile pass (`internal/kuma/syncer.go`) as a crash-and-repair
  protocol.  Every remote operation and every mapping write may fail, a failed
  remote operation may or may not have taken effect, and a pass may stop at any
  point; between passes and during them users change monitors by hand.
 */
module KumaSync {
  import opened Wrappers
  import opened KumaPlan

  /**
    The mapping table, Kuma's live monitors, every monitor id ever assigned, and
    two history variables: the ids the syncer created and how many times it may
    have left one behind (an add whose acknowledgement was lost, or a cleanup
    delete that failed after a failed mapping write).
   */
  datatype World = World(mapping: map<ID, ID>, live: map<ID, Monitor>, used: set<ID>, created: set<ID>, lost: nat)

  /** What the environment decides for one action. */
  datatype Outcome =
    | Cancelled
    | AddFails(effect: Option<ID>)
    | Added(id: ID)
    | AddedUnrecorded(id: ID, cleaned: bool)
    | EditFails(applied: bool)
    | Edited
    | DeleteFails(applied: bool)
    | DeletedUnrecorded
    | Deleted
    | ForgetFails
    | Forgotten

  /** Kuma assigns only fresh ids; the outcome is one of the action's. */
  predicate Fits(w: World, a: Action, o: Outcome) {
    match o
    case Cancelled => true
    case AddFails(e) => a.Create? && (e.Some? ==> e.value !in w.used)
    case Added(id) => a.Create? && id !in w.used
    case AddedUnrecorded(id, _) => a.Create? && id !in w.used
    case EditFails(_) => a.Edit?
    case Edited => a.Edit?
    case DeleteFails(_) => a.Delete?
    case DeletedUnrecorded => a.Delete?
    case Deleted => a.Delete?
    case ForgetFails => a.Forget?
    case Forgotten => a.Forget?
  }

  predicate Succeeds(o: Outcome) {
    o.Added? || o.Edited? || o.Deleted? || o.Forgotten?
  }

  // ---- Elementary effects ----

  /** Kuma creates a monitor for the syncer under a fresh id. */
  function RemoteAdd(w: World, id: ID, m: Monitor): World {
    w.(live := w.live[id := m], used := w.used + {id}, created := w.created + {id})
  }

  function RemoteEdit(w: World, id: ID, m: Monitor): World {
    if id in w.live then w.(live := w.live[id := m]) else w
  }

  function RemoteDelete(w: World, id: ID): World {
    w.(live := w.live - {id})
  }

  /** `KumaRepo.Put` and `KumaRepo.Delete`. */
  function Put(w: World, sid: ID, id: ID): World {
    w.(mapping := w.mapping[sid := id])
  }

  function DropRow(w: World, sid: ID): World {
    w.(mapping := w.mapping - {sid})
  }

  function Lose(w: World): World {
    w.(lost := w.lost + 1)
  }

  /** One action under one outcome. */
  function Apply(w: World, a: Action, o: Outcome): World
    requires Fits(w, a, o)
  {
    match o
    case Cancelled => w
    case AddFails(e) => if e.Some? then Lose(RemoteAdd(w, e.value, a.want)) else w
    case Added(id) => Put(RemoteAdd(w, id, a.want), a.sid, id)
    case AddedUnrecorded(id, cleaned) =>
      if cleaned then RemoteDelete(RemoteAdd(w, id, a.want), id) else Lose(RemoteAdd(w, id, a.want))
    case EditFails(applied) => if applied then RemoteEdit(w, a.id, a.want) else w
    case Edited => RemoteEdit(w, a.id, a.want)
    case DeleteFails(applied) => if applied then RemoteDelete(w, a.id) else w
    case DeletedUnrecorded => RemoteDelete(w, a.id)
    case Deleted => DropRow(RemoteDelete(w, a.id), a.sid)
    case ForgetFails => w
    case Forgotten => DropRow(w, a.sid)
  }

  /** The outcomes fit a run of the actions; a shorter list is a pass cut short. */
  predicate FitsRun(w: World, actions: seq<Action>, outs: seq<Outcome>)
    decreases |outs|
  {
    if outs == [] then true
    else
      && actions != [] && Fits(w, actions[0], outs[0])
      && (if Succeeds(outs[0]) then FitsRun(Apply(w, actions[0], outs[0]), actions[1..], outs[1..]) else |outs| == 1)
  }

  /** A pass over the actions: it stops at the first failure. */
  function Run(w: World, actions: seq<Action>, outs: seq<Outcome>): World
    requires FitsRun(w, actions, outs)
    decreases |outs|
  {
    if outs == [] then w
    else
      var w1 := Apply(w, actions[0], outs[0]);
      if Succeeds(outs[0]) then Run(w1, actions[1..], outs[1..]) else w1
  }

  predicate AllSucceed(actions: seq<Action>, outs: seq<Outcome>) {
    |outs| == |actions| && forall i :: 0 <= i < |outs| ==> Succeeds(outs[i])
  }

  // ---- The invariant ----

  /** No two services share a monitor. */
  predicate Injective(m: map<ID, ID>) {
    forall s, t :: s in m && t in m && m[s] == m[t] ==> s == t
  }

  ghost predicate Inv(w: World) {
    && Injective(w.mapping)
    && (forall s :: s in w.mapping ==> w.mapping[s] in w.created)
    && w.live.Keys <= w.used && w.created <= w.used
  }

  /** An action planned for the current state: what its service needs right now. */
  predicate Current(desired: map<ID, Monitor>, w: World, a: Action) {
    Needs(desired, w.mapping, w.live, a.sid) == Some(a)
  }

  /**
    What stays true of a planned action while users change monitors: an edit or a
    delete is of the monitor that its service's row names, and a create or a forget
    is of a service whose row, if any, names no live monitor.
   */
  predicate Ready(w: World, a: Action) {
    match a
    case Create(sid, _) => sid in w.mapping ==> w.mapping[sid] !in w.live
    case Edit(sid, id, _) => sid in w.mapping && w.mapping[sid] == id
    case Delete(sid, id) => sid in w.mapping && w.mapping[sid] == id
    case Forget(sid) => sid in w.mapping && w.mapping[sid] !in w.live
  }

  /** Monitors the syncer created that are live and that no row names. */
  function Leftovers(w: World): set<ID> {
    set id | id in w.created && id in w.live && forall s :: s in w.mapping ==> w.mapping[s] != id
  }

  // ---- One step ----

  /** Rows stay injective and name only monitors that the syncer created. */
  lemma {:induction false} StepKeepsInv(w: World, a: Action, o: Outcome)
    requires Inv(w) && Fits(w, a, o)
    ensures Inv(Apply(w, a, o))
  {
  }

  /**
    An action planned for the current state leaves every other service with what
    it needed before, and a successful one leaves its own service needing nothing.
   */
  lemma {:induction false} StepSettles(desired: map<ID, Monitor>, w: World, a: Action, o: Outcome, sid: ID)
    requires Inv(w) && Fits(w, a, o) && Current(desired, w, a) && Succeeds(o)
    ensures var w' := Apply(w, a, o);
      Needs(desired, w'.mapping, w'.live, sid) == if sid == a.sid then None else Needs(desired, w.mapping, w.live, sid)
  {
  }

  /** The monitor that an outcome adds and leaves, if any. */
  function AddedId(o: Outcome): Option<ID> {
    match o
    case Added(id) => Some(id)
    case AddedUnrecorded(id, cleaned) => if cleaned then None else Some(id)
    case AddFails(effect) => effect
    case _ => None
  }

  /** The outcomes under which the edit or the delete has taken effect, acknowledged or not. */
  predicate EditTook(o: Outcome) {
    o.Edited? || o == EditFails(true)
  }

  predicate DeleteTook(o: Outcome) {
    o.Deleted? || o.DeletedUnrecorded? || o == DeleteFails(true)
  }

  /** What becomes of each monitor in a step, whether the syncer learns of it or not. */
  lemma {:induction false} MonitorsAfter(w: World, a: Action, o: Outcome, id: ID)
    requires Fits(w, a, o) && w.live.Keys <= w.used
    ensures Get(Apply(w, a, o).live, id) ==
      if AddedId(o) == Some(id) then Some(a.want)
      else if EditTook(o) && a.id == id && id in w.live then Some(a.want)
      else if DeleteTook(o) && a.id == id then None
      else Get(w.live, id)
  {
  }

  /** A row is written once the monitor is there, and removed once it is gone; nothing else touches a row. */
  lemma {:induction false} RowsAfter(w: World, a: Action, o: Outcome, sid: ID)
    requires Fits(w, a, o)
    ensures var t := Apply(w, a, o).mapping;
      if sid == a.sid && o.Added? then sid in t && t[sid] == o.id
      else if sid == a.sid && (o.Deleted? || o.Forgotten?) then sid !in t
      else (sid in t <==> sid in w.mapping) && (sid in t ==> t[sid] == w.mapping[sid])
  {
  }

  /** No monitor outside the mapping, other than one created in this very step, is edited or deleted. */
  lemma {:induction false} StepTouchesManaged(w: World, a: Action, o: Outcome, id: ID)
    requires Inv(w) && Fits(w, a, o) && Ready(w, a)
    requires id in w.used && forall s :: s in w.mapping ==> w.mapping[s] != id
    ensures Get(Apply(w, a, o).live, id) == Get(w.live, id)
  {
  }

  /** A step leaves at most one monitor behind, and then counts it. */
  lemma {:induction false} StepLeftovers(w: World, a: Action, o: Outcome)
    requires Inv(w) && Fits(w, a, o) && Ready(w, a)
    ensures |Leftovers(Apply(w, a, o))| - |Leftovers(w)| <= Apply(w, a, o).lost - w.lost
  {
    var w' := Apply(w, a, o);
    var extra: set<ID> := match o
      case AddFails(e) => (if e.Some? then {e.value} else {})
      case AddedUnrecorded(id, cleaned) => (if cleaned then {} else {id})
      case _ => {};
    forall id | id in Leftovers(w') ensures id in Leftovers(w) + extra {
      LeftoverWasThere(w, a, o, id);
    }
    SubsetSize(Leftovers(w'), Leftovers(w) + extra);
    assert |Leftovers(w) + extra| <= |Leftovers(w)| + |extra|;
  }

  /** A monitor left over after a step was left over before, or is the one this step lost. */
  lemma {:induction false} LeftoverWasThere(w: World, a: Action, o: Outcome, id: ID)
    requires Inv(w) && Fits(w, a, o) && Ready(w, a) && id in Leftovers(Apply(w, a, o))
    ensures id in Leftovers(w) || o == AddFails(Some(id)) || o == AddedUnrecorded(id, false)
  {
    var w' := Apply(w, a, o);
    assert o.Added? ==> a.sid in w'.mapping && w'.mapping[a.sid] == o.id;
    if id in w.used {
      forall s | s in w.mapping ensures w.mapping[s] != id {
        assert s != a.sid ==> s in w'.mapping && w'.mapping[s] == w.mapping[s];
      }
    }
  }

  /** A step changes at most the row of its own service, and brings no monitor back to life. */
  lemma {:induction false} StepFrame(w: World, a: Action, o: Outcome, sid: ID)
    requires Fits(w, a, o) && sid != a.sid
    ensures sid in Apply(w, a, o).mapping <==> sid in w.mapping
    ensures sid in w.mapping ==> Apply(w, a, o).mapping[sid] == w.mapping[sid]
    ensures sid in w.mapping && w.mapping[sid] in w.used && w.mapping[sid] !in w.live ==>
      w.mapping[sid] !in Apply(w, a, o).live
  {
  }

  // ---- A whole pass ----

  /** Every remaining action is current, and their services are distinct. */
  ghost predicate Planned(desired: map<ID, Monitor>, w: World, actions: seq<Action>) {
    DistinctSids(actions) && forall a :: a in actions ==> Current(desired, w, a)
  }

  lemma {:induction false} PlanIsPlanned(services: seq<Service>, w: World)
    ensures Planned(Desired(services), w, Plan(services, w.mapping, w.live))
  {
    PlanMeaning(services, w.mapping, w.live);
  }

  lemma {:induction false} StepKeepsPlanned(desired: map<ID, Monitor>, w: World, actions: seq<Action>, o: Outcome)
    requires Inv(w) && actions != [] && Planned(desired, w, actions)
    requires Fits(w, actions[0], o) && Succeeds(o)
    ensures Planned(desired, Apply(w, actions[0], o), actions[1..])
  {
    var w' := Apply(w, actions[0], o);
    forall a | a in actions[1..] ensures Current(desired, w', a) {
      var i :| 0 <= i < |actions| - 1 && actions[1..][i] == a;
      assert actions[i + 1] == a && a in actions;
      StepSettles(desired, w, actions[0], o, a.sid);
    }
  }

  /** What every pass keeps, however it ends: the invariant, and the bound on leftovers. */
  lemma {:induction false} RunKeepsInv(desired: map<ID, Monitor>, w: World, actions: seq<Action>, outs: seq<Outcome>)
    requires Inv(w) && Planned(desired, w, actions) && FitsRun(w, actions, outs)
    ensures Inv(Run(w, actions, outs))
    ensures |Leftovers(Run(w, actions, outs))| - |Leftovers(w)| <= Run(w, actions, outs).lost - w.lost
    decreases |outs|
  {
    if outs != [] {
      assert actions[0] in actions;
      StepKeepsInv(w, actions[0], outs[0]);
      StepLeftovers(w, actions[0], outs[0]);
      if Succeeds(outs[0]) {
        StepKeepsPlanned(desired, w, actions, outs[0]);
        RunKeepsInv(desired, Apply(w, actions[0], outs[0]), actions[1..], outs[1..]);
      }
    }
  }

  /**
    Safety at every prefix of a pass and for every failure choice: a monitor that
    existed before the pass and that no mapping row names is left exactly as it
    was.  (The outcomes may stop anywhere, so every prefix is itself a run.)
   */
  lemma {:induction false} PassTouchesOnlyManaged(desired: map<ID, Monitor>, w: World, actions: seq<Action>,
                                                  outs: seq<Outcome>, id: ID)
    requires Inv(w) && Planned(desired, w, actions) && FitsRun(w, actions, outs)
    requires id in w.used && forall s :: s in w.mapping ==> w.mapping[s] != id
    ensures Get(Run(w, actions, outs).live, id) == Get(w.live, id)
    ensures forall s :: s in Run(w, actions, outs).mapping ==> Run(w, actions, outs).mapping[s] != id
    decreases |outs|
  {
    if outs != [] {
      assert actions[0] in actions;
      StepTouchesManaged(w, actions[0], outs[0], id);
      StepKeepsInv(w, actions[0], outs[0]);
      if Succeeds(outs[0]) {
        StepKeepsPlanned(desired, w, actions, outs[0]);
        PassTouchesOnlyManaged(desired, Apply(w, actions[0], outs[0]), actions[1..], outs[1..], id);
      }
    }
  }

  /** A step brings no monitor back to life, and changes no other than its own. */
  lemma {:induction false} StepKeepsOthers(w: World, a: Action, o: Outcome, id: ID)
    requires Fits(w, a, o) && id in w.used
    ensures id in Apply(w, a, o).used
    ensures id in Apply(w, a, o).live ==> id in w.live
    ensures id in Apply(w, a, o).live && !(a.Edit? && a.id == id) ==> Apply(w, a, o).live[id] == w.live[id]
    ensures id in Apply(w, a, o).live && a.Edit? && a.id == id ==>
      Apply(w, a, o).live[id] == w.live[id] || Apply(w, a, o).live[id] == a.want
  {
  }

  lemma {:induction false} GoneStaysGone(w: World, actions: seq<Action>, outs: seq<Outcome>, id: ID)
    requires FitsRun(w, actions, outs) && id in w.used && id !in w.live
    ensures id !in Run(w, actions, outs).live
    decreases |outs|
  {
    if outs != [] {
      StepKeepsOthers(w, actions[0], outs[0], id);
      if Succeeds(outs[0]) {
        GoneStaysGone(Apply(w, actions[0], outs[0]), actions[1..], outs[1..], id);
      }
    }
  }

  /**
    A pass edits names and URLs and nothing else: whatever fails and wherever it
    stops, a monitor that is live before and after has the settings it had.
   */
  lemma {:induction false} PassKeepsRaw(desired: map<ID, Monitor>, w: World, actions: seq<Action>, outs: seq<Outcome>,
                                        id: ID)
    requires Inv(w) && Planned(desired, w, actions) && FitsRun(w, actions, outs)
    requires id in w.live && id in Run(w, actions, outs).live
    ensures Run(w, actions, outs).live[id].raw == w.live[id].raw
    decreases |outs|
  {
    if outs != [] {
      assert actions[0] in actions;
      var w1 := Apply(w, actions[0], outs[0]);
      StepKeepsOthers(w, actions[0], outs[0], id);
      StepKeepsInv(w, actions[0], outs[0]);
      if Succeeds(outs[0]) {
        StepKeepsPlanned(desired, w, actions, outs[0]);
        if id in w1.live {
          PassKeepsRaw(desired, w1, actions[1..], outs[1..], id);
        } else {
          GoneStaysGone(w1, actions[1..], outs[1..], id);
        }
      }
    }
  }

  /** After a fully successful run, a service needs what it needed before unless the run served it. */
  lemma {:induction false} RunSettles(desired: map<ID, Monitor>, w: World, actions: seq<Action>, outs: seq<Outcome>,
                                      sid: ID)
    requires Inv(w) && Planned(desired, w, actions) && FitsRun(w, actions, outs) && AllSucceed(actions, outs)
    ensures var w' := Run(w, actions, outs);
      Needs(desired, w'.mapping, w'.live, sid) ==
        if exists a :: a in actions && a.sid == sid then None else Needs(desired, w.mapping, w.live, sid)
    decreases |outs|
  {
    if outs != [] {
      var a0 := actions[0];
      assert a0 in actions && Succeeds(outs[0]);
      StepKeepsInv(w, a0, outs[0]);
      StepKeepsPlanned(desired, w, actions, outs[0]);
      StepSettles(desired, w, a0, outs[0], sid);
      RunSettles(desired, Apply(w, a0, outs[0]), actions[1..], outs[1..], sid);
      assert actions == [a0] + actions[1..];
    }
  }

  /**
    Convergence.  From any state that satisfies the invariant (so from whatever
    any earlier pass left behind), a pass in which every operation succeeds ends
    in a fixpoint: exactly the monitorable services are mapped, each to its own
    live monitor with the wanted name and URL, and planning again finds nothing.
   */
  lemma {:induction false} PassConverges(services: seq<Service>, w: World, outs: seq<Outcome>)
    requires Inv(w)
    requires FitsRun(w, Plan(services, w.mapping, w.live), outs) && AllSucceed(Plan(services, w.mapping, w.live), outs)
    ensures var w' := Run(w, Plan(services, w.mapping, w.live), outs);
      && InSync(Desired(services), w'.mapping, w'.live)
      && Injective(w'.mapping)
      && Plan(services, w'.mapping, w'.live) == []
  {
    var d, p := Desired(services), Plan(services, w.mapping, w.live);
    var w' := Run(w, p, outs);
    PlanIsPlanned(services, w);
    PlanMeaning(services, w.mapping, w.live);
    RunKeepsInv(d, w, p, outs);
    forall sid: ID ensures Needs(d, w'.mapping, w'.live, sid).None? {
      RunSettles(d, w, p, outs, sid);
      ServedByPlan(services, w, sid);
    }
    NothingNeeded(d, w'.mapping, w'.live);
    PlanEmptyExactly(services, w'.mapping, w'.live);
  }

  /** A service that needs something has an action in the plan. */
  lemma {:induction false} ServedByPlan(services: seq<Service>, w: World, sid: ID)
    ensures Needs(Desired(services), w.mapping, w.live, sid).None? ||
      exists a :: a in Plan(services, w.mapping, w.live) && a.sid == sid
  {
    PlanMeaning(services, w.mapping, w.live);
    var n := Needs(Desired(services), w.mapping, w.live, sid);
    if n.Some? {
      assert n.value.sid == sid;
      assert n.value in Plan(services, w.mapping, w.live);
    }
  }

  // ---- Any history: the syncer's steps and the users', interleaved ----

  /** The world, and what the current pass has still to do. */
  datatype Pass = Pass(w: World, todo: seq<Action>)

  /** The steps of passes, one after the other, and what users do to monitors by hand in between. */
  datatype Event =
    | Begin(services: seq<Service>)          // a pass plans; an earlier one that has not ended has died
    | Act(o: Outcome)                        // the pass executes its next action
    | UserAdds(id: ID, m: Monitor)
    | UserEdits(id: ID, m: Monitor)
    | UserDeletes(id: ID)

  predicate Possible(p: Pass, e: Event) {
    match e
    case Begin(_) => true
    case Act(o) => p.todo != [] && Fits(p.w, p.todo[0], o)
    case UserAdds(id, _) => id !in p.w.used
    case UserEdits(id, _) => id in p.w.live
    case UserDeletes(_) => true
  }

  ghost function Next(p: Pass, e: Event): Pass
    requires Possible(p, e)
  {
    match e
    case Begin(services) => p.(todo := Plan(services, p.w.mapping, p.w.live))
    case Act(o) => Pass(Apply(p.w, p.todo[0], o), if Succeeds(o) then p.todo[1..] else [])
    case UserAdds(id, m) => p.(w := p.w.(live := p.w.live[id := m], used := p.w.used + {id}))
    case UserEdits(id, m) => p.(w := p.w.(live := p.w.live[id := m]))
    case UserDeletes(id) => p.(w := p.w.(live := p.w.live - {id}))
  }

  ghost predicate History(p: Pass, events: seq<Event>)
    decreases |events|
  {
    events == [] || (Possible(p, events[0]) && History(Next(p, events[0]), events[1..]))
  }

  ghost function After(p: Pass, events: seq<Event>): Pass
    requires History(p, events)
    decreases |events|
  {
    if events == [] then p else After(Next(p, events[0]), events[1..])
  }

  /** A database and a Kuma before the first pass: no rows, nothing created by the syncer. */
  function Start(live: map<ID, Monitor>): World {
    World(map[], live, live.Keys, {}, 0)
  }

  ghost predicate AllReady(w: World, actions: seq<Action>) {
    DistinctSids(actions) && forall i :: 0 <= i < |actions| ==> Ready(w, actions[i])
  }

  /** What holds in every reachable state, in the middle of a pass too. */
  ghost predicate Sound(p: Pass) {
    Inv(p.w) && AllReady(p.w, p.todo) && |Leftovers(p.w)| <= p.w.lost
  }

  lemma {:induction false} PlanIsReady(services: seq<Service>, w: World)
    ensures AllReady(w, Plan(services, w.mapping, w.live))
  {
    PlanMeaning(services, w.mapping, w.live);
    var p := Plan(services, w.mapping, w.live);
    forall i | 0 <= i < |p| ensures Ready(w, p[i]) {
      assert p[i] in p;
    }
  }

  lemma {:induction false} ActKeepsReady(w: World, todo: seq<Action>, o: Outcome)
    requires Inv(w) && AllReady(w, todo) && todo != [] && Fits(w, todo[0], o)
    ensures AllReady(Apply(w, todo[0], o), todo[1..])
  {
    forall i | 0 <= i < |todo[1..]| ensures Ready(Apply(w, todo[0], o), todo[1..][i]) {
      assert Ready(w, todo[i + 1]);
      StepFrame(w, todo[0], o, todo[i + 1].sid);
    }
  }

  /** What a user does makes no planned action unready: no monitor comes back under an id used before. */
  lemma {:induction false} UserKeepsReady(w: World, live: map<ID, Monitor>, used: set<ID>, todo: seq<Action>)
    requires Inv(w) && AllReady(w, todo) && forall id :: id in w.used && id in live ==> id in w.live
    ensures AllReady(w.(live := live, used := used), todo)
  {
    forall i | 0 <= i < |todo| ensures Ready(w.(live := live, used := used), todo[i]) {
      assert Ready(w, todo[i]);
    }
  }

  lemma {:induction false} EventKeepsSound(p: Pass, e: Event)
    requires Sound(p) && Possible(p, e)
    ensures Sound(Next(p, e))
  {
    match e
    case Begin(services) => PlanIsReady(services, p.w);
    case Act(o) =>
      StepKeepsInv(p.w, p.todo[0], o);
      StepLeftovers(p.w, p.todo[0], o);
      ActKeepsReady(p.w, p.todo, o);
    case _ =>
      var w := Next(p, e).w;
      SubsetSize(Leftovers(w), Leftovers(p.w));
      UserKeepsReady(p.w, w.live, w.used, p.todo);
  }

  /** The invariant and the bound on leftovers hold in every reachable state, users interfering at any point. */
  lemma {:induction false} HistoryKeepsSound(p: Pass, events: seq<Event>)
    requires Sound(p) && History(p, events)
    ensures Sound(After(p, events))
    decreases |events|
  {
    if events != [] {
      EventKeepsSound(p, events[0]);
      HistoryKeepsSound(Next(p, events[0]), events[1..]);
    }
  }

  lemma {:induction false} StartIsSound(live: map<ID, Monitor>)
    ensures Sound(Pass(Start(live), []))
  {
    assert Leftovers(Start(live)) == {};
  }

  /** The user's own changes of one monitor. */
  predicate Changes(e: Event, id: ID) {
    (e.UserEdits? || e.UserDeletes?) && e.id == id
  }

  /** A monitor id that Kuma has assigned and that no row names. */
  predicate Unnamed(w: World, id: ID) {
    id in w.used && forall s :: s in w.mapping ==> w.mapping[s] != id
  }

  lemma {:induction false} EventTouchesNamed(p: Pass, e: Event, id: ID)
    requires Sound(p) && Possible(p, e) && Unnamed(p.w, id)
    ensures Unnamed(Next(p, e).w, id)
    ensures !Changes(e, id) ==> Get(Next(p, e).w.live, id) == Get(p.w.live, id)
  {
    if e.Act? {
      assert Ready(p.w, p.todo[0]);
      StepTouchesManaged(p.w, p.todo[0], e.o, id);
    }
  }

  lemma {:induction false} UnnamedUntouched(p: Pass, events: seq<Event>, id: ID)
    requires Sound(p) && History(p, events) && Unnamed(p.w, id)
    ensures Unnamed(After(p, events).w, id)
    ensures (forall i :: 0 <= i < |events| ==> !Changes(events[i], id)) ==>
      Get(After(p, events).w.live, id) == Get(p.w.live, id)
    decreases |events|
  {
    if events != [] {
      EventTouchesNamed(p, events[0], id);
      EventKeepsSound(p, events[0]);
      UnnamedUntouched(Next(p, events[0]), events[1..], id);
    }
  }

  lemma {:induction false} HistorySplit(p: Pass, a: seq<Event>, b: seq<Event>)
    requires History(p, a + b)
    ensures History(p, a) && History(After(p, a), b) && After(p, a + b) == After(After(p, a), b)
    decreases |a|
  {
    if a == [] {
      assert a + b == b;
    } else {
      assert (a + b)[1..] == a[1..] + b;
      HistorySplit(Next(p, a[0]), a[1..], b);
    }
  }

  /**
    The safety of the syncer.  Over every history, passes dying anywhere and users
    interfering at any point: once no row names a monitor, no row ever names it
    again, and only its users change it.  That holds of every monitor the syncer did
    not create, from the first, and of those it has left behind.
   */
  lemma {:induction false} NeverTouchesUnnamed(live: map<ID, Monitor>, before: seq<Event>, later: seq<Event>, id: ID)
    requires History(Pass(Start(live), []), before + later)
    ensures History(Pass(Start(live), []), before)
    ensures var (p, q) := (After(Pass(Start(live), []), before), After(Pass(Start(live), []), before + later));
      Unnamed(p.w, id) ==>
        && Unnamed(q.w, id)
        && ((forall i :: 0 <= i < |later| ==> !Changes(later[i], id)) ==> Get(q.w.live, id) == Get(p.w.live, id))
  {
    var p0 := Pass(Start(live), []);
    HistorySplit(p0, before, later);
    StartIsSound(live);
    HistoryKeepsSound(p0, before);
    var p := After(p0, before);
    if Unnamed(p.w, id) {
      UnnamedUntouched(p, later, id);
    }
  }

  lemma {:induction false} CreatedGrows(p: Pass, events: seq<Event>, id: ID)
    requires Sound(p) && History(p, events) && id in p.w.used && id !in p.w.created
    ensures id in After(p, events).w.used && id !in After(p, events).w.created
    decreases |events|
  {
    if events != [] {
      EventKeepsSound(p, events[0]);
      CreatedGrows(Next(p, events[0]), events[1..], id);
    }
  }

  /** So a monitor that the syncer did not create is as its users left it: no pass ever edits or deletes it. */
  lemma {:induction false} NeverTouchesOthers(live: map<ID, Monitor>, before: seq<Event>, later: seq<Event>, id: ID)
    requires History(Pass(Start(live), []), before + later)
    requires forall i :: 0 <= i < |later| ==> !Changes(later[i], id)
    ensures History(Pass(Start(live), []), before)
    ensures var (p, q) := (After(Pass(Start(live), []), before), After(Pass(Start(live), []), before + later));
      id in p.w.used && id !in p.w.created ==> Get(q.w.live, id) == Get(p.w.live, id) && id !in q.w.created
  {
    var p0 := Pass(Start(live), []);
    HistorySplit(p0, before, later);
    StartIsSound(live);
    HistoryKeepsSound(p0, before);
    NeverTouchesUnnamed(live, before, later, id);
    var p := After(p0, before);
    if id in p.w.used && id !in p.w.created {
      CreatedGrows(p, later, id);
      assert Inv(p.w) && Unnamed(p.w, id);
    }
  }

  /** After any history at all, the next undisturbed, fully successful pass converges. */
  lemma {:induction false} EveryHistoryConverges(live: map<ID, Monitor>, events: seq<Event>, services: seq<Service>,
                                                 outs: seq<Outcome>)
    requires History(Pass(Start(live), []), events)
    requires var w := After(Pass(Start(live), []), events).w;
      FitsRun(w, Plan(services, w.mapping, w.live), outs) && AllSucceed(Plan(services, w.mapping, w.live), outs)
    ensures var w := After(Pass(Start(live), []), events).w;
      var w' := Run(w, Plan(services, w.mapping, w.live), outs);
      && |Leftovers(w)| <= w.lost
      && InSync(Desired(services), w'.mapping, w'.live) && Injective(w'.mapping)
      && Plan(services, w'.mapping, w'.live) == []
  {
    StartIsSound(live);
    HistoryKeepsSound(Pass(Start(live), []), events);
    PassConverges(services, After(Pass(Start(live), []), events).w, outs);
  }

  /** The pending edits of a monitor carry the settings it has. */
  predicate CarriesRaw(p: Pass, id: ID) {
    id in p.w.live ==>
      forall i :: 0 <= i < |p.todo| && p.todo[i].Edit? && p.todo[i].id == id ==> p.todo[i].want.raw == p.w.live[id].raw
  }

  lemma {:induction false} PlanCarriesRaw(services: seq<Service>, w: World, id: ID)
    ensures CarriesRaw(Pass(w, Plan(services, w.mapping, w.live)), id)
  {
    var p := Plan(services, w.mapping, w.live);
    PlanMeaning(services, w.mapping, w.live);
    forall i | 0 <= i < |p| && p[i].Edit? && p[i].id == id && id in w.live
      ensures p[i].want.raw == w.live[id].raw {
      assert p[i] in p;
    }
  }

  lemma {:induction false} EventKeepsRaw(p: Pass, e: Event, id: ID)
    requires Sound(p) && Possible(p, e) && CarriesRaw(p, id) && id in p.w.used && !Changes(e, id)
    ensures id in Next(p, e).w.used && CarriesRaw(Next(p, e), id)
    ensures id in Next(p, e).w.live ==> id in p.w.live && Next(p, e).w.live[id].raw == p.w.live[id].raw
  {
    match e
    case Begin(services) => PlanCarriesRaw(services, p.w, id);
    case Act(o) => StepKeepsOthers(p.w, p.todo[0], o, id);
    case _ =>
  }

  lemma {:induction false} RawKept(p: Pass, events: seq<Event>, id: ID)
    requires Sound(p) && History(p, events) && CarriesRaw(p, id) && id in p.w.used
    requires forall i :: 0 <= i < |events| ==> !Changes(events[i], id)
    ensures id in After(p, events).w.live ==> id in p.w.live && After(p, events).w.live[id].raw == p.w.live[id].raw
    decreases |events|
  {
    if events != [] {
      EventKeepsRaw(p, events[0], id);
      EventKeepsSound(p, events[0]);
      RawKept(Next(p, events[0]), events[1..], id);
    }
  }

  /**
    From the moment a pass plans, and over any number of passes, dying anywhere: as
    long as users leave a monitor alone, its settings are what they were, however
    often the syncer edits it.
   */
  lemma {:induction false} HistoryKeepsRaw(p: Pass, services: seq<Service>, later: seq<Event>, id: ID)
    requires Sound(p) && id in p.w.live && History(Next(p, Begin(services)), later)
    requires forall i :: 0 <= i < |later| ==> !Changes(later[i], id)
    ensures var w := After(Next(p, Begin(services)), later).w;
      id in w.live ==> w.live[id].raw == p.w.live[id].raw
  {
    EventKeepsSound(p, Begin(services));
    PlanCarriesRaw(services, p.w, id);
    RawKept(Next(p, Begin(services)), later, id);
  }

  // ---- The syncer ----

  datatype Summary = Summary(created: nat, updated: nat, deleted: nat, skipped: nat, err: bool)

  /** How the reads before the first action went: services, mapping, connection. */
  datatype Setup = ListFails | MappingFails | ConnectFails | Connected

  /** A pass that returns has executed every action or stopped at a failure. */
  predicate Ended(actions: seq<Action>, outs: seq<Outcome>) {
    |outs| == |actions| || (outs != [] && !Succeeds(outs[|outs| - 1]))
  }

  function Counted(sum: Summary, o: Outcome): Summary {
    match o
    case Added(_) => sum.(created := sum.created + 1)
    case Edited => sum.(updated := sum.updated + 1)
    case Deleted => sum.(deleted := sum.deleted + 1)
    case Forgotten => sum
    case _ => sum.(err := true)
  }

  /** What the pass reports: operations that succeeded, and whether one failed. */
  function Tally(sum: Summary, outs: seq<Outcome>): Summary {
    if outs == [] then sum else Counted(Tally(sum, outs[..|outs| - 1]), outs[|outs| - 1])
  }

  /** The positions of the outcomes of one kind. */
  function Kind(outs: seq<Outcome>, p: Outcome -> bool): set<nat> {
    set i | 0 <= i < |outs| && p(outs[i])
  }

  lemma {:induction false} KindStep(outs: seq<Outcome>, p: Outcome -> bool)
    requires outs != []
    ensures |Kind(outs, p)| == |Kind(outs[..|outs| - 1], p)| + if p(outs[|outs| - 1]) then 1 else 0
  {
    var n := |outs| - 1;
    assert Kind(outs, p) == if p(outs[n]) then Kind(outs[..n], p) + {n} else Kind(outs[..n], p);
  }

  lemma {:induction false} KindNone(outs: seq<Outcome>, p: Outcome -> bool)
    ensures Kind(outs, p) == {} <==> forall i :: 0 <= i < |outs| ==> !p(outs[i])
  {
    if Kind(outs, p) == {} {
      forall i | 0 <= i < |outs| ensures !p(outs[i]) {
        assert i !in Kind(outs, p);
      }
    }
  }

  function AddedNow(): Outcome -> bool { (o: Outcome) => o.Added? }
  function EditedNow(): Outcome -> bool { (o: Outcome) => o.Edited? }
  function DeletedNow(): Outcome -> bool { (o: Outcome) => o.Deleted? }
  function FailedNow(): Outcome -> bool { (o: Outcome) => !(o.Added? || o.Edited? || o.Deleted? || o.Forgotten?) }

  /** The summary counts the adds, edits and deletes that succeeded, and is an error exactly when something failed. */
  lemma {:induction false} TallyMeaning(sum: Summary, outs: seq<Outcome>)
    ensures var t := Tally(sum, outs);
      && t.created == sum.created + |Kind(outs, AddedNow())|
      && t.updated == sum.updated + |Kind(outs, EditedNow())|
      && t.deleted == sum.deleted + |Kind(outs, DeletedNow())|
      && t.skipped == sum.skipped
      && (t.err <==> sum.err || |Kind(outs, FailedNow())| > 0)
  {
    if outs != [] {
      TallyMeaning(sum, outs[..|outs| - 1]);
      KindStep(outs, AddedNow());
      KindStep(outs, EditedNow());
      KindStep(outs, DeletedNow());
      KindStep(outs, FailedNow());
    }
  }

  lemma {:induction false} RunPrefix(w: World, actions: seq<Action>, outs: seq<Outcome>, i: nat)
    requires FitsRun(w, actions, outs) && i < |outs|
    ensures i < |actions| && FitsRun(w, actions, outs[..i]) && Fits(Run(w, actions, outs[..i]), actions[i], outs[i])
    ensures FitsRun(w, actions, outs[..i + 1])
    ensures Run(w, actions, outs[..i + 1]) == Apply(Run(w, actions, outs[..i]), actions[i], outs[i])
    ensures i + 1 < |outs| ==> Succeeds(outs[i])
    decreases |outs|
  {
    if i > 0 {
      assert outs[..i] == [outs[0]] + outs[1..][..i - 1];
      assert outs[..i + 1] == [outs[0]] + outs[1..][..i];
      RunPrefix(Apply(w, actions[0], outs[0]), actions[1..], outs[1..], i - 1);
      assert outs[..i][1..] == outs[1..][..i - 1] && outs[..i + 1][1..] == outs[1..][..i];
    } else {
      assert outs[..1][1..] == [];
    }
  }

  function LostNow(): Outcome -> bool {
    (o: Outcome) => (o.AddFails? && o.effect.Some?) || (o.AddedUnrecorded? && !o.cleaned)
  }

  /** The monitors that outcomes say were created. */
  function CreatedBy(outs: seq<Outcome>): set<ID> {
    set o | o in outs && (o.Added? || o.AddedUnrecorded? || (o.AddFails? && o.effect.Some?)) ::
      if o.AddFails? then o.effect.value else o.id
  }

  lemma {:induction false} CreatedByStep(outs: seq<Outcome>)
    requires outs != []
    ensures CreatedBy(outs) == CreatedBy(outs[..|outs| - 1]) + CreatedBy([outs[|outs| - 1]])
  {
    var n := |outs| - 1;
    assert outs == outs[..n] + [outs[n]];
  }

  /** The history variables are the outcomes' own: a loss for each add or cleanup that went wrong, and the ids added. */
  lemma {:induction false} HistoryVariables(w: World, actions: seq<Action>, outs: seq<Outcome>)
    requires FitsRun(w, actions, outs)
    ensures Run(w, actions, outs).lost == w.lost + |Kind(outs, LostNow())|
    ensures Run(w, actions, outs).created == w.created + CreatedBy(outs)
    ensures Run(w, actions, outs).used == w.used + CreatedBy(outs)
  {
    if outs != [] {
      var n := |outs| - 1;
      RunPrefix(w, actions, outs, n);
      HistoryVariables(w, actions, outs[..n]);
      KindStep(outs, LostNow());
      CreatedByStep(outs);
      assert outs[..n + 1] == outs;
      OneStepHistory(Run(w, actions, outs[..n]), actions[n], outs[n]);
    }
  }

  lemma {:induction false} OneStepHistory(w: World, a: Action, o: Outcome)
    requires Fits(w, a, o)
    ensures Apply(w, a, o).lost == w.lost + if LostNow()(o) then 1 else 0
    ensures Apply(w, a, o).created == w.created + CreatedBy([o])
    ensures Apply(w, a, o).used == w.used + CreatedBy([o])
  {
    assert o in [o];
  }

  /** The syncer with the table it owns and the Kuma it drives. */
  class Syncer {
    var mapping: map<ID, ID>
    var live: map<ID, Monitor>
    var used: set<ID>
    var created: set<ID>
    var lost: nat
    var last: Option<Summary>

    function W(): World
      reads this
    {
      World(mapping, live, used, created, lost)
    }

    constructor (live: map<ID, Monitor>)
      ensures W() == Start(live) && last == None
    {
      mapping, this.live, used, created, lost, last := map[], live, live.Keys, {}, 0, None;
    }

    /** `session.Add`: the new id, or an error whether or not the monitor was created. */
    method SessionAdd(want: Monitor, o: Outcome) returns (id: Option<ID>)
      requires o.AddFails? || o.Added? || o.AddedUnrecorded?
      modifies this
      ensures last == old(last)
      ensures match o
        case AddFails(e) => id == None && W() == if e.Some? then Lose(RemoteAdd(old(W()), e.value, want)) else old(W())
        case Added(n) => id == Some(n) && W() == RemoteAdd(old(W()), n, want)
        case AddedUnrecorded(n, _) => id == Some(n) && W() == RemoteAdd(old(W()), n, want)
        case _ => true
    {
      match o {
        case AddFails(e) =>
          id := None;
          if e.Some? {
            live, used, created, lost := live[e.value := want], used + {e.value}, created + {e.value}, lost + 1;
          }
        case Added(n) =>
          id := Some(n);
          live, used, created := live[n := want], used + {n}, created + {n};
        case AddedUnrecorded(n, _) =>
          id := Some(n);
          live, used, created := live[n := want], used + {n}, created + {n};
      }
    }

    /** `actCreate`: add, record, and delete again when recording fails. */
    method DoCreate(sid: ID, want: Monitor, o: Outcome) returns (ok: bool)
      requires !o.Cancelled? && Fits(W(), Create(sid, want), o)
      modifies this
      ensures W() == Apply(old(W()), Create(sid, want), o) && ok == Succeeds(o) && last == old(last)
    {
      var id := SessionAdd(want, o);
      if id.None? {
        return false;
      }
      if o.AddedUnrecorded? {
        if o.cleaned {
          live := live - {id.value};
        } else {
          lost := lost + 1;
        }
        return false;
      }
      mapping := mapping[sid := id.value];
      ok := true;
    }

    /** `actDelete`: delete the monitor, then its row. */
    method DoDelete(sid: ID, id: ID, o: Outcome) returns (ok: bool)
      requires !o.Cancelled? && Fits(W(), Delete(sid, id), o)
      modifies this
      ensures W() == Apply(old(W()), Delete(sid, id), o) && ok == Succeeds(o) && last == old(last)
    {
      if o == DeleteFails(false) {
        return false;
      }
      live := live - {id};
      if o != Deleted {
        return false;
      }
      mapping := mapping - {sid};
      ok := true;
    }

    /** `actEdit` and `actForget`. */
    method DoOther(a: Action, o: Outcome) returns (ok: bool)
      requires (a.Edit? || a.Forget?) && !o.Cancelled? && Fits(W(), a, o)
      modifies this
      ensures W() == Apply(old(W()), a, o) && ok == Succeeds(o) && last == old(last)
    {
      if a.Edit? {
        if (o == Edited || o == EditFails(true)) && a.id in live {
          live := live[a.id := a.want];
        }
        ok := o == Edited;
      } else {
        if o == Forgotten {
          mapping := mapping - {a.sid};
        }
        ok := o == Forgotten;
      }
    }

    /** One iteration of the loop of `reconcile`. */
    method Execute(a: Action, o: Outcome) returns (ok: bool)
      requires Fits(W(), a, o)
      modifies this
      ensures W() == Apply(old(W()), a, o) && ok == Succeeds(o) && last == old(last)
    {
      if o.Cancelled? {
        return false;
      }
      match a {
        case Create(sid, want) => ok := DoCreate(sid, want, o);
        case Delete(sid, id) => ok := DoDelete(sid, id, o);
        case Edit(_, _, _) => ok := DoOther(a, o);
        case Forget(_) => ok := DoOther(a, o);
      }
    }

    /** The loop of `reconcile`. */
    method ExecuteAll(actions: seq<Action>, outs: seq<Outcome>, sum0: Summary) returns (sum: Summary)
      requires FitsRun(W(), actions, outs) && Ended(actions, outs)
      modifies this
      ensures W() == Run(old(W()), actions, outs)
      ensures sum == Tally(sum0, outs) && last == old(last)
    {
      ghost var w0 := W();
      sum := sum0;
      var i := 0;
      while i < |actions| && i < |outs|
        invariant i <= |outs| && i <= |actions|
        invariant FitsRun(w0, actions, outs[..i]) && W() == Run(w0, actions, outs[..i])
        invariant sum == Tally(sum0, outs[..i]) && last == old(last)
      {
        RunPrefix(w0, actions, outs, i);
        assert outs[..i + 1][..i] == outs[..i];
        var ok := Execute(actions[i], outs[i]);
        sum := Counted(sum, outs[i]);
        i := i + 1;
        if !ok {
          break;
        }
      }
      if i < |outs| {
        RunPrefix(w0, actions, outs, if i < |actions| then i - 1 else i);
        assert false;
      }
      assert outs[..|outs|] == outs;
    }

    /** `reconcile`, recorded by `Reconcile`: a pass that cannot start records only its error. */
    method Reconcile(services: seq<Service>, start: Setup, outs: seq<Outcome>) returns (sum: Summary)
      requires start.Connected? ==>
        FitsRun(W(), Plan(services, mapping, live), outs) && Ended(Plan(services, mapping, live), outs)
      modifies this
      ensures last == Some(sum)
      ensures start.Connected? ==>
        && W() == Run(old(W()), Plan(services, old(mapping), old(live)), outs)
        && sum == Tally(Summary(0, 0, 0, Skipped(services), false), outs)
      ensures !start.Connected? ==> W() == old(W()) && sum == Summary(0, 0, 0, 0, true)
    {
      sum := Summary(0, 0, 0, 0, false);
      if start == ListFails || start == MappingFails || start == ConnectFails {
        sum := sum.(err := true);
        last := Some(sum);
        return;
      }
      var actions, skipped := MakePlan(services, mapping, live);
      sum := sum.(skipped := skipped);
      sum := ExecuteAll(actions, outs, sum);
      last := Some(sum);
    }
  }
}
