/**
  A recurring job (`internal/job/job.go`): its goroutine runs one pass at once,
  then one pass for each tick and each manual trigger, until cancelled.  The
  Kuma syncer's trigger loop (`internal/kuma/syncer.go`) is the same machine
  without a ticker.
 */
module Job {
  import opened Wrappers

  /** Where the job's goroutine stands: about to run a pass, in one, in the select, or returned. */
  datatype Phase = Starting | Running | Selecting | Stopped

  /** `trigger` and `tick` are the one-slot channels; `first` says the ticker does not exist yet. */
  datatype State = State(recurring: bool, phase: Phase, trigger: bool, tick: bool, first: bool, cancelled: bool,
                         running: bool, runs: nat, lastErr: string)

  /** A pass ends with its error, "" for none; a panic is recovered into an error. */
  datatype Event = Trigger | Tick | Cancel | TakeTrigger | TakeTick | Begin | End(err: string) | Stop

  function Initial(recurring: bool): State {
    State(recurring, Starting, false, false, true, false, false, 0, "")
  }

  predicate Enabled(s: State, e: Event) {
    match e
    case Trigger => true
    case Tick => s.recurring && !s.first && s.phase != Stopped
    case Cancel => true
    case TakeTrigger => s.phase == Selecting && s.trigger
    case TakeTick => s.phase == Selecting && s.tick
    case Begin => s.phase == Starting
    case End(_) => s.phase == Running
    case Stop => s.phase == Selecting && s.cancelled
  }

  function Step(s: State, e: Event): State
    requires Enabled(s, e)
  {
    match e
    case Trigger => s.(trigger := true)
    case Tick => s.(tick := true)
    case Cancel => s.(cancelled := true)
    case TakeTrigger => s.(trigger := false, phase := Starting)
    case TakeTick => s.(tick := false, phase := Starting)
    case Begin => s.(phase := Running, running := true)
    case End(err) => s.(phase := Selecting, first := false, running := false, runs := s.runs + 1, lastErr := err)
    case Stop => s.(phase := Stopped)
  }

  class Job {
    const name: string
    const recurring: bool
    var phase: Phase
    var trigger: bool
    var tick: bool
    var first: bool
    var cancelled: bool
    var running: bool
    var runs: nat
    var lastErr: string

    function Current(): State
      reads this
    {
      State(recurring, phase, trigger, tick, first, cancelled, running, runs, lastErr)
    }

    constructor (name: string, recurring: bool)
      ensures this.name == name && Current() == Initial(recurring)
    {
      this.name, this.recurring := name, recurring;
      phase, trigger, tick, first, cancelled := Starting, false, false, true, false;
      running, runs, lastErr := false, 0, "";
    }

    /** The non-blocking send of `Trigger` and `TriggerSync`: a full slot swallows it. */
    method Request()
      modifies this
      ensures Current() == Step(old(Current()), Trigger)
    {
      if !trigger {
        trigger := true;
      }
    }

    /** The ticker fires; like the trigger, its channel holds one value. */
    method Fire()
      requires Enabled(Current(), Tick)
      modifies this
      ensures Current() == Step(old(Current()), Tick)
    {
      if !tick {
        tick := true;
      }
    }

    /**
      The select of `loop`.  `choice` is the case the runtime picks among the
      ready ones; with none ready the goroutine stays in the select.
     */
    method Select(choice: Event)
      requires phase == Selecting && choice in {TakeTrigger, TakeTick, Stop}
      modifies this
      ensures Current() == if Enabled(old(Current()), choice) then Step(old(Current()), choice) else old(Current())
    {
      if choice == Stop && cancelled {
        phase := Stopped;
      } else if choice == TakeTick && tick {
        tick := false;
        phase := Starting;
      } else if choice == TakeTrigger && trigger {
        trigger := false;
        phase := Starting;
      }
    }

    /** The first half of `pass`. */
    method BeginPass()
      requires Enabled(Current(), Begin)
      modifies this
      ensures Current() == Step(old(Current()), Begin)
    {
      running := true;
      phase := Running;
    }

    /** The second half of `pass`; a panic in the job's function arrives as an error. */
    method EndPass(panicked: bool, err: string)
      requires Enabled(Current(), End(err))
      modifies this
      ensures Current() == Step(old(Current()), End(if panicked then "panic: " + err else err))
    {
      running := false;
      runs := runs + 1;
      lastErr := if panicked then "panic: " + err else err;
      first := false;
      phase := Selecting;
    }
  }

  /** The index of the first job with the name, |jobs| when there is none. */
  function FirstNamed(jobs: seq<Job>, name: string): (i: nat)
    ensures i <= |jobs| && (forall k :: 0 <= k < i ==> jobs[k].name != name)
    ensures i < |jobs| ==> jobs[i].name == name
    decreases |jobs|
  {
    if jobs == [] || jobs[0].name == name then 0 else 1 + FirstNamed(jobs[1..], name)
  }

  /** `Runner.Trigger`: the first job with the name is asked for a pass, no other job changes. */
  method TriggerByName(jobs: seq<Job>, name: string) returns (ok: bool)
    modifies set j | j in jobs
    ensures ok <==> FirstNamed(jobs, name) < |jobs|
    ensures ok ==> jobs[FirstNamed(jobs, name)].Current() == Step(old(jobs[FirstNamed(jobs, name)].Current()), Trigger)
    ensures forall j :: j in jobs && !(ok && j == jobs[FirstNamed(jobs, name)]) ==> j.Current() == old(j.Current())
  {
    ghost var first := FirstNamed(jobs, name);
    for i := 0 to |jobs|
      invariant i <= first
      invariant forall j :: j in jobs ==> j.Current() == old(j.Current())
    {
      if jobs[i].name == name {
        jobs[i].Request();
        return true;
      }
    }
    return false;
  }

  /** The syncer's `Dispatch`: any service event asks for one pass, others are ignored. */
  method Dispatch(job: Job, types: seq<string>)
    modifies job
    ensures job.Current() == if "service" in types then Step(old(job.Current()), Trigger) else old(job.Current())
  {
    for i := 0 to |types|
      invariant "service" !in types[..i]
      invariant job.Current() == old(job.Current())
    {
      if types[i] == "service" {
        job.Request();
        return;
      }
    }
  }

  // ---- Runs ----

  predicate Legal(s: State, evs: seq<Event>)
    decreases |evs|
  {
    evs == [] || (Enabled(s, evs[0]) && Legal(Step(s, evs[0]), evs[1..]))
  }

  function After(s: State, evs: seq<Event>): State
    requires Legal(s, evs)
    decreases |evs|
  {
    if evs == [] then s else After(Step(s, evs[0]), evs[1..])
  }

  predicate Begins(e: Event) {
    e.Begin?
  }

  predicate Ends(e: Event) {
    e.End?
  }

  predicate Manual(e: Event) {
    e.Trigger?
  }

  predicate Asks(e: Event) {
    e.Trigger? || e.Tick?
  }

  /** A step of the job's own goroutine. */
  predicate Own(e: Event) {
    e.TakeTrigger? || e.TakeTick? || e.Begin? || e.End? || e.Stop?
  }

  function Number(evs: seq<Event>, p: Event -> bool): nat {
    if evs == [] then 0 else (if p(evs[0]) then 1 else 0) + Number(evs[1..], p)
  }

  function Begun(evs: seq<Event>): nat {
    Number(evs, Begins)
  }

  /** The triggers and ticks that found their slot empty. */
  function Buffered(s: State, evs: seq<Event>): nat
    requires Legal(s, evs)
    decreases |evs|
  {
    if evs == [] then 0
    else Bit((evs[0].Trigger? && !s.trigger) || (evs[0].Tick? && !s.tick)) + Buffered(Step(s, evs[0]), evs[1..])
  }

  /** The passes owed in a state. */
  function Owed(s: State): nat {
    Bit(s.phase == Starting) + Bit(s.trigger) + Bit(s.tick)
  }

  /** Of the passes begun, all but the running one are finished and counted: passes never overlap. */
  lemma {:induction false} PassesNeverOverlap(recurring: bool, evs: seq<Event>)
    requires Legal(Initial(recurring), evs)
    ensures var s := After(Initial(recurring), evs);
            && Begun(evs) == s.runs + Bit(s.running)
            && s.runs == Number(evs, Ends)
            && (s.running <==> s.phase == Running)
  {
    NoOverlap(Initial(recurring), evs);
  }

  lemma {:induction false} StepOverlap(s: State, e: Event)
    requires Enabled(s, e) && (s.running <==> s.phase == Running)
    ensures var t := Step(s, e);
            && s.runs + Bit(s.running) + Bit(Begins(e)) == t.runs + Bit(t.running)
            && t.runs == s.runs + Bit(Ends(e))
            && (t.running <==> t.phase == Running)
  {
  }

  lemma {:induction false} NoOverlap(s: State, evs: seq<Event>)
    requires Legal(s, evs) && (s.running <==> s.phase == Running)
    ensures var t := After(s, evs);
            && s.runs + Bit(s.running) + Begun(evs) == t.runs + Bit(t.running)
            && t.runs == s.runs + Number(evs, Ends)
            && (t.running <==> t.phase == Running)
    decreases |evs|
  {
    if evs != [] {
      StepOverlap(s, evs[0]);
      NoOverlap(Step(s, evs[0]), evs[1..]);
    }
  }

  /** Passes are conserved: those owed at first and each buffered request give one pass begun or still owed. */
  lemma {:induction false} PassesConserved(s: State, evs: seq<Event>)
    requires Legal(s, evs)
    ensures Begun(evs) + Owed(After(s, evs)) == Owed(s) + Buffered(s, evs)
    decreases |evs|
  {
    if evs != [] {
      PassesConserved(Step(s, evs[0]), evs[1..]);
    }
  }

  /** No more passes than the immediate one and one for each tick and trigger. */
  lemma {:induction false} PassesBounded(recurring: bool, evs: seq<Event>)
    requires Legal(Initial(recurring), evs)
    ensures Begun(evs) <= 1 + Number(evs, Asks)
    ensures !recurring ==> Begun(evs) <= 1 + Number(evs, Manual)
  {
    PassesConserved(Initial(recurring), evs);
    BufferedBounded(Initial(recurring), evs);
  }

  lemma {:induction false} BufferedBounded(s: State, evs: seq<Event>)
    requires Legal(s, evs)
    ensures Buffered(s, evs) <= Number(evs, Asks)
    ensures !s.recurring ==> Buffered(s, evs) <= Number(evs, Manual)
    decreases |evs|
  {
    if evs != [] {
      BufferedBounded(Step(s, evs[0]), evs[1..]);
    }
  }

  // ---- No trigger is lost ----

  /** A request is unserved: it sits in its slot, or the pass that will serve it is about to begin. */
  predicate Waiting(s: State) {
    s.trigger || s.phase == Starting
  }

  /** The steps the goroutine still needs before it begins a pass or returns. */
  function Distance(s: State): nat {
    match s.phase
    case Running => 2
    case Selecting => 1
    case Starting => 0
    case Stopped => 0
  }

  lemma {:induction false} StaysWaiting(s: State, evs: seq<Event>)
    requires Legal(s, evs) && Waiting(s) && forall e :: e in evs ==> !e.Begin?
    ensures Waiting(After(s, evs))
    ensures Number(evs, Own) + Distance(After(s, evs)) <= Distance(s)
    decreases |evs|
  {
    if evs != [] {
      StaysWaiting(Step(s, evs[0]), evs[1..]);
    }
  }

  lemma {:induction false} StopNeedsCancel(s: State, evs: seq<Event>)
    requires Legal(s, evs) && (s.phase == Stopped ==> s.cancelled)
    ensures After(s, evs).phase == Stopped ==> After(s, evs).cancelled
    decreases |evs|
  {
    if evs != [] {
      StopNeedsCancel(Step(s, evs[0]), evs[1..]);
    }
  }

  lemma {:induction false} LegalSplit(s: State, a: seq<Event>, b: seq<Event>)
    requires Legal(s, a + b)
    ensures Legal(s, a) && Legal(After(s, a), b) && After(s, a + b) == After(After(s, a), b)
    ensures Buffered(s, a + b) == Buffered(s, a) + Buffered(After(s, a), b)
    decreases |a|
  {
    if a == [] {
      assert a + b == b;
    } else {
      assert (a + b)[1..] == a[1..] + b;
      LegalSplit(Step(s, a[0]), a[1..], b);
    }
  }

  /** Some step of the goroutine that is possible now. */
  function Next(s: State): Event {
    match s.phase
    case Starting => Begin
    case Running => End("")
    case Selecting => if s.trigger then TakeTrigger else if s.tick then TakeTick else Stop
    case Stopped => Stop
  }

  /**
    No trigger is lost.  In any run, from a trigger up to the next pass begun:
    the request is still buffered or its pass is about to begin, the goroutine has
    taken at most two steps, and unless it was cancelled it has another to take.
    So after two steps of its own the third begins a pass.
   */
  lemma {:induction false} TriggerIsServed(recurring: bool, before: seq<Event>, later: seq<Event>)
    requires Legal(Initial(recurring), before + [Trigger] + later)
    requires forall e :: e in later ==> !e.Begin?
    ensures var s := After(Initial(recurring), before + [Trigger] + later);
            && Waiting(s)
            && Number(later, Own) <= 2
            && (s.phase != Stopped ==> Own(Next(s)) && Enabled(s, Next(s)))
            && (s.phase == Stopped ==> s.cancelled)
            && (Number(later, Own) == 2 && s.phase != Stopped ==> s.phase == Starting)
  {
    var s0 := Initial(recurring);
    LegalSplit(s0, before + [Trigger], later);
    LegalSplit(s0, before, [Trigger]);
    var s1 := After(s0, before + [Trigger]);
    assert s1 == Step(After(s0, before), Trigger);
    StaysWaiting(s1, later);
    StopNeedsCancel(s0, before + [Trigger] + later);
  }

  // ---- Bursts ----

  /** Nothing to do: in the select with both slots empty. */
  predicate Idle(s: State) {
    s.phase == Selecting && !s.trigger && !s.tick
  }

  lemma {:induction false} BurstBuffersOne(s: State, burst: seq<Event>)
    requires Legal(s, burst) && forall e :: e in burst ==> e.Trigger? || e.Cancel?
    ensures Buffered(s, burst) == Bit(!s.trigger && Trigger in burst)
    ensures After(s, burst).trigger == (s.trigger || Trigger in burst)
    ensures After(s, burst).tick == s.tick && After(s, burst).phase == s.phase
    decreases |burst|
  {
    if burst != [] {
      BurstBuffersOne(Step(s, burst[0]), burst[1..]);
      assert burst == [burst[0]] + burst[1..];
    }
  }

  lemma {:induction false} QuietBuffersNone(s: State, evs: seq<Event>)
    requires Legal(s, evs) && forall e :: e in evs ==> !e.Trigger? && !e.Tick?
    ensures Buffered(s, evs) == 0
    decreases |evs|
  {
    if evs != [] {
      QuietBuffersNone(Step(s, evs[0]), evs[1..]);
    }
  }

  lemma {:induction false} NumberAppend(a: seq<Event>, b: seq<Event>, p: Event -> bool)
    ensures Number(a + b, p) == Number(a, p) + Number(b, p)
  {
    if a == [] {
      assert a + b == b;
    } else {
      assert (a + b)[1..] == a[1..] + b;
      NumberAppend(a[1..], b, p);
    }
  }

  /**
    Bursts collapse.  Any number of triggers during a pass, followed by quiet until
    the job is idle again, gives exactly one further pass, and none without a trigger.
   */
  lemma {:induction false} BurstGivesOnePass(s: State, burst: seq<Event>, rest: seq<Event>)
    requires Legal(s, burst + rest) && s.phase == Running && !s.trigger && !s.tick
    requires forall e :: e in burst ==> e.Trigger? || e.Cancel?
    requires forall e :: e in rest ==> !e.Trigger? && !e.Tick?
    requires Idle(After(s, burst + rest))
    ensures Begun(burst + rest) == Bit(Trigger in burst)
  {
    LegalSplit(s, burst, rest);
    BurstBuffersOne(s, burst);
    QuietBuffersNone(After(s, burst), rest);
    PassesConserved(s, burst + rest);
  }

  // ---- The first pass ----

  /** The first pass waits for nothing: until it begins, it may begin, and nothing else of the job's own may happen. */
  lemma {:induction false} FirstPassAtOnce(s: State, evs: seq<Event>)
    requires s == Initial(s.recurring) || (s.phase == Starting && s.first)
    requires Legal(s, evs) && forall e :: e in evs ==> !e.Begin?
    ensures Enabled(After(s, evs), Begin) && Number(evs, Own) == 0
    decreases |evs|
  {
    if evs != [] {
      FirstPassAtOnce(Step(s, evs[0]), evs[1..]);
    }
  }

  // ---- Errors and cancellation ----

  lemma {:induction false} QuietKeepsErr(s: State, evs: seq<Event>)
    requires Legal(s, evs) && forall e :: e in evs ==> !e.End?
    ensures After(s, evs).lastErr == s.lastErr
    decreases |evs|
  {
    if evs != [] {
      QuietKeepsErr(Step(s, evs[0]), evs[1..]);
    }
  }

  /** The error shown is that of the latest pass to end, whatever came before; before any has ended it is none. */
  lemma {:induction false} LastErrMeaning(recurring: bool, before: seq<Event>, err: string, later: seq<Event>)
    requires forall e :: e in later ==> !e.End?
    ensures Legal(Initial(recurring), later) ==> After(Initial(recurring), later).lastErr == ""
    ensures Legal(Initial(recurring), before + [End(err)] + later) ==>
      After(Initial(recurring), before + [End(err)] + later).lastErr == err
  {
    var s0 := Initial(recurring);
    if Legal(s0, later) {
      QuietKeepsErr(s0, later);
    }
    if Legal(s0, before + [End(err)] + later) {
      LegalSplit(s0, before + [End(err)], later);
      LegalSplit(s0, before, [End(err)]);
      assert After(s0, before + [End(err)]) == Step(After(s0, before), End(err));
      QuietKeepsErr(After(s0, before + [End(err)]), later);
    }
  }

  /** A cancelled job stays cancelled and may return from every select; one that has returned begins no pass. */
  lemma {:induction false} CancelMeaning(s: State, evs: seq<Event>)
    requires Legal(s, evs) && (s.cancelled || Cancel in evs)
    ensures After(s, evs).cancelled
    ensures After(s, evs).phase == Selecting ==> Enabled(After(s, evs), Stop)
    ensures s.phase == Stopped ==> After(s, evs).phase == Stopped && Begun(evs) == 0
    decreases |evs|
  {
    if evs != [] {
      assert evs == [evs[0]] + evs[1..];
      CancelMeaning(Step(s, evs[0]), evs[1..]);
    }
  }
}
