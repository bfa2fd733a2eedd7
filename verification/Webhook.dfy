/**
  The webhook delivery queue (`internal/webhook/dispatcher.go`): callers that
  dispatch events, one expander, a pool of workers and retry timers, interleaved
  in any order over two bounded channels and one wait group.
 */
module Webhook {
  import opened Wrappers
  import opened Bytes
  import opened Listing

  datatype Event = Event(typ: string, action: string, id: int)

  datatype Endpoint = Endpoint(url: string, types: seq<string>, actions: seq<string>)

  /** An empty filter lets everything through. */
  predicate Matches(ep: Endpoint, e: Event) {
    (ep.types == [] || e.typ in ep.types) && (ep.actions == [] || e.action in ep.actions)
  }

  /** An endpoint without filters receives every event, one with filters exactly the types and actions they name. */
  lemma {:induction false} FiltersMeaning(url: string, types: seq<string>, actions: seq<string>, e: Event)
    ensures Matches(Endpoint(url, [], []), e)
    ensures types != [] ==> (Matches(Endpoint(url, types, []), e) <==> e.typ in types)
    ensures actions != [] ==> (Matches(Endpoint(url, [], actions), e) <==> e.action in actions)
    ensures Matches(Endpoint(url, types, actions), e) <==>
      Matches(Endpoint(url, types, []), e) && Matches(Endpoint(url, [], actions), e)
  {
  }

  datatype Config = Config(size: nat, max: nat, base: int, workers: nat)

  predicate ValidConfig(c: Config) {
    c.size > 0 && c.max > 0 && c.base > 0 && c.workers > 0
  }

  /** `NewQueue` replaces every option that is not positive by its default. */
  function Configure(workers: int, size: int, max: int, base: int): (c: Config)
    ensures ValidConfig(c)
  {
    Config(if size <= 0 then 256 else size, if max <= 0 then 5 else max,
           if base <= 0 then 2_000_000_000 else base, if workers <= 0 then 4 else workers)
  }

  /** Options that are positive are kept; the others become 4 workers, 256 places, 5 attempts and 2 seconds. */
  lemma {:induction false} Defaults(workers: int, size: int, max: int, base: int)
    ensures var c := Configure(workers, size, max, base);
      && (if workers > 0 then c.workers == workers else c.workers == 4)
      && (if size > 0 then c.size == size else c.size == 256)
      && (if max > 0 then c.max == max else c.max == 5)
      && (if base > 0 then c.base == base else c.base == 2 * 1_000_000_000)
  {
  }

  /** `time.Duration` arithmetic wraps at 64 bits. */
  function Wrap64(x: int): int {
    (x + 0x8000_0000_0000_0000) % 0x1_0000_0000_0000_0000 - 0x8000_0000_0000_0000
  }

  /** `int64(1) << k`. */
  function Shift64(k: nat): int {
    if k < 63 then Pow2(k) else if k == 63 then -0x8000_0000_0000_0000 else 0
  }

  /** The delay before the attempt that follows attempt number `attempt`. */
  function Backoff(base: int, attempt: nat): int
    requires attempt > 0
  {
    Wrap64(base * Shift64(attempt - 1))
  }

  // ---- The delivery side: jobs, workers, timers ----

  /** Where a job is, or what has become of it. */
  datatype Place = Offered | Queued | Posting | Timer | Delivered | Dropped | GaveUp

  /** A job on the heap; history: the latest backoff computed for it, how often it was posted, and where it is. */
  datatype DeliveryJob = DeliveryJob(event: Event, url: string, attempt: nat, delay: int, posts: nat, place: Place)

  /** Jobs are named by their index in the heap; `offered` has its wait-group slot but is not yet sent. */
  datatype Deliveries = Deliveries(heap: seq<DeliveryJob>, jobs: seq<nat>, offered: Option<nat>, posting: set<nat>,
                                   timers: set<nat>)

  function MoveTo(heap: seq<DeliveryJob>, j: nat, place: Place): seq<DeliveryJob>
    requires j < |heap|
  {
    heap[j := heap[j].(place := place)]
  }

  /** `expand` makes a job and takes a slot for it. */
  function Make(d: Deliveries, e: Event, url: string): Deliveries {
    d.(heap := d.heap + [DeliveryJob(e, url, 1, 0, 0, Offered)], offered := Some(|d.heap|))
  }

  /** `enqueue`: a full channel drops the job. */
  function Enqueue(size: nat, d: Deliveries, j: nat): Deliveries
    requires j < |d.heap|
  {
    if |d.jobs| < size then d.(heap := MoveTo(d.heap, j, Queued), jobs := d.jobs + [j])
    else d.(heap := MoveTo(d.heap, j, Dropped))
  }

  /** A worker receives the first job and posts it. */
  function Start(d: Deliveries): Deliveries
    requires d.jobs != [] && d.jobs[0] < |d.heap|
  {
    var j := d.jobs[0];
    d.(heap := d.heap[j := d.heap[j].(posts := d.heap[j].posts + 1, place := Posting)],
       jobs := d.jobs[1..], posting := d.posting + {j})
  }

  /** A worker's post has ended. */
  function Finished(c: Config, d: Deliveries, j: nat, ok: bool): Deliveries
    requires j < |d.heap| && d.heap[j].attempt > 0
  {
    var job := d.heap[j];
    var t := d.(posting := d.posting - {j});
    if ok then t.(heap := MoveTo(d.heap, j, Delivered))
    else if job.attempt >= c.max then t.(heap := MoveTo(d.heap, j, GaveUp))
    else
      var delay := Backoff(c.base, job.attempt);
      t.(heap := d.heap[j := job.(attempt := job.attempt + 1, delay := delay, place := Timer)],
         timers := t.timers + {j})
  }

  /** What the wait group counts of the jobs. */
  function LiveJobs(d: Deliveries): nat {
    Bit(d.offered.Some?) + |d.jobs| + |d.posting| + |d.timers|
  }

  /** A job's post count, attempt number and backoff agree with its place, and it is in that place alone. */
  predicate JobOk(c: Config, d: Deliveries, j: nat)
    requires j < |d.heap|
  {
    var job := d.heap[j];
    && 1 <= job.attempt <= c.max
    && job.posts == (if job.place in {Posting, Delivered, GaveUp} then job.attempt else job.attempt - 1)
    && (job.place == GaveUp ==> job.attempt == c.max)
    && (job.attempt > 1 ==> job.delay == Backoff(c.base, job.attempt - 1))
    && (job.place == Timer ==> job.attempt > 1)
    && (job.place == Offered <==> d.offered == Some(j))
    && (job.place == Queued <==> j in d.jobs)
    && (job.place == Posting <==> j in d.posting)
    && (job.place == Timer <==> j in d.timers)
  }

  ghost predicate DeliveriesOk(c: Config, d: Deliveries) {
    && Distinct(d.jobs) && |d.jobs| <= c.size && |d.posting| <= c.workers
    && (forall i :: 0 <= i < |d.jobs| ==> d.jobs[i] < |d.heap|) && (forall j :: j in d.posting ==> j < |d.heap|)
    && (forall j :: j in d.timers ==> j < |d.heap|) && (d.offered.Some? ==> d.offered.value < |d.heap|)
    && forall j :: 0 <= j < |d.heap| ==> JobOk(c, d, j)
  }

  lemma {:induction false} MakeOk(c: Config, d: Deliveries, e: Event, url: string)
    requires ValidConfig(c) && DeliveriesOk(c, d) && d.offered.None?
    ensures DeliveriesOk(c, Make(d, e, url)) && LiveJobs(Make(d, e, url)) == LiveJobs(d) + 1
  {
    var t := Make(d, e, url);
    forall j | 0 <= j < |t.heap| ensures JobOk(c, t, j) {
      assert j < |d.heap| ==> JobOk(c, d, j);
    }
  }

  /** Sending the offered job: one live job fewer exactly when the channel is full. */
  lemma {:induction false} SendOk(c: Config, d: Deliveries)
    requires DeliveriesOk(c, d) && d.offered.Some?
    ensures var t := Enqueue(c.size, d.(offered := None), d.offered.value);
            DeliveriesOk(c, t) && LiveJobs(t) == LiveJobs(d) - Bit(|d.jobs| >= c.size)
  {
    var o := d.offered.value;
    var t := Enqueue(c.size, d.(offered := None), o);
    assert JobOk(c, d, o);
    forall j | 0 <= j < |t.heap| ensures JobOk(c, t, j) {
      assert JobOk(c, d, j);
    }
  }

  lemma {:induction false} FireOk(c: Config, d: Deliveries, o: nat)
    requires DeliveriesOk(c, d) && o in d.timers
    ensures var t := Enqueue(c.size, d.(timers := d.timers - {o}), o);
            DeliveriesOk(c, t) && LiveJobs(t) == LiveJobs(d) - Bit(|d.jobs| >= c.size)
  {
    var t := Enqueue(c.size, d.(timers := d.timers - {o}), o);
    assert JobOk(c, d, o);
    forall j | 0 <= j < |t.heap| ensures JobOk(c, t, j) {
      assert JobOk(c, d, j);
    }
  }

  lemma {:induction false} StartOk(c: Config, d: Deliveries)
    requires DeliveriesOk(c, d) && d.jobs != [] && |d.posting| < c.workers
    ensures DeliveriesOk(c, Start(d)) && LiveJobs(Start(d)) == LiveJobs(d)
  {
    var o := d.jobs[0];
    var t := Start(d);
    assert JobOk(c, d, o);
    forall j | 0 <= j < |t.heap| ensures JobOk(c, t, j) {
      assert JobOk(c, d, j);
      assert d.jobs == [o] + d.jobs[1..];
    }
  }

  /** One live job fewer unless it goes to a timer. */
  lemma {:induction false} FinishedOk(c: Config, d: Deliveries, o: nat, ok: bool)
    requires DeliveriesOk(c, d) && o in d.posting
    ensures d.heap[o].attempt > 0
    ensures var t := Finished(c, d, o, ok);
            DeliveriesOk(c, t) && LiveJobs(t) == LiveJobs(d) - Bit(ok || d.heap[o].attempt >= c.max)
  {
    assert JobOk(c, d, o);
    var t := Finished(c, d, o, ok);
    forall j | 0 <= j < |t.heap| ensures JobOk(c, t, j) {
      assert JobOk(c, d, j);
    }
  }

  // ---- The whole queue ----

  /**
    The expander between events, or in one with the endpoints still to do.  The
    last three fields are history: the endpoints listed, the URLs of the jobs made
    and whether nothing has failed.
   */
  datatype Expander =
    | Resting
    | Expanding(event: Event, todo: seq<Endpoint>, listed: seq<Endpoint>, made: seq<string>, clean: bool)

  /** `offers` are callers between taking a slot and sending; the last three fields are history. */
  datatype State = State(wg: int, events: seq<Event>, offers: multiset<Event>, expander: Expander, post: Deliveries,
                         dispatched: multiset<Event>, lost: multiset<Event>, expanded: multiset<Event>)

  const INITIAL := State(0, [], multiset{}, Resting, Deliveries([], [], None, {}, {}), multiset{}, multiset{},
                         multiset{})

  datatype Action =
    | Offer(e: Event)                       // Dispatch: wg.Add
    | Send(e: Event)                        // Dispatch: the select
    | Take(list: Option<seq<Endpoint>>)     // expander receives; None when listing fails or panics
    | Build(ok: bool)                       // expand: the next endpoint; not ok when its id or body fails
    | Abort                                 // expand panics
    | SendJob                               // enqueue by the expander
    | EventDone                             // expander: wg.Done
    | TakeJob                               // a worker receives and posts
    | Finish(job: nat, ok: bool)            // the post ended; a panic counts as not ok
    | Fire(job: nat)                        // a retry timer enqueues

  predicate Enabled(c: Config, s: State, a: Action) {
    match a
    case Offer(_) => true
    case Send(e) => e in s.offers
    case Take(_) => s.expander.Resting? && s.events != []
    case Build(_) => s.expander.Expanding? && s.post.offered.None? && s.expander.todo != []
    case Abort => s.expander.Expanding? && s.post.offered.None? && s.expander.todo != []
    case SendJob => s.post.offered.Some? && s.post.offered.value < |s.post.heap|
    case EventDone => s.expander.Expanding? && s.post.offered.None? && s.expander.todo == []
    case TakeJob => |s.post.posting| < c.workers && s.post.jobs != [] && s.post.jobs[0] < |s.post.heap|
    case Finish(j, _) => j in s.post.posting && j < |s.post.heap| && s.post.heap[j].attempt > 0
    case Fire(j) => j in s.post.timers && j < |s.post.heap|
  }

  function Sent(c: Config, s: State, e: Event): State {
    var t := s.(offers := s.offers - multiset{e});
    if |s.events| < c.size then t.(events := s.events + [e]) else t.(lost := s.lost + multiset{e}, wg := s.wg - 1)
  }

  function Taken(s: State, list: Option<seq<Endpoint>>): State
    requires s.events != []
  {
    var eps := if list.Some? then list.value else [];
    s.(events := s.events[1..], expander := Expanding(s.events[0], eps, eps, [], list.Some?))
  }

  function Built(s: State, ok: bool): State
    requires s.expander.Expanding? && s.expander.todo != []
  {
    var x := s.expander;
    var ep := x.todo[0];
    var rest := x.(todo := x.todo[1..]);
    if !Matches(ep, x.event) then s.(expander := rest)
    else if !ok then s.(expander := rest.(clean := false))
    else s.(expander := rest.(made := x.made + [ep.url]), post := Make(s.post, x.event, ep.url), wg := s.wg + 1)
  }

  function Step(c: Config, s: State, a: Action): State
    requires Enabled(c, s, a)
  {
    match a
    case Offer(e) => s.(wg := s.wg + 1, offers := s.offers + multiset{e}, dispatched := s.dispatched + multiset{e})
    case Send(e) => Sent(c, s, e)
    case Take(list) => Taken(s, list)
    case Build(ok) => Built(s, ok)
    case Abort => s.(expander := s.expander.(todo := [], clean := false))
    case SendJob =>
      s.(post := Enqueue(c.size, s.post.(offered := None), s.post.offered.value),
         wg := s.wg - Bit(|s.post.jobs| >= c.size))
    case EventDone => s.(expanded := s.expanded + multiset{s.expander.event}, expander := Resting, wg := s.wg - 1)
    case TakeJob => s.(post := Start(s.post))
    case Finish(j, ok) =>
      s.(post := Finished(c, s.post, j, ok), wg := s.wg - Bit(ok || s.post.heap[j].attempt >= c.max))
    case Fire(j) =>
      s.(post := Enqueue(c.size, s.post.(timers := s.post.timers - {j}), j), wg := s.wg - Bit(|s.post.jobs| >= c.size))
  }

  // ---- The invariant ----

  function LiveEvents(s: State): nat {
    |s.offers| + |s.events| + Bit(s.expander.Expanding?)
  }

  function Current(x: Expander): multiset<Event> {
    if x.Expanding? then multiset{x.event} else multiset{}
  }

  /** Every event ever dispatched is lost, expanded, or still on its way. */
  predicate EventsConserved(s: State) {
    && s.dispatched == s.lost + s.expanded + s.offers + multiset(s.events) + Current(s.expander)
    && (s.post.offered.Some? ==> s.expander.Expanding?)
  }

  /** The URLs that an event is to be delivered to, in listing order. */
  function Wanted(e: Event, eps: seq<Endpoint>): seq<string> {
    if eps == [] then [] else (if Matches(eps[0], e) then [eps[0].url] else []) + Wanted(e, eps[1..])
  }

  /** The latest jobs on the heap are for this event and these URLs. */
  ghost predicate MadeLast(heap: seq<DeliveryJob>, e: Event, made: seq<string>) {
    |made| <= |heap| &&
      forall j :: |heap| - |made| <= j < |heap| ==> heap[j].event == e && heap[j].url == made[j - (|heap| - |made|)]
  }

  /** The jobs made for the event being expanded are the wanted ones so far, unless something failed. */
  ghost predicate ExpansionOk(s: State) {
    s.expander.Expanding? ==>
      var x := s.expander;
      && MadeLast(s.post.heap, x.event, x.made)
      && (x.clean ==> x.made + Wanted(x.event, x.todo) == Wanted(x.event, x.listed))
  }

  ghost predicate Inv(c: Config, s: State) {
    && s.wg == LiveEvents(s) + LiveJobs(s.post) && |s.events| <= c.size
    && DeliveriesOk(c, s.post) && EventsConserved(s) && ExpansionOk(s)
  }

  lemma {:induction false} TakeKeepsInv(c: Config, s: State, list: Option<seq<Endpoint>>)
    requires Inv(c, s) && Enabled(c, s, Take(list))
    ensures Inv(c, Taken(s, list))
  {
    assert s.events == [s.events[0]] + s.events[1..];
  }

  lemma {:induction false} BuildKeepsInv(c: Config, s: State, ok: bool)
    requires ValidConfig(c) && Inv(c, s) && Enabled(c, s, Build(ok))
    ensures Inv(c, Built(s, ok))
  {
    var x := s.expander;
    MakeOk(c, s.post, x.event, x.todo[0].url);
    if Matches(x.todo[0], x.event) {
      assert x.made + Wanted(x.event, x.todo) == (x.made + [x.todo[0].url]) + Wanted(x.event, x.todo[1..]);
    }
  }

  lemma {:induction false} SendJobKeepsInv(c: Config, s: State)
    requires ValidConfig(c) && Inv(c, s) && Enabled(c, s, SendJob)
    ensures Inv(c, Step(c, s, SendJob))
  {
    SendOk(c, s.post);
    var post := Enqueue(c.size, s.post.(offered := None), s.post.offered.value);
  }

  lemma {:induction false} TakeJobKeepsInv(c: Config, s: State)
    requires ValidConfig(c) && Inv(c, s) && Enabled(c, s, TakeJob)
    ensures Inv(c, Step(c, s, TakeJob))
  {
    StartOk(c, s.post);
    var post := Start(s.post);
  }

  lemma {:induction false} FinishKeepsInv(c: Config, s: State, j: nat, ok: bool)
    requires ValidConfig(c) && Inv(c, s) && Enabled(c, s, Finish(j, ok))
    ensures Inv(c, Step(c, s, Finish(j, ok)))
  {
    FinishedOk(c, s.post, j, ok);
    var post := Finished(c, s.post, j, ok);
  }

  lemma {:induction false} FireKeepsInv(c: Config, s: State, j: nat)
    requires ValidConfig(c) && Inv(c, s) && Enabled(c, s, Fire(j))
    ensures Inv(c, Step(c, s, Fire(j)))
  {
    FireOk(c, s.post, j);
    var post := Enqueue(c.size, s.post.(timers := s.post.timers - {j}), j);
  }

  lemma {:induction false} OfferKeepsInv(c: Config, s: State, e: Event)
    requires ValidConfig(c) && Inv(c, s) && Enabled(c, s, Offer(e))
    ensures Inv(c, Step(c, s, Offer(e)))
  {
  }

  lemma {:induction false} MoveOne(all: multiset<Event>, lost: multiset<Event>, done: multiset<Event>,
                                   offers: multiset<Event>, queue: seq<Event>, current: multiset<Event>, e: Event)
    requires all == lost + done + offers + multiset(queue) + current && e in offers
    ensures all == (lost + multiset{e}) + done + (offers - multiset{e}) + multiset(queue) + current
    ensures all == lost + done + (offers - multiset{e}) + multiset(queue + [e]) + current
    ensures |offers - multiset{e}| == |offers| - 1
  {
    assert multiset(queue + [e]) == multiset(queue) + multiset{e};
    assert offers == offers - multiset{e} + multiset{e};
  }

  lemma {:induction false} SendKeepsInv(c: Config, s: State, e: Event)
    requires ValidConfig(c) && Inv(c, s) && Enabled(c, s, Send(e))
    ensures Inv(c, Sent(c, s, e))
  {
    MoveOne(s.dispatched, s.lost, s.expanded, s.offers, s.events, Current(s.expander), e);
  }

  lemma {:induction false} EventDoneKeepsInv(c: Config, s: State)
    requires ValidConfig(c) && Inv(c, s) && Enabled(c, s, EventDone)
    ensures Inv(c, Step(c, s, EventDone))
  {
  }

  lemma {:induction false} AbortKeepsInv(c: Config, s: State)
    requires ValidConfig(c) && Inv(c, s) && Enabled(c, s, Abort)
    ensures Inv(c, Step(c, s, Abort))
  {
  }

  /** Every step of every goroutine keeps the invariant, in whatever order they come. */
  lemma {:induction false} StepKeepsInv(c: Config, s: State, a: Action)
    requires ValidConfig(c) && Inv(c, s) && Enabled(c, s, a)
    ensures Inv(c, Step(c, s, a))
  {
    match a
    case Offer(e) => OfferKeepsInv(c, s, e);
    case Send(e) => SendKeepsInv(c, s, e);
    case Take(list) => TakeKeepsInv(c, s, list);
    case Build(ok) => BuildKeepsInv(c, s, ok);
    case Abort => AbortKeepsInv(c, s);
    case SendJob => SendJobKeepsInv(c, s);
    case EventDone => EventDoneKeepsInv(c, s);
    case TakeJob => TakeJobKeepsInv(c, s);
    case Finish(j, ok) => FinishKeepsInv(c, s, j, ok);
    case Fire(j) => FireKeepsInv(c, s, j);
  }

  // ---- The queue as an object: each method is one atomic step of one goroutine ----

  class Queue {
    const config: Config
    // channels, wait group and heap
    var events: seq<Event>
    var jobs: seq<nat>
    var wg: int
    var heap: seq<DeliveryJob>
    // what the goroutines hold
    var offers: multiset<Event>
    var expander: Expander
    var offered: Option<nat>
    var posting: set<nat>
    var timers: set<nat>
    // history
    var dispatched: multiset<Event>
    var lost: multiset<Event>
    var expanded: multiset<Event>

    function Value(): State
      reads this
    {
      State(wg, events, offers, expander, Deliveries(heap, jobs, offered, posting, timers), dispatched, lost, expanded)
    }

    /** `NewQueue`. */
    constructor (workers: int, size: int, max: int, base: int)
      ensures config == Configure(workers, size, max, base) && Value() == INITIAL
    {
      config := Configure(workers, size, max, base);
      events, jobs, wg, heap := [], [], 0, [];
      offers, expander, offered, posting, timers := multiset{}, Resting, None, {}, {};
      dispatched, lost, expanded := multiset{}, multiset{}, multiset{};
    }

    /** The first half of a turn of `Dispatch`. */
    method OfferEvent(e: Event)
      modifies this
      ensures Value() == Step(config, old(Value()), Offer(e))
    {
      dispatched := dispatched + multiset{e};
      wg := wg + 1;
      offers := offers + multiset{e};
    }

    /** The second half: a full channel loses the event. */
    method SendEvent(e: Event)
      requires Enabled(config, Value(), Send(e))
      modifies this
      ensures Value() == Step(config, old(Value()), Send(e))
    {
      offers := offers - multiset{e};
      if |events| < config.size {
        events := events + [e];
      } else {
        wg := wg - 1;
        lost := lost + multiset{e};
      }
    }

    /** The expander receives an event and lists the endpoints. */
    method ReceiveEvent(list: Option<seq<Endpoint>>)
      requires Enabled(config, Value(), Take(list))
      modifies this
      ensures Value() == Step(config, old(Value()), Take(list))
    {
      var e := events[0];
      events := events[1..];
      match list {
        case Some(endpoints) => expander := Expanding(e, endpoints, endpoints, [], true);
        case None => expander := Expanding(e, [], [], [], false);
      }
    }

    /** One turn of the loop in `expand`, up to the slot taken for its job. */
    method BuildJob(ok: bool)
      requires Enabled(config, Value(), Build(ok))
      modifies this
      ensures Value() == Step(config, old(Value()), Build(ok))
    {
      var e, endpoint := expander.event, expander.todo[0];
      expander := expander.(todo := expander.todo[1..]);
      if !Matches(endpoint, e) {
        return;
      }
      if !ok {
        expander := expander.(clean := false);
        return;
      }
      wg := wg + 1;
      offered := Some(|heap|);
      heap := heap + [DeliveryJob(e, endpoint.url, 1, 0, 0, Offered)];
      expander := expander.(made := expander.made + [endpoint.url]);
    }

    /** `safely` recovers a panic of `expand`: the endpoints left are not served. */
    method RecoverExpand()
      requires Enabled(config, Value(), Abort)
      modifies this
      ensures Value() == Step(config, old(Value()), Abort)
    {
      expander := expander.(todo := [], clean := false);
    }

    /** `enqueue`. */
    method EnqueueJob(j: nat)
      requires j < |heap|
      modifies this`jobs, this`heap, this`wg
      ensures Value().post == Enqueue(config.size, old(Value().post), j)
      ensures wg == old(wg) - Bit(old(|jobs|) >= config.size)
    {
      if |jobs| < config.size {
        jobs := jobs + [j];
        heap := heap[j := heap[j].(place := Queued)];
      } else {
        wg := wg - 1;
        heap := heap[j := heap[j].(place := Dropped)];
      }
    }

    method SendOffered()
      requires Enabled(config, Value(), SendJob)
      modifies this
      ensures Value() == Step(config, old(Value()), SendJob)
    {
      var j := offered.value;
      offered := None;
      EnqueueJob(j);
    }

    /** The expander is done with an event. */
    method EndEvent()
      requires Enabled(config, Value(), EventDone)
      modifies this
      ensures Value() == Step(config, old(Value()), EventDone)
    {
      expanded := expanded + multiset{expander.event};
      expander := Resting;
      wg := wg - 1;
    }

    /** A worker receives a job and posts it. */
    method ReceiveJob()
      requires Enabled(config, Value(), TakeJob)
      modifies this
      ensures Value() == Step(config, old(Value()), TakeJob)
    {
      var j := jobs[0];
      jobs := jobs[1..];
      posting := posting + {j};
      heap := heap[j := heap[j].(posts := heap[j].posts + 1, place := Posting)];
    }

    /** The rest of a turn of `deliveryWorker`; a panic in the post arrives as not ok. */
    method EndPost(j: nat, ok: bool)
      requires Enabled(config, Value(), Finish(j, ok))
      modifies this
      ensures Value() == Step(config, old(Value()), Finish(j, ok))
    {
      posting := posting - {j};
      var job := heap[j];
      if ok {
        wg := wg - 1;
        heap := heap[j := job.(place := Delivered)];
        return;
      }
      if job.attempt >= config.max {
        wg := wg - 1;
        heap := heap[j := job.(place := GaveUp)];
        return;
      }
      var delay := Backoff(config.base, job.attempt);
      heap := heap[j := job.(attempt := job.attempt + 1, delay := delay, place := Timer)];
      timers := timers + {j};
    }

    /** A retry timer fires. */
    method FireTimer(j: nat)
      requires Enabled(config, Value(), Fire(j))
      modifies this
      ensures Value() == Step(config, old(Value()), Fire(j))
    {
      timers := timers - {j};
      EnqueueJob(j);
    }
  }

  // ---- Runs ----

  predicate Legal(c: Config, s: State, acts: seq<Action>)
    decreases |acts|
  {
    acts == [] || (Enabled(c, s, acts[0]) && Legal(c, Step(c, s, acts[0]), acts[1..]))
  }

  function After(c: Config, s: State, acts: seq<Action>): State
    requires Legal(c, s, acts)
    decreases |acts|
  {
    if acts == [] then s else After(c, Step(c, s, acts[0]), acts[1..])
  }

  lemma {:induction false} RunKeepsInv(c: Config, s: State, acts: seq<Action>)
    requires ValidConfig(c) && Inv(c, s) && Legal(c, s, acts)
    ensures Inv(c, After(c, s, acts))
    decreases |acts|
  {
    if acts != [] {
      StepKeepsInv(c, s, acts[0]);
      RunKeepsInv(c, Step(c, s, acts[0]), acts[1..]);
    }
  }

  predicate Final(job: DeliveryJob) {
    job.place in {Delivered, Dropped, GaveUp}
  }

  /**
    In every reachable state the wait group is the number of live events and jobs, and
    no job was posted more than max times.
   */
  lemma {:induction false} WaitGroupCounts(c: Config, acts: seq<Action>)
    requires ValidConfig(c) && Legal(c, INITIAL, acts)
    ensures var s := After(c, INITIAL, acts);
            && s.wg == |s.offers| + |s.events| + Bit(s.expander.Expanding?)
                       + Bit(s.post.offered.Some?) + |s.post.jobs| + |s.post.posting| + |s.post.timers|
            && |s.events| <= c.size && |s.post.jobs| <= c.size && |s.post.posting| <= c.workers
            && forall j :: 0 <= j < |s.post.heap| ==> s.post.heap[j].posts <= c.max
  {
    RunKeepsInv(c, INITIAL, acts);
    var s := After(c, INITIAL, acts);
    forall j | 0 <= j < |s.post.heap| ensures s.post.heap[j].posts <= c.max {
      assert JobOk(c, s.post, j);
    }
  }

  /**
    When `Wait` returns, and only then, every dispatched event was lost to a full
    queue or expanded, and every job was delivered, dropped by a full queue, or
    given up after exactly max posts.
   */
  lemma {:induction false} WaitMeaning(c: Config, acts: seq<Action>)
    requires ValidConfig(c) && Legal(c, INITIAL, acts)
    ensures var s := After(c, INITIAL, acts);
            && s.wg >= 0
            && (s.wg == 0 <==>
                  && s.dispatched == s.lost + s.expanded
                  && forall j :: 0 <= j < |s.post.heap| ==> Final(s.post.heap[j]))
            && (forall j :: 0 <= j < |s.post.heap| && s.post.heap[j].place == GaveUp ==> s.post.heap[j].posts == c.max)
            && (forall j :: 0 <= j < |s.post.heap| && s.post.heap[j].place == Delivered ==>
                  0 < s.post.heap[j].posts <= c.max)
            && (forall j :: 0 <= j < |s.post.heap| && s.post.heap[j].place == Dropped ==> s.post.heap[j].posts < c.max)
  {
    RunKeepsInv(c, INITIAL, acts);
    var s := After(c, INITIAL, acts);
    JobsAtRest(c, s.post);
    Outcomes(c, s.post);
    EventsAtRest(s);
  }

  lemma {:induction false} Outcomes(c: Config, d: Deliveries)
    requires DeliveriesOk(c, d)
    ensures forall j :: 0 <= j < |d.heap| && d.heap[j].place == GaveUp ==> d.heap[j].posts == c.max
    ensures forall j :: 0 <= j < |d.heap| && d.heap[j].place == Delivered ==> 0 < d.heap[j].posts <= c.max
    ensures forall j :: 0 <= j < |d.heap| && d.heap[j].place == Dropped ==> d.heap[j].posts < c.max
  {
    forall j | 0 <= j < |d.heap|
      ensures d.heap[j].place == GaveUp ==> d.heap[j].posts == c.max
      ensures d.heap[j].place == Delivered ==> 0 < d.heap[j].posts <= c.max
      ensures d.heap[j].place == Dropped ==> d.heap[j].posts < c.max
    {
      assert JobOk(c, d, j);
    }
  }

  lemma {:induction false} JobsAtRest(c: Config, d: Deliveries)
    requires DeliveriesOk(c, d)
    ensures LiveJobs(d) == 0 <==> forall j :: 0 <= j < |d.heap| ==> Final(d.heap[j])
  {
    forall j | 0 <= j < |d.heap|
      ensures !Final(d.heap[j]) <==> d.offered == Some(j) || j in d.jobs || j in d.posting || j in d.timers
    {
      assert JobOk(c, d, j);
    }
    if d.jobs != [] {
      assert d.jobs[0] in d.jobs;
    }
  }

  lemma {:induction false} EventsAtRest(s: State)
    requires EventsConserved(s)
    ensures LiveEvents(s) == 0 <==> s.dispatched == s.lost + s.expanded
  {
    var live := s.offers + multiset(s.events) + Current(s.expander);
    assert |live| == LiveEvents(s);
    assert s.dispatched == s.lost + s.expanded + live;
    assert |s.dispatched| == |s.lost + s.expanded| + |live|;
  }

  /** What has become of a job is final: no later step touches it, so a delivered job is never posted again. */
  lemma {:induction false} FinalStays(c: Config, s: State, acts: seq<Action>, j: nat)
    requires ValidConfig(c) && Inv(c, s) && Legal(c, s, acts) && j < |s.post.heap| && Final(s.post.heap[j])
    ensures var t := After(c, s, acts); j < |t.post.heap| && t.post.heap[j] == s.post.heap[j]
    decreases |acts|
  {
    if acts != [] {
      StepKeepsInv(c, s, acts[0]);
      FinalNotLive(c, s.post, j);
      FinalStep(c, s, acts[0], j);
      FinalStays(c, Step(c, s, acts[0]), acts[1..], j);
    }
  }

  predicate Live(d: Deliveries, j: nat) {
    d.offered == Some(j) || j in d.jobs || j in d.posting || j in d.timers
  }

  lemma {:induction false} FinalNotLive(c: Config, d: Deliveries, j: nat)
    requires DeliveriesOk(c, d) && j < |d.heap| && Final(d.heap[j])
    ensures !Live(d, j)
  {
    assert JobOk(c, d, j);
  }

  lemma {:induction false} FinalStep(c: Config, s: State, a: Action, j: nat)
    requires Enabled(c, s, a) && j < |s.post.heap| && !Live(s.post, j)
    ensures var t := Step(c, s, a); j < |t.post.heap| && t.post.heap[j] == s.post.heap[j]
  {
    if a.TakeJob? {
      assert s.post.jobs[0] in s.post.jobs;
    }
  }

  /**
    An event whose expansion ends with nothing having failed was given one job for each
    endpoint that wants it, in listing order.
   */
  lemma {:induction false} CleanExpansion(c: Config, s: State)
    requires Inv(c, s) && Enabled(c, s, EventDone) && s.expander.clean
    ensures s.expander.made == Wanted(s.expander.event, s.expander.listed)
    ensures MadeLast(s.post.heap, s.expander.event, Wanted(s.expander.event, s.expander.listed))
  {
  }

  /** The positions of the endpoints that want an event. */
  function Wanting(e: Event, eps: seq<Endpoint>): set<nat> {
    set i | 0 <= i < |eps| && (eps[i].types == [] || e.typ in eps[i].types)
              && (eps[i].actions == [] || e.action in eps[i].actions)
  }

  lemma {:induction false} WantedStep(e: Event, eps: seq<Endpoint>, ep: Endpoint)
    ensures Wanted(e, eps + [ep]) == Wanted(e, eps) + if Matches(ep, e) then [ep.url] else []
  {
    if eps != [] {
      assert (eps + [ep])[1..] == eps[1..] + [ep];
      WantedStep(e, eps[1..], ep);
    } else {
      assert ([ep])[1..] == [];
    }
  }

  /** The URLs of the endpoints that want the event, in listing order. */
  ghost predicate ForWanting(e: Event, eps: seq<Endpoint>, urls: seq<string>, src: seq<nat>) {
    && |src| == |urls| && Lists(src, Wanting(e, eps))
    && (forall p :: 0 <= p < |src| ==> src[p] < |eps| && urls[p] == eps[src[p]].url)
  }

  lemma {:induction false} ForWantingStep(e: Event, eps: seq<Endpoint>, ep: Endpoint, urls: seq<string>, src: seq<nat>)
    requires ForWanting(e, eps, urls, src)
    ensures ForWanting(e, eps + [ep], urls + (if Matches(ep, e) then [ep.url] else []),
                       Extended(src, |eps|, Matches(ep, e)))
  {
    ListsStep(src, Wanting(e, eps), |eps|, Matches(ep, e));
    assert Wanting(e, eps + [ep]) == if Matches(ep, e) then Wanting(e, eps) + {|eps|} else Wanting(e, eps);
  }

  /** An event is for the endpoints whose filters let it through, in listing order. */
  lemma {:induction false} WantedMeaning(e: Event, eps: seq<Endpoint>) returns (src: seq<nat>)
    ensures ForWanting(e, eps, Wanted(e, eps), src)
  {
    src := [];
    if eps != [] {
      var n := |eps| - 1;
      var front := WantedMeaning(e, eps[..n]);
      assert eps == eps[..n] + [eps[n]];
      WantedStep(e, eps[..n], eps[n]);
      ForWantingStep(e, eps[..n], eps[n], Wanted(e, eps[..n]), front);
      src := Extended(front, n, Matches(eps[n], e));
    }
  }

  /** A failure while expanding: the listing, an id or a body that is wanted, or a panic. */
  predicate Fails(s: State, a: Action) {
    || a == Take(None) || a.Abort?
    || (a == Build(false) && s.expander.Expanding? && s.expander.todo != []
      && Matches(s.expander.todo[0], s.expander.event))
  }

  /** An expansion is clean until something fails. */
  lemma {:induction false} CleanExactly(c: Config, s: State, a: Action)
    requires Enabled(c, s, a) && Step(c, s, a).expander.Expanding?
    ensures Step(c, s, a).expander.clean <==> !Fails(s, a) && (s.expander.Expanding? ==> s.expander.clean)
  {
  }

  /** An expansion is of the event received, over what was listed for it. */
  lemma {:induction false} ExpandsReceived(c: Config, s: State, a: Action)
    requires Enabled(c, s, a) && Step(c, s, a).expander.Expanding?
    ensures var x := Step(c, s, a).expander;
      if a.Take? then x.event == s.events[0] && x.listed == if a.list.Some? then a.list.value else []
      else s.expander.Expanding? && x.event == s.expander.event && x.listed == s.expander.listed
  {
  }

  // ---- What becomes of a job, and when ----

  /** A job is sent while the channel has room or, with the channel full, dropped. */
  predicate Enters(s: State, a: Action, j: nat) {
    (a.SendJob? && s.post.offered == Some(j)) || a == Fire(j)
  }

  /**
    How each job ends: delivered exactly by a post that succeeds, given up exactly by
    one that fails at the last attempt, dropped exactly when it meets a full channel.
   */
  lemma {:induction false} JobEnds(c: Config, s: State, a: Action, j: nat)
    requires Enabled(c, s, a) && j < |s.post.heap| && !Final(s.post.heap[j])
    ensures j < |Step(c, s, a).post.heap|
    ensures var (now, was) := (Step(c, s, a).post.heap[j], s.post.heap[j]);
      && (now.place == Delivered <==> a == Finish(j, true))
      && (now.place == GaveUp <==> a == Finish(j, false) && was.attempt >= c.max)
      && (now.place == Dropped <==> Enters(s, a, j) && |s.post.jobs| >= c.size)
  {
    match a
    case Build(ok) => BuildLeaves(s, ok, j);
    case SendJob => EnqueuePlace(c, s.post.(offered := None), s.post.offered.value, j);
    case Fire(o) => EnqueuePlace(c, s.post.(timers := s.post.timers - {o}), o, j);
    case Finish(o, ok) => FinishedPlace(c, s.post, o, ok, j);
    case _ =>
  }

  lemma {:induction false} BuildLeaves(s: State, ok: bool, j: nat)
    requires s.expander.Expanding? && s.expander.todo != [] && j < |s.post.heap|
    ensures j < |Built(s, ok).post.heap| && Built(s, ok).post.heap[j] == s.post.heap[j]
  {
  }

  lemma {:induction false} EnqueuePlace(c: Config, d: Deliveries, o: nat, j: nat)
    requires o < |d.heap| && j < |d.heap|
    ensures var t := Enqueue(c.size, d, o).heap;
      && |t| == |d.heap| && t[j].(place := d.heap[j].place) == d.heap[j]
      && t[j].place == if o != j then d.heap[j].place else if |d.jobs| >= c.size then Dropped else Queued
  {
  }

  lemma {:induction false} FinishedPlace(c: Config, d: Deliveries, o: nat, ok: bool, j: nat)
    requires o < |d.heap| && j < |d.heap| && d.heap[o].attempt > 0
    ensures var (t, was) := (Finished(c, d, o, ok).heap, d.heap[j]);
      && |t| == |d.heap|
      && t[j].place == if o != j then was.place else if ok then Delivered else if was.attempt >= c.max then GaveUp
                       else Timer
  {
  }

  /**
    A job keeps its event and its URL for good.  A post that fails before the last
    attempt puts it on a timer for the next attempt, and nothing else changes the
    number of its attempt; only a worker that receives it posts it.
   */
  lemma {:induction false} JobKeeps(c: Config, s: State, a: Action, j: nat)
    requires Enabled(c, s, a) && j < |s.post.heap|
    ensures j < |Step(c, s, a).post.heap|
    ensures var (now, was) := (Step(c, s, a).post.heap[j], s.post.heap[j]);
      && now.event == was.event && now.url == was.url
      && now.attempt == was.attempt + Bit(a == Finish(j, false) && was.attempt < c.max)
      && now.posts == was.posts + Bit(a.TakeJob? && s.post.jobs[0] == j)
      && (a == Finish(j, false) && was.attempt < c.max ==> now.place == Timer)
  {
  }

  /** An event is lost exactly when its send meets a full channel. */
  lemma {:induction false} LostExactly(c: Config, s: State, a: Action)
    requires Enabled(c, s, a)
    ensures Step(c, s, a).lost ==
      if a.Send? && |s.events| >= c.size then s.lost + multiset{a.e} else s.lost
  {
  }

  /** The event that a step puts on the channel. */
  function EventIn(c: Config, s: State, a: Action): seq<Event> {
    if a.Send? && |s.events| < c.size then [a.e] else []
  }

  /** The event that a step takes from the channel and expands. */
  function EventOut(c: Config, s: State, a: Action): seq<Event>
    requires Enabled(c, s, a)
  {
    if a.Take? && Step(c, s, a).expander.Expanding? then [Step(c, s, a).expander.event] else []
  }

  /** The job that a step puts on the channel. */
  function JobIn(c: Config, s: State, a: Action): seq<nat> {
    if |s.post.jobs| >= c.size then []
    else if a.SendJob? && s.post.offered.Some? then [s.post.offered.value]
    else if a.Fire? then [a.job]
    else []
  }

  function EventsIn(c: Config, s: State, acts: seq<Action>): seq<Event>
    requires Legal(c, s, acts)
    decreases |acts|
  {
    if acts == [] then [] else EventIn(c, s, acts[0]) + EventsIn(c, Step(c, s, acts[0]), acts[1..])
  }

  function EventsOut(c: Config, s: State, acts: seq<Action>): seq<Event>
    requires Legal(c, s, acts)
    decreases |acts|
  {
    if acts == [] then [] else EventOut(c, s, acts[0]) + EventsOut(c, Step(c, s, acts[0]), acts[1..])
  }

  lemma {:induction false} StepInOrder(c: Config, s: State, a: Action)
    requires Enabled(c, s, a)
    ensures s.events + EventIn(c, s, a) == EventOut(c, s, a) + Step(c, s, a).events
  {
    if a.Take? {
      assert s.events == [s.events[0]] + s.events[1..];
    }
  }

  /** Events are expanded in the order in which they were sent, over every run: the channel holds what is left. */
  lemma {:induction false} EventsInOrder(c: Config, s: State, acts: seq<Action>)
    requires Legal(c, s, acts)
    ensures s.events + EventsIn(c, s, acts) == EventsOut(c, s, acts) + After(c, s, acts).events
    decreases |acts|
  {
    if acts != [] {
      var t := Step(c, s, acts[0]);
      StepInOrder(c, s, acts[0]);
      EventsInOrder(c, t, acts[1..]);
      Chain(s.events, EventIn(c, s, acts[0]), EventsIn(c, t, acts[1..]),
            EventOut(c, s, acts[0]), EventsOut(c, t, acts[1..]), t.events, After(c, t, acts[1..]).events);
    }
  }

  lemma {:induction false} Chain<T>(q: seq<T>, i: seq<T>, ins: seq<T>, o: seq<T>, outs: seq<T>, q1: seq<T>, q2: seq<T>)
    requires q + i == o + q1 && q1 + ins == outs + q2
    ensures q + (i + ins) == (o + outs) + q2
  {
    assert q + (i + ins) == (q + i) + ins;
    assert (o + q1) + ins == o + (q1 + ins);
    assert o + (outs + q2) == (o + outs) + q2;
  }

  /**
    Workers post the jobs in the order in which they entered the channel: each step adds
    at its end or posts its first.
   */
  lemma {:induction false} JobsInOrder(c: Config, s: State, a: Action)
    requires Enabled(c, s, a)
    ensures a.TakeJob? ==>
      s.post.jobs == [s.post.jobs[0]] + Step(c, s, a).post.jobs
      && Step(c, s, a).post.posting == s.post.posting + {s.post.jobs[0]}
    ensures !a.TakeJob? ==> Step(c, s, a).post.jobs == s.post.jobs + JobIn(c, s, a)
  {
    if a.Fire? {
      assert s.post.(timers := s.post.timers - {a.job}).jobs == s.post.jobs;
    }
  }

  // ---- The queue drains ----

  /** The steps a job can still need. */
  function JobWork(max: nat, job: DeliveryJob): nat {
    var left := if job.attempt < max then 3 * (max - job.attempt) else 0;
    match job.place
    case Offered => left + 3
    case Timer => left + 3
    case Queued => left + 2
    case Posting => left + 1
    case _ => 0
  }

  function Work(max: nat, heap: seq<DeliveryJob>): nat {
    if heap == [] then 0 else Work(max, heap[..|heap| - 1]) + JobWork(max, heap[|heap| - 1])
  }

  lemma {:induction false} WorkUpdate(max: nat, heap: seq<DeliveryJob>, j: nat, job: DeliveryJob)
    requires j < |heap|
    ensures Work(max, heap[j := job]) == Work(max, heap) - JobWork(max, heap[j]) + JobWork(max, job)
  {
    var n := |heap| - 1;
    if j == n {
      assert heap[j := job][..n] == heap[..n];
    } else {
      WorkUpdate(max, heap[..n], j, job);
      assert heap[j := job][..n] == heap[..n][j := job];
    }
  }

  /** Compared lexicographically: events not yet received, the current expansion, the jobs. */
  datatype Measure = Measure(waiting: nat, expanding: nat, jobs: nat)

  function Remaining(c: Config, s: State): Measure {
    Measure(2 * |s.offers| + |s.events|,
            if s.expander.Expanding? then 1 + |s.expander.todo| else 0,
            Work(c.max, s.post.heap))
  }

  predicate Less(a: Measure, b: Measure) {
    || a.waiting < b.waiting
    || (a.waiting == b.waiting && a.expanding < b.expanding)
    || (a.waiting == b.waiting && a.expanding == b.expanding && a.jobs < b.jobs)
  }

  /** Every step but a new dispatch brings the queue nearer to its end. */
  lemma {:induction false} StepDrains(c: Config, s: State, a: Action)
    requires ValidConfig(c) && Inv(c, s) && Enabled(c, s, a) && !a.Offer?
    ensures Less(Remaining(c, Step(c, s, a)), Remaining(c, s))
  {
    match a
    case Send(e) => SendDrains(c, s, e);
    case SendJob =>
      assert JobOk(c, s.post, s.post.offered.value);
      EnqueueDrains(c, s.post.(offered := None), s.post.offered.value);
    case TakeJob =>
      assert s.post.jobs[0] in s.post.jobs;
      assert JobOk(c, s.post, s.post.jobs[0]);
      StartDrains(c, s.post);
    case Finish(j, ok) =>
      assert JobOk(c, s.post, j);
      FinishDrains(c, s.post, j, ok);
    case Fire(j) =>
      assert JobOk(c, s.post, j);
      EnqueueDrains(c, s.post.(timers := s.post.timers - {j}), j);
    case Take(_) =>
    case Build(_) =>
    case Abort =>
    case EventDone =>
  }

  lemma {:induction false} SendDrains(c: Config, s: State, e: Event)
    requires Enabled(c, s, Send(e))
    ensures Remaining(c, Sent(c, s, e)).waiting < Remaining(c, s).waiting
  {
    assert |s.offers - multiset{e}| == |s.offers| - 1;
  }

  lemma {:induction false} HeapDrains(max: nat, heap: seq<DeliveryJob>, j: nat, after: seq<DeliveryJob>)
    requires j < |heap| == |after| && after == heap[j := after[j]] && JobWork(max, after[j]) < JobWork(max, heap[j])
    ensures Work(max, after) < Work(max, heap)
  {
    WorkUpdate(max, heap, j, after[j]);
  }

  lemma {:induction false} EnqueueDrains(c: Config, d: Deliveries, j: nat)
    requires j < |d.heap| && d.heap[j].place in {Offered, Timer}
    ensures Work(c.max, Enqueue(c.size, d, j).heap) < Work(c.max, d.heap)
  {
    HeapDrains(c.max, d.heap, j, Enqueue(c.size, d, j).heap);
  }

  lemma {:induction false} StartDrains(c: Config, d: Deliveries)
    requires d.jobs != [] && d.jobs[0] < |d.heap| && d.heap[d.jobs[0]].place == Queued
    ensures Work(c.max, Start(d).heap) < Work(c.max, d.heap)
  {
    HeapDrains(c.max, d.heap, d.jobs[0], Start(d).heap);
  }

  lemma {:induction false} FinishDrains(c: Config, d: Deliveries, j: nat, ok: bool)
    requires j < |d.heap| && 0 < d.heap[j].attempt <= c.max && d.heap[j].place == Posting
    ensures Work(c.max, Finished(c, d, j, ok).heap) < Work(c.max, d.heap)
  {
    HeapDrains(c.max, d.heap, j, Finished(c, d, j, ok).heap);
  }

  /** A step that is possible while something is live. */
  ghost function Next(c: Config, s: State): Action
    requires ValidConfig(c) && Inv(c, s) && s.wg > 0
  {
    if s.post.offered.Some? then SendJob
    else if s.expander.Expanding? then if s.expander.todo == [] then EventDone else Abort
    else if s.events != [] then Take(None)
    else if s.offers != multiset{} then
      var e :| e in s.offers;
      Send(e)
    else if s.post.posting != {} then
      var j :| j in s.post.posting;
      Finish(j, true)
    else if s.post.timers != {} then
      var j :| j in s.post.timers;
      Fire(j)
    else TakeJob
  }

  /** While something is live the queue is never stuck. */
  lemma {:induction false} NeverStuck(c: Config, s: State)
    requires ValidConfig(c) && Inv(c, s) && s.wg > 0
    ensures Enabled(c, s, Next(c, s)) && !Next(c, s).Offer?
  {
    var a := Next(c, s);
    if a.Finish? {
      assert JobOk(c, s.post, a.job);
    }
  }

  /** The run that a scheduler makes: it stops when the wait group is zero. */
  ghost predicate Follows(c: Config, s: State, pick: State -> Action, acts: seq<Action>)
    requires Legal(c, s, acts)
    decreases |acts|
  {
    if acts == [] then s.wg == 0
    else s.wg > 0 && acts[0] == pick(s) && Follows(c, Step(c, s, acts[0]), pick, acts[1..])
  }

  /**
    With no new dispatches the queue drains: every scheduler that keeps taking
    possible steps, with whatever outcomes, brings the wait group to zero.
   */
  lemma {:induction false} EverySchedulerDrains(c: Config, s: State, pick: State -> Action) returns (acts: seq<Action>)
    requires ValidConfig(c) && Inv(c, s)
    requires forall t :: Inv(c, t) && t.wg > 0 ==> Enabled(c, t, pick(t)) && !pick(t).Offer?
    ensures Legal(c, s, acts) && Follows(c, s, pick, acts) && After(c, s, acts).wg == 0
    decreases Remaining(c, s).waiting, Remaining(c, s).expanding, Remaining(c, s).jobs
  {
    if s.wg == 0 {
      return [];
    }
    assert s.wg > 0;
    var a := pick(s);
    StepKeepsInv(c, s, a);
    StepDrains(c, s, a);
    var rest := EverySchedulerDrains(c, Step(c, s, a), pick);
    acts := [a] + rest;
    assert acts[1..] == rest;
  }

  // ---- Backoff ----

  /** The wrapped product is the real one exactly when that fits in 63 bits. */
  lemma {:induction false} BackoffExact(base: int, attempt: nat)
    requires base > 0 && attempt > 0
    ensures Backoff(base, attempt) == base * Pow2(attempt - 1) <==> base * Pow2(attempt - 1) < 0x8000_0000_0000_0000
  {
    var k := attempt - 1;
    var p := Pow2(k);
    assert base * p >= p by { Scale(base, p); }
    if k >= 63 {
      Pow2Monotone(63, k);
      assert Pow2(63) == 0x8000_0000_0000_0000 by { Pow2Of63(); }
    }
  }

  lemma {:induction false} Scale(base: int, p: nat)
    requires base > 0
    ensures base * p >= p
  {
  }

  lemma {:induction false} Pow2Of63()
    ensures Pow2(63) == 0x8000_0000_0000_0000
  {
    Pow2Small();
    Pow2Byte(8);
    Pow2Byte(16);
    Pow2Byte(24);
    Pow2Byte(32);
    Pow2Byte(40);
    Pow2Byte(48);
    Pow2Byte(55);
    Pow2Byte(47);
    Pow2Byte(39);
    Pow2Byte(31);
    Pow2Byte(23);
    Pow2Byte(15);
    Pow2Byte(7);
  }

  /** All the backoffs a queue can schedule double as intended exactly when the longest one fits. */
  lemma {:induction false} BackoffsExactly(c: Config)
    requires ValidConfig(c)
    ensures (forall attempt :: 1 <= attempt < c.max ==> Backoff(c.base, attempt) == c.base * Pow2(attempt - 1))
            <==> (c.max >= 2 ==> c.base * Pow2(c.max - 2) < 0x8000_0000_0000_0000)
  {
    forall attempt | 1 <= attempt < c.max
      ensures Backoff(c.base, attempt) == c.base * Pow2(attempt - 1) <==>
        c.base * Pow2(attempt - 1) < 0x8000_0000_0000_0000
      ensures c.base * Pow2(attempt - 1) <= c.base * Pow2(c.max - 2)
    {
      BackoffExact(c.base, attempt);
      Pow2Monotone(attempt - 1, c.max - 2);
      ScaleMonotone(c.base, Pow2(attempt - 1), Pow2(c.max - 2));
    }
    if c.max >= 2 {
      BackoffExact(c.base, c.max - 1);
    }
  }

  lemma {:induction false} ScaleMonotone(base: int, p: nat, q: nat)
    requires base > 0 && p <= q
    ensures base * p <= base * q
  {
  }


  /**
    With the default base and thirty-five attempts, the delay before the last is
    negative: that retry comes at once.
   */
  lemma {:induction false} LongRetriesWrap()
    ensures var c := Configure(0, 0, 35, 0); c.max == 35 && Backoff(c.base, 34) < 0
  {
    Pow2Large();
    assert Pow2(33) == 2 * Pow2(32);
  }
}
