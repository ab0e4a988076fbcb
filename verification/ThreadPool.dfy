/** The worker pool as a state machine: every critical section of a worker, a caller or the event loop is one step. */
module ThreadPool {
  import opened Format

  /** What the work pointer of a request says: not yet run, run, or cancelled. */
  datatype Function = Work | Null | Cancelled

  /** A request. Its queue node is linked unless it points to itself. */
  datatype Request = Request(linked: bool, work: Function)

  datatype Message = Item(w: nat) | RunSlowWork

  datatype Thread =
    | Starting
    | Waiting
    | Signalled
    | Working(w: nat, slow: bool)
    | Finishing(slow: bool)
  {
    /** It will look at the queue without any further signal. */
    predicate Coming() { Starting? || Signalled? }

    predicate Slow() { (Working? || Finishing?) && slow }
  }

  datatype Call = Call(w: nat, cancelled: bool)

  datatype State = State(
    requests: map<nat, Request>,
    wq: seq<Message>,
    slowPending: seq<nat>,
    slowLinked: bool,
    idleThreads: nat,
    slowRunning: nat,
    threads: seq<Thread>,
    loopQueue: seq<nat>,
    doneQueue: seq<nat>,
    cancelling: Option<nat>,
    calls: seq<Call>,
    ran: seq<nat>)
  {
    function Threshold(): nat { (|threads| + 1) / 2 }

    predicate AtThreshold() { slowRunning >= Threshold() }

    function Become(t: nat, thread: Thread): State
      requires t < |threads|
    {
      this.(threads := threads[t := thread])
    }

    function Link(w: nat, linked: bool): State
      requires w in requests
    {
      this.(requests := requests[w := requests[w].(linked := linked)])
    }

    function SetWork(w: nat, work: Function): State
      requires w in requests
    {
      this.(requests := requests[w := requests[w].(work := work)])
    }

    /** Wakes thread number i if it is waiting; nothing happens unless some thread is idle. */
    function Signal(i: nat): State {
      if idleThreads > 0 && i < |threads| && threads[i].Waiting? then Become(i, Signalled) else this
    }
  }

  function Initial(nthreads: nat): State {
    State(map[], [], [], false, 0, 0, seq(nthreads, _ => Starting), [], [], None, [], [])
  }

  // ---- The steps ----

  /** A signal goes to a waiting thread if there is one. */
  ghost predicate CanSignal(s: State, i: nat) {
    forall t | 0 <= t < |s.threads| && s.threads[t].Waiting? :: i < |s.threads| && s.threads[i].Waiting?
  }

  function Post(s: State, w: nat, slow: bool, wake: nat): State {
    if slow then
      var p := s.(slowPending := s.slowPending + [w]);
      if s.slowLinked then p else p.(wq := s.wq + [RunSlowWork], slowLinked := true).Signal(wake)
    else s.(wq := s.wq + [Item(w)]).Signal(wake)
  }

  function Submit(s: State, w: nat, slow: bool, wake: nat): State {
    Post(s.(requests := s.requests[w := Request(true, Work)]), w, slow, wake)
  }

  /** The message to run slow work is in the queue at most once. */
  predicate OneMessage(wq: seq<Message>) {
    forall i, j | 0 <= i < j < |wq| :: !(wq[i].RunSlowWork? && wq[j].RunSlowWork?)
  }

  /** What a worker finds to do while it holds the mutex. */
  function Look(s: State, t: nat, wake: nat): State
    requires t < |s.threads| && OneMessage(s.wq)
    decreases |s.wq|, if |s.wq| > 0 && s.wq[0].RunSlowWork? then 1 else 0
  {
    if |s.wq| == 0 || (s.wq == [RunSlowWork] && s.AtThreshold()) then
      s.(idleThreads := s.idleThreads + 1).Become(t, Waiting)
    else
      var rest := s.wq[1..];
      if s.wq[0].Item? then
        var w := s.wq[0].w;
        Take(s.(wq := rest), t, w, false)
      else if s.AtThreshold() then
        Look(s.(wq := rest + [RunSlowWork], slowLinked := true), t, wake)
      else if |s.slowPending| == 0 then
        Look(s.(wq := rest, slowLinked := false), t, wake)
      else
        var taken :=
          Take(s.(wq := rest, slowLinked := false, slowRunning := s.slowRunning + 1, slowPending := s.slowPending[1..]),
                          t, s.slowPending[0], true);
        if |taken.slowPending| == 0 then taken
        else taken.(wq := rest + [RunSlowWork], slowLinked := true).Signal(wake)
  }

  function Take(s: State, t: nat, w: nat, slow: bool): State
    requires t < |s.threads|
  {
    if w !in s.requests then s else s.Link(w, false).Become(t, Working(w, slow)).(ran := s.ran + [w])
  }

  /** The thread is awake, and has given back its share of slow work. */
  function Awake(s: State, t: nat): State
    requires t < |s.threads|
  {
    (if s.threads[t].Signalled? && s.idleThreads > 0 then s.(idleThreads := s.idleThreads - 1)
     else if s.threads[t].Slow() && s.slowRunning > 0 then s.(slowRunning := s.slowRunning - 1)
     else s).Become(t, Starting)
  }

  /** A worker gets the mutex: it starts, was woken, or has finished a request. */
  function Enter(s: State, t: nat, wake: nat): State
    requires t < |s.threads| && OneMessage(s.wq)
  {
    Look(Awake(s, t), t, wake)
  }

  /** A worker hands a request that it has run to the loop. */
  function Complete(s: State, t: nat): State
    requires t < |s.threads| && s.threads[t].Working?
  {
    var w := s.threads[t].w;
    if w !in s.requests then s else
      s.SetWork(w, Null).Link(w, true).Become(t, Finishing(s.threads[t].slow)).(loopQueue := s.loopQueue + [w])
  }

  predicate Cancellable(s: State, w: nat) {
    w in s.requests && s.requests[w].linked && s.requests[w].work != Null
  }

  function Without(q: seq<nat>, w: nat): seq<nat> {
    if |q| == 0 then [] else if q[0] == w then Without(q[1..], w) else [q[0]] + Without(q[1..], w)
  }

  function WithoutItem(q: seq<Message>, w: nat): seq<Message> {
    if |q| == 0 then [] else if q[0] == Item(w) then WithoutItem(q[1..], w) else [q[0]] + WithoutItem(q[1..], w)
  }

  /** Unlinks the request from whatever queue it is in. Its node keeps its old links. */
  function CancelTake(s: State, w: nat): State {
    if Cancellable(s, w) then
      s.(wq := WithoutItem(s.wq, w), slowPending := Without(s.slowPending, w), loopQueue := Without(s.loopQueue, w),
         doneQueue := Without(s.doneQueue, w), cancelling := Some(w))
    else s
  }

  function CancelPut(s: State): State {
    if s.cancelling.None? || s.cancelling.value !in s.requests then s else
      var w := s.cancelling.value;
      s.SetWork(w, Cancelled).(loopQueue := s.loopQueue + [w], cancelling := None)
  }

  function MoveDone(s: State): State { s.(doneQueue := s.loopQueue, loopQueue := []) }

  function CallDone(s: State): State
    requires |s.doneQueue| > 0
  {
    var w := s.doneQueue[0];
    s.(doneQueue := s.doneQueue[1..], calls := s.calls + [Call(w, w in s.requests && s.requests[w].work.Cancelled?)])
  }

  datatype Action =
    | DoSubmit(w: nat, slow: bool, wake: nat)
    | DoEnter(t: nat, wake: nat)
    | DoWake(t: nat)
    | DoComplete(t: nat)
    | DoCancelTake(w: nat)
    | DoCancelPut
    | DoMoveDone
    | DoCallDone

  /** The loop runs its callbacks and cancels requests one after another; workers run beside it. A request is cancelled
      only before its callback starts. A waiting thread may wake up for no reason. */
  ghost predicate Enabled(s: State, a: Action) {
    match a
    case DoSubmit(w, _, wake) => w !in s.requests && CanSignal(s, wake)
    case DoEnter(t, wake) =>
      t < |s.threads| && (s.threads[t].Coming() || s.threads[t].Finishing?) && OneMessage(s.wq) &&
      CanSignal(s, wake)
    case DoWake(t) => t < |s.threads| && s.threads[t].Waiting?
    case DoComplete(t) => t < |s.threads| && s.threads[t].Working?
    case DoCancelTake(w) => w in s.requests && s.cancelling.None? && forall c | c in s.calls :: c.w != w
    case DoCancelPut => s.cancelling.Some?
    case DoMoveDone => s.cancelling.None? && |s.doneQueue| == 0
    case DoCallDone => s.cancelling.None? && |s.doneQueue| > 0
  }

  function Step(s: State, a: Action): State {
    match a
    case DoSubmit(w, slow, wake) => Submit(s, w, slow, wake)
    case DoEnter(t, wake) => if t < |s.threads| && OneMessage(s.wq) then Enter(s, t, wake) else s
    case DoWake(t) => if t < |s.threads| then s.Become(t, Signalled) else s
    case DoComplete(t) => if t < |s.threads| && s.threads[t].Working? then Complete(s, t) else s
    case DoCancelTake(w) => CancelTake(s, w)
    case DoCancelPut => CancelPut(s)
    case DoMoveDone => MoveDone(s)
    case DoCallDone => if |s.doneQueue| > 0 then CallDone(s) else s
  }

  // ---- Counting ----

  function Weigh<T>(q: seq<T>, f: T -> nat): nat {
    if |q| == 0 then 0 else f(q[0]) + Weigh(q[1..], f)
  }

  function IdleOf(thread: Thread): nat { if thread.Waiting? || thread.Signalled? then 1 else 0 }

  function WaitingOf(thread: Thread): nat { if thread.Waiting? then 1 else 0 }

  function ComingOf(thread: Thread): nat { if thread.Coming() then 1 else 0 }

  function SlowOf(thread: Thread): nat { if thread.Slow() then 1 else 0 }

  function Is(w: nat): nat -> nat { (v: nat) => if v == w then 1 else 0 }

  function IsItem(w: nat): Message -> nat { (message: Message) => if message == Item(w) then 1 else 0 }

  function Runs(w: nat): Thread -> nat { (thread: Thread) => if thread.Working? && thread.w == w then 1 else 0 }

  function Calls(w: nat): Call -> nat { (call: Call) => if call.w == w then 1 else 0 }

  lemma {:induction false} WeighUpdate<T>(q: seq<T>, i: nat, x: T, f: T -> nat)
    requires i < |q|
    ensures Weigh(q, f) >= f(q[i])
    ensures Weigh(q[i := x], f) == Weigh(q, f) - f(q[i]) + f(x)
  {
    if i > 0 {
      WeighUpdate(q[1..], i - 1, x, f);
      assert q[i := x][1..] == q[1..][i - 1 := x];
    } else {
      assert q[i := x][1..] == q[1..];
    }
  }

  lemma {:induction false} WeighAppend<T>(q: seq<T>, x: T, f: T -> nat)
    ensures Weigh(q + [x], f) == Weigh(q, f) + f(x)
  {
    if |q| == 0 {
      assert q + [x] == [x] && [x][1..] == [];
    } else {
      WeighAppend(q[1..], x, f);
      assert (q + [x])[1..] == q[1..] + [x];
    }
  }

  lemma {:induction false} WeighNone<T>(q: seq<T>, f: T -> nat)
    ensures Weigh(q, f) == 0 <==> forall x | x in q :: f(x) == 0
  {
    if |q| > 0 {
      WeighNone(q[1..], f);
      assert q == [q[0]] + q[1..];
    }
  }

  lemma {:induction false} WithoutWeight(q: seq<nat>, w: nat, v: nat)
    ensures Weigh(Without(q, w), Is(v)) == if v == w then 0 else Weigh(q, Is(v))
  {
    if |q| > 0 {
      WithoutWeight(q[1..], w, v);
      assert ([q[0]] + Without(q[1..], w))[1..] == Without(q[1..], w);
    }
  }

  lemma {:induction false} WithoutItemWeight(q: seq<Message>, w: nat, v: nat)
    ensures Weigh(WithoutItem(q, w), IsItem(v)) == if v == w then 0 else Weigh(q, IsItem(v))
  {
    if |q| > 0 {
      WithoutItemWeight(q[1..], w, v);
      assert ([q[0]] + WithoutItem(q[1..], w))[1..] == WithoutItem(q[1..], w);
    }
  }

  lemma {:induction false} OneMessageRest(q: seq<Message>)
    requires OneMessage(q) && |q| > 0
    ensures OneMessage(q[1..]) && (q[0].RunSlowWork? ==> RunSlowWork !in q[1..])
    ensures RunSlowWork in q <==> q[0].RunSlowWork? || RunSlowWork in q[1..]
  {
    assert q == [q[0]] + q[1..];
    forall i, j | 0 <= i < j < |q[1..]| ensures !(q[1..][i].RunSlowWork? && q[1..][j].RunSlowWork?) {
      assert q[1..][i] == q[i + 1] && q[1..][j] == q[j + 1];
    }
    assert q[0].RunSlowWork? ==> forall j | 0 <= j < |q[1..]| :: q[1..][j] == q[j + 1];
  }

  lemma {:induction false} WithoutItemMessage(q: seq<Message>, w: nat)
    requires OneMessage(q)
    ensures RunSlowWork in WithoutItem(q, w) <==> RunSlowWork in q
    ensures |WithoutItem(q, w)| <= |q| && OneMessage(WithoutItem(q, w))
  {
    if |q| > 0 {
      OneMessageRest(q);
      WithoutItemMessage(q[1..], w);
    }
  }

  // ---- What every step keeps ----

  /** How often a request is in each place where it can be. */
  datatype Places = Places(wq: nat, slow: nat, running: nat, loop: nat, done: nat, cancelling: nat, called: nat,
                           ran: nat)

  ghost function Where(s: State, w: nat): Places {
    Places(Weigh(s.wq, IsItem(w)), Weigh(s.slowPending, Is(w)), Weigh(s.threads, Runs(w)), Weigh(s.loopQueue, Is(w)),
           Weigh(s.doneQueue, Is(w)), if s.cancelling == Some(w) then 1
             else 0, Weigh(s.calls, Calls(w)), Weigh(s.ran, Is(w)))
  }

  ghost predicate PlaceOk(known: bool, r: Request, p: Places) {
    p.wq + p.slow + p.running + p.loop + p.done + p.cancelling + p.called == (if known then 1 else 0) &&
    p.ran <= (if known then 1 else 0) &&
    (known ==>
       (r.linked <==> p.running == 0) &&
       (p.wq + p.slow > 0 ==> r.work == Work && p.ran == 0) &&
       (p.running > 0 ==> r.work == Work && p.ran == 1) &&
       (p.loop + p.done + p.called > 0 ==> r.work == if p.ran > 0 then Null else Cancelled) &&
       (p.cancelling > 0 ==> r.work != Null && p.ran == 0))
  }

  /** Every request is in exactly one place, and its two fields say what the protocol reads from them there. */
  ghost predicate Tracked(s: State, w: nat) {
    PlaceOk(w in s.requests, if w in s.requests then s.requests[w] else Request(false, Null), Where(s, w))
  }

  ghost predicate Told(s: State) {
    forall c | c in s.calls :: c.w in s.requests && (c.cancelled <==> s.requests[c.w].work == Cancelled)
  }

  /** Slow work never takes more than its share of the threads, and while some is pending a message to run it is
      queued. */
  ghost predicate SlowOk(s: State) {
    OneMessage(s.wq) && (s.slowLinked <==> RunSlowWork in s.wq) && (|s.slowPending| > 0 ==> s.slowLinked) &&
    s.slowRunning == Weigh(s.threads, SlowOf) && s.slowRunning <= s.Threshold()
  }

  /** How many messages a worker would act on. */
  function Runnable(s: State): nat {
    if s.slowLinked && s.AtThreshold() && |s.wq| > 0 then |s.wq| - 1 else |s.wq|
  }

  /** No wake-up is lost: while a thread sleeps, every message that can be acted on has a thread on its way. */
  ghost predicate Attended(s: State) {
    s.idleThreads == Weigh(s.threads, IdleOf) &&
    (Weigh(s.threads, WaitingOf) > 0 ==> Runnable(s) <= Weigh(s.threads, ComingOf))
  }

  ghost predicate Inv(s: State) {
    |s.threads| > 0 && (forall w: nat :: Tracked(s, w)) && Told(s) && SlowOk(s) && Attended(s)
  }

  // ---- A thread changes ----

  lemma {:induction false} Counts(threads: seq<Thread>, t: nat, thread: Thread)
    requires t < |threads|
    ensures Weigh(threads[t := thread], IdleOf) == Weigh(threads, IdleOf) - IdleOf(threads[t]) + IdleOf(thread)
    ensures Weigh(threads[t := thread], WaitingOf) == Weigh(threads, WaitingOf) - WaitingOf(threads[t]) +
      WaitingOf(thread)
    ensures Weigh(threads[t := thread], ComingOf) == Weigh(threads, ComingOf) - ComingOf(threads[t]) + ComingOf(thread)
    ensures Weigh(threads[t := thread], SlowOf) == Weigh(threads, SlowOf) - SlowOf(threads[t]) + SlowOf(thread)
    ensures Weigh(threads, IdleOf) >= IdleOf(threads[t]) && Weigh(threads, WaitingOf) >= WaitingOf(threads[t])
    ensures Weigh(threads, ComingOf) >= ComingOf(threads[t]) && Weigh(threads, SlowOf) >= SlowOf(threads[t])
  {
    WeighUpdate(threads, t, thread, IdleOf);
    WeighUpdate(threads, t, thread, WaitingOf);
    WeighUpdate(threads, t, thread, ComingOf);
    WeighUpdate(threads, t, thread, SlowOf);
  }

  /** Nothing that concerns requests has changed. */
  ghost predicate SameWork(s: State, s': State) {
    s'.requests == s.requests && s'.calls == s.calls && forall w: nat :: Where(s', w) == Where(s, w)
  }

  lemma {:induction false} SameWorkKeeps(s: State, s': State)
    requires SameWork(s, s') && (forall w: nat :: Tracked(s, w)) && Told(s)
    ensures (forall w: nat :: Tracked(s', w)) && Told(s')
  {
    forall w: nat ensures Tracked(s', w) {
      assert Tracked(s, w);
      assert Where(s', w) == Where(s, w);
    }
  }

  lemma {:induction false} BecomeIdle(s: State, t: nat, thread: Thread)
    requires t < |s.threads| && !s.threads[t].Working? && !thread.Working?
    ensures SameWork(s, s.Become(t, thread))
  {
    forall w: nat ensures Where(s.Become(t, thread), w) == Where(s, w) {
      WeighUpdate(s.threads, t, thread, Runs(w));
    }
  }

  /** One message too many, or one thread on its way too few, is made up for by a signal. */
  lemma {:induction false} SignalAttends(s: State, i: nat)
    requires s.idleThreads == Weigh(s.threads, IdleOf) && CanSignal(s, i)
    requires Weigh(s.threads, WaitingOf) > 0 ==> Runnable(s) <= Weigh(s.threads, ComingOf) + 1
    ensures SameWork(s, s.Signal(i)) && Attended(s.Signal(i)) && (SlowOk(s) ==> SlowOk(s.Signal(i)))
  {
    WeighNone(s.threads, WaitingOf);
    if i < |s.threads| && s.threads[i].Waiting? {
      Counts(s.threads, i, Signalled);
      BecomeIdle(s, i, Signalled);
    }
  }

  // ---- Steps of a worker ----

  lemma {:induction false} SleepKeeps(s: State, t: nat)
    requires Inv(s) && t < |s.threads| && s.threads[t].Starting? &&
      (|s.wq| == 0 || (s.wq == [RunSlowWork] && s.AtThreshold()))
    ensures Inv(s.(idleThreads := s.idleThreads + 1).Become(t, Waiting))
  {
    Counts(s.threads, t, Waiting);
    BecomeIdle(s.(idleThreads := s.idleThreads + 1), t, Waiting);
    SameWorkKeeps(s, s.(idleThreads := s.idleThreads + 1).Become(t, Waiting));
  }

  lemma {:induction false} RequeueKeeps(s: State)
    requires Inv(s) && |s.wq| > 0 && s.wq[0].RunSlowWork?
    ensures Inv(s.(wq := s.wq[1..] + [RunSlowWork], slowLinked := true))
  {
    var s' := s.(wq := s.wq[1..] + [RunSlowWork], slowLinked := true);
    OneMessageRest(s.wq);
    forall w: nat ensures Where(s', w) == Where(s, w) { WeighAppend(s.wq[1..], RunSlowWork, IsItem(w)); }
    SameWorkKeeps(s, s');
  }

  lemma {:induction false} DropKeeps(s: State)
    requires Inv(s) && |s.wq| > 0 && s.wq[0].RunSlowWork? && !s.AtThreshold() && |s.slowPending| == 0
    ensures Inv(s.(wq := s.wq[1..], slowLinked := false))
  {
    OneMessageRest(s.wq);
    SameWorkKeeps(s, s.(wq := s.wq[1..], slowLinked := false));
  }

  /** A request that leaves its queue for a worker. */
  lemma {:induction false} TakeTracked(s: State, q: State, t: nat, w: nat, slow: bool)
    requires (forall v: nat :: Tracked(s, v)) && Told(s) && t < |s.threads| && s.threads[t].Starting?
    requires q == s.(wq := q.wq, slowPending := q.slowPending, slowLinked := q.slowLinked, slowRunning := q.slowRunning)
    requires Where(s, w).wq + Where(s, w).slow > 0
    requires forall v: nat :: Where(q, v).wq + Where(q, v).slow == Where(s, v).wq + Where(s, v).slow - if v == w then 1
      else 0
    ensures w in s.requests && (forall v: nat :: Tracked(Take(q, t, w, slow), v)) && Told(Take(q, t, w, slow))
  {
    assert Tracked(s, w);
    var s' := Take(q, t, w, slow);
    forall v: nat ensures Tracked(s', v) {
      assert Tracked(s, v);
      assert Where(q, v).wq + Where(q, v).slow == Where(s, v).wq + Where(s, v).slow - if v == w then 1 else 0;
      WeighUpdate(s.threads, t, Working(w, slow), Runs(v));
      WeighAppend(s.ran, w, Is(v));
    }
    ToldElsewhere(s, s', w);
  }

  /** A change to a request that has not been called back yet. */
  lemma {:induction false} ToldElsewhere(s: State, s': State, w: nat)
    requires Told(s) && Tracked(s, w) && Where(s, w).called == 0 && s'.calls == s.calls
    requires forall v | v in s.requests && v != w :: v in s'.requests && s'.requests[v] == s.requests[v]
    ensures Told(s')
  {
    WeighNone(s.calls, Calls(w));
    forall c | c in s'.calls ensures c.w in s'.requests && (c.cancelled <==> s'.requests[c.w].work == Cancelled) {
      assert Calls(w)(c) == 0;
    }
  }

  lemma {:induction false} TakeItemKeeps(s: State, t: nat)
    requires Inv(s) && t < |s.threads| && s.threads[t].Starting? && |s.wq| > 0 && s.wq[0].Item?
    ensures Inv(Take(s.(wq := s.wq[1..]), t, s.wq[0].w, false))
  {
    var w := s.wq[0].w;
    OneMessageRest(s.wq);
    TakeTracked(s, s.(wq := s.wq[1..]), t, w, false);
    Counts(s.threads, t, Working(w, false));
  }

  ghost function TakenSlow(s: State, t: nat, wq: seq<Message>, linked: bool): State
    requires t < |s.threads| && |s.slowPending| > 0
  {
    Take(s.(wq := wq, slowLinked := linked, slowRunning := s.slowRunning + 1, slowPending := s.slowPending[1..]),
         t, s.slowPending[0], true)
  }

  lemma {:induction false} TakeLastSlowKeeps(s: State, t: nat)
    requires Inv(s) && t < |s.threads| && s.threads[t].Starting?
    requires |s.wq| > 0 && s.wq[0].RunSlowWork? && !s.AtThreshold() && |s.slowPending| == 1
    ensures Inv(TakenSlow(s, t, s.wq[1..], false))
  {
    var w := s.slowPending[0];
    OneMessageRest(s.wq);
    Counts(s.threads, t, Working(w, true));
    TakeTracked(s,
      s.(wq := s.wq[1..], slowLinked := false, slowRunning := s.slowRunning + 1, slowPending := s.slowPending[1..]), t,
      w, true);
  }

  lemma {:induction false} TakeSlowKeeps(s: State, t: nat, wake: nat)
    requires Inv(s) && t < |s.threads| && s.threads[t].Starting? && CanSignal(s, wake)
    requires |s.wq| > 0 && s.wq[0].RunSlowWork? && !s.AtThreshold() && |s.slowPending| > 1
    ensures Inv(TakenSlow(s, t, s.wq[1..] + [RunSlowWork], true).Signal(wake))
  {
    var wq := s.wq[1..] + [RunSlowWork];
    var w := s.slowPending[0];
    OneMessageRest(s.wq);
    Counts(s.threads, t, Working(w, true));
    forall v: nat
      ensures Weigh(wq, IsItem(v)) == Weigh(s.wq, IsItem(v)) { WeighAppend(s.wq[1..], RunSlowWork, IsItem(v)); }
    TakeTracked(s,
      s.(wq := wq, slowLinked := true, slowRunning := s.slowRunning + 1, slowPending := s.slowPending[1..]), t, w,
      true);
    var more := TakenSlow(s, t, wq, true);
    SignalAttends(more, wake);
    SameWorkKeeps(more, more.Signal(wake));
  }

  lemma {:induction false} LookKeeps(s: State, t: nat, wake: nat)
    requires Inv(s) && t < |s.threads| && s.threads[t].Starting? && CanSignal(s, wake)
    ensures Inv(Look(s, t, wake))
    decreases |s.wq|, if |s.wq| > 0 && s.wq[0].RunSlowWork? then 1 else 0
  {
    if |s.wq| == 0 || (s.wq == [RunSlowWork] && s.AtThreshold()) {
      SleepKeeps(s, t);
    } else if s.wq[0].Item? {
      TakeItemKeeps(s, t);
    } else if s.AtThreshold() {
      RequeueKeeps(s);
      LookKeeps(s.(wq := s.wq[1..] + [RunSlowWork], slowLinked := true), t, wake);
    } else if |s.slowPending| == 0 {
      DropKeeps(s);
      LookKeeps(s.(wq := s.wq[1..], slowLinked := false), t, wake);
    } else {
      LookSlow(s, t, wake);
    }
  }

  lemma {:induction false} LookSlow(s: State, t: nat, wake: nat)
    requires Inv(s) && t < |s.threads| && s.threads[t].Starting? && CanSignal(s, wake)
    requires |s.wq| > 0 && s.wq[0].RunSlowWork? && !s.AtThreshold() && |s.slowPending| > 0
    ensures Inv(Look(s, t, wake))
  {
    if |s.slowPending| == 1 { TakeLastSlowKeeps(s, t); } else { TakeSlowKeeps(s, t, wake); }
  }

  lemma {:induction false} AwakeKeeps(s: State, t: nat)
    requires Inv(s) && t < |s.threads| && (s.threads[t].Coming() || s.threads[t].Finishing?)
    ensures Inv(Awake(s, t))
    ensures s.threads[t].Signalled? ==> s.idleThreads > 0
    ensures s.threads[t].Slow() ==> s.slowRunning > 0
  {
    Counts(s.threads, t, Starting);
    BecomeIdle(s, t, Starting);
    SameWorkKeeps(s, Awake(s, t));
  }

  lemma {:induction false} EnterKeeps(s: State, t: nat, wake: nat)
    requires Inv(s) && Enabled(s, DoEnter(t, wake))
    ensures Inv(Enter(s, t, wake))
  {
    AwakeKeeps(s, t);
    assert forall u | 0 <= u < |s.threads| && s.threads[u].Waiting? :: Awake(s, t).threads[u].Waiting?;
    LookKeeps(Awake(s, t), t, wake);
  }

  // ---- Steps of the others ----

  lemma {:induction false} SubmitTracked(s: State, q: State, w: nat)
    requires (forall v: nat :: Tracked(s, v)) && Told(s) && w !in s.requests
    requires q == s.(requests := s.requests[w := Request(true, Work)], wq := q.wq, slowPending := q.slowPending)
    requires forall v: nat :: Where(q, v).wq + Where(q, v).slow == Where(s, v).wq + Where(s, v).slow + if v == w then 1
      else 0
    ensures (forall v: nat :: Tracked(q, v)) && Told(q)
  {
    assert Tracked(s, w);
    forall v: nat ensures Tracked(q, v) {
      assert Tracked(s, v);
      assert Where(q, v).wq + Where(q, v).slow == Where(s, v).wq + Where(s, v).slow + if v == w then 1 else 0;
    }
    ToldElsewhere(s, q, w);
  }

  lemma {:induction false} SubmitKeeps(s: State, w: nat, slow: bool, wake: nat)
    requires Inv(s) && Enabled(s, DoSubmit(w, slow, wake))
    ensures Inv(Submit(s, w, slow, wake))
  {
    var known := s.(requests := s.requests[w := Request(true, Work)]);
    var q := if slow then known.(slowPending := s.slowPending + [w]) else known.(wq := s.wq + [Item(w)]);
    forall v: nat
      ensures Where(q, v).wq + Where(q, v).slow == Where(s, v).wq + Where(s, v).slow + if v == w then 1 else 0 {
      if slow { WeighAppend(s.slowPending, w, Is(v)); } else { WeighAppend(s.wq, Item(w), IsItem(v)); }
    }
    SubmitTracked(s, q, w);
    if slow && !s.slowLinked {
      var p := q.(wq := s.wq + [RunSlowWork], slowLinked := true);
      forall v: nat ensures Where(p, v) == Where(q, v) { WeighAppend(s.wq, RunSlowWork, IsItem(v)); }
      SameWorkKeeps(q, p);
      SignalAttends(p, wake);
      SameWorkKeeps(p, p.Signal(wake));
    } else if !slow {
      SignalAttends(q, wake);
      SameWorkKeeps(q, q.Signal(wake));
    }
  }

  lemma {:induction false} WakeKeeps(s: State, t: nat)
    requires Inv(s) && Enabled(s, DoWake(t))
    ensures Inv(s.Become(t, Signalled))
  {
    Counts(s.threads, t, Signalled);
    BecomeIdle(s, t, Signalled);
    SameWorkKeeps(s, s.Become(t, Signalled));
  }

  lemma {:induction false} CompleteTracked(s: State, t: nat)
    requires (forall v: nat :: Tracked(s, v)) && Told(s) && Enabled(s, DoComplete(t))
    ensures s.threads[t].w in s.requests && (forall v: nat :: Tracked(Complete(s, t), v)) && Told(Complete(s, t))
  {
    var w := s.threads[t].w;
    var s' := Complete(s, t);
    WeighUpdate(s.threads, t, Finishing(s.threads[t].slow), Runs(w));
    assert Tracked(s, w);
    forall v: nat ensures Tracked(s', v) {
      assert Tracked(s, v);
      WeighUpdate(s.threads, t, Finishing(s.threads[t].slow), Runs(v));
      WeighAppend(s.loopQueue, w, Is(v));
    }
    ToldElsewhere(s, s', w);
  }

  lemma {:induction false} CompleteKeeps(s: State, t: nat)
    requires Inv(s) && Enabled(s, DoComplete(t))
    ensures Inv(Complete(s, t))
  {
    CompleteTracked(s, t);
    Counts(s.threads, t, Finishing(s.threads[t].slow));
  }

  lemma {:induction false} CancelTakeKeeps(s: State, w: nat)
    requires Inv(s) && Enabled(s, DoCancelTake(w))
    ensures Inv(CancelTake(s, w))
  {
    if Cancellable(s, w) {
      var s' := CancelTake(s, w);
      WeighNone(s.calls, Calls(w));
      forall v: nat ensures Tracked(s', v) {
        assert Tracked(s, v);
        WithoutItemWeight(s.wq, w, v);
        WithoutWeight(s.slowPending, w, v);
        WithoutWeight(s.loopQueue, w, v);
        WithoutWeight(s.doneQueue, w, v);
      }
      WithoutItemMessage(s.wq, w);
      WithoutShorter(s.slowPending, w);
      assert Told(s');
    }
  }

  lemma {:induction false} WithoutShorter(q: seq<nat>, w: nat)
    ensures |Without(q, w)| <= |q|
  {
    if |q| > 0 { WithoutShorter(q[1..], w); }
  }

  lemma {:induction false} CancelPutKeeps(s: State)
    requires Inv(s) && Enabled(s, DoCancelPut)
    ensures Inv(CancelPut(s))
  {
    var w := s.cancelling.value;
    var s' := CancelPut(s);
    assert Tracked(s, w);
    forall v: nat ensures Tracked(s', v) {
      assert Tracked(s, v);
      WeighAppend(s.loopQueue, w, Is(v));
    }
    ToldElsewhere(s, s', w);
  }

  lemma {:induction false} MoveDoneKeeps(s: State)
    requires Inv(s) && Enabled(s, DoMoveDone)
    ensures Inv(MoveDone(s))
  {
    forall v: nat ensures Tracked(MoveDone(s), v) { assert Tracked(s, v); }
  }

  lemma {:induction false} CallDoneKeeps(s: State)
    requires Inv(s) && Enabled(s, DoCallDone)
    ensures Inv(CallDone(s))
  {
    var w := s.doneQueue[0];
    var s' := CallDone(s);
    assert Tracked(s, w);
    assert Weigh(s.doneQueue, Is(w)) > 0;
    forall v: nat ensures Tracked(s', v) {
      assert Tracked(s, v);
      WeighAppend(s.calls, Call(w, s.requests[w].work.Cancelled?), Calls(v));
    }
  }

  lemma {:induction false} StepKeeps(s: State, a: Action)
    requires Inv(s) && Enabled(s, a)
    ensures Inv(Step(s, a))
  {
    match a
    case DoSubmit(w, slow, wake) => SubmitKeeps(s, w, slow, wake);
    case DoEnter(t, wake) => EnterKeeps(s, t, wake);
    case DoWake(t) => WakeKeeps(s, t);
    case DoComplete(t) => CompleteKeeps(s, t);
    case DoCancelTake(w) => CancelTakeKeeps(s, w);
    case DoCancelPut => CancelPutKeeps(s);
    case DoMoveDone => MoveDoneKeeps(s);
    case DoCallDone => CallDoneKeeps(s);
  }

  lemma {:induction false} LookThreads(s: State, t: nat, wake: nat)
    requires t < |s.threads| && OneMessage(s.wq)
    ensures |Look(s, t, wake).threads| == |s.threads|
    decreases |s.wq|, if |s.wq| > 0 && s.wq[0].RunSlowWork? then 1 else 0
  {
    if |s.wq| > 0 && s.wq[0].RunSlowWork? && !(s.wq == [RunSlowWork] && s.AtThreshold()) {
      OneMessageRest(s.wq);
      if s.AtThreshold() {
        assert OneMessage(s.wq[1..] + [RunSlowWork]);
        LookThreads(s.(wq := s.wq[1..] + [RunSlowWork], slowLinked := true), t, wake);
      } else if |s.slowPending| == 0 {
        LookThreads(s.(wq := s.wq[1..], slowLinked := false), t, wake);
      }
    }
  }

  /** The pool neither grows nor shrinks. */
  lemma {:induction false} StepThreads(s: State, a: Action)
    requires Enabled(s, a)
    ensures |Step(s, a).threads| == |s.threads|
  {
    if a.DoEnter? { LookThreads(Awake(s, a.t), a.t, a.wake); }
  }

  // ---- Every run ----

  /** A run: each step is one that can be taken where it is taken. */
  ghost predicate Allowed(s: State, run: seq<Action>)
    decreases |run|
  {
    |run| == 0 || (Enabled(s, run[0]) && Allowed(Step(s, run[0]), run[1..]))
  }

  function After(s: State, run: seq<Action>): State
    decreases |run|
  {
    if |run| == 0 then s else After(Step(s, run[0]), run[1..])
  }

  lemma {:induction false} InitialOk(nthreads: nat)
    requires nthreads > 0
    ensures Inv(Initial(nthreads))
  {
    var s := Initial(nthreads);
    WeighNone(s.threads, IdleOf);
    WeighNone(s.threads, WaitingOf);
    WeighNone(s.threads, SlowOf);
    forall w: nat ensures Tracked(s, w) { WeighNone(s.threads, Runs(w)); }
  }

  lemma {:induction false} RunFrom(s: State, run: seq<Action>)
    requires Inv(s) && Allowed(s, run)
    ensures Inv(After(s, run)) && |After(s, run).threads| == |s.threads|
    decreases |run|
  {
    if |run| > 0 {
      StepKeeps(s, run[0]);
      StepThreads(s, run[0]);
      RunFrom(Step(s, run[0]), run[1..]);
    }
  }

  lemma {:induction false} RunKeeps(nthreads: nat, run: seq<Action>)
    requires nthreads > 0 && Allowed(Initial(nthreads), run)
    ensures Inv(After(Initial(nthreads), run)) && |After(Initial(nthreads), run).threads| == nthreads
  {
    InitialOk(nthreads);
    RunFrom(Initial(nthreads), run);
  }

  lemma {:induction false} WeighTwice<T>(q: seq<T>, i: nat, j: nat, f: T -> nat)
    requires i < j < |q|
    ensures Weigh(q, f) >= f(q[i]) + f(q[j])
  {
    if i > 0 {
      WeighTwice(q[1..], i - 1, j - 1, f);
    } else {
      WeighUpdate(q[1..], j - 1, q[j], f);
    }
  }

  /** Over every run a callback runs at most once for a request; it is told of a cancellation exactly if no worker ran
      the request; and a worker runs it at most once. */
  lemma {:induction false} CalledOnce(nthreads: nat, run: seq<Action>)
    requires nthreads > 0 && Allowed(Initial(nthreads), run)
    ensures var s := After(Initial(nthreads), run);
      (forall i, j | 0 <= i < j < |s.calls| :: s.calls[i].w != s.calls[j].w) &&
      (forall i, j | 0 <= i < j < |s.ran| :: s.ran[i] != s.ran[j]) &&
      (forall c | c in s.calls :: c.cancelled <==> c.w !in s.ran)
  {
    RunKeeps(nthreads, run);
    var s := After(Initial(nthreads), run);
    forall i, j | 0 <= i < j < |s.calls| ensures s.calls[i].w != s.calls[j].w {
      WeighTwice(s.calls, i, j, Calls(s.calls[i].w));
      assert Tracked(s, s.calls[i].w);
    }
    forall i, j | 0 <= i < j < |s.ran| ensures s.ran[i] != s.ran[j] {
      WeighTwice(s.ran, i, j, Is(s.ran[i]));
      assert Tracked(s, s.ran[i]);
    }
    forall c | c in s.calls ensures c.cancelled <==> c.w !in s.ran {
      assert Tracked(s, c.w);
      assert Calls(c.w)(c) == 1;
      WeighNone(s.calls, Calls(c.w));
      WeighNone(s.ran, Is(c.w));
      assert c.w in s.ran ==> Is(c.w)(c.w) == 1;
    }
  }

  /** A request can be cancelled exactly until a worker takes it. */
  lemma {:induction false} CancelAnswer(s: State, w: nat)
    requires Inv(s) && Enabled(s, DoCancelTake(w))
    ensures Cancellable(s, w) <==> w !in s.ran
  {
    assert Tracked(s, w);
    WeighNone(s.calls, Calls(w));
    WeighNone(s.ran, Is(w));
    assert w in s.ran ==> Is(w)(w) == 1;
  }

  /** At most half of the threads, rounded up, run slow work; the rest stays free for other work. */
  lemma {:induction false} SlowShare(nthreads: nat, run: seq<Action>)
    requires nthreads > 0 && Allowed(Initial(nthreads), run)
    ensures var s := After(Initial(nthreads), run);
      |s.threads| == nthreads && s.slowRunning == Weigh(s.threads, SlowOf) && s.slowRunning <= (nthreads + 1) / 2 &&
      (|s.slowPending| > 0 ==> RunSlowWork in s.wq)
  {
    RunKeeps(nthreads, run);
  }

  /** When every thread sleeps, nothing is left to do. */
  lemma {:induction false} NoneForgotten(nthreads: nat, run: seq<Action>)
    requires nthreads > 0 && Allowed(Initial(nthreads), run)
    requires forall thread | thread in After(Initial(nthreads), run).threads :: thread.Waiting?
    ensures After(Initial(nthreads), run).wq == [] && After(Initial(nthreads), run).slowPending == []
  {
    RunKeeps(nthreads, run);
    var s := After(Initial(nthreads), run);
    assert s.threads[0] in s.threads;
    WeighNone(s.threads, WaitingOf);
    WeighNone(s.threads, ComingOf);
    WeighNone(s.threads, SlowOf);
  }

  /** And once the loop has run its callbacks, every request has been called back exactly once. */
  lemma {:induction false} AllCalled(nthreads: nat, run: seq<Action>, w: nat)
    requires nthreads > 0 && Allowed(Initial(nthreads), run)
    requires forall thread | thread in After(Initial(nthreads), run).threads :: thread.Waiting?
    requires var s := After(Initial(nthreads), run);
      s.loopQueue == [] && s.doneQueue == [] && s.cancelling.None? && w in s.requests
    ensures exists c :: c in After(Initial(nthreads), run).calls && c.w == w
  {
    NoneForgotten(nthreads, run);
    RunKeeps(nthreads, run);
    var s := After(Initial(nthreads), run);
    assert Tracked(s, w);
    WeighNone(s.threads, Runs(w));
    WeighNone(s.calls, Calls(w));
  }

  // ---- The pool itself ----

  /** What is queued has been submitted. */
  predicate Queued(s: State) {
    (forall message | message in s.wq && message.Item? :: message.w in s.requests) &&
    (forall w | w in s.slowPending :: w in s.requests)
  }

  lemma {:induction false} QueuedKnown(s: State)
    requires Inv(s)
    ensures Queued(s)
  {
    forall message | message in s.wq && message.Item? ensures message.w in s.requests {
      assert Tracked(s, message.w);
      WeighNone(s.wq, IsItem(message.w));
      assert IsItem(message.w)(message) == 1;
    }
    forall w | w in s.slowPending ensures w in s.requests {
      assert Tracked(s, w);
      WeighNone(s.slowPending, Is(w));
      assert Is(w)(w) == 1;
    }
  }

  lemma {:induction false} EnterFacts(s: State, t: nat, wake: nat)
    requires Inv(s) && Enabled(s, DoEnter(t, wake))
    ensures Step(s, DoEnter(t, wake)) == Look(Awake(s, t), t, wake) && Inv(Step(s, DoEnter(t, wake)))
    ensures Queued(Awake(s, t)) && (s.threads[t].Signalled? ==> s.idleThreads > 0) &&
      (s.threads[t].Slow() ==> s.slowRunning > 0)
  {
    StepKeeps(s, DoEnter(t, wake));
    AwakeKeeps(s, t);
    QueuedKnown(s);
  }

  /** The variables of the pool and of the loop it serves. Each method is one critical section. */
  class Pool {
    var requests: map<nat, Request>
    var wq: seq<Message>
    var slowPending: seq<nat>
    var slowLinked: bool
    var idleThreads: nat
    var slowRunning: nat
    var threads: seq<Thread>
    var loopQueue: seq<nat>
    var doneQueue: seq<nat>
    var cancelling: Option<nat>
    var calls: seq<Call>
    var ran: seq<nat>

    ghost function S(): State
      reads this
    {
      State(requests, wq, slowPending, slowLinked, idleThreads, slowRunning, threads, loopQueue, doneQueue, cancelling,
        calls, ran)
    }

    constructor (nthreads: nat)
      ensures S() == Initial(nthreads)
    {
      requests, wq, slowPending, slowLinked, idleThreads, slowRunning := map[], [], [], false, 0, 0;
      threads, loopQueue, doneQueue, cancelling, calls, ran := seq(nthreads, _ => Starting), [], [], None, [], [];
    }

    method Signal(i: nat)
      modifies `threads
      ensures S() == old(S()).Signal(i)
    {
      if idleThreads > 0 && i < |threads| && threads[i].Waiting? {
        threads := threads[i := Signalled];
      }
    }

    method Submit(w: nat, slow: bool, wake: nat)
      requires Inv(S()) && Enabled(S(), DoSubmit(w, slow, wake))
      modifies this
      ensures S() == Step(old(S()), DoSubmit(w, slow, wake)) && Inv(S())
    {
      StepKeeps(S(), DoSubmit(w, slow, wake));
      requests := requests[w := Request(true, Work)];
      var message := Item(w);
      if slow {
        slowPending := slowPending + [w];
        if slowLinked {
          return;
        }
        message := RunSlowWork;
        slowLinked := true;
      }
      wq := wq + [message];
      Signal(wake);
    }

    method StartRequest(t: nat, w: nat, slow: bool)
      requires t < |threads| && w in requests
      modifies `requests, `threads, `ran
      ensures S() == Take(old(S()), t, w, slow)
    {
      requests := requests[w := requests[w].(linked := false)];
      threads := threads[t := Working(w, slow)];
      ran := ran + [w];
    }

    /** A worker from where it gets the mutex until it sleeps or has something to run. */
    method Worker(t: nat, wake: nat)
      requires Inv(S()) && Enabled(S(), DoEnter(t, wake))
      modifies this
      ensures S() == Step(old(S()), DoEnter(t, wake)) && Inv(S())
    {
      ghost var s0 := S();
      EnterFacts(s0, t, wake);
      if threads[t].Signalled? {
        idleThreads := idleThreads - 1;
      } else if threads[t].Slow() {
        slowRunning := slowRunning - 1;
      }
      threads := threads[t := Starting];
      assert S() == Awake(s0, t);
      FindWork(t, wake);
    }

    method FindWork(t: nat, wake: nat)
      requires t < |threads| && OneMessage(wq) && Queued(S())
      modifies this
      ensures S() == Look(old(S()), t, wake)
    {
      var again := true;
      while again
        invariant again ==>
          t < |threads| && OneMessage(wq) && Queued(S()) && Look(S(), t, wake) == Look(old(S()), t, wake)
        invariant !again ==> S() == Look(old(S()), t, wake)
        decreases again, |wq|, if |wq| > 0 && wq[0].RunSlowWork? then 1 else 0
      {
        var threshold := (|threads| + 1) / 2;
        if |wq| == 0 || (wq[0].RunSlowWork? && |wq| == 1 && slowRunning >= threshold) {
          assert |wq| == 1 && wq[0].RunSlowWork? ==> wq == [RunSlowWork];
          idleThreads := idleThreads + 1;
          threads := threads[t := Waiting];
          again := false;
        } else if wq[0].Item? {
          var w := wq[0].w;
          assert wq[0] in wq;
          wq := wq[1..];
          StartRequest(t, w, false);
          again := false;
        } else {
          again := HandleMessage(t, wake);
        }
      }
    }

    /** The message to run slow work: not now, not any more, or now. */
    method HandleMessage(t: nat, wake: nat) returns (again: bool)
      requires t < |threads| && OneMessage(wq) && Queued(S())
      requires |wq| > 0 && wq[0].RunSlowWork? && !(|wq| == 1 && slowRunning >= (|threads| + 1) / 2)
      modifies this
      ensures again ==> threads == old(threads) && OneMessage(wq) && Queued(S())
      ensures if again then Look(S(), t, wake) == Look(old(S()), t, wake) else S() == Look(old(S()), t, wake)
      ensures again ==> |wq| < old(|wq|) || (|wq| == old(|wq|) && !wq[0].RunSlowWork?)
    {
      OneMessageRest(wq);
      wq := wq[1..];
      slowLinked := false;
      again := true;
      if slowRunning >= (|threads| + 1) / 2 {
        wq := wq + [RunSlowWork];
        slowLinked := true;
      } else if |slowPending| > 0 {
        TakeSlow(t, wake);
        again := false;
      }
    }

    method TakeSlow(t: nat, wake: nat)
      requires t < |threads| && |slowPending| > 0 && !slowLinked && slowPending[0] in requests
      modifies this
      ensures var s := old(S());
        var taken :=
          Take(s.(slowRunning := s.slowRunning + 1, slowPending := s.slowPending[1..]), t, s.slowPending[0], true);
        S() == if |taken.slowPending| == 0 then taken
          else taken.(wq := s.wq + [RunSlowWork], slowLinked := true).Signal(wake)
    {
      var w := slowPending[0];
      slowRunning := slowRunning + 1;
      slowPending := slowPending[1..];
      StartRequest(t, w, true);
      if |slowPending| > 0 {
        wq := wq + [RunSlowWork];
        slowLinked := true;
        Signal(wake);
      }
    }

    /** The request has run; it goes to the loop. */
    method Complete(t: nat)
      requires Inv(S()) && Enabled(S(), DoComplete(t))
      modifies this
      ensures S() == Step(old(S()), DoComplete(t)) && Inv(S())
    {
      StepKeeps(S(), DoComplete(t));
      CompleteTracked(S(), t);
      var w := threads[t].w;
      requests := requests[w := Request(true, Null)];
      loopQueue := loopQueue + [w];
      threads := threads[t := Finishing(threads[t].slow)];
    }

    method CancelTake(w: nat) returns (cancelled: bool)
      requires Inv(S()) && Enabled(S(), DoCancelTake(w))
      modifies this
      ensures S() == Step(old(S()), DoCancelTake(w)) && Inv(S())
      ensures cancelled <==> w !in old(ran)
    {
      StepKeeps(S(), DoCancelTake(w));
      CancelAnswer(S(), w);
      cancelled := requests[w].linked && requests[w].work != Null;
      if cancelled {
        wq := WithoutItem(wq, w);
        slowPending, loopQueue, doneQueue := Without(slowPending, w), Without(loopQueue, w), Without(doneQueue, w);
        cancelling := Some(w);
      }
    }

    method CancelPut()
      requires Inv(S()) && Enabled(S(), DoCancelPut)
      modifies this
      ensures S() == Step(old(S()), DoCancelPut) && Inv(S())
    {
      StepKeeps(S(), DoCancelPut);
      var w := cancelling.value;
      assert Tracked(S(), w);
      requests := requests[w := requests[w].(work := Cancelled)];
      loopQueue := loopQueue + [w];
      cancelling := None;
    }

    method MoveDone()
      requires Inv(S()) && Enabled(S(), DoMoveDone)
      modifies this
      ensures S() == Step(old(S()), DoMoveDone) && Inv(S())
    {
      StepKeeps(S(), DoMoveDone);
      doneQueue, loopQueue := loopQueue, [];
    }

    method CallDone() returns (w: nat, cancelled: bool)
      requires Inv(S()) && Enabled(S(), DoCallDone)
      modifies this
      ensures S() == Step(old(S()), DoCallDone) && Inv(S())
      ensures calls == old(calls) + [Call(w, cancelled)] && (cancelled <==> w !in ran)
    {
      StepKeeps(S(), DoCallDone);
      w := doneQueue[0];
      CalledIsTold(S());
      cancelled := requests[w].work == Cancelled;
      doneQueue := doneQueue[1..];
      calls := calls + [Call(w, cancelled)];
    }
  }

  lemma {:induction false} CalledIsTold(s: State)
    requires Inv(s) && |s.doneQueue| > 0
    ensures s.doneQueue[0] in s.requests && (s.requests[s.doneQueue[0]].work == Cancelled <==> s.doneQueue[0] !in s.ran)
  {
    var w := s.doneQueue[0];
    assert Tracked(s, w);
    assert Weigh(s.doneQueue, Is(w)) > 0;
    WeighNone(s.ran, Is(w));
    assert w in s.ran ==> Is(w)(w) == 1;
  }
}
