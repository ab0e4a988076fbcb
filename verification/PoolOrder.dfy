/** In which order the worker pool serves requests, and in which order the loop calls back. */
module PoolOrder {
  import opened Format
  import opened ThreadPool

  // ---- Sequences ----

  /** The elements that are in the set. */
  function Keep(q: seq<nat>, c: set<nat>): seq<nat> {
    if |q| == 0 then [] else Keep(q[..|q| - 1], c) + if q[|q| - 1] in c then [q[|q| - 1]] else []
  }

  function Among(q: seq<nat>): set<nat> { set w | w in q }

  lemma {:induction false} KeepSnoc(q: seq<nat>, w: nat, c: set<nat>)
    ensures Keep(q + [w], c) == Keep(q, c) + if w in c then [w] else []
  {
    assert (q + [w])[..|q|] == q;
  }

  lemma {:induction false} KeepSame(q: seq<nat>, c: set<nat>, c': set<nat>)
    requires forall w | w in q :: w in c <==> w in c'
    ensures Keep(q, c) == Keep(q, c')
  {
    if |q| > 0 {
      assert forall w | w in q[..|q| - 1] :: w in q;
      KeepSame(q[..|q| - 1], c, c');
    }
  }

  lemma {:induction false} WithoutJoin(q: seq<nat>, r: seq<nat>, w: nat)
    ensures Without(q + r, w) == Without(q, w) + Without(r, w)
  {
    if |q| == 0 {
      assert q + r == r;
    } else {
      assert (q + r)[1..] == q[1..] + r;
      WithoutJoin(q[1..], r, w);
    }
  }

  lemma {:induction false} WithoutAbsent(q: seq<nat>, w: nat)
    requires w !in q
    ensures Without(q, w) == q
  {
    if |q| > 0 { WithoutAbsent(q[1..], w); }
  }

  lemma {:induction false} WithoutMembers(q: seq<nat>, w: nat)
    ensures forall v :: v in Without(q, w) <==> v in q && v != w
  {
    if |q| > 0 {
      WithoutMembers(q[1..], w);
      assert q == [q[0]] + q[1..];
    }
  }

  lemma {:induction false} KeepLess(q: seq<nat>, c: set<nat>, w: nat)
    ensures Keep(q, c - {w}) == Without(Keep(q, c), w)
  {
    if |q| > 0 {
      var last := q[|q| - 1];
      KeepLess(q[..|q| - 1], c, w);
      WithoutJoin(Keep(q[..|q| - 1], c), if last in c then [last] else [], w);
      assert [last][1..] == [];
    }
  }

  /** The requests among the messages. */
  function Items(wq: seq<Message>): seq<nat> {
    if |wq| == 0 then [] else (if wq[0].Item? then [wq[0].w] else []) + Items(wq[1..])
  }

  lemma {:induction false} ItemsCons(message: Message, wq: seq<Message>)
    ensures Items([message] + wq) == (if message.Item? then [message.w] else []) + Items(wq)
  {
    assert ([message] + wq)[1..] == wq;
  }

  lemma {:induction false} ItemsSnoc(wq: seq<Message>, message: Message)
    ensures Items(wq + [message]) == Items(wq) + if message.Item? then [message.w] else []
  {
    if |wq| == 0 {
      assert [] + [message] == [message] + [];
      ItemsCons(message, []);
    } else {
      var first, rest := wq[0], wq[1..];
      ItemsSnoc(rest, message);
      ItemsCons(first, rest + [message]);
      assert wq + [message] == [first] + (rest + [message]);
    }
  }

  lemma {:induction false} WithoutCons(v: nat, q: seq<nat>, w: nat)
    ensures Without([v] + q, w) == (if v == w then [] else [v]) + Without(q, w)
  {
    assert ([v] + q)[1..] == q;
  }

  lemma {:induction false} ItemsWithout(wq: seq<Message>, w: nat)
    ensures Items(WithoutItem(wq, w)) == Without(Items(wq), w)
  {
    if |wq| > 0 {
      var first, rest := wq[0], wq[1..];
      ItemsWithout(rest, w);
      assert [] + Items(rest) == Items(rest) && [] + Without(Items(rest), w) == Without(Items(rest), w);
      if first.Item? { WithoutCons(first.w, Items(rest), w); }
      if first != Item(w) { ItemsCons(first, WithoutItem(rest, w)); }
    }
  }

  lemma {:induction false} ItemsMembers(wq: seq<Message>)
    ensures forall w :: w in Items(wq) <==> Item(w) in wq
  {
    if |wq| > 0 {
      ItemsMembers(wq[1..]);
      assert wq == [wq[0]] + wq[1..];
    }
  }

  /** The requests of one kind that no worker has taken yet. */
  function Pending(s: State, slow: bool): seq<nat> { if slow then s.slowPending else Items(s.wq) }

  // ---- What a worker takes ----

  /** With slow work allowed and pending, its message at the head of the queue makes a worker take the first of it;
      otherwise a worker takes the first request of the queue, and sleeps if there is none. */
  ghost predicate TakesFirst(s: State, t: nat, s': State)
    requires t < |s.threads|
  {
    var fast := Items(s.wq);
    if |s.wq| > 0 && s.wq[0].RunSlowWork? && !s.AtThreshold() && |s.slowPending| > 0 then
      s'.threads == s.threads[t := Working(s.slowPending[0], true)] && s'.ran == s.ran + [s.slowPending[0]] &&
      Items(s'.wq) == fast && s'.slowPending == s.slowPending[1..]
    else if |fast| > 0 then
      s'.threads == s.threads[t := Working(fast[0], false)] && s'.ran == s.ran + [fast[0]] &&
      Items(s'.wq) == fast[1..] && s'.slowPending == s.slowPending
    else
      s'.threads == s.threads[t := Waiting] && s'.ran == s.ran && Items(s'.wq) == fast &&
      s'.slowPending == s.slowPending
  }

  /** The threads may differ in one that was woken. */
  ghost predicate Serves(s: State, t: nat, s': State)
    requires t < |s.threads|
  {
    exists threads :: TakesFirst(s, t, s'.(threads := threads)) && Woken(threads, s'.threads)
  }

  ghost predicate Woken(threads: seq<Thread>, threads': seq<Thread>) {
    threads' == threads ||
    exists i :: 0 <= i < |threads| && threads[i].Waiting? && threads' == threads[i := Signalled]
  }

  lemma {:induction false} ServesDirectly(s: State, t: nat, s': State)
    requires t < |s.threads| && TakesFirst(s, t, s')
    ensures Serves(s, t, s')
  {
    assert s'.(threads := s'.threads) == s';
    assert TakesFirst(s, t, s'.(threads := s'.threads)) && Woken(s'.threads, s'.threads);
  }

  /** What does not decide who is served. */
  lemma {:induction false} ServesSame(s: State, q: State, t: nat, s': State)
    requires t < |s.threads| && q.threads == s.threads && q.ran == s.ran && q.slowPending == s.slowPending
    requires Items(q.wq) == Items(s.wq) && Serves(q, t, s')
    requires !(|q.wq| > 0 && q.wq[0].RunSlowWork? && !q.AtThreshold() && |q.slowPending| > 0)
    requires !(|s.wq| > 0 && s.wq[0].RunSlowWork? && !s.AtThreshold() && |s.slowPending| > 0)
    ensures Serves(s, t, s')
  {
    var threads :| TakesFirst(q, t, s'.(threads := threads)) && Woken(threads, s'.threads);
    assert TakesFirst(s, t, s'.(threads := threads));
  }

  lemma {:induction false} SleepServes(s: State, t: nat)
    requires t < |s.threads| && (|s.wq| == 0 || (s.wq == [RunSlowWork] && s.AtThreshold()))
    ensures Serves(s, t, s.(idleThreads := s.idleThreads + 1).Become(t, Waiting))
  {
    if |s.wq| > 0 { ItemsCons(RunSlowWork, []); }
    ServesDirectly(s, t, s.(idleThreads := s.idleThreads + 1).Become(t, Waiting));
  }

  lemma {:induction false} ItemServes(s: State, t: nat)
    requires t < |s.threads| && |s.wq| > 0 && s.wq[0].Item? && s.wq[0].w in s.requests
    ensures Serves(s, t, Take(s.(wq := s.wq[1..]), t, s.wq[0].w, false))
  {
    var w := s.wq[0].w;
    assert Items(s.wq) == [w] + Items(s.wq[1..]);
    assert ([w] + Items(s.wq[1..]))[1..] == Items(s.wq[1..]);
    ServesDirectly(s, t, Take(s.(wq := s.wq[1..]), t, w, false));
  }

  lemma {:induction false} RequeueServes(s: State, t: nat, s': State)
    requires t < |s.threads| && |s.wq| > 0 && s.wq[0].RunSlowWork? && s.AtThreshold()
    requires Serves(s.(wq := s.wq[1..] + [RunSlowWork], slowLinked := true), t, s')
    ensures Serves(s, t, s')
  {
    ItemsSnoc(s.wq[1..], RunSlowWork);
    var q := s.(wq := s.wq[1..] + [RunSlowWork], slowLinked := true);
    assert q.AtThreshold() && Items(q.wq) == Items(s.wq);
    ServesSame(s, q, t, s');
  }

  lemma {:induction false} DropServes(s: State, t: nat, s': State)
    requires t < |s.threads| && |s.wq| > 0 && s.wq[0].RunSlowWork? && |s.slowPending| == 0
    requires Serves(s.(wq := s.wq[1..], slowLinked := false), t, s')
    ensures Serves(s, t, s')
  {
    ServesSame(s, s.(wq := s.wq[1..], slowLinked := false), t, s');
  }

  lemma {:induction false} LookServes(s: State, t: nat, wake: nat)
    requires t < |s.threads| && OneMessage(s.wq) && Queued(s)
    ensures Serves(s, t, Look(s, t, wake)) && Look(s, t, wake).requests.Keys == s.requests.Keys
    decreases |s.wq|, if |s.wq| > 0 && s.wq[0].RunSlowWork? then 1 else 0
  {
    var s' := Look(s, t, wake);
    if |s.wq| == 0 || (s.wq == [RunSlowWork] && s.AtThreshold()) {
      SleepServes(s, t);
    } else if s.wq[0].Item? {
      assert s.wq[0] in s.wq;
      ItemServes(s, t);
    } else {
      OneMessageRest(s.wq);
      assert forall message | message in s.wq[1..] :: message in s.wq;
      if s.AtThreshold() {
        var q := s.(wq := s.wq[1..] + [RunSlowWork], slowLinked := true);
        assert OneMessage(q.wq) && Queued(q);
        LookServes(q, t, wake);
        RequeueServes(s, t, s');
      } else if |s.slowPending| == 0 {
        var q := s.(wq := s.wq[1..], slowLinked := false);
        LookServes(q, t, wake);
        DropServes(s, t, s');
      } else {
        SlowServes(s, t, wake);
      }
    }
  }

  lemma {:induction false} SlowServes(s: State, t: nat, wake: nat)
    requires t < |s.threads| && OneMessage(s.wq) && Queued(s)
    requires |s.wq| > 0 && s.wq[0].RunSlowWork? && !s.AtThreshold() && |s.slowPending| > 0
    ensures Serves(s, t, Look(s, t, wake)) && Look(s, t, wake).requests.Keys == s.requests.Keys
  {
    var w := s.slowPending[0];
    assert w in s.requests;
    ItemsSnoc(s.wq[1..], RunSlowWork);
    var taken := TakenSlow(s, t, s.wq[1..], false);
    var s' := Look(s, t, wake);
    if |s.slowPending| == 1 {
      assert s' == taken;
      ServesDirectly(s, t, s');
    } else {
      var more := taken.(wq := s.wq[1..] + [RunSlowWork], slowLinked := true);
      assert s' == more.Signal(wake);
      assert TakesFirst(s, t, s'.(threads := more.threads)) && Woken(more.threads, s'.threads);
    }
  }

  // ---- First come, first served ----

  /** The requests of one kind that a run submits, in order. */
  function Submitted(run: seq<Action>, slow: bool): seq<nat> {
    if |run| == 0 then [] else SubmittedBy(run[0], slow) + Submitted(run[1..], slow)
  }

  ghost function Alive(s: State, slow: bool): set<nat> { Among(s.ran) + Among(Pending(s, slow)) }

  /** Of the requests submitted, those that have not been cancelled are the ones that workers have taken, in the order
      in which they were taken, and then the ones still pending. */
  ghost predicate InOrder(s: State, submitted: seq<nat>, slow: bool) {
    (forall w | w in submitted :: w in s.requests) && (forall w | w in Pending(s, slow) :: w in submitted) &&
    (forall w | w in Pending(s, !slow) :: w !in submitted) &&
    Keep(submitted, Alive(s, slow)) == Keep(s.ran, Among(submitted)) + Pending(s, slow)
  }

  /** Nothing that matters for the order has changed. */
  lemma {:induction false} OrderSame(s: State, s': State, submitted: seq<nat>, slow: bool)
    requires InOrder(s, submitted, slow) && s'.requests.Keys == s.requests.Keys && s'.ran == s.ran
    requires Items(s'.wq) == Items(s.wq) && s'.slowPending == s.slowPending
    ensures InOrder(s', submitted, slow)
  {
    assert Alive(s', slow) == Alive(s, slow);
    assert Pending(s', slow) == Pending(s, slow) && Pending(s', !slow) == Pending(s, !slow);
  }

  lemma {:induction false} NewNotRan(s: State, w: nat)
    requires Inv(s) && w !in s.requests
    ensures w !in s.ran
  {
    assert Tracked(s, w);
    WeighNone(s.ran, Is(w));
    assert w in s.ran ==> Is(w)(w) == 1;
  }

  lemma {:induction false} PostFacts(s: State, w: nat, kind: bool, wake: nat)
    ensures var s' := Post(s, w, kind, wake);
      s'.ran == s.ran && s'.requests == s.requests &&
      Pending(s', kind) == Pending(s, kind) + [w] && Pending(s', !kind) == Pending(s, !kind)
  {
    if kind {
      ItemsSnoc(s.wq, RunSlowWork);
      assert Items(s.wq) + [] == Items(s.wq);
    } else {
      ItemsSnoc(s.wq, Item(w));
    }
  }

  lemma {:induction false} SubmitFacts(s: State, w: nat, kind: bool, wake: nat)
    requires w !in s.requests
    ensures var s' := Submit(s, w, kind, wake);
      s'.ran == s.ran && s'.requests.Keys == s.requests.Keys + {w} &&
      Pending(s', kind) == Pending(s, kind) + [w] && Pending(s', !kind) == Pending(s, !kind)
  {
    PostFacts(s.(requests := s.requests[w := Request(true, Work)]), w, kind, wake);
  }

  lemma {:induction false} OrderMore(s: State, s': State, w: nat, submitted: seq<nat>, slow: bool)
    requires InOrder(s, submitted, slow) && w !in s.requests && w !in s.ran
    requires s'.ran == s.ran && s'.requests.Keys == s.requests.Keys + {w}
    requires Pending(s', slow) == Pending(s, slow) + [w] && Pending(s', !slow) == Pending(s, !slow)
    requires w !in Pending(s, !slow)
    ensures InOrder(s', submitted + [w], slow)
  {
    KeepSnoc(submitted, w, Alive(s', slow));
    KeepSame(submitted, Alive(s, slow), Alive(s', slow));
    KeepSame(s.ran, Among(submitted), Among(submitted + [w]));
    var kept := Keep(s.ran, Among(submitted));
    assert kept + Pending(s, slow) + [w] == kept + (Pending(s, slow) + [w]);
  }

  lemma {:induction false} OrderBeside(s: State, s': State, w: nat, submitted: seq<nat>, slow: bool)
    requires InOrder(s, submitted, slow) && w !in s.requests
    requires s'.ran == s.ran && s'.requests.Keys == s.requests.Keys + {w}
    requires Pending(s', slow) == Pending(s, slow) && Pending(s', !slow) == Pending(s, !slow) + [w]
    ensures InOrder(s', submitted, slow)
  {
    assert Alive(s', slow) == Alive(s, slow);
  }

  lemma {:induction false} OrderSubmit(s: State, w: nat, kind: bool, wake: nat, submitted: seq<nat>, slow: bool)
    requires Inv(s) && w !in s.requests && InOrder(s, submitted, slow)
    ensures InOrder(Submit(s, w, kind, wake), if kind == slow then submitted + [w] else submitted, slow)
  {
    var s' := Submit(s, w, kind, wake);
    SubmitFacts(s, w, kind, wake);
    NewNotRan(s, w);
    PendingKnown(s, !slow);
    if kind == slow {
      OrderMore(s, s', w, submitted, slow);
    } else {
      assert kind == !slow;
      OrderBeside(s, s', w, submitted, slow);
    }
  }

  lemma {:induction false} PendingKnown(s: State, slow: bool)
    requires Inv(s)
    ensures forall w | w in Pending(s, slow) :: w in s.requests && w !in s.ran
  {
    ItemsMembers(s.wq);
    forall w | w in Pending(s, slow) ensures w in s.requests && w !in s.ran {
      assert Tracked(s, w);
      if slow { WeighNone(s.slowPending, Is(w)); } else { WeighNone(s.wq, IsItem(w)); }
      assert Is(w)(w) == 1 && IsItem(w)(Item(w)) == 1;
      WeighNone(s.ran, Is(w));
    }
  }

  /** A worker takes the first pending request of a kind. */
  lemma {:induction false} OrderTake(s: State, s': State, kind: bool, submitted: seq<nat>, slow: bool)
    requires InOrder(s, submitted, slow) && s'.requests.Keys == s.requests.Keys && |Pending(s, kind)| > 0
    requires s'.ran == s.ran + [Pending(s, kind)[0]] && Pending(s', kind) == Pending(s, kind)[1..]
    requires Pending(s', !kind) == Pending(s, !kind)
    ensures InOrder(s', submitted, slow)
  {
    var p := Pending(s, kind);
    assert p == [p[0]] + p[1..];
    KeepSnoc(s.ran, p[0], Among(submitted));
    if kind == slow {
      assert Alive(s', slow) == Alive(s, slow);
    } else {
      assert p[0] in p;
      KeepSame(submitted, Alive(s, slow), Alive(s', slow));
    }
  }

  lemma {:induction false} OrderEnter(s: State, t: nat, wake: nat, submitted: seq<nat>, slow: bool)
    requires Inv(s) && Enabled(s, DoEnter(t, wake)) && InOrder(s, submitted, slow)
    ensures InOrder(Enter(s, t, wake), submitted, slow)
  {
    EnterFacts(s, t, wake);
    var a, s' := Awake(s, t), Enter(s, t, wake);
    OrderSame(s, a, submitted, slow);
    LookServes(a, t, wake);
    var threads :| TakesFirst(a, t, s'.(threads := threads)) && Woken(threads, s'.threads);
    if s'.ran == a.ran {
      OrderSame(a, s', submitted, slow);
    } else if |a.wq| > 0 && a.wq[0].RunSlowWork? && !a.AtThreshold() && |a.slowPending| > 0 {
      OrderTake(a, s', true, submitted, slow);
    } else {
      OrderTake(a, s', false, submitted, slow);
    }
  }

  lemma {:induction false} OrderCancel(s: State, w: nat, submitted: seq<nat>, slow: bool)
    requires Inv(s) && Enabled(s, DoCancelTake(w)) && InOrder(s, submitted, slow)
    ensures InOrder(CancelTake(s, w), submitted, slow)
  {
    if Cancellable(s, w) {
      var s' := CancelTake(s, w);
      CancelAnswer(s, w);
      ItemsWithout(s.wq, w);
      WithoutMembers(Pending(s, slow), w);
      WithoutMembers(Pending(s, !slow), w);
      assert Pending(s', slow) == Without(Pending(s, slow), w) && Pending(s', !slow) == Without(Pending(s, !slow), w);
      assert Alive(s', slow) == Alive(s, slow) - {w};
      KeepLess(submitted, Alive(s, slow), w);
      WithoutJoin(Keep(s.ran, Among(submitted)), Pending(s, slow), w);
      KeepMembers(s.ran, Among(submitted));
      WithoutAbsent(Keep(s.ran, Among(submitted)), w);
    }
  }

  lemma {:induction false} KeepMembers(q: seq<nat>, c: set<nat>)
    ensures forall w :: w in Keep(q, c) <==> w in q && w in c
  {
    if |q| > 0 {
      KeepMembers(q[..|q| - 1], c);
      assert q == q[..|q| - 1] + [q[|q| - 1]];
    }
  }

  lemma {:induction false} OtherFacts(s: State, a: Action)
    requires Inv(s) && Enabled(s, a) && (a.DoWake? || a.DoComplete? || a.DoCancelPut? || a.DoMoveDone? || a.DoCallDone?)
    ensures var s' := Step(s, a);
      s'.requests.Keys == s.requests.Keys && s'.ran == s.ran && s'.wq == s.wq && s'.slowPending == s.slowPending
  {
  }

  ghost predicate Decides(a: Action) { a.DoSubmit? || a.DoEnter? || a.DoCancelTake? }

  function SubmittedBy(a: Action, slow: bool): seq<nat> { if a.DoSubmit? && a.slow == slow then [a.w] else [] }

  lemma {:induction false} OrderStep(s: State, a: Action, submitted: seq<nat>, slow: bool)
    requires Inv(s) && Enabled(s, a) && InOrder(s, submitted, slow)
    ensures InOrder(Step(s, a), submitted + SubmittedBy(a, slow), slow)
  {
    assert submitted + [] == submitted;
    if !Decides(a) {
      OtherFacts(s, a);
      OrderSame(s, Step(s, a), submitted, slow);
    } else {
      OrderDecides(s, a, submitted, slow);
    }
  }

  lemma {:induction false} OrderDecides(s: State, a: Action, submitted: seq<nat>, slow: bool)
    requires Inv(s) && Enabled(s, a) && InOrder(s, submitted, slow) && Decides(a)
    ensures InOrder(Step(s, a), submitted + SubmittedBy(a, slow), slow)
  {
    assert submitted + [] == submitted;
    if a.DoSubmit? {
      OrderSubmit(s, a.w, a.slow, a.wake, submitted, slow);
    } else if a.DoEnter? {
      OrderEnter(s, a.t, a.wake, submitted, slow);
    } else {
      OrderCancel(s, a.w, submitted, slow);
    }
  }

  lemma {:induction false} OrderFirst(s: State, run: seq<Action>, submitted: seq<nat>, slow: bool) returns (s1: State)
    requires Inv(s) && |run| > 0 && Allowed(s, run) && InOrder(s, submitted, slow)
    ensures s1 == Step(s, run[0]) && Inv(s1) && Allowed(s1, run[1..]) && After(s, run) == After(s1, run[1..])
    ensures InOrder(s1, submitted + SubmittedBy(run[0], slow), slow)
  {
    s1 := Step(s, run[0]);
    OrderStep(s, run[0], submitted, slow);
    StepKeeps(s, run[0]);
  }

  lemma {:induction false} SubmittedCons(run: seq<Action>, submitted: seq<nat>, slow: bool)
    requires |run| > 0
    ensures submitted + SubmittedBy(run[0], slow) + Submitted(run[1..], slow) == submitted + Submitted(run, slow)
  {
  }

  lemma {:induction false} OrderFrom(s: State, run: seq<Action>, submitted: seq<nat>, slow: bool)
    requires Inv(s) && Allowed(s, run) && InOrder(s, submitted, slow)
    ensures InOrder(After(s, run), submitted + Submitted(run, slow), slow)
    decreases |run|
  {
    if |run| == 0 {
      assert submitted + [] == submitted;
    } else {
      var s1 := OrderFirst(s, run, submitted, slow);
      SubmittedCons(run, submitted, slow);
      OrderFrom(s1, run[1..], submitted + SubmittedBy(run[0], slow), slow);
    }
  }

  /** Over every run, for fast and for slow work. */
  lemma {:induction false} ServedInOrder(nthreads: nat, run: seq<Action>, slow: bool)
    requires nthreads > 0 && Allowed(Initial(nthreads), run)
    ensures InOrder(After(Initial(nthreads), run), Submitted(run, slow), slow)
  {
    InitialOk(nthreads);
    OrderFrom(Initial(nthreads), run, [], slow);
    assert [] + Submitted(run, slow) == Submitted(run, slow);
  }

  lemma {:induction false} KeptPlace(q: seq<nat>, c: set<nat>, i: nat) returns (k: nat)
    requires i < |q| && q[i] in c
    ensures k < |Keep(q, c)| && Keep(q, c)[k] == q[i] && k == |Keep(q[..i], c)|
    ensures |Keep(q[..i + 1], c)| == k + 1 <= |Keep(q, c)|
  {
    var n := |q| - 1;
    k := |Keep(q[..i], c)|;
    if i == n {
      assert q[..i + 1] == q;
    } else {
      var m := KeptPlace(q[..n], c, i);
      assert q[..n][..i] == q[..i] && q[..n][..i + 1] == q[..i + 1];
    }
  }

  lemma {:induction false} KeptOrder(q: seq<nat>, c: set<nat>, i: nat, j: nat) returns (k: nat, m: nat)
    requires i < j < |q| && q[i] in c && q[j] in c
    ensures k < m < |Keep(q, c)| && Keep(q, c)[k] == q[i] && Keep(q, c)[m] == q[j]
  {
    k := KeptPlace(q, c, i);
    m := KeptPlace(q, c, j);
    KeepGrows(q[..j], c, i + 1);
    assert q[..j][..i + 1] == q[..i + 1];
  }

  lemma {:induction false} KeepGrows(q: seq<nat>, c: set<nat>, i: nat)
    requires i <= |q|
    ensures |Keep(q[..i], c)| <= |Keep(q, c)|
  {
    if i == |q| {
      assert q[..i] == q;
    } else {
      KeepGrows(q[..|q| - 1], c, i);
      assert q[..|q| - 1][..i] == q[..i];
    }
  }

  /** What is kept of a sequence stands in it in the same order. */
  lemma {:induction false} KeptFrom(q: seq<nat>, c: set<nat>, k: nat, m: nat) returns (i: nat, j: nat)
    requires k < m < |Keep(q, c)|
    ensures i < j < |q| && q[i] == Keep(q, c)[k] && q[j] == Keep(q, c)[m]
  {
    var n := |q| - 1;
    var before := Keep(q[..n], c);
    if m < |before| {
      i, j := KeptFrom(q[..n], c, k, m);
    } else {
      KeepMembers(q[..n], c);
      assert before[k] in before;
      i :| 0 <= i < n && q[..n][i] == before[k];
      j := n;
    }
  }

  lemma {:induction false} InFront(kept: seq<nat>, pending: seq<nat>, m: nat)
    requires m < |kept + pending|
    ensures m < |kept| || (kept + pending)[m] in pending
  {
    if m >= |kept| { assert (kept + pending)[m] == pending[m - |kept|]; }
  }

  /** Of two requests of one kind the earlier is taken first, unless it is cancelled. */
  lemma {:induction false} EarlierFirst(nthreads: nat, run: seq<Action>, slow: bool, i: nat, j: nat)
    requires nthreads > 0 && Allowed(Initial(nthreads), run) && i < j < |Submitted(run, slow)|
    requires Submitted(run, slow)[j] in After(Initial(nthreads), run).ran
    ensures var s := After(Initial(nthreads), run);
      var a, b := Submitted(run, slow)[i], Submitted(run, slow)[j];
      (exists k, m :: 0 <= k < m < |s.ran| && s.ran[k] == a && s.ran[m] == b) ||
      (a in s.requests && (s.requests[a].work == Cancelled || s.cancelling == Some(a)) && a !in s.ran)
  {
    ServedInOrder(nthreads, run, slow);
    RunKeeps(nthreads, run);
    var s, submitted := After(Initial(nthreads), run), Submitted(run, slow);
    var a, b := submitted[i], submitted[j];
    var kept := Keep(s.ran, Among(submitted));
    if a in Alive(s, slow) {
      var k, m := KeptOrder(submitted, Alive(s, slow), i, j);
      PendingKnown(s, slow);
      InFront(kept, Pending(s, slow), m);
      var x, y := KeptFrom(s.ran, Among(submitted), k, m);
    } else {
      GoneIsCancelled(s, a, slow);
    }
  }

  lemma {:induction false} GoneIsCancelled(s: State, w: nat, slow: bool)
    requires Inv(s) && w in s.requests && w !in Alive(s, slow) && w !in Pending(s, !slow)
    ensures s.requests[w].work == Cancelled || s.cancelling == Some(w)
  {
    assert Tracked(s, w);
    WeighNone(s.ran, Is(w));
    ItemsMembers(s.wq);
    WeighNone(s.wq, IsItem(w));
    WeighNone(s.slowPending, Is(w));
  }

  // ---- Callbacks ----

  function Names(calls: seq<Call>): seq<nat> { seq(|calls|, i requires 0 <= i < |calls| => calls[i].w) }

  /** What the loop has been handed, in order. A request that is cancelled once more is handed over anew. */
  function HandedBy(s: State, a: Action, handed: seq<nat>): seq<nat> {
    match a
    case DoComplete(t) =>
      if t < |s.threads| && s.threads[t].Working? then handed + [s.threads[t].w] else handed
    case DoCancelTake(w) => if Cancellable(s, w) then Without(handed, w) else handed
    case DoCancelPut => if s.cancelling.Some? then handed + [s.cancelling.value] else handed
    case _ => handed
  }

  function Handed(s: State, run: seq<Action>, handed: seq<nat>): seq<nat>
    decreases |run|
  {
    if |run| == 0 then handed else Handed(Step(s, run[0]), run[1..], HandedBy(s, run[0], handed))
  }

  ghost predicate CalledInOrder(s: State, handed: seq<nat>) { handed == Names(s.calls) + s.doneQueue + s.loopQueue }

  lemma {:induction false} CallSame(s: State, s': State, handed: seq<nat>)
    requires CalledInOrder(s, handed)
    requires s'.calls == s.calls && s'.doneQueue == s.doneQueue && s'.loopQueue == s.loopQueue
    ensures CalledInOrder(s', handed)
  {
  }

  lemma {:induction false} CallHanded(s: State, s': State, w: nat, handed: seq<nat>)
    requires CalledInOrder(s, handed)
    requires s'.calls == s.calls && s'.doneQueue == s.doneQueue && s'.loopQueue == s.loopQueue + [w]
    ensures CalledInOrder(s', handed + [w])
  {
  }

  lemma {:induction false} CallCancelled(s: State, w: nat, handed: seq<nat>)
    requires Inv(s) && Enabled(s, DoCancelTake(w)) && CalledInOrder(s, handed) && Cancellable(s, w)
    ensures CalledInOrder(CancelTake(s, w), Without(handed, w))
  {
    WithoutJoin(Names(s.calls) + s.doneQueue, s.loopQueue, w);
    WithoutJoin(Names(s.calls), s.doneQueue, w);
    WithoutAbsent(Names(s.calls), w);
  }

  lemma {:induction false} CallCalled(s: State, handed: seq<nat>)
    requires CalledInOrder(s, handed) && |s.doneQueue| > 0
    ensures CalledInOrder(CallDone(s), handed)
  {
    assert s.doneQueue == [s.doneQueue[0]] + s.doneQueue[1..];
    assert Names(CallDone(s).calls) == Names(s.calls) + [s.doneQueue[0]];
  }

  lemma {:induction false} CallMoved(s: State, handed: seq<nat>)
    requires CalledInOrder(s, handed) && |s.doneQueue| == 0
    ensures CalledInOrder(MoveDone(s), handed)
  {
  }

  lemma {:induction false} CallStep(s: State, a: Action, handed: seq<nat>)
    requires Inv(s) && Enabled(s, a) && CalledInOrder(s, handed)
    ensures CalledInOrder(Step(s, a), HandedBy(s, a, handed))
  {
    var s' := Step(s, a);
    match a
    case DoSubmit(w, slow, wake) => CallSame(s, s', handed);
    case DoEnter(t, wake) =>
      LookCalls(Awake(s, t), t, wake);
      CallSame(s, s', handed);
    case DoWake(t) => CallSame(s, s', handed);
    case DoComplete(t) =>
      CompleteTracked(s, t);
      CallHanded(s, s', s.threads[t].w, handed);
    case DoCancelTake(w) => if Cancellable(s, w) { CallCancelled(s, w, handed); }
    case DoCancelPut =>
      assert Tracked(s, s.cancelling.value);
      CallHanded(s, s', s.cancelling.value, handed);
    case DoMoveDone => CallMoved(s, handed);
    case DoCallDone => CallCalled(s, handed);
  }

  lemma {:induction false} LookCalls(s: State, t: nat, wake: nat)
    requires t < |s.threads| && OneMessage(s.wq)
    ensures var s' := Look(s, t, wake);
      s'.calls == s.calls && s'.doneQueue == s.doneQueue && s'.loopQueue == s.loopQueue
    decreases |s.wq|, if |s.wq| > 0 && s.wq[0].RunSlowWork? then 1 else 0
  {
    if |s.wq| > 0 && s.wq[0].RunSlowWork? && !(s.wq == [RunSlowWork] && s.AtThreshold()) {
      OneMessageRest(s.wq);
      if s.AtThreshold() {
        assert OneMessage(s.wq[1..] + [RunSlowWork]);
        LookCalls(s.(wq := s.wq[1..] + [RunSlowWork], slowLinked := true), t, wake);
      } else if |s.slowPending| == 0 {
        LookCalls(s.(wq := s.wq[1..], slowLinked := false), t, wake);
      }
    }
  }

  lemma {:induction false} CallsFrom(s: State, run: seq<Action>, handed: seq<nat>)
    requires Inv(s) && Allowed(s, run) && CalledInOrder(s, handed)
    ensures CalledInOrder(After(s, run), Handed(s, run, handed))
    decreases |run|
  {
    if |run| > 0 {
      CallStep(s, run[0], handed);
      StepKeeps(s, run[0]);
      CallsFrom(Step(s, run[0]), run[1..], HandedBy(s, run[0], handed));
    }
  }

  /** Over every run the callbacks run in the order in which the loop was handed the requests. */
  lemma {:induction false} CallbacksInOrder(nthreads: nat, run: seq<Action>)
    requires nthreads > 0 && Allowed(Initial(nthreads), run)
    ensures Names(After(Initial(nthreads), run).calls) <= Handed(Initial(nthreads), run, [])
    ensures CalledInOrder(After(Initial(nthreads), run), Handed(Initial(nthreads), run, []))
  {
    InitialOk(nthreads);
    CallsFrom(Initial(nthreads), run, []);
  }
}
