/** The active object: one worker that runs the callbacks of a queue in order, and a
    destructor that sends a last message and joins. First the worker's loop as
    code, then the object as a protocol over the monitor queue. */
module ActiveObject {
  import opened Wrappers
  import M = Monitor
  import SharedQueue

  /** A callback of some client, or the destructor's own. */
  datatype Callback = Job(id: nat) | Shutdown

  /** Where the first shutdown message is, or the length if there is none. */
  function FirstShutdown(q: seq<Callback>): (k: nat)
    ensures k <= |q|
    ensures forall i :: 0 <= i < k ==> q[i].Job?
    ensures k < |q| ==> q[k] == Shutdown
  {
    if q == [] || q[0].Shutdown? then 0 else 1 + FirstShutdown(q[1..])
  }

  class Active {
    const mq: SharedQueue.Queue<Callback>
    var finished: bool  // done_
    ghost var executed: seq<Callback>

    constructor ()
      ensures !finished && executed == [] && mq.items == [] && fresh(mq)
    {
      mq := new SharedQueue.Queue();
      finished, executed := false, [];
    }

    method Send(msg: Callback)
      modifies mq
      ensures mq.items == old(mq.items) + [msg]
    {
      mq.Push(msg);
    }

    method RunCallback(f: Callback)
      modifies this
      ensures executed == old(executed) + [f]
      ensures finished == (old(finished) || f.Shutdown?)
    {
      executed := executed + [f];
      if f.Shutdown? {
        finished := true;
      }
    }

    /** The worker's loop. Whatever is queued when it starts and whatever arrives
        while it waits, it runs all that precedes the first shutdown message, that
        message, and nothing more; it ends because that message comes some time. */
    method Run(arrivals: seq<seq<Callback>>) returns (waits: nat)
      requires !finished && Shutdown in mq.items + SharedQueue.Arrived(arrivals, 0, |arrivals|)
      modifies this, mq
      ensures finished && waits <= |arrivals|
      ensures var q := old(mq.items) + SharedQueue.Arrived(arrivals, 0, |arrivals|); var k := FirstShutdown(q);
              k < |q| && executed == old(executed) + q[..k + 1]
      ensures executed + mq.items == old(executed) + old(mq.items) + SharedQueue.Arrived(arrivals, 0, waits)
    {
      hide SharedQueue.Arrived, FirstShutdown;
      ghost var q := mq.items + SharedQueue.Arrived(arrivals, 0, |arrivals|);
      ghost var ran: seq<Callback> := [];
      waits := 0;
      SharedQueue.NoArrival(arrivals, 0);
      while !finished
        modifies this, mq
        invariant waits <= |arrivals|
        invariant executed == old(executed) + ran
        invariant ran + mq.items == old(mq.items) + SharedQueue.Arrived(arrivals, 0, waits)
        invariant q == ran + mq.items + SharedQueue.Arrived(arrivals, waits, |arrivals|)
        invariant finished <==> Shutdown in ran
        invariant forall i :: 0 <= i < |ran| - 1 ==> ran[i].Job?
        decreases |q| - |ran|
      {
        if mq.items == [] {
          assert Shutdown in q && Shutdown !in ran && mq.items == [];
          StillComes(q, ran, SharedQueue.Arrived(arrivals, waits, |arrivals|));
          ghost var _ := SharedQueue.SomeArrival(arrivals, waits, |arrivals|);
        }
        ghost var before, items := waits, mq.items;
        var func: Callback;
        func, waits := mq.WaitAndPop(arrivals, waits);
        TakenInOrder(arrivals, old(mq.items), ran, items, func, mq.items, before, waits);
        RunCallback(func);
        ran := ran + [func];
      }
      StopsAtFirst(q, ran, mq.items + SharedQueue.Arrived(arrivals, waits, |arrivals|));
      assert executed + mq.items == old(executed) + (ran + mq.items);
      assert old(executed) + old(mq.items) + SharedQueue.Arrived(arrivals, 0, waits)
          == old(executed) + (old(mq.items) + SharedQueue.Arrived(arrivals, 0, waits));
    }
  }

  lemma StillComes(q: seq<Callback>, ran: seq<Callback>, rest: seq<Callback>)
    requires q == ran + [] + rest && Shutdown in q && Shutdown !in ran
    ensures rest != []
  {
  }

  /** One more callback taken: it is the next of what was queued and has arrived. */
  lemma TakenInOrder(
    arrivals: seq<seq<Callback>>, start: seq<Callback>, ran: seq<Callback>, items: seq<Callback>,
    func: Callback, items': seq<Callback>, before: nat, waits: nat)
    requires before <= waits <= |arrivals|
    requires ran + items == start + SharedQueue.Arrived(arrivals, 0, before)
    requires [func] + items' == items + SharedQueue.Arrived(arrivals, before, waits)
    ensures ran + [func] + items' == start + SharedQueue.Arrived(arrivals, 0, waits)
    ensures start + SharedQueue.Arrived(arrivals, 0, |arrivals|)
         == ran + [func] + items' + SharedQueue.Arrived(arrivals, waits, |arrivals|)
  {
    SharedQueue.ArrivedSplit(arrivals, 0, before, waits);
    SharedQueue.ArrivedSplit(arrivals, 0, waits, |arrivals|);
    hide SharedQueue.Arrived;
    assert ran + [func] + items' == ran + ([func] + items');
    assert ran + (items + SharedQueue.Arrived(arrivals, before, waits)) == ran + items + SharedQueue.Arrived(arrivals, before, waits);
    assert start + (SharedQueue.Arrived(arrivals, 0, before) + SharedQueue.Arrived(arrivals, before, waits))
        == start + SharedQueue.Arrived(arrivals, 0, before) + SharedQueue.Arrived(arrivals, before, waits);
    assert start + (SharedQueue.Arrived(arrivals, 0, waits) + SharedQueue.Arrived(arrivals, waits, |arrivals|))
        == start + SharedQueue.Arrived(arrivals, 0, waits) + SharedQueue.Arrived(arrivals, waits, |arrivals|);
  }

  lemma StopsAtFirst(q: seq<Callback>, ran: seq<Callback>, rest: seq<Callback>)
    requires q == ran + rest && Shutdown in ran && forall i :: 0 <= i < |ran| - 1 ==> ran[i].Job?
    ensures FirstShutdown(q) == |ran| - 1 && q[..|ran|] == ran
  {
    var k := FirstShutdown(q);
    assert ran[|ran| - 1] == Shutdown;
    assert forall i :: 0 <= i < |ran| ==> q[i] == ran[i];
  }

  // ---------- the protocol ----------

  const WORKER: nat := 0

  datatype Worker = WTest | WWait | WRun(func: Callback) | WExited

  /** `m` is the queue with its mutex and condition variable; `dtor` the thread that
      runs the destructor, once it does. */
  datatype State = State(
    m: M.State<Callback>, w: Worker, finished: bool, executed: seq<Callback>,
    dtor: Option<nat>, joined: bool)

  datatype Label =
    | Queue(l: M.Label<Callback>)   // a step of some thread inside the queue
    | Enter                         // the loop test fails to stop the worker: it calls wait_and_pop
    | Return                        // the callback returns
    | Leave                         // the loop test stops the worker
    | Destroy(tid: nat)
    | Join

  /** Whether the destructor's message has been enqueued. */
  predicate Sent(s: State) {
    Shutdown in s.m.enqueued
  }

  /** Any thread may send at any time, the worker from inside a callback too; the
      destructor's thread sends its one message; only the worker pops. */
  predicate Allowed(s: State, l: M.Label<Callback>) {
    match l
    case LockPush(t) => (t == WORKER ==> s.w.WRun?) && (s.dtor == Some(t) ==> !Sent(s))
    case Enqueue(f) => s.m.holder.Pushing? && (f.Shutdown? <==> s.dtor == Some(s.m.holder.tid))
    case LockPop(t) => t == WORKER && s.w.WWait?
    case LockTry(_) => false
    case _ => true
  }

  predicate Enabled(s: State, l: Label) {
    match l
    case Queue(k) => M.Enabled(s.m, k) && Allowed(s, k)
    case Enter => s.w.WTest? && !s.finished
    case Return => s.w.WRun? && M.Outside(s.m, WORKER)
    case Leave => s.w.WTest? && s.finished
    case Destroy(t) => s.dtor.None? && t != WORKER && M.Outside(s.m, t)
    case Join => s.dtor.Some? && Sent(s) && M.Outside(s.m, s.dtor.value) && s.w.WExited? && !s.joined
  }

  function Step(s: State, l: Label): State
    requires Enabled(s, l)
  {
    match l
    case Queue(k) =>
      var t := s.(m := M.Step(s.m, k));
      if k.Dequeue? then t.(w := WRun(s.m.items[0])) else t
    case Enter => s.(w := WWait)
    case Return => s.(executed := s.executed + [s.w.func], finished := s.finished || s.w.func.Shutdown?, w := WTest)
    case Leave => s.(w := WExited)
    case Destroy(t) => s.(dtor := Some(t))
    case Join => s.(joined := true)
  }

  function Init(): State {
    State(M.Init(), WTest, false, [], None, false)
  }

  function Exec(ls: seq<Label>): Option<State>
    decreases |ls|
  {
    if ls == [] then Some(Init())
    else
      match Exec(ls[..|ls| - 1])
      case Some(s) => if Enabled(s, ls[|ls| - 1]) then Some(Step(s, ls[|ls| - 1])) else None
      case None => None
  }

  /** The worker's state agrees with its place in the queue's protocol. */
  ghost predicate InvWorker(s: State) {
    && (s.w.WTest? || s.w.WExited? ==> M.Outside(s.m, WORKER))
    && (s.w.WWait? ==> WORKER !in s.m.notifying && s.m.holder != M.Pushing(WORKER))
    && (s.w.WRun? ==> WORKER !in s.m.waiting && WORKER !in s.m.woken && !s.m.holder.Testing? && !s.m.holder.Popping?)
    && !s.m.holder.Peeking?
    && (s.m.holder.Testing? || s.m.holder.Popping? ==> s.m.holder.tid == WORKER)
    && (forall t :: t in s.m.waiting || t in s.m.woken ==> t == WORKER)
  }

  /** The destructor's message is unique and comes from its thread. */
  predicate InvShutdown(s: State) {
    && (forall i, j :: 0 <= i < j < |s.m.enqueued| ==> s.m.enqueued[i].Job? || s.m.enqueued[j].Job?)
    && (Sent(s) ==> s.dtor.Some? && s.m.holder != M.Pushing(s.dtor.value))
    && (s.dtor.Some? ==> s.dtor.value != WORKER)
  }

  /** What ran is what was taken out of the queue, and `finished` says that the
      destructor's message was the last of it. */
  predicate InvRan(s: State) {
    && s.m.dequeued == s.executed + (if s.w.WRun? then [s.w.func] else [])
    && (s.finished <==> Shutdown in s.executed)
    && (s.finished ==> s.w.WTest? || s.w.WExited?)
    && (s.finished ==> s.executed != [] && s.executed[|s.executed| - 1] == Shutdown)
    && (s.w.WExited? ==> s.finished)
    && (s.joined ==> s.w.WExited?)
  }

  ghost predicate Inv(s: State) {
    M.Inv(s.m) && InvWorker(s) && InvShutdown(s) && InvRan(s)
  }

  lemma WorkerQueueStep(s: State, k: M.Label<Callback>)
    requires InvWorker(s) && M.Inv(s.m) && Enabled(s, Queue(k))
    ensures InvWorker(Step(s, Queue(k)))
  {
  }

  lemma WorkerStep(s: State, l: Label)
    requires InvWorker(s) && M.Inv(s.m) && Enabled(s, l)
    ensures InvWorker(Step(s, l))
  {
    if l.Queue? {
      WorkerQueueStep(s, l.l);
    }
  }

  lemma ShutdownEnqueue(s: State, f: Callback)
    requires InvShutdown(s) && Enabled(s, Queue(M.Enqueue(f)))
    ensures InvShutdown(Step(s, Queue(M.Enqueue(f))))
  {
    var q, q' := s.m.enqueued, s.m.enqueued + [f];
    assert f.Shutdown? ==> !(Shutdown in q);
    forall i, j | 0 <= i < j < |q'|
      ensures q'[i].Job? || q'[j].Job?
    {
      if j == |q| {
        assert q'[i] in q;
      }
    }
  }

  lemma ShutdownStep(s: State, l: Label)
    requires InvShutdown(s) && M.Inv(s.m) && Enabled(s, l)
    ensures InvShutdown(Step(s, l))
  {
    hide M.Inv;
    if l.Queue? && l.l.Enqueue? {
      hide InvShutdown;
      ShutdownEnqueue(s, l.l.item);
    } else {
      assert Step(s, l).m.enqueued == s.m.enqueued;
    }
  }

  lemma RanStep(s: State, l: Label)
    requires InvWorker(s) && InvRan(s) && M.Inv(s.m) && Enabled(s, l)
    ensures InvRan(Step(s, l))
  {
  }

  lemma InvStep(s: State, l: Label)
    requires Inv(s) && Enabled(s, l)
    ensures Inv(Step(s, l))
  {
    hide M.Inv, InvWorker, InvShutdown, InvRan;
    WorkerStep(s, l);
    ShutdownStep(s, l);
    RanStep(s, l);
    if l.Queue? {
      M.InvStep(s.m, l.l);
    }
  }

  lemma {:induction false} InvRun(ls: seq<Label>)
    requires Exec(ls).Some?
    ensures Inv(Exec(ls).value)
    decreases |ls|
  {
    if ls != [] {
      InvRun(ls[..|ls| - 1]);
      InvStep(Exec(ls[..|ls| - 1]).value, ls[|ls| - 1]);
    }
  }

  // ---------- main results ----------

  /** Over every interleaving of senders the worker has run a prefix of the enqueue
      order, each callback once. */
  lemma RunsInOrder(ls: seq<Label>)
    requires Exec(ls).Some?
    ensures var s := Exec(ls).value;
            && s.executed <= s.m.enqueued
            && s.m.enqueued == s.executed + (if s.w.WRun? then [s.w.func] else []) + s.m.items
  {
    InvRun(ls);
  }

  /** When join has returned, what ran is everything that was enqueued before the
      destructor's message, then that message; whatever was sent later is unrun. */
  lemma DrainedBeforeJoin(ls: seq<Label>)
    requires Exec(ls).Some? && Exec(ls).value.joined
    ensures var s := Exec(ls).value; var k := FirstShutdown(s.m.enqueued);
            && k < |s.m.enqueued|
            && s.executed == s.m.enqueued[..k + 1]
            && s.m.items == s.m.enqueued[k + 1..]
            && (forall i :: 0 <= i < |s.m.items| ==> s.m.items[i].Job?)
  {
    InvRun(ls);
    var s := Exec(ls).value;
    var n, k := |s.executed|, FirstShutdown(s.m.enqueued);
    assert s.m.enqueued[n - 1] == s.executed[n - 1] == Shutdown;
    assert k == n - 1;
  }

  /** The worker runs nothing once it has run the destructor's message. */
  lemma NothingAfterShutdown(ls: seq<Label>, l: Label)
    requires Exec(ls).Some? && Exec(ls).value.finished && Enabled(Exec(ls).value, l)
    ensures Step(Exec(ls).value, l).executed == Exec(ls).value.executed
  {
    InvRun(ls);
  }

  /** Sending is always open: from every state of every run in which the mutex is free,
      also after shutdown, a client, or a callback in the worker, can send, and its
      callback is the last of those enqueued. */
  lemma SendPossible(ls: seq<Label>, t: nat, c: nat, id: nat) returns (ms: seq<Label>)
    requires Exec(ls).Some?
    requires var s := Exec(ls).value;
             && s.m.holder.Nobody? && M.Outside(s.m, t) && (s.m.waiting != {} ==> c in s.m.waiting)
             && s.dtor != Some(t) && (t == WORKER ==> s.w.WRun?)
    ensures ms == [Queue(M.LockPush(t)), Queue(M.Enqueue(Job(id))), Queue(M.Notify(t, c))]
    ensures Exec(ls + ms).Some?
    ensures var r, s := Exec(ls).value, Exec(ls + ms).value;
            && s.m.enqueued == r.m.enqueued + [Job(id)] && s.m.items == r.m.items + [Job(id)]
            && s.executed == r.executed && s.w == r.w && s.finished == r.finished
  {
    hide Exec;
    var ks, s := Extend(ls, Exec(ls).value, Queue(M.LockPush(t)));
    ks, s := Extend(ks, s, Queue(M.Enqueue(Job(id))));
    ks, s := Extend(ks, s, Queue(M.Notify(t, c)));
    ms := [Queue(M.LockPush(t)), Queue(M.Enqueue(Job(id))), Queue(M.Notify(t, c))];
    assert ls + ms == ks;
  }

  /** The steps left to threads that were there when the destructor began: no
      sender comes anew, and the destructor's own message is the only push to begin. */
  predicate NoNewSender(l: Label, dtor: Option<nat>) {
    !l.Destroy? && (l.Queue? ==> !l.l.Spurious? && (l.l.LockPush? ==> Some(l.l.tid) == dtor))
  }

  lemma NextStep(s: State) returns (next: Label)
    requires Inv(s) && s.dtor.Some? && !s.joined
    ensures Enabled(s, next) && NoNewSender(next, s.dtor) && Closer(s, Step(s, next))
  {
    hide InvRan, FirstShutdown;
    var d := s.dtor.value;
    if !s.m.holder.Nobody? {
      var k := M.HolderStep(s.m, if s.m.holder == M.Pushing(d) then Shutdown else Job(0));
      next := Queue(k);
      HolderCloser(s, k);
    } else if t :| t in s.m.woken {
      next := Queue(M.Relock(t));
    } else if t :| t in s.m.notifying {
      next := NotifyStep(s, t);
    } else if !Sent(s) {
      next := Queue(M.LockPush(d));
    } else {
      next := IdleStep(s);
    }
  }

  lemma NotifyStep(s: State, t: nat) returns (next: Label)
    requires Inv(s) && s.dtor.Some? && t in s.m.notifying && s.m.holder.Nobody?
    ensures Enabled(s, next) && NoNewSender(next, s.dtor) && Closer(s, Step(s, next))
  {
    hide InvRan, InvShutdown;
    var c := if s.m.waiting == {} then 0 else WORKER;
    assert s.m.waiting != {} ==> exists b :: b in s.m.waiting;
    next := Queue(M.Notify(t, c));
  }

  /** What shutdown still has to get through, most weighty first: pushes under way or
      to come, items, notifications, the worker's place in its loop. */
  function PushesLeft(s: State): nat {
    if Sent(s) then if s.m.holder.Pushing? then 1 else 0
    else if !s.m.holder.Pushing? then 2
    else if s.dtor == Some(s.m.holder.tid) then 1 else 3
  }

  function Place(s: State): nat {
    match s.w
    case WRun(_) => 5
    case WTest => 4
    case WWait =>
      if s.m.holder.Popping? then 1 else if s.m.holder.Testing? then 2
      else if WORKER in s.m.waiting then 0 else 3
    case WExited => if s.joined then 0 else 1
  }

  ghost predicate Closer(s: State, s': State) {
    (PushesLeft(s), |s.m.items|, |s.m.notifying|, Place(s)
     decreases to PushesLeft(s'), |s'.m.items|, |s'.m.notifying|, Place(s'))
  }

  lemma HolderCloser(s: State, k: M.Label<Callback>)
    requires Inv(s) && s.dtor.Some? && !s.joined && Enabled(s, Queue(k))
    requires k.Enqueue? || k.TestEmpty? || k.Dequeue?
    ensures Closer(s, Step(s, Queue(k)))
  {
  }

  /** Shutdown ends. From any state of any run in which the destructor has begun, the
      threads already there can bring it to the return of join, without a new sender
      and without a spurious wakeup. */
  lemma {:induction false} ShutdownEnds(ls: seq<Label>) returns (ms: seq<Label>)
    requires Exec(ls).Some? && Exec(ls).value.dtor.Some?
    ensures Exec(ls + ms).Some? && Exec(ls + ms).value.joined
    ensures forall i :: 0 <= i < |ms| ==> NoNewSender(ms[i], Exec(ls).value.dtor)
    decreases PushesLeft(Exec(ls).value), |Exec(ls).value.m.items|, |Exec(ls).value.m.notifying|, Place(Exec(ls).value)
  {
    hide Exec, Inv;
    InvRun(ls);
    var r := Exec(ls).value;
    if r.joined {
      ms := [];
      assert ls + ms == ls;
    } else {
      var l := NextStep(r);
      var ks, s := Extend(ls, r, l);
      ms := ShutdownEnds(ks);
      assert ls + ([l] + ms) == ks + ms;
      ms := [l] + ms;
    }
  }

  lemma Extend(ks: seq<Label>, r: State, l: Label) returns (ls: seq<Label>, s: State)
    requires Exec(ks) == Some(r) && Enabled(r, l)
    ensures ls == ks + [l] && s == Step(r, l) && Exec(ls) == Some(s)
    ensures r.dtor.Some? ==> s.dtor == r.dtor
  {
    ls, s := ks + [l], Step(r, l);
    assert ls[..|ls| - 1] == ks;
  }

  /** With nobody inside the queue and the message sent, the worker can move: were it
      still waiting, its wakeup would have been lost. */
  lemma IdleStep(s: State) returns (next: Label)
    requires Inv(s) && Sent(s) && !s.joined
    requires s.m.holder.Nobody? && s.m.woken == {} && s.m.notifying == {}
    ensures Enabled(s, next) && NoNewSender(next, None) && Closer(s, Step(s, next))
  {
    match s.w {
      case WTest => next := if s.finished then Leave else Enter;
      case WRun(_) => next := Return;
      case WExited => next := Join;
      case WWait =>
        assert Shutdown in s.executed + s.m.items;
        next := Queue(M.LockPop(WORKER));
    }
  }
}
