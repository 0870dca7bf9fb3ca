/** The mutex-and-condition queue. First its methods as one thread runs them while
    it holds the mutex; then the protocol they form with any number of producers
    and consumers, with waiting, notifying and waking as separate steps. */
module SharedQueue {
  import opened Wrappers

  /** What arrives during the waits from i up to j. */
  function Arrived<T>(arrivals: seq<seq<T>>, i: nat, j: nat): seq<T> {
    if j <= i || j > |arrivals| then [] else Arrived(arrivals, i, j - 1) + arrivals[j - 1]
  }

  lemma NoArrival<T>(arrivals: seq<seq<T>>, i: nat)
    ensures Arrived(arrivals, i, i) == []
  {
  }

  lemma OneArrival<T>(arrivals: seq<seq<T>>, i: nat)
    requires i < |arrivals|
    ensures Arrived(arrivals, i, i + 1) == arrivals[i]
  {
  }

  /** Nothing but empty waits: nothing has arrived. */
  lemma {:induction false} NoneArrived<T>(arrivals: seq<seq<T>>, i: nat, j: nat)
    requires forall k :: i <= k < j && k < |arrivals| ==> arrivals[k] == []
    ensures Arrived(arrivals, i, j) == []
  {
    if i < j <= |arrivals| {
      NoneArrived(arrivals, i, j - 1);
    }
  }

  lemma {:induction false} ArrivedSplit<T>(arrivals: seq<seq<T>>, i: nat, j: nat, k: nat)
    requires i <= j <= k <= |arrivals|
    ensures Arrived(arrivals, i, k) == Arrived(arrivals, i, j) + Arrived(arrivals, j, k)
  {
    if j < k {
      ArrivedSplit(arrivals, i, j, k - 1);
    }
  }

  lemma {:induction false} SomeArrival<T>(arrivals: seq<seq<T>>, i: nat, j: nat) returns (k: nat)
    requires j <= |arrivals| && Arrived(arrivals, i, j) != []
    ensures i <= k < j && arrivals[k] != []
  {
    if arrivals[j - 1] != [] {
      k := j - 1;
    } else {
      k := SomeArrival(arrivals, i, j - 1);
    }
  }

  lemma SinceFirst<T>(before: seq<T>, after: seq<T>, arrivals: seq<seq<T>>, first: nat, next: nat)
    requires if next == first then after == before
             else before == [] && first < next <= |arrivals| && after == arrivals[next - 1]
                  && forall i :: first <= i < next - 1 ==> arrivals[i] == []
    ensures after == before + Arrived(arrivals, first, next)
  {
    if next == first {
      NoArrival(arrivals, first);
    } else {
      NoneArrived(arrivals, first, next - 1);
    }
  }

  class Queue<T> {
    var items: seq<T>

    constructor ()
      ensures items == []
    {
      items := [];
    }

    method Push(item: T)
      modifies this
      ensures items == old(items) + [item]
    {
      items := items + [item];
    }

    method TryAndPop() returns (r: Option<T>)
      modifies this
      ensures if old(items) == [] then r == None && items == []
              else r == Some(old(items)[0]) && items == old(items)[1..]
    {
      if |items| == 0 {
        return None;
      }
      r := Some(items[0]);
      items := items[1..];
    }

    /** The wait loop. `arrivals[i]` is what other threads push while the mutex is
        given up for the i-th time; nothing at all after a spurious wakeup. */
    method WaitAndPop(arrivals: seq<seq<T>>, first: nat) returns (r: T, next: nat)
      requires items != [] || exists i :: first <= i < |arrivals| && arrivals[i] != []
      modifies this
      ensures if old(items) != [] then next == first && r == old(items)[0] && items == old(items)[1..]
              else
                && first < next <= |arrivals|
                && (forall i :: first <= i < next - 1 ==> arrivals[i] == [])
                && arrivals[next - 1] != [] && r == arrivals[next - 1][0] && items == arrivals[next - 1][1..]
      ensures [r] + items == old(items) + Arrived(arrivals, first, next)
    {
      next := first;
      while |items| == 0
        invariant first <= next
        invariant old(items) != [] ==> next == first && items == old(items)
        invariant next > first ==>
                    next <= |arrivals| && items == arrivals[next - 1]
                    && forall i :: first <= i < next - 1 ==> arrivals[i] == []
        invariant next == first ==> items == old(items)
        invariant items != [] || exists i :: next <= i < |arrivals| && arrivals[i] != []
        decreases |arrivals| - next
      {
        items := items + arrivals[next];
        next := next + 1;
      }
      SinceFirst(old(items), items, arrivals, first, next);
      r := items[0];
      items := items[1..];
    }

    method Empty() returns (b: bool)
      ensures b <==> items == []
    {
      b := |items| == 0;
    }
  }
}

module Monitor {
  import opened Wrappers

  /** Who holds the mutex, and where in its critical section. */
  datatype Holder =
    | Nobody
    | Pushing(tid: nat)      // push: about to enqueue
    | Testing(tid: nat)      // wait_and_pop: about to test for empty
    | Popping(tid: nat)      // wait_and_pop: tested, not empty
    | Peeking(tid: nat)      // try_and_pop: about to test

  /** `notifying`: producers that have enqueued but not yet called notify_one, the one
      still in its critical section included. `waiting`: blocked in wait. `woken`:
      out of wait, not yet holding the mutex again. `enqueued` and `dequeued` are the
      histories of the queue. */
  datatype State<T> = State(
    items: seq<T>, holder: Holder,
    notifying: set<nat>, waiting: set<nat>, woken: set<nat>,
    enqueued: seq<T>, dequeued: seq<T>)

  datatype Label<T> =
    | LockPush(tid: nat) | Enqueue(item: T) | Notify(tid: nat, chosen: nat)
    | LockPop(tid: nat) | Relock(tid: nat) | TestEmpty | Dequeue
    | LockTry(tid: nat) | TryPop
    | Spurious(tid: nat)

  predicate Outside<T>(s: State<T>, tid: nat) {
    tid !in s.notifying && tid !in s.waiting && tid !in s.woken && !(!s.holder.Nobody? && s.holder.tid == tid)
  }

  predicate Enabled<T>(s: State<T>, l: Label<T>) {
    match l
    case LockPush(t) => s.holder.Nobody? && Outside(s, t)
    case Enqueue(_) => s.holder.Pushing? && s.holder.tid !in s.notifying
    case Notify(t, c) => t in s.notifying && (s.waiting != {} ==> c in s.waiting)
    case LockPop(t) => s.holder.Nobody? && Outside(s, t)
    case Relock(t) => s.holder.Nobody? && t in s.woken
    case TestEmpty => s.holder.Testing?
    case Dequeue => s.holder.Popping? && s.items != []
    case LockTry(t) => s.holder.Nobody? && Outside(s, t)
    case TryPop => s.holder.Peeking?
    case Spurious(t) => t in s.waiting
  }

  function Step<T>(s: State<T>, l: Label<T>): State<T>
    requires Enabled(s, l)
  {
    match l
    case LockPush(t) => s.(holder := Pushing(t))
    case Enqueue(x) =>
      // the guard's scope ends here: enqueue and unlock
      s.(items := s.items + [x], enqueued := s.enqueued + [x], notifying := s.notifying + {s.holder.tid}, holder := Nobody)
    case Notify(t, c) =>
      // notify_one outside the mutex: wakes some waiter if there is one
      if s.waiting == {} then s.(notifying := s.notifying - {t})
      else s.(notifying := s.notifying - {t}, waiting := s.waiting - {c}, woken := s.woken + {c})
    case LockPop(t) => s.(holder := Testing(t))
    case Relock(t) => s.(holder := Testing(t), woken := s.woken - {t})
    case TestEmpty =>
      // wait releases the mutex and blocks in one step
      if s.items == [] then s.(holder := Nobody, waiting := s.waiting + {s.holder.tid})
      else s.(holder := Popping(s.holder.tid))
    case Dequeue => s.(items := s.items[1..], dequeued := s.dequeued + [s.items[0]], holder := Nobody)
    case LockTry(t) => s.(holder := Peeking(t))
    case TryPop =>
      if s.items == [] then s.(holder := Nobody)
      else s.(items := s.items[1..], dequeued := s.dequeued + [s.items[0]], holder := Nobody)
    case Spurious(t) => s.(waiting := s.waiting - {t}, woken := s.woken + {t})
  }

  function Init<T>(): State<T> {
    State([], Nobody, {}, {}, {}, [], [])
  }

  function Exec<T>(ls: seq<Label<T>>): Option<State<T>>
    decreases |ls|
  {
    if ls == [] then Some(Init())
    else
      match Exec(ls[..|ls| - 1])
      case Some(s) => if Enabled(s, ls[|ls| - 1]) then Some(Step(s, ls[|ls| - 1])) else None
      case None => None
  }

  /** A consumer that is past its wait or its lock and will test the queue again. */
  function Active(h: Holder): nat {
    if h.Testing? || h.Popping? then 1 else 0
  }

  ghost predicate Inv<T>(s: State<T>) {
    && s.enqueued == s.dequeued + s.items
    && (s.holder.Popping? ==> s.items != [])
    && s.notifying !! s.waiting && s.notifying !! s.woken && s.waiting !! s.woken
    && (!s.holder.Nobody? ==> s.holder.tid !in s.notifying && s.holder.tid !in s.waiting && s.holder.tid !in s.woken)
    && (s.waiting != {} ==> |s.items| <= |s.notifying| + |s.woken| + Active(s.holder))
  }

  lemma InvStep<T>(s: State<T>, l: Label<T>)
    requires Inv(s) && Enabled(s, l)
    ensures Inv(Step(s, l))
  {
    if l.LockPush? || l.LockPop? || l.LockTry? || l.Relock? || l.Spurious? || l.Notify? {
      InvThreads(s, l);
    } else {
      InvItems(s, l);
    }
  }

  lemma InvThreads<T>(s: State<T>, l: Label<T>)
    requires Inv(s) && Enabled(s, l)
    requires l.LockPush? || l.LockPop? || l.LockTry? || l.Relock? || l.Spurious? || l.Notify?
    ensures Inv(Step(s, l))
  {
  }

  lemma InvItems<T>(s: State<T>, l: Label<T>)
    requires Inv(s) && Enabled(s, l)
    requires l.Enqueue? || l.TestEmpty? || l.Dequeue? || l.TryPop?
    ensures Inv(Step(s, l))
  {
  }

  lemma {:induction false} InvRun<T>(ls: seq<Label<T>>)
    requires Exec(ls).Some?
    ensures Inv(Exec(ls).value)
    decreases |ls|
  {
    if ls != [] {
      InvRun(ls[..|ls| - 1]);
      InvStep(Exec(ls[..|ls| - 1]).value, ls[|ls| - 1]);
    }
  }

  /** No lost wakeup, whatever the numbers of producers and consumers and however
      often waits end spuriously: while some consumer waits, every item has a pending
      notification or a consumer on its way back to the test. */
  lemma NoLostWakeup<T>(ls: seq<Label<T>>)
    requires Exec(ls).Some?
    ensures var s := Exec(ls).value;
            s.waiting != {} ==> |s.items| <= |s.notifying| + |s.woken| + Active(s.holder)
  {
    InvRun(ls);
  }

  /** Whoever holds the mutex can go on; if nobody does, a woken consumer or a
      notifier can. */
  lemma HolderStep<T>(s: State<T>, x: T) returns (next: Label<T>)
    requires Inv(s) && (!s.holder.Nobody? || (s.waiting != {} && s.items != []))
    ensures Enabled(s, next) && AtWork(next)
    ensures next.Enqueue? ==> next == Enqueue(x)
    ensures next.Notify? ==> s.holder.Nobody?
  {
    match s.holder {
      case Pushing(_) => next := Enqueue(x);
      case Testing(_) => next := TestEmpty;
      case Popping(_) => next := Dequeue;
      case Peeking(_) => next := TryPop;
      case Nobody =>
        if t :| t in s.woken {
          next := Relock(t);
        } else {
          assert s.woken == {} && s.notifying != {};
          var t :| t in s.notifying;
          var c :| c in s.waiting;
          next := Notify(t, c);
        }
    }
  }

  /** The steps of threads that are inside the queue already: nobody calls it anew,
      and no wait ends spuriously. */
  predicate AtWork<T>(l: Label<T>) {
    l.Notify? || l.Relock? || l.TestEmpty? || l.Dequeue? || l.TryPop? || l.Enqueue?
  }

  /** A bound on how many of them it takes to a wakeup or an empty queue. */
  function Rank<T>(s: State<T>): nat {
    3 * |s.items| +
    match s.holder
    case Nobody => 1
    case Pushing(_) => 5
    case Testing(_) => 0
    case Popping(_) => if s.items == [] then 0 else -1
    case Peeking(_) => if s.items == [] then 0 else -1
  }

  lemma RankStep<T>(s: State<T>, l: Label<T>)
    requires Inv(s) && s.waiting != {} && s.items != [] && Enabled(s, l) && AtWork(l)
    requires s.holder.Nobody? || !l.Notify?
    ensures Rank(s) > 0
    ensures var s' := Step(s, l);
            if l.Notify? then s'.waiting < s.waiting
            else s'.waiting == s.waiting && (s'.items == [] || Rank(s') < Rank(s))
  {
  }

  /** No stranded consumer. If one waits while the queue is not empty, the threads
      that are inside the queue already, with no help from spurious wakeups, can
      bring the run to a point where some waiter has been woken or the queue is empty;
      and they need no more steps than the rank. */
  lemma {:induction false} NotStranded<T>(ls: seq<Label<T>>) returns (ms: seq<Label<T>>)
    requires Exec(ls).Some?
    requires var s := Exec(ls).value; s.waiting != {} && s.items != []
    ensures Exec(ls + ms).Some? && |ms| <= Rank(Exec(ls).value)
    ensures forall i :: 0 <= i < |ms| ==> AtWork(ms[i])
    ensures var r, s := Exec(ls).value, Exec(ls + ms).value;
            s.waiting < r.waiting || (s.waiting == r.waiting && s.items == [])
    decreases Rank(Exec(ls).value)
  {
    hide Exec, Inv, Rank;
    InvRun(ls);
    var r := Exec(ls).value;
    var l := HolderStep(r, r.items[0]);
    var ks, s := Extend(ls, r, l);
    RankStep(r, l);
    if s.waiting == r.waiting && s.items != [] {
      ms := NotStranded(ks);
      assert ls + ([l] + ms) == ks + ms;
      ms := [l] + ms;
    } else {
      ms := [l];
    }
  }

  lemma Extend<T>(ks: seq<Label<T>>, r: State<T>, l: Label<T>) returns (ls: seq<Label<T>>, s: State<T>)
    requires Exec(ks) == Some(r) && Enabled(r, l)
    ensures ls == ks + [l] && s == Step(r, l) && Exec(ls) == Some(s)
  {
    ls, s := ks + [l], Step(r, l);
    assert ls[..|ls| - 1] == ks;
  }

  /** Each step takes at most one item, the oldest, or adds one at the end, and the
      histories record just that: a queue in which every call is atomic. */
  lemma RefinesQueue<T>(s: State<T>, l: Label<T>)
    requires Inv(s) && Enabled(s, l)
    ensures var s' := Step(s, l);
            if l.Enqueue? then
              s'.items == s.items + [l.item] && s'.enqueued == s.enqueued + [l.item] && s'.dequeued == s.dequeued
            else if l.Dequeue? || (l.TryPop? && s.items != []) then
              [s.items[0]] + s'.items == s.items && s'.dequeued == s.dequeued + [s.items[0]] && s'.enqueued == s.enqueued
            else s'.items == s.items && s'.dequeued == s.dequeued && s'.enqueued == s.enqueued
  {
  }

  /** The items pushed in a run, in order. */
  function Pushes<T>(ls: seq<Label<T>>): seq<T> {
    if ls == [] then []
    else Pushes(ls[..|ls| - 1]) + (if ls[|ls| - 1].Enqueue? then [ls[|ls| - 1].item] else [])
  }

  function Pops<T>(ls: seq<Label<T>>): nat {
    if ls == [] then 0
    else Pops(ls[..|ls| - 1]) + (if ls[|ls| - 1].Dequeue? || ls[|ls| - 1].TryPop? then 1 else 0)
  }

  /** Over every run: what has been taken and what is still there, in this order, are
      the items pushed, and each pop has taken one item at most. */
  lemma {:induction false} ItemsAccounted<T>(ls: seq<Label<T>>)
    requires Exec(ls).Some?
    ensures var s := Exec(ls).value; Pushes(ls) == s.dequeued + s.items && |s.dequeued| <= Pops(ls)
    ensures Exec(ls).value.enqueued == Pushes(ls)
    decreases |ls|
  {
    InvRun(ls);
    if ls != [] {
      ItemsAccounted(ls[..|ls| - 1]);
      InvRun(ls[..|ls| - 1]);
      RefinesQueue(Exec(ls[..|ls| - 1]).value, ls[|ls| - 1]);
      hide Inv, Step, Enabled;
    }
  }

  /** Calls are possible: whenever the mutex is free a thread outside the queue can
      push, in three steps of its own. */
  lemma PushPossible<T>(ls: seq<Label<T>>, t: nat, c: nat, x: T) returns (ms: seq<Label<T>>)
    requires Exec(ls).Some?
    requires var s := Exec(ls).value; s.holder.Nobody? && Outside(s, t) && (s.waiting != {} ==> c in s.waiting)
    ensures ms == [LockPush(t), Enqueue(x), Notify(t, c)] && Exec(ls + ms).Some?
    ensures var r, s := Exec(ls).value, Exec(ls + ms).value;
            s.items == r.items + [x] && s.waiting == r.waiting - {c} && s.holder.Nobody? && Outside(s, t)
  {
    hide Exec;
    var ks, s := Extend(ls, Exec(ls).value, LockPush(t));
    ks, s := Extend(ks, s, Enqueue(x));
    ks, s := Extend(ks, s, Notify(t, c));
    ms := [LockPush(t), Enqueue(x), Notify(t, c)];
    assert ls + ms == ks;
  }

  /** Likewise it can take the oldest item; with none there its wait begins. */
  lemma PopPossible<T>(ls: seq<Label<T>>, t: nat) returns (ms: seq<Label<T>>)
    requires Exec(ls).Some?
    requires var s := Exec(ls).value; s.holder.Nobody? && Outside(s, t)
    ensures ms == if Exec(ls).value.items == [] then [LockPop(t), TestEmpty] else [LockPop(t), TestEmpty, Dequeue]
    ensures Exec(ls + ms).Some?
    ensures var r, s := Exec(ls).value, Exec(ls + ms).value;
            && s.holder.Nobody?
            && (if r.items == [] then s.items == [] && s.waiting == r.waiting + {t}
                else [r.items[0]] + s.items == r.items && s.waiting == r.waiting)
  {
    hide Exec;
    var ks, s := Extend(ls, Exec(ls).value, LockPop(t));
    ks, s := Extend(ks, s, TestEmpty);
    ms := [LockPop(t), TestEmpty];
    if Exec(ls).value.items != [] {
      ks, s := Extend(ks, s, Dequeue);
      ms := [LockPop(t), TestEmpty, Dequeue];
    }
    assert ls + ms == ks;
  }

  /** And it can try, which never waits. */
  lemma TryPossible<T>(ls: seq<Label<T>>, t: nat) returns (ms: seq<Label<T>>)
    requires Exec(ls).Some?
    requires var s := Exec(ls).value; s.holder.Nobody? && Outside(s, t)
    ensures ms == [LockTry(t), TryPop] && Exec(ls + ms).Some?
    ensures var r, s := Exec(ls).value, Exec(ls + ms).value;
            s.holder.Nobody? && s.waiting == r.waiting
            && (if r.items == [] then s.items == [] else [r.items[0]] + s.items == r.items)
  {
    hide Exec;
    var ks, s := Extend(ls, Exec(ls).value, LockTry(t));
    ks, s := Extend(ks, s, TryPop);
    ms := [LockTry(t), TryPop];
    assert ls + ms == ks;
  }

  /** What comes out is what went in, in the same order. */
  lemma FifoOverMonitor<T>(ls: seq<Label<T>>)
    requires Exec(ls).Some?
    ensures var s := Exec(ls).value; s.enqueued == s.dequeued + s.items
  {
    InvRun(ls);
  }
}
