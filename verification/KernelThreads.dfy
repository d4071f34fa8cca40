/** Scheduler queues (sched.c) and hand-off mutexes (kmutex.c) as a value, and what holds in every
    run of the kernel's threads. */
module KernelThreads {
  import opened Basics
  import opened Lists

  datatype ThreadState = NoState | Running | Sleeping | SleepingCancellable | Exited

  const RUNQ: nat := 0      // kt_runq

  /** Queues and threads by number. A queue with its size, newest thread first; for each thread the
      queue it waits on (kt_wchan), its state, its cancelled flag and the mutex whose lock call it is
      in; for each mutex, named by its wait queue, the holder. No thread is current while
      sched_switch waits for the run queue to fill. */
  datatype Kernel = Kernel(
    queues: map<nat, seq<nat>>, sizes: map<nat, int>, wchan: map<nat, Option<nat>>, states: map<nat, ThreadState>,
    cancelled: set<nat>, want: map<nat, Option<nat>>, holder: map<nat, Option<nat>>, cur: Option<nat>)

  function Queue(k: Kernel, q: nat): seq<nat> {
    if q in k.queues then k.queues[q] else []
  }

  function Size(k: Kernel, q: nat): int {
    if q in k.sizes then k.sizes[q] else 0
  }

  function Wchan(k: Kernel, t: nat): Option<nat> {
    if t in k.wchan then k.wchan[t] else None
  }

  function StateOf(k: Kernel, t: nat): ThreadState {
    if t in k.states then k.states[t] else NoState
  }

  function Want(k: Kernel, t: nat): Option<nat> {
    if t in k.want then k.want[t] else None
  }

  function Holder(k: Kernel, m: nat): Option<nat> {
    if m in k.holder then k.holder[m] else None
  }

  function Last(s: seq<nat>): nat
    requires s != []
  {
    s[|s| - 1]
  }

  function ButLast(s: seq<nat>): seq<nat>
    requires s != []
  {
    s[..|s| - 1]
  }

  // ---- ktqueue_enqueue, ktqueue_dequeue, ktqueue_remove ----

  function Enqueue(k: Kernel, q: nat, t: nat): Kernel {
    k.(queues := k.queues[q := [t] + Queue(k, q)], wchan := k.wchan[t := Some(q)],
      sizes := k.sizes[q := Size(k, q) + 1])
  }

  function Dequeue(k: Kernel, q: nat): Kernel
    requires Queue(k, q) != []
  {
    k.(queues := k.queues[q := ButLast(Queue(k, q))], wchan := k.wchan[Last(Queue(k, q)) := None],
       sizes := k.sizes[q := Size(k, q) - 1])
  }

  function Remove(k: Kernel, q: nat, t: nat): Kernel {
    k.(queues := k.queues[q := Unlink(Queue(k, q), t)], wchan := k.wchan[t := None],
      sizes := k.sizes[q := Size(k, q) - 1])
  }

  /** A thread is on at most one queue, once, the one its wait channel names; sizes are lengths. */
  ghost predicate QueuesOk(k: Kernel) {
    && (forall q: nat, t: nat {:trigger t in Queue(k, q)} :: t in Queue(k, q) <==> Wchan(k, t) == Some(q))
    && (forall q {:trigger Queue(k, q)} :: Distinct(Queue(k, q)) && Size(k, q) == |Queue(k, q)|)
  }

  lemma EnqueueOk(k: Kernel, q: nat, t: nat)
    requires QueuesOk(k) && Wchan(k, t).None?
    ensures QueuesOk(Enqueue(k, q, t))
  {
    assert t !in Queue(k, q);
    DistinctAdd(Queue(k, q), t);
    var k' := Enqueue(k, q, t);
    forall p: nat, u: nat ensures u in Queue(k', p) <==> Wchan(k', u) == Some(p) {
      assert u in Queue(k, p) <==> Wchan(k, u) == Some(p);
    }
    forall p ensures Distinct(Queue(k', p)) && Size(k', p) == |Queue(k', p)| {
      assert Distinct(Queue(k, p)) && Size(k, p) == |Queue(k, p)|;
    }
  }

  lemma ButLastDistinct(s: seq<nat>)
    requires s != [] && Distinct(s)
    ensures Distinct(ButLast(s)) && forall x :: x in ButLast(s) <==> x in s && x != Last(s)
  {
    assert s == ButLast(s) + [Last(s)];
  }

  lemma DequeueOk(k: Kernel, q: nat)
    requires QueuesOk(k) && Queue(k, q) != []
    ensures QueuesOk(Dequeue(k, q)) && Wchan(k, Last(Queue(k, q))) == Some(q)
  {
    assert Distinct(Queue(k, q));
    ButLastDistinct(Queue(k, q));
    assert Last(Queue(k, q)) in Queue(k, q);
    var k' := Dequeue(k, q);
    forall p: nat, u: nat ensures u in Queue(k', p) <==> Wchan(k', u) == Some(p) {
      assert u in Queue(k, p) <==> Wchan(k, u) == Some(p);
    }
    forall p ensures Distinct(Queue(k', p)) && Size(k', p) == |Queue(k', p)| {
      assert Distinct(Queue(k, p)) && Size(k, p) == |Queue(k, p)|;
    }
  }

  lemma RemoveOk(k: Kernel, q: nat, t: nat)
    requires QueuesOk(k) && Wchan(k, t) == Some(q)
    ensures QueuesOk(Remove(k, q, t))
  {
    assert Distinct(Queue(k, q)) && t in Queue(k, q);
    UnlinkRemoves(Queue(k, q), t);
    var k' := Remove(k, q, t);
    forall p: nat, u: nat ensures u in Queue(k', p) <==> Wchan(k', u) == Some(p) {
      assert u in Queue(k, p) <==> Wchan(k, u) == Some(p);
    }
    forall p ensures Distinct(Queue(k', p)) && Size(k', p) == |Queue(k', p)| {
      assert Distinct(Queue(k, p)) && Size(k, p) == |Queue(k, p)|;
    }
  }

  // ---- The operations of the current thread, of interrupts, and of sched_cancel ----

  function SetState(k: Kernel, t: nat, s: ThreadState): Kernel {
    k.(states := k.states[t := s])
  }

  /** sched_sleep_on and sched_cancellable_sleep_on up to the switch */
  function Sleep(k: Kernel, q: nat, s: ThreadState): Kernel
    requires k.cur.Some?
  {
    Enqueue(SetState(k, k.cur.value, s), q, k.cur.value).(cur := None)
  }

  /** The beginning of sched_switch: the current thread goes, wherever it may be queued */
  function Leave(k: Kernel): Kernel {
    k.(cur := None)
  }

  /** kthread_exit, which sched_switch follows */
  function Exit(k: Kernel): Kernel
    requires k.cur.Some?
  {
    SetState(k, k.cur.value, Exited)
  }

  /** The rest of sched_switch: the oldest thread on the run queue becomes current. If it was in a lock
      call, that call returns. */
  function Dispatch(k: Kernel): Kernel
    requires Queue(k, RUNQ) != []
  {
    var t := Last(Queue(k, RUNQ));
    SetState(Dequeue(k, RUNQ), t, Running).(cur := Some(t), want := k.want[t := None])
  }

  /** sched_wakeup_on */
  function Wakeup(k: Kernel, q: nat): Kernel {
    if Queue(k, q) == [] then k
    else Enqueue(SetState(Dequeue(k, q), Last(Queue(k, q)), Running), RUNQ, Last(Queue(k, q)))
  }

  /** sched_make_runnable; the thread of the idle process is not queued */
  function MakeRunnable(k: Kernel, t: nat, idle: set<nat>): Kernel {
    if t in idle then SetState(k, t, Running) else Enqueue(SetState(k, t, Running), RUNQ, t)
  }

  /** sched_cancel of a thread that has started and not exited */
  function Cancel(k: Kernel, t: nat, idle: set<nat>): Kernel {
    var k1 := k.(cancelled := k.cancelled + {t});
    if StateOf(k, t) == SleepingCancellable && Wchan(k, t).Some?
    then MakeRunnable(Remove(k1, Wchan(k, t).value, t), t, idle) else k1
  }

  /** kmutex_lock up to its return or its switch */
  function Lock(k: Kernel, m: nat): Kernel
    requires k.cur.Some?
  {
    if Holder(k, m).None? then k.(holder := k.holder[m := k.cur])
    else Sleep(k.(want := k.want[k.cur.value := Some(m)]), m, Sleeping)
  }

  /** kmutex_unlock: the oldest waiter becomes the holder */
  function Unlock(k: Kernel, m: nat): Kernel {
    if Holder(k, m) != k.cur then k
    else
      var next := if Queue(k, m) == [] then None else Some(Last(Queue(k, m)));
      Wakeup(k, m).(holder := k.holder[m := next])
  }

  // ---- The invariant ----

  /** Waiters only behind a holder, who does not wait for what it holds. */
  ghost predicate MutexOk(k: Kernel, m: nat) {
    && (Queue(k, m) != [] ==> Holder(k, m).Some?)
    && (Holder(k, m).Some? ==> Wchan(k, Holder(k, m).value) != Some(m))
    && m != RUNQ
  }

  /** A thread in a lock call waits for the mutex, or holds it and is about to run; threads that wait for a
      mutex are in its lock call. Threads on the run queue run, threads on other queues sleep. The current
      thread is on no queue but the run queue. */
  ghost predicate ThreadOk(k: Kernel, t: nat, mutexes: set<nat>) {
    && (Want(k, t).Some? ==>
          var m := Want(k, t).value;
          m in mutexes && (Wchan(k, t) == Some(m) || (Holder(k, m) == Some(t) && Wchan(k, t) == Some(RUNQ))))
    && (Wchan(k, t).Some? && Wchan(k, t).value in mutexes ==> Want(k, t) == Wchan(k, t) && StateOf(k, t) == Sleeping)
    && (Wchan(k, t) == Some(RUNQ) ==> StateOf(k, t) == Running)
    && (Wchan(k, t).Some? && Wchan(k, t) != Some(RUNQ) ==> StateOf(k, t) in {Sleeping, SleepingCancellable})
    && (k.cur == Some(t) ==> Wchan(k, t) in {None, Some(RUNQ)} && Want(k, t).None?)
  }

  ghost predicate MutexesOk(k: Kernel, mutexes: set<nat>) {
    && (forall m {:trigger MutexOk(k, m)} :: m in mutexes ==> MutexOk(k, m))
    && (forall t {:trigger ThreadOk(k, t, mutexes)} :: ThreadOk(k, t, mutexes))
  }

  ghost predicate KernelOk(k: Kernel, mutexes: set<nat>) {
    QueuesOk(k) && MutexesOk(k, mutexes)
  }

  /** All queues but those named are as before. */
  ghost predicate OnlyQueues(k: Kernel, k': Kernel, qs: set<nat>) {
    forall q {:trigger Queue(k', q)} :: q !in qs ==> Queue(k', q) == Queue(k, q)
  }

  /** The current thread waits behind all others of the queue. */
  lemma SleepOk(k: Kernel, q: nat, s: ThreadState, mutexes: set<nat>)
    requires KernelOk(k, mutexes) && k.cur.Some? && Wchan(k, k.cur.value).None? && q !in mutexes && q != RUNQ
    requires s in {Sleeping, SleepingCancellable}
    ensures var k' := Sleep(k, q, s);
      KernelOk(k', mutexes) && Queue(k', q) == [k.cur.value] + Queue(k, q) && OnlyQueues(k, k', {q})
  {
    var t := k.cur.value;
    assert ThreadOk(k, t, mutexes);
    var k1 := SetState(k, t, s);
    assert QueuesOk(k1) by { SameQueues(k, k1); }
    EnqueueOk(k1, q, t);
    var k' := Sleep(k, q, s);
    SameQueues(Enqueue(k1, q, t), k');
    forall m | m in mutexes ensures MutexOk(k', m) {
      assert MutexOk(k, m);
      assert Queue(k', m) == Queue(k, m);
    }
    forall u ensures ThreadOk(k', u, mutexes) {
      assert ThreadOk(k, u, mutexes);
    }
  }

  /** A thread may switch away at any time; one that is on the run queue by then will run again. */
  lemma LeaveOk(k: Kernel, mutexes: set<nat>)
    requires KernelOk(k, mutexes)
    ensures KernelOk(Leave(k), mutexes) && OnlyQueues(k, Leave(k), {})
  {
    var k' := Leave(k);
    SameQueues(k, k');
    forall m | m in mutexes ensures MutexOk(k', m) {
      assert MutexOk(k, m);
    }
    forall u ensures ThreadOk(k', u, mutexes) {
      assert ThreadOk(k, u, mutexes);
    }
  }

  lemma ExitOk(k: Kernel, mutexes: set<nat>)
    requires KernelOk(k, mutexes) && k.cur.Some? && Wchan(k, k.cur.value).None?
    ensures KernelOk(Exit(k), mutexes) && OnlyQueues(k, Exit(k), {})
  {
    var k' := Exit(k);
    SameQueues(k, k');
    forall m | m in mutexes ensures MutexOk(k', m) {
      assert MutexOk(k, m);
    }
    forall u ensures ThreadOk(k', u, mutexes) {
      assert ThreadOk(k, u, mutexes);
    }
  }

  lemma SameQueues(k: Kernel, k': Kernel)
    requires QueuesOk(k) && k'.queues == k.queues && k'.sizes == k.sizes && k'.wchan == k.wchan
    ensures QueuesOk(k')
  {
    forall q: nat, t: nat ensures t in Queue(k', q) <==> Wchan(k', t) == Some(q) {
      assert t in Queue(k, q) <==> Wchan(k, t) == Some(q);
    }
    forall q ensures Distinct(Queue(k', q)) && Size(k', q) == |Queue(k', q)| {
      assert Distinct(Queue(k, q)) && Size(k, q) == |Queue(k, q)|;
    }
  }

  lemma DispatchOk(k: Kernel, mutexes: set<nat>)
    requires KernelOk(k, mutexes) && k.cur.None? && Queue(k, RUNQ) != []
    ensures KernelOk(Dispatch(k), mutexes)
    ensures var t := Last(Queue(k, RUNQ)); Want(k, t).Some? ==> Holder(k, Want(k, t).value) == Some(t)
    ensures Queue(Dispatch(k), RUNQ) == ButLast(Queue(k, RUNQ)) && OnlyQueues(k, Dispatch(k), {RUNQ})
  {
    var t, k' := Last(Queue(k, RUNQ)), Dispatch(k);
    DequeueOk(k, RUNQ);
    SameQueues(Dequeue(k, RUNQ), k');
    assert ThreadOk(k, t, mutexes);
    assert Want(k, t).Some? ==> MutexOk(k, Want(k, t).value);
    forall m | m in mutexes ensures MutexOk(k', m) {
      assert MutexOk(k, m);
      assert Queue(k', m) == Queue(k, m);
    }
    forall u ensures ThreadOk(k', u, mutexes) {
      assert ThreadOk(k, u, mutexes);
    }
  }

  /** Moving the oldest thread of a queue to the run queue. */
  lemma WakeupQueues(k: Kernel, q: nat)
    requires QueuesOk(k)
    ensures QueuesOk(Wakeup(k, q))
    ensures Queue(k, q) != [] && q != RUNQ ==> Queue(Wakeup(k, q), q) == ButLast(Queue(k, q))
    ensures forall p :: p != q && p != RUNQ ==> Queue(Wakeup(k, q), p) == Queue(k, p)
    ensures forall t ::
      Wchan(Wakeup(k, q), t) == if Queue(k, q) != [] && t == Last(Queue(k, q)) then Some(RUNQ) else Wchan(k, t)
    ensures Queue(k, q) != [] ==> Wchan(k, Last(Queue(k, q))) == Some(q)
  {
    if Queue(k, q) != [] {
      DequeueOk(k, q);
      var t := Last(Queue(k, q));
      var k1 := SetState(Dequeue(k, q), t, Running);
      SameQueues(Dequeue(k, q), k1);
      EnqueueOk(k1, RUNQ, t);
    }
  }

  /** The thread woken is the one that slept longest, and it did sleep, as the source asserts. */
  lemma WakeupOk(k: Kernel, q: nat, mutexes: set<nat>)
    requires KernelOk(k, mutexes) && q !in mutexes && q != RUNQ
    ensures KernelOk(Wakeup(k, q), mutexes) && OnlyQueues(k, Wakeup(k, q), {q, RUNQ})
    ensures Queue(k, q) != [] ==> var t, k' := Last(Queue(k, q)), Wakeup(k, q);
      && StateOf(k, t) in {Sleeping, SleepingCancellable}
      && Queue(k', q) == ButLast(Queue(k, q)) && Queue(k', RUNQ) == [t] + Queue(k, RUNQ)
  {
    WakeupQueues(k, q);
    var k' := Wakeup(k, q);
    if Queue(k, q) != [] {
      assert ThreadOk(k, Last(Queue(k, q)), mutexes);
    }
    forall m | m in mutexes ensures MutexOk(k', m) {
      assert MutexOk(k, m);
    }
    forall u ensures ThreadOk(k', u, mutexes) {
      assert ThreadOk(k, u, mutexes);
    }
  }

  /** A thread that nothing happened to, or that became runnable. */
  lemma ThreadStays(k: Kernel, k': Kernel, u: nat, mutexes: set<nat>)
    requires ThreadOk(k, u, mutexes) && RUNQ !in mutexes && k'.holder == k.holder && k'.want == k.want &&
      k'.cur == k.cur
    requires
      || (Wchan(k', u) == Wchan(k, u) && StateOf(k', u) == StateOf(k, u))
      || (Want(k, u).None? && Wchan(k', u) in {None, Some(RUNQ)} && StateOf(k', u) == Running)
    ensures ThreadOk(k', u, mutexes)
  {
  }

  /** Any thread on no queue can be made runnable, the current one too. */
  lemma MakeRunnableOk(k: Kernel, t: nat, idle: set<nat>, mutexes: set<nat>)
    requires KernelOk(k, mutexes) && Wchan(k, t).None?
    ensures KernelOk(MakeRunnable(k, t, idle), mutexes) && OnlyQueues(k, MakeRunnable(k, t, idle), {RUNQ})
    ensures Queue(MakeRunnable(k, t, idle), RUNQ) == (if t in idle then [] else [t]) + Queue(k, RUNQ)
  {
    var k1, k' := SetState(k, t, Running), MakeRunnable(k, t, idle);
    SameQueues(k, k1);
    EnqueueOk(k1, RUNQ, t);
    forall m | m in mutexes ensures MutexOk(k', m) {
      assert MutexOk(k, m);
      assert Queue(k', m) == Queue(k, m);
    }
    assert RUNQ in mutexes ==> MutexOk(k, RUNQ);
    assert ThreadOk(k, t, mutexes);
    forall u ensures ThreadOk(k', u, mutexes) {
      assert ThreadOk(k, u, mutexes);
      ThreadStays(k, k', u, mutexes);
    }
  }

  lemma CancelOk(k: Kernel, t: nat, idle: set<nat>, mutexes: set<nat>)
    requires KernelOk(k, mutexes)
    ensures KernelOk(Cancel(k, t, idle), mutexes) && t in Cancel(k, t, idle).cancelled
    ensures StateOf(k, t) != SleepingCancellable ==> OnlyQueues(k, Cancel(k, t, idle), {})
    ensures StateOf(k, t) == SleepingCancellable && Wchan(k, t).Some? ==>
      var q, k' := Wchan(k, t).value, Cancel(k, t, idle);
      && q != RUNQ && q !in mutexes && Queue(k', q) == Unlink(Queue(k, q), t)
      && Queue(k', RUNQ) == (if t in idle then [] else [t]) + Queue(k, RUNQ) && OnlyQueues(k, k', {q, RUNQ})
  {
    var k1 := k.(cancelled := k.cancelled + {t});
    SameQueues(k, k1);
    assert MutexesOk(k1, mutexes) by { SameMutexes(k, k1, mutexes); }
    assert ThreadOk(k, t, mutexes);
    if StateOf(k, t) == SleepingCancellable && Wchan(k, t).Some? {
      var q := Wchan(k, t).value;
      var k2 := Remove(k1, q, t);
      RemoveOk(k1, q, t);
      forall m | m in mutexes ensures MutexOk(k2, m) {
        assert MutexOk(k1, m);
        assert Queue(k2, m) == Queue(k1, m);
      }
      forall u ensures ThreadOk(k2, u, mutexes) {
        assert ThreadOk(k1, u, mutexes);
      }
      MakeRunnableOk(k2, t, idle, mutexes);
    }
  }

  lemma SameMutexes(k: Kernel, k': Kernel, mutexes: set<nat>)
    requires MutexesOk(k, mutexes) && k' == k.(cancelled := k'.cancelled)
    ensures MutexesOk(k', mutexes)
  {
    forall m | m in mutexes ensures MutexOk(k', m) {
      assert MutexOk(k, m);
    }
    forall u ensures ThreadOk(k', u, mutexes) {
      assert ThreadOk(k, u, mutexes);
    }
  }

  /** kmutex_lock: a free mutex is taken at once; otherwise the thread waits behind the others. */
  lemma LockOk(k: Kernel, m: nat, mutexes: set<nat>)
    requires KernelOk(k, mutexes) && k.cur.Some? && m in mutexes && Holder(k, m) != k.cur
    requires Holder(k, m).Some? ==> Wchan(k, k.cur.value).None?
    ensures KernelOk(Lock(k, m), mutexes)
    ensures Holder(k, m).None? ==>
      Holder(Lock(k, m), m) == k.cur == Lock(k, m).cur && OnlyQueues(k, Lock(k, m), {})
    ensures Holder(k, m).Some? ==> var k' := Lock(k, m);
      && Holder(k', m) == Holder(k, m) && k'.cur.None?
      && Queue(k', m) == [k.cur.value] + Queue(k, m) && OnlyQueues(k, k', {m})
  {
    var t, k' := k.cur.value, Lock(k, m);
    assert ThreadOk(k, t, mutexes) && MutexOk(k, m);
    if Holder(k, m).Some? {
      var k1 := SetState(k.(want := k.want[t := Some(m)]), t, Sleeping);
      SameQueues(k, k1);
      EnqueueOk(k1, m, t);
      SameQueues(Enqueue(k1, m, t), k');
    } else {
      SameQueues(k, k');
    }
    forall n | n in mutexes ensures MutexOk(k', n) {
      assert MutexOk(k, n);
      assert n != m ==> Queue(k', n) == Queue(k, n);
    }
    forall u ensures ThreadOk(k', u, mutexes) {
      assert ThreadOk(k, u, mutexes);
      assert Want(k, u).Some? ==> MutexOk(k, Want(k, u).value);
    }
  }

  lemma UnlockMutexes(k: Kernel, m: nat, mutexes: set<nat>, n: nat)
    requires KernelOk(k, mutexes) && m in mutexes && n in mutexes && Holder(k, m) == k.cur && k.cur.Some?
    ensures MutexOk(Unlock(k, m), n)
  {
    WakeupQueues(k, m);
    assert MutexOk(k, m) && MutexOk(k, n);
    if Queue(k, m) != [] {
      var t := Last(Queue(k, m));
      assert ThreadOk(k, t, mutexes);
    }
  }

  lemma UnlockThreads(k: Kernel, m: nat, mutexes: set<nat>, u: nat)
    requires KernelOk(k, mutexes) && m in mutexes && Holder(k, m) == k.cur && k.cur.Some?
    ensures ThreadOk(Unlock(k, m), u, mutexes)
  {
    WakeupQueues(k, m);
    assert ThreadOk(k, u, mutexes) && ThreadOk(k, k.cur.value, mutexes) && MutexOk(k, m);
    assert RUNQ in mutexes ==> MutexOk(k, RUNQ);
    if Queue(k, m) != [] {
      assert ThreadOk(k, Last(Queue(k, m)), mutexes);
    }
  }

  /** kmutex_unlock: the holder hands the mutex to the oldest waiter, who is put on the run queue; without
      waiters it becomes free. Anyone else's call does nothing. */
  lemma UnlockOk(k: Kernel, m: nat, mutexes: set<nat>)
    requires KernelOk(k, mutexes) && k.cur.Some? && m in mutexes
    ensures KernelOk(Unlock(k, m), mutexes)
    ensures Holder(k, m) == k.cur ==>
      Holder(Unlock(k, m), m) == if Queue(k, m) == [] then None else Some(Last(Queue(k, m)))
    ensures Holder(k, m) == k.cur && Queue(k, m) != [] ==> var t, k' := Last(Queue(k, m)), Unlock(k, m);
      Queue(k', m) == ButLast(Queue(k, m)) && Queue(k', RUNQ) == [t] + Queue(k, RUNQ)
    ensures OnlyQueues(k, Unlock(k, m), {m, RUNQ}) && (Holder(k, m) != k.cur ==> Unlock(k, m) == k)
  {
    assert MutexOk(k, m);
    if Holder(k, m) == k.cur {
      var k' := Unlock(k, m);
      WakeupQueues(k, m);
      SameQueues(Wakeup(k, m), k');
      forall n | n in mutexes ensures MutexOk(k', n) {
        UnlockMutexes(k, m, mutexes, n);
      }
      forall u ensures ThreadOk(k', u, mutexes) {
        UnlockThreads(k, m, mutexes, u);
      }
    }
  }

  // ---- Runs ----

  /** Which queues are mutexes, and the threads of the idle process. */
  datatype Setting = Setting(mutexes: set<nat>, idle: set<nat>)

  datatype Op =
    | DoLock(m: nat) | DoUnlock(m: nat)             // by the current thread
    | DoSleep(q: nat, cancellable: bool)            // sched_sleep_on, sched_cancellable_sleep_on
    | DoExit                                        // kthread_exit
    | DoLeave | DoDispatch                          // sched_switch, before and after it waits
    | DoWakeup(q: nat)                              // sched_wakeup_on, by a thread or an interrupt
    | DoMakeRunnable(t: nat) | DoCancel(t: nat)

  /** What the assertions of the source ask for: a thread that goes to a queue is on none, the holder of a
      mutex does not lock it again. Only mutexes use their wait queues. */
  ghost predicate CanDo(s: Setting, k: Kernel, op: Op) {
    match op
    case DoLock(m) => k.cur.Some? && m in s.mutexes && Holder(k, m) != k.cur
                      && (Holder(k, m).Some? ==> Wchan(k, k.cur.value).None?)
    case DoUnlock(m) => k.cur.Some? && m in s.mutexes
    case DoSleep(q, _) => k.cur.Some? && Wchan(k, k.cur.value).None? && q !in s.mutexes && q != RUNQ
    case DoExit => k.cur.Some? && Wchan(k, k.cur.value).None?
    case DoLeave => k.cur.Some?
    case DoDispatch => k.cur.None? && Queue(k, RUNQ) != []
    case DoWakeup(q) => q !in s.mutexes && q != RUNQ
    case DoMakeRunnable(t) => Wchan(k, t).None?
    case DoCancel(t) => StateOf(k, t) != NoState && StateOf(k, t) != Exited
  }

  ghost function Do(s: Setting, k: Kernel, op: Op): Kernel
    requires CanDo(s, k, op)
  {
    match op
    case DoLock(m) => Lock(k, m)
    case DoUnlock(m) => Unlock(k, m)
    case DoSleep(q, cancellable) => Sleep(k, q, if cancellable then SleepingCancellable else Sleeping)
    case DoExit => Exit(k)
    case DoLeave => Leave(k)
    case DoDispatch => Dispatch(k)
    case DoWakeup(q) => Wakeup(k, q)
    case DoMakeRunnable(t) => MakeRunnable(k, t, s.idle)
    case DoCancel(t) => Cancel(k, t, s.idle)
  }

  ghost predicate Goes(s: Setting, k: Kernel, op: Op, k': Kernel) {
    CanDo(s, k, op) && k' == Do(s, k, op)
  }

  lemma StepKeeps(s: Setting, k: Kernel, op: Op, k': Kernel)
    requires KernelOk(k, s.mutexes) && Goes(s, k, op, k')
    ensures KernelOk(k', s.mutexes)
  {
    match op
    case DoLock(m) => LockOk(k, m, s.mutexes);
    case DoUnlock(m) => UnlockOk(k, m, s.mutexes);
    case DoSleep(q, cancellable) => SleepOk(k, q, if cancellable then SleepingCancellable else Sleeping, s.mutexes);
    case DoExit => ExitOk(k, s.mutexes);
    case DoLeave => LeaveOk(k, s.mutexes);
    case DoDispatch => DispatchOk(k, s.mutexes);
    case DoWakeup(q) => WakeupOk(k, q, s.mutexes);
    case DoMakeRunnable(t) => MakeRunnableOk(k, t, s.idle, s.mutexes);
    case DoCancel(t) => CancelOk(k, t, s.idle, s.mutexes);
  }

  /** Nothing queued, nothing held, thread t running. */
  function Boot(t: nat): Kernel {
    Kernel(map[], map[], map[], map[t := Running], {}, map[], map[], Some(t))
  }

  lemma BootOk(t: nat, mutexes: set<nat>)
    requires RUNQ !in mutexes
    ensures KernelOk(Boot(t), mutexes)
  {
  }

  ghost predicate Run(s: Setting, ks: seq<Kernel>, ops: seq<Op>, t: nat) {
    && RUNQ !in s.mutexes && |ks| == |ops| + 1 && ks[0] == Boot(t)
    && forall i :: 0 <= i < |ops| ==> Goes(s, ks[i], ops[i], ks[i + 1])
  }

  /** In every run: a thread is on at most one queue, named by kt_wchan, tq_size is the queue's length,
      waiters imply a holder, and the holder does not wait for what it holds. */
  lemma {:induction false} RunKeeps(s: Setting, ks: seq<Kernel>, ops: seq<Op>, t: nat, i: nat)
    requires Run(s, ks, ops, t) && i < |ks|
    ensures KernelOk(ks[i], s.mutexes)
  {
    if i > 0 {
      RunKeeps(s, ks, ops, t, i - 1);
      assert Goes(s, ks[i - 1], ops[i - 1], ks[i]);
      StepKeeps(s, ks[i - 1], ops[i - 1], ks[i]);
    }
  }

  /** A thread that returns from the lock call of m, at once or when it is dispatched, holds m. */
  lemma ReturnsHolding(s: Setting, ks: seq<Kernel>, ops: seq<Op>, t: nat, i: nat, m: nat)
    requires Run(s, ks, ops, t) && i < |ops|
    ensures ops[i] == DoLock(m) && ks[i + 1].cur.Some? ==> Holder(ks[i + 1], m) == ks[i + 1].cur
    ensures ops[i] == DoDispatch && Queue(ks[i], RUNQ) != [] && Want(ks[i], Last(Queue(ks[i], RUNQ))) == Some(m) ==>
      ks[i + 1].cur == Some(Last(Queue(ks[i], RUNQ))) == Holder(ks[i + 1], m)
  {
    RunKeeps(s, ks, ops, t, i);
    assert Goes(s, ks[i], ops[i], ks[i + 1]);
    match ops[i]
    case DoLock(n) => LockOk(ks[i], n, s.mutexes);
    case DoDispatch => DispatchOk(ks[i], s.mutexes);
    case _ =>
  }

  // ---- First come, first served ----

  /** The position of t in a queue, counted from the end threads leave at; 0 if it is not there. */
  function Position(q: seq<nat>, t: nat): (r: nat)
    ensures r > 0 <==> t in q
    decreases |q|
  {
    if q == [] then 0
    else if Last(q) == t then 1
    else
      assert q == ButLast(q) + [Last(q)];
      var r := Position(ButLast(q), t);
      if r == 0 then 0 else r + 1
  }

  lemma {:induction false} PositionBehind(q: seq<nat>, t: nat, u: nat)
    requires t in q
    ensures Position([u] + q, t) == Position(q, t)
    decreases |q|
  {
    assert Last([u] + q) == Last(q);
    if Last(q) != t {
      assert q == ButLast(q) + [Last(q)];
      assert ButLast([u] + q) == [u] + ButLast(q);
      PositionBehind(ButLast(q), t, u);
    }
  }

  /** The current thread unlocks a mutex it holds. */
  ghost predicate HandsOver(k: Kernel, op: Op, m: nat) {
    op == DoUnlock(m) && Holder(k, m) == k.cur
  }

  /** A waiter moves up by one when the holder unlocks, is handed the mutex if it was first, and keeps its
      position in every other step. */
  lemma Advance(s: Setting, k: Kernel, op: Op, k': Kernel, m: nat, t: nat)
    requires KernelOk(k, s.mutexes) && RUNQ !in s.mutexes && m in s.mutexes && Goes(s, k, op, k') && t in Queue(k, m)
    ensures !HandsOver(k, op, m) ==> Position(Queue(k', m), t) == Position(Queue(k, m), t)
    ensures HandsOver(k, op, m) ==> Position(Queue(k', m), t) == Position(Queue(k, m), t) - 1
    ensures HandsOver(k, op, m) && Position(Queue(k, m), t) == 1 ==>
      Holder(k', m) == Some(t) && Wchan(k', t) == Some(RUNQ)
  {
    assert ThreadOk(k, t, s.mutexes) && MutexOk(k, m);
    match op
    case DoLock(n) =>
      if n == m {
        PositionBehind(Queue(k, m), t, k.cur.value);
      }
    case DoUnlock(n) => AdvanceUnlock(s, k, n, m, t);
    case DoSleep(_, _) =>
    case DoExit =>
    case DoLeave =>
    case DoDispatch =>
    case DoWakeup(q) => WakeupQueues(k, q);
    case DoMakeRunnable(_) =>
    case DoCancel(u) => assert ThreadOk(k, u, s.mutexes);
  }

  lemma AdvanceUnlock(s: Setting, k: Kernel, n: nat, m: nat, t: nat)
    requires KernelOk(k, s.mutexes) && RUNQ !in s.mutexes && m in s.mutexes && n in s.mutexes && t in Queue(k, m) &&
      k.cur.Some?
    ensures !(n == m && Holder(k, m) == k.cur) ==> Position(Queue(Unlock(k, n), m), t) == Position(Queue(k, m), t)
    ensures n == m && Holder(k, m) == k.cur ==> Position(Queue(Unlock(k, n), m), t) == Position(Queue(k, m), t) - 1
    ensures n == m && Holder(k, m) == k.cur && Position(Queue(k, m), t) == 1 ==>
      Holder(Unlock(k, n), m) == Some(t) && Wchan(Unlock(k, n), t) == Some(RUNQ)
  {
    WakeupQueues(k, n);
    if n == m && Holder(k, m) == k.cur {
      assert Queue(Unlock(k, n), m) == ButLast(Queue(k, m));
      assert Distinct(Queue(k, m));
      ButLastDistinct(Queue(k, m));
    }
  }

  /** How often the holder of m unlocked it between points i and j. */
  ghost function HandOvers(ks: seq<Kernel>, ops: seq<Op>, m: nat, i: nat, j: nat): nat
    requires i <= j < |ks| == |ops| + 1
    decreases j - i
  {
    if i == j then 0 else HandOvers(ks, ops, m, i, j - 1) + if HandsOver(ks[j - 1], ops[j - 1], m) then 1 else 0
  }

  /** The waiter in position p gets the mutex at the p-th unlock by its holder: until then it waits, p
      less the unlocks so far behind the holder, and the p-th unlock makes it the holder. */
  lemma {:induction false} FirstComeFirstServed(s: Setting, ks: seq<Kernel>, ops: seq<Op>, b: nat, m: nat, t: nat,
      i: nat, j: nat)
    requires Run(s, ks, ops, b) && m in s.mutexes && i <= j < |ks| && t in Queue(ks[i], m)
    requires HandOvers(ks, ops, m, i, j) < Position(Queue(ks[i], m), t)
    ensures Position(Queue(ks[j], m), t) == Position(Queue(ks[i], m), t) - HandOvers(ks, ops, m, i, j)
    ensures Holder(ks[j], m) != Some(t)
    ensures (j < |ops| && HandsOver(ks[j], ops[j], m) &&
             HandOvers(ks, ops, m, i, j) + 1 == Position(Queue(ks[i], m), t)) ==>
      Holder(ks[j + 1], m) == Some(t)
    decreases j - i
  {
    if i < j {
      FirstComeFirstServed(s, ks, ops, b, m, t, i, j - 1);
      RunKeeps(s, ks, ops, b, j - 1);
      assert Goes(s, ks[j - 1], ops[j - 1], ks[j]);
      Advance(s, ks[j - 1], ops[j - 1], ks[j], m, t);
    }
    RunKeeps(s, ks, ops, b, j);
    assert t in Queue(ks[j], m) && MutexOk(ks[j], m);
    if j < |ops| {
      assert Goes(s, ks[j], ops[j], ks[j + 1]);
      Advance(s, ks[j], ops[j], ks[j + 1], m, t);
    }
  }
}
