/** sched.c and kmutex.c with their queues changed in place. Every call keeps the invariant of
    KernelThreads and is the step of that name in its runs. */
module Scheduling {
  import opened Basics
  import opened Lists
  import opened KernelThreads

  class Scheduler {
    var queues: map<nat, seq<nat>>
    var sizes: map<nat, int>                  // tq_size
    var wchan: map<nat, Option<nat>>          // kt_wchan
    var states: map<nat, ThreadState>         // kt_state
    var cancelled: set<nat>                   // kt_cancelled
    var holder: map<nat, Option<nat>>         // km_holder
    var cur: Option<nat>                      // curthr
    const idle: set<nat>                      // threads of the idle process
    ghost const mutexes: set<nat>             // the wait queues of mutexes
    ghost var want: map<nat, Option<nat>>

    ghost function View(): Kernel
      reads this
    {
      Kernel(queues, sizes, wchan, states, cancelled, want, holder, cur)
    }

    ghost predicate Valid()
      reads this
    {
      RUNQ !in mutexes && KernelOk(View(), mutexes)
    }

    /** The threads on queue q, newest first. */
    ghost function On(q: nat): seq<nat>
      reads this
    {
      Queue(View(), q)
    }

    constructor (t: nat, idle: set<nat>, ghost mutexes: set<nat>)
      requires RUNQ !in mutexes
      ensures Valid() && View() == Boot(t) && this.idle == idle && this.mutexes == mutexes
    {
      queues, sizes, wchan, states, cancelled, holder, cur := map[], map[], map[], map[t := Running], {}, map[],
        Some(t);
      want := map[];
      this.idle, this.mutexes := idle, mutexes;
      new;
      assert View() == Boot(t);
      BootOk(t, mutexes);
    }

    // ---- Queues ----

    /** ktqueue_enqueue */
    method EnqueueThread(q: nat, t: nat)
      requires Wchan(View(), t).None?
      modifies this`queues, this`wchan, this`sizes
      ensures View() == Enqueue(old(View()), q, t)
    {
      queues := queues[q := [t] + if q in queues then queues[q] else []];
      wchan := wchan[t := Some(q)];
      sizes := sizes[q := (if q in sizes then sizes[q] else 0) + 1];
    }

    /** ktqueue_dequeue */
    method DequeueThread(q: nat) returns (r: Option<nat>)
      modifies this`queues, this`wchan, this`sizes
      ensures r == if old(On(q)) == [] then None else Some(Last(old(On(q))))
      ensures View() == if r.None? then old(View()) else Dequeue(old(View()), q)
    {
      if q !in queues || queues[q] == [] {
        return None;
      }
      var t := Last(queues[q]);
      queues := queues[q := ButLast(queues[q])];
      wchan := wchan[t := None];
      sizes := sizes[q := (if q in sizes then sizes[q] else 0) - 1];
      return Some(t);
    }

    /** ktqueue_remove */
    method RemoveThread(q: nat, t: nat)
      requires t in On(q)
      modifies this`queues, this`wchan, this`sizes
      ensures View() == Remove(old(View()), q, t)
    {
      queues := queues[q := Unlink(queues[q], t)];
      wchan := wchan[t := None];
      sizes := sizes[q := (if q in sizes then sizes[q] else 0) - 1];
    }

    method GoToSleep(q: nat, state: ThreadState)
      requires cur.Some? && Wchan(View(), cur.value).None?
      modifies this`queues, this`wchan, this`sizes, this`states, this`cur
      ensures View() == Sleep(old(View()), q, state)
    {
      states := states[cur.value := state];
      EnqueueThread(q, cur.value);
      cur := None;
    }

    /** What sched_wakeup_on does on any queue but the run queue */
    method Wake(q: nat) returns (r: Option<nat>)
      requires Valid() && q != RUNQ
      modifies this`queues, this`wchan, this`sizes, this`states
      ensures r == if old(On(q)) == [] then None else Some(Last(old(On(q))))
      ensures View() == Wakeup(old(View()), q)
    {
      WakeupQueues(View(), q);
      r := DequeueThread(q);
      if r.Some? {
        assert ThreadOk(old(View()), r.value, mutexes);
        assert states[r.value] in {Sleeping, SleepingCancellable};
        states := states[r.value := Running];
        EnqueueThread(RUNQ, r.value);
      }
    }

    // ---- The calls ----

    /** sched_sleep_on up to the switch */
    method SleepOn(q: nat)
      requires Valid() && cur.Some? && Wchan(View(), cur.value).None? && q !in mutexes && q != RUNQ
      modifies this`queues, this`wchan, this`sizes, this`states, this`cur
      ensures Valid() && View() == Sleep(old(View()), q, Sleeping)
      ensures On(q) == [old(cur.value)] + old(On(q)) && OnlyQueues(old(View()), View(), {q})
    {
      SleepOk(View(), q, Sleeping, mutexes);
      GoToSleep(q, Sleeping);
    }

    /** sched_cancellable_sleep_on up to the switch; true is -EINTR, for a thread already cancelled */
    method CancellableSleepOn(q: nat) returns (interrupted: bool)
      requires Valid() && cur.Some? && Wchan(View(), cur.value).None? && q !in mutexes && q != RUNQ
      modifies this`queues, this`wchan, this`sizes, this`states, this`cur
      ensures Valid() && (interrupted <==> old(cur.value in cancelled))
      ensures View() == if interrupted then old(View()) else Sleep(old(View()), q, SleepingCancellable)
      ensures On(q) == (if interrupted then [] else [old(cur.value)]) + old(On(q))
      ensures OnlyQueues(old(View()), View(), {q})
    {
      if cur.value in cancelled {
        return true;
      }
      SleepOk(View(), q, SleepingCancellable, mutexes);
      GoToSleep(q, SleepingCancellable);
      return false;
    }

    /** kthread_exit up to the switch */
    method ExitThread()
      requires Valid() && cur.Some? && Wchan(View(), cur.value).None?
      modifies this`states
      ensures Valid() && View() == Exit(old(View()))
      ensures StateOf(View(), cur.value) == Exited && OnlyQueues(old(View()), View(), {})
    {
      ExitOk(View(), mutexes);
      states := states[cur.value := Exited];
    }

    /** sched_switch up to its wait for the run queue */
    method LeaveThread()
      requires Valid() && cur.Some?
      modifies this`cur
      ensures Valid() && View() == Leave(old(View())) && cur.None? && OnlyQueues(old(View()), View(), {})
    {
      LeaveOk(View(), mutexes);
      cur := None;
    }

    /** sched_switch, once the run queue is not empty: the thread that was queued first runs, and if it was
        in a lock call it holds that mutex now. */
    method Switch()
      requires Valid() && cur.None? && On(RUNQ) != []
      modifies this
      ensures Valid() && View() == Dispatch(old(View()))
      ensures cur == Some(Last(old(On(RUNQ)))) && On(RUNQ) == ButLast(old(On(RUNQ)))
      ensures OnlyQueues(old(View()), View(), {RUNQ})
      ensures old(Want(View(), Last(On(RUNQ)))).Some? ==>
        Holder(View(), old(Want(View(), Last(On(RUNQ)))).value) == cur
    {
      DispatchOk(View(), mutexes);
      var t := DequeueThread(RUNQ);
      cur := t;
      states := states[t.value := Running];
      want := want[t.value := None];
    }

    /** sched_wakeup_on: the thread that slept longest becomes runnable, all others keep their places. */
    method WakeupOn(q: nat) returns (r: Option<nat>)
      requires Valid() && q !in mutexes && q != RUNQ
      modifies this`queues, this`wchan, this`sizes, this`states
      ensures Valid() && View() == Wakeup(old(View()), q) && OnlyQueues(old(View()), View(), {q, RUNQ})
      ensures r.None? <==> old(On(q)) == []
      ensures r.None? ==> View() == old(View())
      ensures r.Some? ==> old(On(q)) == On(q) + [r.value] && On(RUNQ) == [r.value] + old(On(RUNQ))
    {
      WakeupOk(View(), q, mutexes);
      r := Wake(q);
    }

    /** sched_broadcast_on: the queue empties onto the run queue, in order, in front of what is there. */
    method BroadcastOn(q: nat)
      requires Valid() && q !in mutexes && q != RUNQ
      modifies this`queues, this`wchan, this`sizes, this`states
      ensures Valid() && On(q) == [] && On(RUNQ) == old(On(q)) + old(On(RUNQ))
      ensures OnlyQueues(old(View()), View(), {q, RUNQ})
    {
      ghost var all := On(q) + On(RUNQ);
      while (if q in sizes then sizes[q] else 0) > 0
        invariant Valid() && On(q) + On(RUNQ) == all && OnlyQueues(old(View()), View(), {q, RUNQ})
        decreases |On(q)|
      {
        assert Size(View(), q) == |Queue(View(), q)|;
        ghost var sleeping, runnable := On(q), On(RUNQ);
        var t := WakeupOn(q);
        JoinLast(On(q), t.value, runnable);
      }
      assert Size(View(), q) == |Queue(View(), q)|;
    }

    /** sched_make_runnable: any thread on no queue, the current one too, joins the run queue, except that the
        idle process does not. */
    method MakeThreadRunnable(t: nat)
      requires Valid() && Wchan(View(), t).None?
      modifies this`queues, this`wchan, this`sizes, this`states
      ensures Valid() && View() == MakeRunnable(old(View()), t, idle)
      ensures On(RUNQ) == (if t in idle then [] else [t]) + old(On(RUNQ)) && OnlyQueues(old(View()), View(), {RUNQ})
    {
      MakeRunnableOk(View(), t, idle, mutexes);
      SetRunnable(t);
    }

    method SetRunnable(t: nat)
      requires Wchan(View(), t).None?
      modifies this`queues, this`wchan, this`sizes, this`states
      ensures View() == MakeRunnable(old(View()), t, idle)
    {
      states := states[t := Running];
      if t !in idle {
        EnqueueThread(RUNQ, t);
      }
    }

    /** sched_cancel of a thread that has started and not exited: a cancellable sleeper leaves its queue for
        the run queue, any other thread stays where it is. */
    method CancelThread(t: nat)
      requires Valid() && StateOf(View(), t) != NoState && StateOf(View(), t) != Exited
      modifies this`queues, this`wchan, this`sizes, this`states, this`cancelled
      ensures Valid() && View() == Cancel(old(View()), t, idle) && t in cancelled
      ensures old(StateOf(View(), t)) != SleepingCancellable ==> OnlyQueues(old(View()), View(), {})
      ensures old(StateOf(View(), t)) == SleepingCancellable && old(Wchan(View(), t)).Some? ==>
        var q := old(Wchan(View(), t)).value;
        && On(q) == Unlink(old(On(q)), t) && On(RUNQ) == (if t in idle then [] else [t]) + old(On(RUNQ))
        && OnlyQueues(old(View()), View(), {q, RUNQ})
    {
      CancelOk(View(), t, idle, mutexes);
      ghost var k := View();
      assert Wchan(k, t).Some? ==> t in Queue(k, Wchan(k, t).value);
      cancelled := cancelled + {t};
      if t in states && states[t] == SleepingCancellable && t in wchan && wchan[t].Some? {
        RemoveThread(wchan[t].value, t);
        SetRunnable(t);
      }
    }

    /** kmutex_lock up to its return or its switch: the caller holds a mutex that was free, and otherwise
        waits behind all who wait already. */
    method MutexLock(m: nat)
      requires Valid() && cur.Some? && m in mutexes && Holder(View(), m) != cur
      requires Holder(View(), m).Some? ==> Wchan(View(), cur.value).None?
      modifies this
      ensures Valid() && View() == Lock(old(View()), m)
      ensures old(Holder(View(), m)).None? ==>
        Holder(View(), m) == old(cur) == cur && OnlyQueues(old(View()), View(), {})
      ensures old(Holder(View(), m)).Some? ==>
        && Holder(View(), m) == old(Holder(View(), m)) && cur.None?
        && On(m) == [old(cur.value)] + old(On(m)) && OnlyQueues(old(View()), View(), {m})
    {
      LockOk(View(), m, mutexes);
      if m !in holder || holder[m].None? {
        holder := holder[m := cur];
      } else {
        want := want[cur.value := Some(m)];
        GoToSleep(m, Sleeping);
      }
    }

    /** kmutex_unlock: the mutex goes to the thread that waited longest, or is free if none waits; the others
        keep their places. A caller that is not the holder changes nothing. */
    method MutexUnlock(m: nat)
      requires Valid() && cur.Some? && m in mutexes
      modifies this`queues, this`wchan, this`sizes, this`states, this`holder
      ensures Valid() && View() == Unlock(old(View()), m) && OnlyQueues(old(View()), View(), {m, RUNQ})
      ensures old(Holder(View(), m)) != cur ==> View() == old(View())
      ensures old(Holder(View(), m)) == cur && old(On(m)) == [] ==> Holder(View(), m).None?
      ensures old(Holder(View(), m)) == cur && old(On(m)) != [] ==>
        && Holder(View(), m) == Some(Last(old(On(m)))) && On(m) == ButLast(old(On(m)))
        && On(RUNQ) == [Last(old(On(m)))] + old(On(RUNQ))
    {
      UnlockOk(View(), m, mutexes);
      if m in holder && holder[m] == cur {
        var next := Wake(m);
        holder := holder[m := next];
      }
    }
  }

  lemma JoinLast(s: seq<nat>, t: nat, r: seq<nat>)
    ensures s + ([t] + r) == (s + [t]) + r
  {
  }
}
