/**
 * Cooperative user-level threads (user/uthread.c).
 *
 * A fixed table of MAX_THREAD threads, each FREE, RUNNING or RUNNABLE, and a
 * current thread. thread_schedule scans round-robin from the slot after the
 * current one, wrapping around, with the current slot itself as the last
 * candidate, and switches to the first RUNNABLE slot it meets; thread_create
 * takes the first FREE slot. The context switch itself (thread_switch, in
 * assembly) is not modelled: a switch is reported as an outcome, and a
 * thread's saved context is reduced to the two registers thread_create sets.
 */
module UThread {
  import opened Wrappers

  const MAX_THREAD: nat := 4
  const STACK_SIZE: nat := 8192
  /** sizeof(struct thread): the stack, the int state padded to 8 bytes, and
      fourteen 64-bit saved registers. */
  const THREAD_SIZE: nat := STACK_SIZE + 8 + 14 * 8

  datatype State = FREE | RUNNING | RUNNABLE

  /** The registers thread_create initialises: return address and stack pointer. */
  datatype Context = Context(ra: nat, sp: nat)

  /** What thread_schedule does: exit(-1) because nothing is runnable, switch
      from one thread to another, or keep running the current thread. */
  datatype Sched = NoRunnable | Switch(from: nat, to: nat) | Stay

  // ---------------------------------------------------------------------------
  // The scheduler as a function of the thread states

  /** The slot the scheduler examines at step k when cur is current. */
  function Candidate(cur: nat, k: nat): (s: nat)
    ensures s < MAX_THREAD
  {
    (cur + 1 + k) % MAX_THREAD
  }

  /** The first step at or after k whose candidate is RUNNABLE. */
  function FirstRunnable(states: seq<State>, cur: nat, k: nat): (r: Option<nat>)
    requires |states| == MAX_THREAD
    decreases MAX_THREAD - k
    ensures r.Some? ==> k <= r.value < MAX_THREAD && states[Candidate(cur, r.value)] == RUNNABLE
    ensures r.Some? ==> forall i :: k <= i < r.value ==> states[Candidate(cur, i)] != RUNNABLE
    ensures r.None? ==> forall i :: k <= i < MAX_THREAD ==> states[Candidate(cur, i)] != RUNNABLE
  {
    if k >= MAX_THREAD then None
    else if states[Candidate(cur, k)] == RUNNABLE then Some(k)
    else FirstRunnable(states, cur, k + 1)
  }

  /** The slot thread_schedule picks, if any. */
  function Next(states: seq<State>, cur: nat): (n: Option<nat>)
    requires |states| == MAX_THREAD
    ensures n.Some? ==> n.value < MAX_THREAD && states[n.value] == RUNNABLE
    ensures n.None? ==> forall k :: 0 <= k < MAX_THREAD ==> states[Candidate(cur, k)] != RUNNABLE
  {
    match FirstRunnable(states, cur, 0)
    case Some(k) => Some(Candidate(cur, k))
    case None => None
  }

  /** thread_schedule: the new states, the new current slot, and what happened. */
  function ScheduleSpec(states: seq<State>, cur: nat): (r: (seq<State>, nat, Sched))
    requires |states| == MAX_THREAD && cur < MAX_THREAD
    ensures |r.0| == MAX_THREAD && r.1 < MAX_THREAD
    ensures r.2.NoRunnable? || r.2.Stay? ==> r.0 == states && r.1 == cur
    ensures r.2.Switch? ==> r.2 == Switch(cur, r.1) && states[r.1] == RUNNABLE && r.0 == states[r.1 := RUNNING]
    ensures r.2.NoRunnable? <==> Next(states, cur).None?
    ensures !r.2.NoRunnable? ==> Next(states, cur) == Some(r.1)
  {
    match Next(states, cur)
    case None => (states, cur, NoRunnable)
    case Some(n) =>
      if n != cur then (states[n := RUNNING], n, Switch(cur, n))
      else (states, cur, Stay)
  }

  /** thread_yield: mark the current thread RUNNABLE, then schedule. */
  function YieldSpec(states: seq<State>, cur: nat): (r: (seq<State>, nat, Sched))
    requires |states| == MAX_THREAD && cur < MAX_THREAD
    ensures |r.0| == MAX_THREAD && r.1 < MAX_THREAD
    ensures r.2.Switch? ==> r.2.from == cur && r.0[cur] == RUNNABLE && r.0[r.1] == RUNNING
    ensures r.2.Stay? ==> r.0 == states[cur := RUNNABLE] && r.1 == cur
  {
    ScheduleSpec(states[cur := RUNNABLE], cur)
  }

  /** The lowest FREE slot. */
  function FirstFree(states: seq<State>): (i: nat)
    requires FREE in states
    ensures i < |states| && states[i] == FREE
    ensures forall j :: 0 <= j < i ==> states[j] != FREE
  {
    if states[0] == FREE then 0 else 1 + FirstFree(states[1..])
  }

  // ---------------------------------------------------------------------------
  // Properties

  /** The scan visits every slot exactly once: first cur + 1, cur + 2, ... up
      to the last slot, then from slot 0, and the current slot last. */
  lemma {:induction false} CandidatesCover(cur: nat, s: nat)
    requires cur < MAX_THREAD && s < MAX_THREAD
    ensures Candidate(cur, MAX_THREAD - 1) == cur
    ensures cur < s ==> Candidate(cur, s - cur - 1) == s
    ensures s <= cur ==> Candidate(cur, MAX_THREAD - cur - 1 + s) == s
    ensures forall k, j :: 0 <= k < j < MAX_THREAD ==> Candidate(cur, k) != Candidate(cur, j)
  {
    forall k, j | 0 <= k < j < MAX_THREAD
      ensures Candidate(cur, k) != Candidate(cur, j)
    {
      if cur + 1 + j < MAX_THREAD {
      } else if cur + 1 + k >= MAX_THREAD {
        assert Candidate(cur, k) == cur + 1 + k - MAX_THREAD;
        assert Candidate(cur, j) == cur + 1 + j - MAX_THREAD;
      } else {
        assert Candidate(cur, k) == cur + 1 + k;
        assert Candidate(cur, j) == cur + 1 + j - MAX_THREAD;
      }
    }
  }

  /** The scan wraps around at most once. */
  lemma CandidateWraps(cur: nat, k: nat)
    requires cur < MAX_THREAD && k < MAX_THREAD
    ensures Candidate(cur, k) == if cur + 1 + k < MAX_THREAD then cur + 1 + k else cur + 1 + k - MAX_THREAD
  {
  }

  /** The step at which the scan reaches slot s. */
  function StepOf(cur: nat, s: nat): (k: nat)
    requires cur < MAX_THREAD && s < MAX_THREAD
    ensures k < MAX_THREAD && Candidate(cur, k) == s
  {
    CandidatesCover(cur, s);
    if cur < s then s - cur - 1 else MAX_THREAD - cur - 1 + s
  }

  /** thread_schedule exits exactly when no slot is RUNNABLE; otherwise the
      slot it picks is RUNNABLE and no slot earlier in the scan is. */
  lemma {:induction false} NextIsFirstRunnable(states: seq<State>, cur: nat)
    requires |states| == MAX_THREAD && cur < MAX_THREAD
    ensures Next(states, cur).None? <==> forall s :: 0 <= s < MAX_THREAD ==> states[s] != RUNNABLE
    ensures Next(states, cur).Some? ==>
      var n := Next(states, cur).value;
      && n < MAX_THREAD && states[n] == RUNNABLE
      && forall s :: 0 <= s < MAX_THREAD && StepOf(cur, s) < StepOf(cur, n) ==> states[s] != RUNNABLE
  {
    match FirstRunnable(states, cur, 0)
    case None =>
      forall s | 0 <= s < MAX_THREAD ensures states[s] != RUNNABLE {
        var k := StepOf(cur, s);
      }
    case Some(k) =>
      var n := Candidate(cur, k);
      CandidatesCover(cur, n);
      assert StepOf(cur, n) == k;
      forall s | 0 <= s < MAX_THREAD && StepOf(cur, s) < StepOf(cur, n)
        ensures states[s] != RUNNABLE
      {
        var j := StepOf(cur, s);
      }
  }

  /** A switch marks the chosen thread RUNNING and makes it current; the
      thread switched away from keeps its state, as does every other slot. */
  lemma ScheduleSwitches(states: seq<State>, cur: nat)
    requires |states| == MAX_THREAD && cur < MAX_THREAD
    ensures var (states', cur', r) := ScheduleSpec(states, cur);
      && (r.Switch? ==>
            && r.from == cur && r.to == cur' && cur' != cur
            && states[cur'] == RUNNABLE && states'[cur'] == RUNNING
            && forall s :: 0 <= s < MAX_THREAD && s != cur' ==> states'[s] == states[s])
      && (!r.Switch? ==> states' == states && cur' == cur)
      && (r == Stay <==> Next(states, cur) == Some(cur))
  {
  }

  /** After thread_yield marks the current thread RUNNABLE, thread_schedule
      always finds a thread: yielding never exits. It stays with the current
      thread exactly when no other thread is RUNNABLE. */
  lemma {:induction false} YieldNeverExits(states: seq<State>, cur: nat)
    requires |states| == MAX_THREAD && cur < MAX_THREAD
    ensures YieldSpec(states, cur).2 != NoRunnable
    ensures YieldSpec(states, cur).2 == Stay <==>
      forall s :: 0 <= s < MAX_THREAD && s != cur ==> states[s] != RUNNABLE
  {
    var st := states[cur := RUNNABLE];
    NextIsFirstRunnable(st, cur);
    CandidatesCover(cur, cur);
    assert StepOf(cur, cur) == MAX_THREAD - 1;
    if Next(st, cur) == Some(cur) {
      forall s | 0 <= s < MAX_THREAD && s != cur ensures states[s] != RUNNABLE {
        var k := StepOf(cur, s);
        assert k != MAX_THREAD - 1;
        assert st[s] == states[s];
      }
    } else {
      var n := Next(st, cur).value;
      assert n != cur && st[n] == states[n];
    }
  }

  // ---------------------------------------------------------------------------
  // The thread table

  class Threads {
    /** all_thread[i].state */
    const all: array<State>
    /** all_thread[i].context, the registers thread_create sets */
    const ctx: array<Context>
    /** The address of all_thread[0]. */
    const base: nat
    /** current_thread, as an index into all_thread */
    var current: nat

    ghost predicate Valid()
      reads this
    {
      all.Length == MAX_THREAD && ctx.Length == MAX_THREAD && current < MAX_THREAD
    }

    /** The top of slot i's stack: t->stack + STACK_SIZE. */
    function StackTop(i: nat): nat
      reads this
    {
      base + i * THREAD_SIZE + STACK_SIZE
    }

    /** The zero-initialised table at address addr: every slot FREE. */
    constructor (addr: nat)
      ensures Valid() && fresh(all) && fresh(ctx) && base == addr
      ensures all[..] == seq(MAX_THREAD, _ => FREE) && current == 0
    {
      all := new State[MAX_THREAD](_ => FREE);
      ctx := new Context[MAX_THREAD](_ => Context(0, 0));
      base := addr;
      current := 0;
    }

    /** thread_init: the main thread becomes slot 0, RUNNING. */
    method ThreadInit()
      requires Valid()
      modifies this, all
      ensures Valid()
      ensures current == 0 && all[..] == old(all[..])[0 := RUNNING]
    {
      current := 0;
      all[0] := RUNNING;
    }

    /** thread_create(func): the lowest FREE slot becomes RUNNABLE, to start
        at func on its own stack. The C loop has no bound check, so a free
        slot must exist. */
    method ThreadCreate(func: nat) returns (t: nat)
      requires Valid() && FREE in all[..]
      modifies all, ctx
      ensures Valid()
      ensures t == FirstFree(old(all[..]))
      ensures all[..] == old(all[..])[t := RUNNABLE]
      ensures ctx[..] == old(ctx[..])[t := Context(func, StackTop(t))]
    {
      t := 0;
      while all[t] != FREE
        invariant 0 <= t < MAX_THREAD
        invariant forall j :: 0 <= j < t ==> all[j] != FREE
        invariant FREE in all[t..]
        decreases MAX_THREAD - t
      {
        assert all[t..] == [all[t]] + all[t + 1..];
        t := t + 1;
      }
      FirstFreeUnique(all[..], t);
      all[t] := RUNNABLE;
      ctx[t] := Context(func, StackTop(t));
    }

    /** thread_schedule. */
    method ThreadSchedule() returns (r: Sched)
      requires Valid()
      modifies this, all
      ensures Valid()
      ensures (all[..], current, r) == ScheduleSpec(old(all[..]), old(current))
    {
      var next: Option<nat> := None;
      var t: nat := current + 1;
      var i := 0;
      while i < MAX_THREAD
        invariant 0 <= i <= MAX_THREAD
        invariant Valid() && current == old(current) && all[..] == old(all[..])
        invariant next.None?
        invariant t <= MAX_THREAD && (t == current + 1 + i || t + MAX_THREAD == current + 1 + i)
        invariant FirstRunnable(all[..], current, 0) == FirstRunnable(all[..], current, i)
      {
        if t >= MAX_THREAD {
          t := 0;
        }
        CandidateWraps(current, i);
        assert t == Candidate(current, i);
        if all[t] == RUNNABLE {
          next := Some(t);
          assert FirstRunnable(all[..], current, i) == Some(i);
          break;
        }
        t := t + 1;
        i := i + 1;
      }
      if next.None? {
        assert FirstRunnable(all[..], current, MAX_THREAD) == None;
        // printf and exit(-1)
        return NoRunnable;
      }
      assert next == Next(all[..], current);
      ghost var states := all[..];
      if current != next.value {
        all[next.value] := RUNNING;
        assert all[..] == states[next.value := RUNNING];
        r := Switch(current, next.value);
        current := next.value;
        // thread_switch(&t->context, &current_thread->context)
      } else {
        r := Stay;
      }
    }

    /** thread_yield. */
    method ThreadYield() returns (r: Sched)
      requires Valid()
      modifies this, all
      ensures Valid()
      ensures (all[..], current, r) == YieldSpec(old(all[..]), old(current))
    {
      all[current] := RUNNABLE;
      r := ThreadSchedule();
    }
  }

  /** FirstFree names the slot a scan from 0 stops at. */
  lemma FirstFreeUnique(states: seq<State>, t: nat)
    requires t < |states| && states[t] == FREE
    requires forall j :: 0 <= j < t ==> states[j] != FREE
    ensures FirstFree(states) == t
  {
    var i := FirstFree(states);
    assert !(i < t) && !(t < i);
  }
}
