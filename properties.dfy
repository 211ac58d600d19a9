/**
 * What the lock engine guarantees: which commands bump which lock, what a
 * single fill step does, the invariant every operation keeps, that a
 * stale chain never acts again, and that a live chain with a whole-pixel
 * target completes after exactly as many steps as it has pixels to go.
 */
module EngineProperties {
  import opened Conversions
  import opened Engine

  function Abs(x: int): nat {
    if x < 0 then -x else x
  }

  // ---------------------------------------------------------------------
  // Locks

  /**
   * Every command bumps the lock of the bar it names by exactly one and
   * leaves the other bar's lock alone; stop bumps both; a timer firing
   * bumps none.
   */
  lemma CommandLocks(m: Model, op: Op)
    requires m.containerPx > 0
    ensures var m' := Apply(m, op);
      match op
      case SetTo(r, _) =>
        m'.BarOf(r).lock == m.BarOf(r).lock + 1 && m'.BarOf(r.Other()).lock == m.BarOf(r.Other()).lock
      case FillTo(r, _, _) =>
        m'.BarOf(r).lock == m.BarOf(r).lock + 1 && m'.BarOf(r.Other()).lock == m.BarOf(r.Other()).lock
      case StopOne(r) =>
        m'.BarOf(r).lock == m.BarOf(r).lock + 1 && m'.BarOf(r.Other()).lock == m.BarOf(r.Other()).lock
      case StopAll =>
        m'.front.lock == m.front.lock + 1 && m'.back.lock == m.back.lock + 1
      case FireTimer(_) =>
        m'.front.lock == m.front.lock && m'.back.lock == m.back.lock
  {
    match op
    case FillTo(r, ticks, speed) =>
      var m1 := BumpLock(m, r);
      StepKeepsLocks(m1, Task(r, ticks, FillSpeedToDelay(m.containerPx, speed), m1.BarOf(r).lock));
    case FireTimer(i) =>
      if i < |m.pending| {
        StepKeepsLocks(m.(pending := Without(m.pending, i)), m.pending[i]);
      }
    case _ =>
  }

  /** A fill step never touches a lock and never touches the other bar. */
  lemma StepKeepsLocks(m: Model, t: Task)
    requires m.containerPx > 0
    ensures var m' := DoFillBarTo(m, t);
      && m'.front.lock == m.front.lock && m'.back.lock == m.back.lock
      && m'.BarOf(t.role.Other()) == m.BarOf(t.role.Other())
      && m'.containerPx == m.containerPx
  {
  }

  // ---------------------------------------------------------------------
  // One fill step

  /** A step whose lock is stale changes nothing: no width, no ticks, no timer, no callback. */
  lemma StaleStepIsInert(m: Model, t: Task)
    requires m.containerPx > 0 && !Live(m, t)
    ensures DoFillBarTo(m, t) == m
  {
  }

  /** Firing a stale timer only consumes it. */
  lemma StaleFireIsInert(m: Model, i: nat)
    requires m.containerPx > 0 && i < |m.pending| && !Live(m, m.pending[i])
    ensures Fire(m, i) == m.(pending := Without(m.pending, i))
  {
  }

  /**
   * A live step away from its target moves the width one pixel toward the
   * target, rederives the ticks from the new width, calls onTick once and
   * schedules exactly one continuation with the same lock and target.
   */
  lemma LiveStepMoves(m: Model, t: Task)
    requires m.containerPx > 0 && Live(m, t)
    requires ReadWidthPx(m.BarOf(t.role)) as real != TargetPx(m, t)
    ensures var m' := DoFillBarTo(m, t); var cur := ReadWidthPx(m.BarOf(t.role));
      && m'.BarOf(t.role).widthPx ==
           (if cur as real < TargetPx(m, t) then cur + 1 else cur - 1) as real
      && m'.BarOf(t.role).currentTicks == PxToTicks(m.containerPx, m'.BarOf(t.role).widthPx)
      && m'.BarOf(t.role).lock == t.lock
      && m'.BarOf(t.role.Other()) == m.BarOf(t.role.Other())
      && m'.pending == m.pending + [Task(t.role, CheckBounds(t.ticks), t.delay, t.lock)]
      && m'.log == m.log + [Event(OnTick, t.role, t.lock)]
  {
  }

  /** A live step at its target calls onFillComplete once and changes nothing else. */
  lemma LiveStepCompletes(m: Model, t: Task)
    requires m.containerPx > 0 && Live(m, t)
    requires ReadWidthPx(m.BarOf(t.role)) as real == TargetPx(m, t)
    ensures DoFillBarTo(m, t) == m.(log := m.log + [Event(OnFillComplete, t.role, t.lock)])
  {
  }

  /**
   * With a whole-pixel target, a moving step lands on a whole pixel exactly
   * one pixel closer to the target.
   */
  lemma LiveStepApproaches(m: Model, t: Task, p: int)
    requires m.containerPx > 0 && Live(m, t)
    requires TargetPx(m, t) == p as real && ReadWidthPx(m.BarOf(t.role)) != p
    ensures var b' := DoFillBarTo(m, t).BarOf(t.role);
      && b'.widthPx == ReadWidthPx(b') as real
      && Abs(ReadWidthPx(b') - p) == Abs(ReadWidthPx(m.BarOf(t.role)) - p) - 1
  {
    var cur := ReadWidthPx(m.BarOf(t.role));
    var upd := if cur < p then cur + 1 else cur - 1;
    WholeWidth(upd);
  }

  /** Reading back a whole-pixel width gives that pixel count. */
  lemma WholeWidth(n: int)
    ensures Truncate(n as real) == n
  {
  }

  /**
   * With a target between two pixels, a live step never completes: the
   * width a bar reports is whole, so it never equals the target, and every
   * step moves and reschedules.
   */
  lemma FractionalTargetNeverCompletes(m: Model, t: Task)
    requires m.containerPx > 0 && Live(m, t)
    requires TargetPx(m, t) != TargetPx(m, t).Floor as real
    ensures DoFillBarTo(m, t).pending == m.pending + [Task(t.role, CheckBounds(t.ticks), t.delay, t.lock)]
    ensures DoFillBarTo(m, t).log == m.log + [Event(OnTick, t.role, t.lock)]
  {
  }

  /**
   * Such a chain oscillates: from the whole pixel just below its target,
   * two firings bring the width back where it was, with the same single
   * timer pending and two more onTick calls logged.
   */
  lemma FractionalTargetOscillates(m: Model, t: Task)
    requires m.containerPx > 0 && m.pending == [t] && Live(m, t) && CheckBounds(t.ticks) == t.ticks
    requires TargetPx(m, t) != TargetPx(m, t).Floor as real
    requires m.BarOf(t.role).widthPx == TargetPx(m, t).Floor as real
    ensures var m2 := Fire(Fire(m, 0), 0);
      && m2.BarOf(t.role).widthPx == m.BarOf(t.role).widthPx
      && m2.pending == [t]
      && m2.log == m.log + [Event(OnTick, t.role, t.lock), Event(OnTick, t.role, t.lock)]
  {
    var f := TargetPx(m, t).Floor;
    WholeWidth(f);
    WholeWidth(f + 1);
    assert Without([t], 0) == [];
    var m1 := Fire(m, 0);
    assert m1.BarOf(t.role).widthPx == (f + 1) as real;
    assert m1.pending == [t];
  }

  // ---------------------------------------------------------------------
  // The invariant

  lemma BumpPreservesInv(m: Model, r: Role)
    requires Inv(m)
    ensures Inv(BumpLock(m, r)) && NoLiveTask(BumpLock(m, r), r)
  {
    var m' := BumpLock(m, r);
    forall k | 0 <= k < |m'.pending|
      ensures PendingOk(m', m'.pending[k]) && !(m'.pending[k].role == r && Live(m', m'.pending[k]))
    {
      assert PendingOk(m, m.pending[k]);
    }
    forall i, j | 0 <= i < j < |m'.pending| && Live(m', m'.pending[i]) && Live(m', m'.pending[j])
      ensures m'.pending[i].role != m'.pending[j].role
    {
      assert PendingOk(m, m.pending[i]) && PendingOk(m, m.pending[j]);
    }
  }

  /**
   * A step keeps the invariant when its own lock is no newer than its
   * bar's and, if it is live, no other live timer of its bar is pending.
   */
  lemma StepPreservesInv(m: Model, t: Task)
    requires Inv(m) && t.lock <= m.BarOf(t.role).lock
    requires Live(m, t) ==> NoLiveTask(m, t.role)
    ensures Inv(DoFillBarTo(m, t))
  {
    var m' := DoFillBarTo(m, t);
    if Live(m, t) && ReadWidthPx(m.BarOf(t.role)) as real != TargetPx(m, t) {
      LiveStepMoves(m, t);
      var t' := Task(t.role, CheckBounds(t.ticks), t.delay, t.lock);
      assert m'.pending == m.pending + [t'];
      assert forall x: Task :: Live(m', x) <==> Live(m, x);
      forall k | 0 <= k < |m'.pending|
        ensures PendingOk(m', m'.pending[k])
      {
        if k < |m.pending| {
          assert PendingOk(m, m.pending[k]);
        }
      }
      forall i, j | 0 <= i < j < |m'.pending| && Live(m', m'.pending[i]) && Live(m', m'.pending[j])
        ensures m'.pending[i].role != m'.pending[j].role
      {
      }
    }
  }

  /** Taking a timer out of the list keeps the invariant and leaves no live sibling of it. */
  lemma WithoutPreservesInv(m: Model, i: nat)
    requires Inv(m) && i < |m.pending|
    ensures var m1 := m.(pending := Without(m.pending, i));
      Inv(m1) && (Live(m, m.pending[i]) ==> NoLiveTask(m1, m.pending[i].role))
  {
    var m1 := m.(pending := Without(m.pending, i));
    var t := m.pending[i];
    forall k | 0 <= k < |m1.pending|
      ensures PendingOk(m1, m1.pending[k])
      ensures Live(m, t) ==> !(m1.pending[k].role == t.role && Live(m1, m1.pending[k]))
    {
      var k' := if k < i then k else k + 1;
      assert m1.pending[k] == m.pending[k'];
      assert PendingOk(m, m.pending[k']);
    }
    forall a, b | 0 <= a < b < |m1.pending| && Live(m1, m1.pending[a]) && Live(m1, m1.pending[b])
      ensures m1.pending[a].role != m1.pending[b].role
    {
      var a' := if a < i then a else a + 1;
      var b' := if b < i then b else b + 1;
      assert m1.pending[a] == m.pending[a'] && m1.pending[b] == m.pending[b'];
    }
  }

  /** Every operation keeps the invariant. */
  lemma ApplyPreservesInv(m: Model, op: Op)
    requires Inv(m)
    ensures Inv(Apply(m, op))
  {
    match op
    case SetTo(r, ticks) =>
      BumpPreservesInv(m, r);
      SetBarToPreservesInv(BumpLock(m, r), r, ticks);
    case FillTo(r, ticks, speed) =>
      BumpPreservesInv(m, r);
      var m1 := BumpLock(m, r);
      StepPreservesInv(m1, Task(r, ticks, FillSpeedToDelay(m.containerPx, speed), m1.BarOf(r).lock));
    case StopOne(r) =>
      BumpPreservesInv(m, r);
    case StopAll =>
      BumpPreservesInv(m, Front);
      BumpPreservesInv(BumpLock(m, Front), Back);
    case FireTimer(i) =>
      if i < |m.pending| {
        WithoutPreservesInv(m, i);
        assert PendingOk(m, m.pending[i]);
        StepPreservesInv(m.(pending := Without(m.pending, i)), m.pending[i]);
      }
  }

  lemma SetBarToPreservesInv(m: Model, r: Role, ticks: real)
    requires Inv(m)
    ensures Inv(SetBarTo(m, r, ticks))
  {
    var m' := SetBarTo(m, r, ticks);
    assert forall x: Task :: Live(m', x) <==> Live(m, x);
    forall k | 0 <= k < |m'.pending|
      ensures PendingOk(m', m'.pending[k])
    {
      assert PendingOk(m, m.pending[k]);
    }
  }

  /** Every sequence of operations keeps the invariant. */
  lemma {:induction false} RunPreservesInv(m: Model, ops: seq<Op>)
    requires Inv(m)
    ensures Inv(Run(m, ops))
    decreases |ops|
  {
    if ops != [] {
      ApplyPreservesInv(m, ops[0]);
      RunPreservesInv(Apply(m, ops[0]), ops[1..]);
    }
  }

  /** Bars that start inside their container stay inside it, and both tick counts stay on the scale. */
  lemma ApplyPreservesContained(m: Model, op: Op)
    requires m.containerPx > 0 && Contained(m)
    ensures Contained(Apply(m, op))
  {
    match op
    case FillTo(r, ticks, speed) =>
      var m1 := BumpLock(m, r);
      StepPreservesContained(m1, Task(r, ticks, FillSpeedToDelay(m.containerPx, speed), m1.BarOf(r).lock));
    case FireTimer(i) =>
      if i < |m.pending| {
        StepPreservesContained(m.(pending := Without(m.pending, i)), m.pending[i]);
      }
    case _ =>
  }

  lemma StepPreservesContained(m: Model, t: Task)
    requires m.containerPx > 0 && Contained(m)
    ensures Contained(DoFillBarTo(m, t))
  {
    var b := m.BarOf(t.role);
    if Live(m, t) && ReadWidthPx(b) as real != TargetPx(m, t) {
      var cur := ReadWidthPx(b);
      var upd := if cur as real < TargetPx(m, t) then cur + 1 else cur - 1;
      assert 0 <= upd <= m.containerPx;
      LiveStepMoves(m, t);
    }
  }

  /**
   * A bar is in step when its tick count is the tick value of its rendered
   * width. Setting a bar puts it in step, and no operation takes it out.
   */
  predicate InStep(m: Model, r: Role)
    requires m.containerPx > 0
  {
    m.BarOf(r).currentTicks == PxToTicks(m.containerPx, m.BarOf(r).widthPx)
  }

  lemma SetCommandInStep(m: Model, r: Role, ticks: real)
    requires m.containerPx > 0
    ensures InStep(SetCommand(m, r, ticks), r)
  {
    TicksPxRoundTrip(m.containerPx, CheckBounds(ticks));
  }

  lemma ApplyKeepsInStep(m: Model, op: Op, r: Role)
    requires m.containerPx > 0 && InStep(m, r)
    ensures InStep(Apply(m, op), r)
  {
    match op
    case SetTo(r', ticks) =>
      if r' == r {
        SetCommandInStep(m, r, ticks);
      }
    case FillTo(r', ticks, speed) =>
      var m1 := BumpLock(m, r');
      StepKeepsInStep(m1, Task(r', ticks, FillSpeedToDelay(m.containerPx, speed), m1.BarOf(r').lock), r);
    case FireTimer(i) =>
      if i < |m.pending| {
        StepKeepsInStep(m.(pending := Without(m.pending, i)), m.pending[i], r);
      }
    case _ =>
  }

  lemma StepKeepsInStep(m: Model, t: Task, r: Role)
    requires m.containerPx > 0 && InStep(m, r)
    ensures InStep(DoFillBarTo(m, t), r)
  {
    if t.role == r && Live(m, t) && ReadWidthPx(m.BarOf(r)) as real != TargetPx(m, t) {
      LiveStepMoves(m, t);
    }
  }

  // ---------------------------------------------------------------------
  // Stale chains

  /**
   * Over any run: locks only grow, the log only grows, every callback
   * logged during the run belongs to a chain whose lock is at least its
   * bar's lock at the start, and every timer pending at the end was
   * pending at the start or carries such a lock.
   */
  lemma {:induction false} RunFacts(m: Model, ops: seq<Op>)
    requires m.containerPx > 0
    ensures var m' := Run(m, ops);
      && m.front.lock <= m'.front.lock && m.back.lock <= m'.back.lock
      && m.log <= m'.log
      && (forall k :: |m.log| <= k < |m'.log| ==> m'.log[k].lock >= m.BarOf(m'.log[k].role).lock)
      && (forall t :: t in m'.pending ==> t in m.pending || t.lock >= m.BarOf(t.role).lock)
    decreases |ops|
  {
    if ops != [] {
      var m1 := Apply(m, ops[0]);
      ApplyFacts(m, ops[0]);
      RunFacts(m1, ops[1..]);
      var m' := Run(m, ops);
      assert m' == Run(m1, ops[1..]);
      forall k | |m.log| <= k < |m'.log|
        ensures m'.log[k].lock >= m.BarOf(m'.log[k].role).lock
      {
        if k < |m1.log| {
          assert m'.log[k] == m1.log[k];
        }
      }
    }
  }

  /**
   * One operation: locks only grow, the log only grows, every callback it
   * logs belongs to a live chain, and every timer it schedules is live.
   */
  lemma ApplyFacts(m: Model, op: Op)
    requires m.containerPx > 0
    ensures var m' := Apply(m, op);
      && m.front.lock <= m'.front.lock && m.back.lock <= m'.back.lock
      && m.log <= m'.log
      && (forall k :: |m.log| <= k < |m'.log| ==> m'.log[k].lock == m'.BarOf(m'.log[k].role).lock)
      && (forall t :: t in m'.pending ==> t in m.pending || t.lock == m'.BarOf(t.role).lock)
  {
    CommandLocks(m, op);
    match op
    case FillTo(r, ticks, speed) =>
      var m1 := BumpLock(m, r);
      StepFacts(m1, Task(r, ticks, FillSpeedToDelay(m.containerPx, speed), m1.BarOf(r).lock));
    case FireTimer(i) =>
      if i < |m.pending| {
        var m1 := m.(pending := Without(m.pending, i));
        StepFacts(m1, m.pending[i]);
        forall t | t in m1.pending
          ensures t in m.pending
        {
          var k :| 0 <= k < |m1.pending| && m1.pending[k] == t;
          assert m.pending[if k < i then k else k + 1] == t;
        }
      }
    case _ =>
  }

  lemma StepFacts(m: Model, t: Task)
    requires m.containerPx > 0
    ensures var m' := DoFillBarTo(m, t);
      && m.log <= m'.log
      && (forall k :: |m.log| <= k < |m'.log| ==> m'.log[k].lock == m'.BarOf(m'.log[k].role).lock)
      && (forall x :: x in m'.pending ==> x in m.pending || x.lock == m'.BarOf(x.role).lock)
  {
    StepKeepsLocks(m, t);
  }

  /**
   * Once a bar's lock has moved past L (by stopBar or by any newer
   * command), the chain of lock L is dead for good: whatever happens next,
   * no callback of that chain is ever called, no timer of that chain is
   * ever scheduled again, and firing one that is still pending writes
   * nothing.
   */
  lemma StaleChainsStayDead(m: Model, ops: seq<Op>, r: Role, lockL: nat)
    requires m.containerPx > 0 && lockL < m.BarOf(r).lock
    ensures var m' := Run(m, ops);
      && (forall k :: |m.log| <= k < |m'.log| ==> !(m'.log[k].role == r && m'.log[k].lock == lockL))
      && (forall t :: t in m'.pending && t.role == r && t.lock == lockL ==> t in m.pending)
      && (forall i :: 0 <= i < |m'.pending| && m'.pending[i].role == r && m'.pending[i].lock == lockL ==>
            Fire(m', i) == m'.(pending := Without(m'.pending, i)))
  {
    RunFacts(m, ops);
    var m' := Run(m, ops);
    forall i | 0 <= i < |m'.pending| && m'.pending[i].role == r && m'.pending[i].lock == lockL
      ensures Fire(m', i) == m'.(pending := Without(m'.pending, i))
    {
      StaleFireIsInert(m', i);
    }
  }

  // ---------------------------------------------------------------------
  // Completion

  /** The host fires the first pending timer, k times (or until none is left). */
  function FireFirst(m: Model, k: nat): Model
    requires m.containerPx > 0
    decreases k
  {
    if k == 0 || m.pending == [] then m
    else
      FireFirstKeepsContainer(m);
      FireFirst(Fire(m, 0), k - 1)
  }

  lemma FireFirstKeepsContainer(m: Model)
    requires m.containerPx > 0 && m.pending != []
    ensures Fire(m, 0).containerPx == m.containerPx
  {
    StepKeepsLocks(m.(pending := Without(m.pending, 0)), m.pending[0]);
  }

  /** n onTick calls of the chain of the given lock. */
  function TickEvents(r: Role, lock: nat, n: nat): (s: seq<Event>)
    ensures |s| == n && forall k :: 0 <= k < n ==> s[k] == Event(OnTick, r, lock)
  {
    if n == 0 then [] else [Event(OnTick, r, lock)] + TickEvents(r, lock, n - 1)
  }

  /**
   * A live chain that is the only pending timer, on a bar showing a whole
   * pixel width d pixels from a whole-pixel target, completes on its
   * (d + 1)-th firing: d onTick calls, then one onFillComplete, with the
   * bar at the target and nothing left pending.
   */
  lemma {:induction false} ChainRuns(s: Model, t: Task, p: int, d: nat)
    requires s.containerPx > 0 && s.pending == [t] && Live(s, t) && CheckBounds(t.ticks) == t.ticks
    requires TargetPx(s, t) == p as real
    requires s.BarOf(t.role).widthPx == ReadWidthPx(s.BarOf(t.role)) as real
    requires d == Abs(ReadWidthPx(s.BarOf(t.role)) - p)
    ensures var e := FireFirst(s, d + 1);
      && e.pending == []
      && e.BarOf(t.role).widthPx == p as real
      && (d > 0 ==> e.BarOf(t.role).currentTicks == PxToTicks(s.containerPx, p as real))
      && e.BarOf(t.role).lock == t.lock
      && e.BarOf(t.role.Other()) == s.BarOf(t.role.Other())
      && e.log == s.log + TickEvents(t.role, t.lock, d) + [Event(OnFillComplete, t.role, t.lock)]
    decreases d
  {
    assert Without([t], 0) == [];
    var s0 := s.(pending := []);
    var s1 := Fire(s, 0);
    assert s1 == DoFillBarTo(s0, t);
    assert FireFirst(s, d + 1) == FireFirst(s1, d);
    if d == 0 {
      LiveStepCompletes(s0, t);
    } else {
      LiveStepMoves(s0, t);
      LiveStepApproaches(s0, t, p);
      assert s1.pending == [t];
      ChainRuns(s1, t, p, d - 1);
      assert TickEvents(t.role, t.lock, d) == [Event(OnTick, t.role, t.lock)] + TickEvents(t.role, t.lock, d - 1);
      assert s1.log == s.log + [Event(OnTick, t.role, t.lock)];
    }
  }

  /**
   * A fill with a whole-pixel target, issued while no timer is pending,
   * completes after exactly n timer firings, where n is the distance in
   * pixels from the width the bar reports to the target: n onTick calls,
   * then one onFillComplete, all in the chain of the new lock. The bar
   * then reports the target width and, if it moved, shows exactly the
   * clamped target ticks.
   */
  lemma FillRunsToCompletion(m: Model, r: Role, ticks: real, ticksPerSecond: real, p: int)
    requires m.containerPx > 0 && m.pending == []
    requires TicksToPx(m.containerPx, CheckBounds(ticks)) == p as real
    ensures var n := Abs(ReadWidthPx(m.BarOf(r)) - p);
      var lock := m.BarOf(r).lock + 1;
      var e := FireFirst(FillCommand(m, r, ticks, ticksPerSecond), n);
      && e.pending == []
      && ReadWidthPx(e.BarOf(r)) == p
      && (n > 0 ==> e.BarOf(r).widthPx == p as real && e.BarOf(r).currentTicks == CheckBounds(ticks))
      && e.BarOf(r).lock == lock
      && e.BarOf(r.Other()) == m.BarOf(r.Other())
      && e.log == m.log + TickEvents(r, lock, n) + [Event(OnFillComplete, r, lock)]
  {
    var n := Abs(ReadWidthPx(m.BarOf(r)) - p);
    var m1 := BumpLock(m, r);
    var t0 := Task(r, ticks, FillSpeedToDelay(m.containerPx, ticksPerSecond), m1.BarOf(r).lock);
    assert DoFillBarTo(m1, t0) == FillCommand(m, r, ticks, ticksPerSecond);
    if n == 0 {
      LiveStepCompletes(m1, t0);
    } else {
      FirstStepThenChain(m1, t0, p, n);
      TicksPxRoundTrip(m.containerPx, CheckBounds(ticks));
    }
  }

  /**
   * The first step of a fill that is n > 0 pixels from its whole-pixel
   * target moves, and the n firings after it run the chain to completion.
   */
  lemma FirstStepThenChain(m: Model, t0: Task, p: int, n: nat)
    requires m.containerPx > 0 && m.pending == [] && Live(m, t0)
    requires TargetPx(m, t0) == p as real
    requires n == Abs(ReadWidthPx(m.BarOf(t0.role)) - p) && n > 0
    ensures var e := FireFirst(DoFillBarTo(m, t0), n); var r := t0.role;
      && e.pending == []
      && e.BarOf(r).widthPx == p as real
      && ReadWidthPx(e.BarOf(r)) == p
      && e.BarOf(r).currentTicks == PxToTicks(m.containerPx, p as real)
      && e.BarOf(r).lock == t0.lock
      && e.BarOf(r.Other()) == m.BarOf(r.Other())
      && e.log == m.log + TickEvents(r, t0.lock, n) + [Event(OnFillComplete, r, t0.lock)]
  {
    var r := t0.role;
    var s := DoFillBarTo(m, t0);
    LiveStepMoves(m, t0);
    LiveStepApproaches(m, t0, p);
    var t := Task(r, CheckBounds(t0.ticks), t0.delay, t0.lock);
    assert s.pending == [t];
    assert s.log == m.log + [Event(OnTick, r, t0.lock)];
    ChainRuns(s, t, p, n - 1);
    assert TickEvents(r, t0.lock, n) == [Event(OnTick, r, t0.lock)] + TickEvents(r, t0.lock, n - 1);
    if n == 1 {
      assert s.BarOf(r).widthPx == p as real;
    }
    WholeWidth(p);
  }

  /**
   * A container 200 pixels wide has two pixels per tick; filling the front
   * bar from empty to 50 ticks at 10 ticks per second steps every 50 ms,
   * calls onTick 100 times and then onFillComplete once, and leaves the
   * bar 100 pixels wide at 50 ticks.
   */
  lemma HalfFillScenario(m: Model, steps: nat)
    requires m.containerPx == 200 && m.front.widthPx == 0.0 && m.pending == [] && steps == 100
    ensures var lock := m.front.lock + 1;
      var e := FireFirst(FillCommand(m, Front, 50.0, 10.0), steps);
      && e.front == Bar(100.0, 50.0, lock)
      && e.back == m.back
      && e.pending == []
      && e.log == m.log + TickEvents(Front, lock, steps) + [Event(OnFillComplete, Front, lock)]
  {
    assert TicksToPx(200, CheckBounds(50.0)) == 100 as real;
    assert ReadWidthPx(m.front) == 0;
    FillRunsToCompletion(m, Front, 50.0, 10.0, 100);
  }

  /** In that scenario the delay between two steps is 1000 / (2 * 10) = 50 ms. */
  lemma HalfFillDelay()
    ensures FillSpeedToDelay(200, 10.0) == Millis(50)
  {
    assert 1000.0 / PxPerSecond(200, 10.0) == 50.0;
    WholeWidth(50);
  }

  /**
   * The delay is truncated, not rounded: at 300 pixels and 7 ticks per
   * second the exact quotient is 1000 / 21, about 47.6, and the delay is 47.
   */
  lemma DelayTruncates()
    ensures FillSpeedToDelay(300, 7.0) == Millis(47)
  {
    var q := 1000.0 / PxPerSecond(300, 7.0);
    assert q == 1000.0 / 21.0;
    assert 47.0 <= q < 48.0;
  }

  /** A fill toward the width the bar already reports completes at once, with no onTick call. */
  lemma FillAtTargetCompletesAtOnce(m: Model, r: Role, ticks: real, ticksPerSecond: real)
    requires m.containerPx > 0
    requires ReadWidthPx(m.BarOf(r)) as real == TicksToPx(m.containerPx, CheckBounds(ticks))
    ensures var lock := m.BarOf(r).lock + 1;
      FillCommand(m, r, ticks, ticksPerSecond)
        == BumpLock(m, r).(log := m.log + [Event(OnFillComplete, r, lock)])
  {
  }

  // ---------------------------------------------------------------------
  // Set and full

  /** Setting a bar twice to the same ticks lands where setting it once does. */
  lemma SetBarToIdempotent(m: Model, r: Role, ticks: real)
    requires m.containerPx > 0
    ensures SetBarTo(SetBarTo(m, r, ticks), r, ticks) == SetBarTo(m, r, ticks)
  {
  }

  /** isBarFull looks at widths only: changing a bar's tick count does not change it. */
  lemma FullIgnoresTicks(m: Model, r: Role, ticks: real)
    ensures IsBarFull(m.WithBar(r, m.BarOf(r).(currentTicks := ticks)), r) == IsBarFull(m, r)
  {
  }

  /** After setting a bar, it is full exactly when the clamped ticks are the whole scale. */
  lemma SetFullIff(m: Model, r: Role, ticks: real)
    requires m.containerPx > 0
    ensures IsBarFull(SetCommand(m, r, ticks), r) <==> CheckBounds(ticks) == MAX_TICKS
  {
    var t := CheckBounds(ticks);
    var px := TicksToPx(m.containerPx, t);
    if t == MAX_TICKS {
      WholeWidth(m.containerPx);
    } else {
      assert px < m.containerPx as real;
    }
  }
}
