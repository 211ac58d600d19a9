/**
 * The lock ("generation") engine of the double progress bar, as a pure
 * state machine.
 *
 * A Model holds what the controller and the page hold together: the
 * container's width, the two bars (the rendered width of each bar's
 * element and the two properties kept on the bar object), the timers
 * scheduled with setTimeout and not yet fired, and the log of callback
 * invocations. Every command and every timer firing is a function from
 * one Model to the next.
 */
module Engine {
  import opened Conversions

  datatype Role = Front | Back {
    function Other(): (r: Role)
      ensures r != this
    {
      if Front? then Back else Front
    }
  }

  /**
   * One bar: the width its element is rendered at (whatever was last
   * written to its CSS width), the ticks the bar believes it shows, and its
   * lock, bumped by every command on the bar.
   */
  datatype Bar = Bar(widthPx: real, currentTicks: real, lock: nat)

  /**
   * A step of a fill scheduled with setTimeout: the closure captures the
   * bar, the clamped target, the delay and the lock the fill was issued
   * under. The delay is carried but no clock is modelled.
   */
  datatype Task = Task(role: Role, ticks: real, delay: Delay, lock: nat)

  /**
   * The controller always installs no-op callbacks, so an event records an
   * invocation of one of those no-ops: which one, for which bar, and in
   * the chain of which lock.
   */
  datatype Callback = OnTick | OnFillComplete
  datatype Event = Event(callback: Callback, role: Role, lock: nat)

  datatype Model = Model(containerPx: int, front: Bar, back: Bar, pending: seq<Task>, log: seq<Event>)
  {
    function BarOf(r: Role): Bar {
      if r.Front? then front else back
    }

    function WithBar(r: Role, b: Bar): (m: Model)
      ensures m.BarOf(r) == b && m.BarOf(r.Other()) == BarOf(r.Other())
      ensures m.containerPx == containerPx && m.pending == pending && m.log == log
    {
      if r.Front? then this.(front := b) else this.(back := b)
    }
  }

  /** The width a bar's element reports: parseInt of its CSS width. */
  function ReadWidthPx(b: Bar): (n: int)
    ensures 0.0 <= b.widthPx ==> 0 <= n && n as real <= b.widthPx < n as real + 1.0
  {
    Truncate(b.widthPx)
  }

  /** A task is live when the bar's lock has not moved since it was issued. */
  predicate Live(m: Model, t: Task) {
    t.lock == m.BarOf(t.role).lock
  }

  /** The pixel width a fill of the given task is heading for. */
  function TargetPx(m: Model, t: Task): real
    requires m.containerPx > 0
  {
    TicksToPx(m.containerPx, CheckBounds(t.ticks))
  }

  /** The first half of every command: ++bar.lock. */
  function BumpLock(m: Model, r: Role): (m': Model)
    ensures m'.BarOf(r).lock == m.BarOf(r).lock + 1
    ensures m'.BarOf(r).widthPx == m.BarOf(r).widthPx && m'.BarOf(r).currentTicks == m.BarOf(r).currentTicks
    ensures m'.BarOf(r.Other()) == m.BarOf(r.Other())
    ensures m'.containerPx == m.containerPx && m'.pending == m.pending && m'.log == m.log
  {
    var b := m.BarOf(r);
    m.WithBar(r, b.(lock := b.lock + 1))
  }

  /**
   * setBarTo: clamp, write the matching width to the bar's element and
   * record the clamped ticks. It leaves the lock alone; only its callers
   * bump it.
   */
  function SetBarTo(m: Model, r: Role, ticks: real): (m': Model)
    requires m.containerPx > 0
    ensures m'.BarOf(r).currentTicks == CheckBounds(ticks)
    ensures m'.BarOf(r).widthPx == TicksToPx(m.containerPx, m'.BarOf(r).currentTicks)
    ensures m'.BarOf(r).lock == m.BarOf(r).lock
    ensures m'.BarOf(r.Other()) == m.BarOf(r.Other())
    ensures m'.containerPx == m.containerPx && m'.pending == m.pending && m'.log == m.log
  {
    var t := CheckBounds(ticks);
    var b := m.BarOf(r);
    m.WithBar(r, b.(widthPx := TicksToPx(m.containerPx, t), currentTicks := t))
  }

  /** setFrontBarTo / setBackBarTo. */
  function SetCommand(m: Model, r: Role, ticks: real): Model
    requires m.containerPx > 0
  {
    SetBarTo(BumpLock(m, r), r, ticks)
  }

  /**
   * doFillBarTo: one step of a fill. A task whose lock is stale does
   * nothing. A live one reads the bar's width; when it differs from the
   * target it moves the width one pixel toward the target, rederives the
   * ticks from the new width, calls onTick and schedules itself again;
   * otherwise it calls onFillComplete and schedules nothing.
   */
  function DoFillBarTo(m: Model, t: Task): Model
    requires m.containerPx > 0
  {
    var b := m.BarOf(t.role);
    if t.lock != b.lock then m
    else
      var ticks := CheckBounds(t.ticks);
      var currentPx := ReadWidthPx(b);
      var targetPx := TicksToPx(m.containerPx, ticks);
      var updatedPx := if (currentPx as real) < targetPx then currentPx + 1 else currentPx - 1;
      if currentPx as real != targetPx then
        var b' := b.(widthPx := updatedPx as real, currentTicks := PxToTicks(m.containerPx, updatedPx as real));
        m.WithBar(t.role, b')
         .(pending := m.pending + [t.(ticks := ticks)],
           log := m.log + [Event(OnTick, t.role, t.lock)])
      else
        m.(log := m.log + [Event(OnFillComplete, t.role, t.lock)])
  }

  /**
   * fillFrontBarTo / fillBackBarTo: bump the lock, turn the speed into a
   * delay and run the first step at once, under the new lock.
   */
  function FillCommand(m: Model, r: Role, ticks: real, ticksPerSecond: real): Model
    requires m.containerPx > 0
  {
    var m1 := BumpLock(m, r);
    DoFillBarTo(m1, Task(r, ticks, FillSpeedToDelay(m.containerPx, ticksPerSecond), m1.BarOf(r).lock))
  }

  /** stopBar, stopFrontBar, stopBackBar: bump the lock, nothing else. */
  function StopBar(m: Model, r: Role): Model {
    BumpLock(m, r)
  }

  /** stop: stop both bars. */
  function Stop(m: Model): (m': Model)
    ensures m'.front == m.front.(lock := m.front.lock + 1)
    ensures m'.back == m.back.(lock := m.back.lock + 1)
    ensures m'.containerPx == m.containerPx && m'.pending == m.pending && m'.log == m.log
  {
    StopBar(StopBar(m, Front), Back)
  }

  /** isBarFull: the width the bar reports is at least the container's. */
  predicate IsBarFull(m: Model, r: Role) {
    !(ReadWidthPx(m.BarOf(r)) < m.containerPx)
  }

  /** The pending list without its i-th timer. */
  function Without(s: seq<Task>, i: nat): (s': seq<Task>)
    requires i < |s|
    ensures |s'| == |s| - 1
    ensures forall k :: 0 <= k < |s'| ==> s'[k] == s[if k < i then k else k + 1]
  {
    s[..i] + s[i + 1..]
  }

  /** The host fires the i-th pending timer: it leaves the list and its step runs. */
  function Fire(m: Model, i: nat): Model
    requires m.containerPx > 0 && i < |m.pending|
  {
    DoFillBarTo(m.(pending := Without(m.pending, i)), m.pending[i])
  }

  /** Everything that can happen to the controller: a public command or a timer firing. */
  datatype Op =
    | SetTo(role: Role, ticks: real)
    | FillTo(role: Role, ticks: real, ticksPerSecond: real)
    | StopOne(role: Role)
    | StopAll
    | FireTimer(index: nat)

  /** One operation; firing a timer that is not pending changes nothing. */
  function Apply(m: Model, op: Op): (m': Model)
    requires m.containerPx > 0
    ensures m'.containerPx == m.containerPx
  {
    match op
    case SetTo(r, ticks) => SetCommand(m, r, ticks)
    case FillTo(r, ticks, speed) => FillCommand(m, r, ticks, speed)
    case StopOne(r) => StopBar(m, r)
    case StopAll => Stop(m)
    case FireTimer(i) => if i < |m.pending| then Fire(m, i) else m
  }

  /** A sequence of operations, in order. */
  function Run(m: Model, ops: seq<Op>): (m': Model)
    requires m.containerPx > 0
    ensures m'.containerPx == m.containerPx
    decreases |ops|
  {
    if ops == [] then m else Run(Apply(m, ops[0]), ops[1..])
  }

  /**
   * A pending timer may carry a lock no newer than its bar's, and it
   * carries its target already clamped.
   */
  predicate PendingOk(m: Model, t: Task) {
    t.lock <= m.BarOf(t.role).lock && CheckBounds(t.ticks) == t.ticks
  }

  /** No pending timer of bar r is live. */
  predicate NoLiveTask(m: Model, r: Role) {
    forall k :: 0 <= k < |m.pending| ==> !(m.pending[k].role == r && Live(m, m.pending[k]))
  }

  /**
   * The invariant every operation keeps: the container has a width, the
   * bar widths are not negative, every pending timer is well formed, and
   * each bar has at most one live chain pending.
   */
  ghost predicate Inv(m: Model) {
    && m.containerPx > 0
    && 0.0 <= m.front.widthPx && 0.0 <= m.back.widthPx
    && (forall k :: 0 <= k < |m.pending| ==> PendingOk(m, m.pending[k]))
    && (forall i, j ::
          0 <= i < j < |m.pending| && Live(m, m.pending[i]) && Live(m, m.pending[j]) ==>
          m.pending[i].role != m.pending[j].role)
  }

  /**
   * Both bars inside the container, so that both tick counts are on the
   * scale. It holds from the start when the page starts the bars inside
   * their container.
   */
  ghost predicate Contained(m: Model) {
    && 0.0 <= m.front.widthPx <= m.containerPx as real
    && 0.0 <= m.back.widthPx <= m.containerPx as real
    && 0.0 <= m.front.currentTicks <= MAX_TICKS
    && 0.0 <= m.back.currentTicks <= MAX_TICKS
  }
}
