/**
 * The DoubleProgressBar controller as an object whose methods update its
 * fields in place. The fields stand for what the source keeps on its two
 * bar objects and reads from or writes to the page: the container's width,
 * each bar element's width, each bar's currentTicks and lock. Two more
 * fields stand for the host: the timers scheduled with setTimeout and not
 * yet fired, and the log of (no-op) callback invocations.
 *
 * Every method is proved against the pure model in Engine: its new State()
 * is the Engine function of the old one, so everything proved in
 * EngineProperties holds of the object too.
 */
module Controller {
  import opened Conversions
  import opened Engine
  import EngineProperties

  class DoubleProgressBar {
    const containerPx: int
    var frontBar: Bar
    var backBar: Bar
    var pending: seq<Task>
    var log: seq<Event>

    function State(): Model
      reads this
    {
      Model(containerPx, frontBar, backBar, pending, log)
    }

    ghost predicate Valid()
      reads this
    {
      Inv(State())
    }

    /**
     * The constructor: both bars at 0 ticks and lock 0; the bar elements
     * keep whatever width the page gave them.
     */
    constructor (containerPx: int, frontWidthPx: real, backWidthPx: real)
      requires containerPx > 0 && 0.0 <= frontWidthPx && 0.0 <= backWidthPx
      ensures Valid()
      ensures State() == Model(containerPx, Bar(frontWidthPx, 0.0, 0), Bar(backWidthPx, 0.0, 0), [], [])
    {
      this.containerPx := containerPx;
      frontBar := Bar(frontWidthPx, 0.0, 0);
      backBar := Bar(backWidthPx, 0.0, 0);
      pending := [];
      log := [];
    }

    method PutBar(r: Role, b: Bar)
      modifies this
      ensures State() == old(State()).WithBar(r, b)
    {
      if r.Front? {
        frontBar := b;
      } else {
        backBar := b;
      }
    }

    /** ++bar.lock */
    method BumpLock(r: Role)
      requires Valid()
      modifies this
      ensures Valid() && State() == Engine.BumpLock(old(State()), r)
      ensures NoLiveTask(State(), r)
    {
      var b := State().BarOf(r);
      PutBar(r, b.(lock := b.lock + 1));
      EngineProperties.BumpPreservesInv(old(State()), r);
    }

    method SetBarTo(r: Role, ticks: real)
      requires Valid()
      modifies this
      ensures Valid() && State() == Engine.SetBarTo(old(State()), r, ticks)
    {
      var clamped := CheckBounds(ticks);
      var b := State().BarOf(r);
      PutBar(r, b.(widthPx := TicksToPx(containerPx, clamped), currentTicks := clamped));
      EngineProperties.SetBarToPreservesInv(old(State()), r, ticks);
    }

    method SetFrontBarTo(ticks: real)
      requires Valid()
      modifies this
      ensures Valid() && State() == SetCommand(old(State()), Front, ticks)
    {
      BumpLock(Front);
      SetBarTo(Front, ticks);
    }

    method SetBackBarTo(ticks: real)
      requires Valid()
      modifies this
      ensures Valid() && State() == SetCommand(old(State()), Back, ticks)
    {
      BumpLock(Back);
      SetBarTo(Back, ticks);
    }

    /**
     * One step of a fill, for the bar r, under the lock the step was
     * issued with.
     */
    method DoFillBarTo(r: Role, ticks: real, delay: Delay, lock: nat)
      requires Valid() && lock <= State().BarOf(r).lock
      requires lock == State().BarOf(r).lock ==> NoLiveTask(State(), r)
      modifies this
      ensures Valid() && State() == Engine.DoFillBarTo(old(State()), Task(r, ticks, delay, lock))
    {
      var b := State().BarOf(r);
      if lock == b.lock {
        var clamped := CheckBounds(ticks);
        var currentWidthPx := ReadWidthPx(b);
        var targetWidthPx := TicksToPx(containerPx, clamped);
        var updatedWidthPx;
        if (currentWidthPx as real) < targetWidthPx {
          updatedWidthPx := currentWidthPx + 1;
        } else {
          updatedWidthPx := currentWidthPx - 1;
        }
        if currentWidthPx as real != targetWidthPx {
          PutBar(r, b.(widthPx := updatedWidthPx as real,
                       currentTicks := PxToTicks(containerPx, updatedWidthPx as real)));
          log := log + [Event(OnTick, r, lock)];
          pending := pending + [Task(r, clamped, delay, lock)];
        } else {
          log := log + [Event(OnFillComplete, r, lock)];
        }
      }
      EngineProperties.StepPreservesInv(old(State()), Task(r, ticks, delay, lock));
    }

    method FillFrontBarTo(ticks: real, ticksPerSecond: real)
      requires Valid()
      modifies this
      ensures Valid() && State() == FillCommand(old(State()), Front, ticks, ticksPerSecond)
    {
      BumpLock(Front);
      DoFillBarTo(Front, ticks, FillSpeedToDelay(containerPx, ticksPerSecond), frontBar.lock);
    }

    method FillBackBarTo(ticks: real, ticksPerSecond: real)
      requires Valid()
      modifies this
      ensures Valid() && State() == FillCommand(old(State()), Back, ticks, ticksPerSecond)
    {
      BumpLock(Back);
      DoFillBarTo(Back, ticks, FillSpeedToDelay(containerPx, ticksPerSecond), backBar.lock);
    }

    /** The host fires the i-th pending timer: it runs that step once. */
    method Fire(i: nat)
      requires Valid() && i < |pending|
      modifies this
      ensures Valid() && State() == Engine.Fire(old(State()), i)
    {
      var t := pending[i];
      EngineProperties.WithoutPreservesInv(State(), i);
      pending := pending[..i] + pending[i + 1..];
      DoFillBarTo(t.role, t.ticks, t.delay, t.lock);
    }

    method IsBarFull(r: Role) returns (full: bool)
      ensures full <==> ReadWidthPx(State().BarOf(r)) >= containerPx
      ensures full == Engine.IsBarFull(State(), r)
    {
      var barWidthPx := ReadWidthPx(State().BarOf(r));
      if barWidthPx < containerPx {
        full := false;
      } else {
        full := true;
      }
    }

    method IsFrontBarFull() returns (full: bool)
      ensures full <==> ReadWidthPx(frontBar) >= containerPx
    {
      full := IsBarFull(Front);
    }

    method IsBackBarFull() returns (full: bool)
      ensures full <==> ReadWidthPx(backBar) >= containerPx
    {
      full := IsBarFull(Back);
    }

    method StopBar(r: Role)
      requires Valid()
      modifies this
      ensures Valid() && State() == Engine.StopBar(old(State()), r)
    {
      BumpLock(r);
    }

    method StopFrontBar()
      requires Valid()
      modifies this
      ensures Valid() && State() == Engine.StopBar(old(State()), Front)
    {
      StopBar(Front);
    }

    method StopBackBar()
      requires Valid()
      modifies this
      ensures Valid() && State() == Engine.StopBar(old(State()), Back)
    {
      StopBar(Back);
    }

    method Stop()
      requires Valid()
      modifies this
      ensures Valid() && State() == Engine.Stop(old(State()))
    {
      StopBar(Front);
      StopBar(Back);
    }
  }
}
