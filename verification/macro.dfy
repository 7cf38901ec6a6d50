/**
 * The Macro object: its template and run state are fields that
 * `button_press`, `timer` and `button_release` update in place, and the
 * timer re-registers itself with the mapper's scheduler.
 */
module MacroObject {
  import opened Wrappers
  import opened Actions
  import opened Scheduler
  import opened MacroRun

  class Macro {
    /** The flat step list. */
    var actions: seq<Step>
    var repeat: bool
    /** `hold_time`: always Macro.HOLD_TIME, also for Type. */
    const holdTime: real
    var active: bool
    var current: Option<seq<Step>>
    var release: Option<Step>

    function Def(): MacroDef
      reads this
    {
      MacroDef(actions, repeat)
    }

    function State(): Run
      reads this
    {
      Run(active, current, release)
    }

    ghost predicate Valid()
      reads this
    {
      holdTime == HOLD_TIME && Inv(Def(), State())
    }

    /** The macro has exactly one tick waiting in the queue while it runs, none while idle. */
    ghost predicate TickPending(mapper: Mapper)
      reads this, mapper
    {
      mapper.Pending(MacroTimer(this)) == if current.Some? then 1 else 0
    }

    /**
     * An idle macro meets TickPending against any queue holding nothing of
     * its own, such as every queue built before the macro was allocated.
     */
    lemma IdleTickPending(mapper: Mapper)
      requires current.None?
      requires forall i :: 0 <= i < |mapper.queue| ==> mapper.queue[i].callback.owner != this
      ensures TickPending(mapper)
    {
      CountOfAbsent(mapper.queue, MacroTimer(this));
    }

    /** A macro built from `d` (see MacroBuild.Construct and Repeat), idle. */
    constructor (d: MacroDef)
      ensures Valid() && Def() == d && State() == Run(false, None, None)
    {
      actions := d.actions;
      repeat := d.repeat;
      holdTime := HOLD_TIME;
      active := false;
      current := None;
      release := None;
    }

    /**
     * `button_press`. An idle macro that keeps exactly one pending tick
     * while it runs still does so afterwards.
     */
    method ButtonPress(mapper: Mapper)
      requires Valid()
      modifies this, mapper
      ensures Valid() && Def() == old(Def())
      ensures State() == Press(old(Def()), old(State())).run
      ensures mapper.trace == old(mapper.trace) + Press(old(Def()), old(State())).events
      ensures mapper.queue == old(mapper.queue) + Scheduled(MacroTimer(this), Press(old(Def()), old(State())).delays)
      ensures old(TickPending(mapper)) ==> TickPending(mapper)
    {
      if |actions| < 1 {
        // empty macro
        CountAfterSchedule(mapper.queue, MacroTimer(this), []);
        assert mapper.queue + [] == mapper.queue;
        return;
      }
      active := true;
      if current.Some? {
        // already executing
        CountAfterSchedule(mapper.queue, MacroTimer(this), []);
        assert mapper.queue + [] == mapper.queue;
        return;
      }
      current := Some(actions);
      assert actions[|actions| - |actions|..] == actions;
      Timer(mapper);
    }

    /**
     * `timer`, as called once this macro's pending tick has been taken off
     * the queue (see RunTick): afterwards one more tick is pending iff the
     * macro still runs.
     */
    method Timer(mapper: Mapper)
      requires Valid() && current.Some?
      modifies this, mapper
      ensures Valid() && Def() == old(Def())
      ensures State() == Tick(old(Def()), old(State())).run
      ensures mapper.trace == old(mapper.trace) + Tick(old(Def()), old(State())).events
      ensures mapper.queue == old(mapper.queue) + Scheduled(MacroTimer(this), Tick(old(Def()), old(State())).delays)
      ensures mapper.Pending(MacroTimer(this)) == old(mapper.Pending(MacroTimer(this))) + (if current.Some? then 1 else 0)
    {
      ghost var o := Tick(Def(), State());
      ghost var q0 := mapper.queue;
      if release.None? {
        // execute the next step
        var cur := current.value;
        release, current := Some(cur[0]), Some(cur[1..]);
        mapper.trace := mapper.trace + [Invoke(Down, cur[0].action)];
        mapper.Schedule(holdTime, MacroTimer(this));
      } else {
        // finish the held step
        var held := release.value;
        mapper.trace := mapper.trace + [Invoke(Up, held.action)];
        if |current.value| == 0 && repeat && active {
          // repeating
          current := Some(actions);
          mapper.Schedule(held.delayAfter, MacroTimer(this));
          release := None;
        } else if |current.value| == 0 {
          // finished
          current := None;
          release := None;
        } else {
          // schedule the next step
          mapper.Schedule(held.delayAfter, MacroTimer(this));
          release := None;
        }
      }
      assert Scheduled(MacroTimer(this), o.delays) == if o.delays == [] then [] else [Entry(o.delays[0], MacroTimer(this))];
      assert q0 + [] == q0;
      CountAfterSchedule(q0, MacroTimer(this), o.delays);
    }

    /**
     * The dispatcher running this macro's tick from the front of the queue:
     * the tick is taken off, `timer` runs, and the macro again has exactly
     * one tick pending while it runs and none once it has finished. A tick
     * at the front of the queue means the macro was running.
     */
    method RunTick(mapper: Mapper)
      requires Valid() && TickPending(mapper)
      requires mapper.queue != [] && mapper.queue[0].callback == MacroTimer(this)
      modifies this, mapper
      ensures old(current).Some?
      ensures Valid() && Def() == old(Def())
      ensures State() == Tick(old(Def()), old(State())).run
      ensures mapper.trace == old(mapper.trace) + Tick(old(Def()), old(State())).events
      ensures mapper.queue == old(mapper.queue)[1..] + Scheduled(MacroTimer(this), Tick(old(Def()), old(State())).delays)
      ensures TickPending(mapper)
    {
      var e := mapper.Pop();
      assert current.Some?;
      Timer(mapper);
    }

    /**
     * `button_release`: only notes that the button is up. The queue, the
     * held step and every pending tick are left as they are.
     */
    method ButtonRelease(mapper: Mapper)
      requires Valid()
      modifies this
      ensures Valid() && Def() == old(Def())
      ensures State() == old(State()).(active := false)
      ensures TickPending(mapper) == old(TickPending(mapper))
    {
      active := false;
    }
  }
}
