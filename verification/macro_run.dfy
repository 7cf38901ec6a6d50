/**
 * The Macro state machine as functions: `button_press`, one `timer` tick,
 * and a run of consecutive ticks, with the properties a run promises.
 */
module MacroRun {
  import opened Wrappers
  import opened Actions

  /** A macro's template: its flat step list (`actions`) and `repeat`. */
  datatype MacroDef = MacroDef(actions: seq<Step>, repeat: bool)

  /**
   * A macro's run state: `_active` (the outer button is held), `_current`
   * (the steps not yet started, None when idle) and `_release` (the step
   * pressed and not yet released).
   */
  datatype Run = Run(active: bool, current: Option<seq<Step>>, release: Option<Step>)

  /**
   * What one entry point does: the new run state, the calls it makes into
   * child actions, and the delays of the timer ticks it schedules, in order.
   */
  datatype Outcome = Outcome(run: Run, events: seq<Event>, delays: seq<real>)

  /**
   * A run in progress: the queue is a suffix of the template, the held step
   * is the one just before that suffix, and a queue with nothing held is
   * never empty (so the press branch of `timer` always has a step to pop).
   */
  predicate InRun(actions: seq<Step>, cur: seq<Step>, held: Option<Step>)
  {
    && |cur| <= |actions|
    && cur == actions[|actions| - |cur|..]
    && (held.Some? ==> |cur| < |actions| && held.value == actions[|actions| - |cur| - 1])
    && (held.None? ==> |cur| > 0)
  }

  /** The invariant of a macro's run state; `_release` implies `_current`. */
  predicate Inv(d: MacroDef, r: Run)
  {
    && (r.release.Some? ==> r.current.Some?)
    && (r.current.Some? ==> InRun(d.actions, r.current.value, r.release))
  }

  /** One `timer` tick of a running macro. */
  function Tick(d: MacroDef, r: Run): (o: Outcome)
    requires Inv(d, r) && r.current.Some?
    ensures Inv(d, o.run)
    ensures o.run.active == r.active
    ensures |o.events| == 1
    // exactly one tick stays pending while the macro runs, none once idle
    ensures |o.delays| == if o.run.current.Some? then 1 else 0
    // nothing held: press the next queued step and hold it for hold_time
    ensures r.release.None? ==>
              && o.run.release == Some(r.current.value[0])
              && o.run.current == Some(r.current.value[1..])
              && o.events == [Invoke(Down, r.current.value[0].action)]
              && o.delays == [HOLD_TIME]
    // a step held: release it, and wait its delay_after before the next tick
    ensures r.release.Some? ==>
              && o.run.release.None?
              && o.events == [Invoke(Up, r.release.value.action)]
              && (o.run.current.Some? ==> o.delays == [r.release.value.delayAfter])
    // the run continues while steps remain; it restarts iff repeat and active
    ensures r.release.Some? && r.current.value != [] ==> o.run.current == r.current
    ensures r.release.Some? && r.current.value == [] ==>
              o.run.current == (if d.repeat && r.active then Some(d.actions) else None)
  {
    var cur := r.current.value;
    if r.release.None? then
      Outcome(Run(r.active, Some(cur[1..]), Some(cur[0])), [Invoke(Down, cur[0].action)], [HOLD_TIME])
    else
      var held := r.release.value;
      var ev := [Invoke(Up, held.action)];
      if |cur| == 0 && d.repeat && r.active then
        Outcome(Run(r.active, Some(d.actions), None), ev, [held.delayAfter])
      else if |cur| == 0 then
        Outcome(Run(r.active, None, None), ev, [])
      else
        Outcome(Run(r.active, Some(cur), None), ev, [held.delayAfter])
  }

  /** `button_press` of the outer button. */
  function Press(d: MacroDef, r: Run): (o: Outcome)
    requires Inv(d, r)
    ensures Inv(d, o.run)
    // an empty macro does nothing at all
    ensures d.actions == [] ==> o == Outcome(r, [], [])
    // a running macro only notes that the button is held: no second run
    ensures d.actions != [] && r.current.Some? ==> o == Outcome(r.(active := true), [], [])
    // an idle macro starts a run and presses its first step at once
    ensures d.actions != [] && r.current.None? ==>
              && o.run == Run(true, Some(d.actions[1..]), Some(d.actions[0]))
              && o.events == [Invoke(Down, d.actions[0].action)]
              && o.delays == [HOLD_TIME]
  {
    if |d.actions| < 1 then Outcome(r, [], [])
    else if r.current.Some? then Outcome(r.(active := true), [], [])
    else Tick(d, Run(true, Some(d.actions), r.release))
  }

  /** Up to `k` consecutive ticks; a macro that went idle has no tick pending. */
  function Drive(d: MacroDef, r: Run, k: nat): (o: Outcome)
    requires Inv(d, r)
    ensures Inv(d, o.run)
    ensures o.run.active == r.active
    decreases k
  {
    if k == 0 || r.current.None? then Outcome(r, [], [])
    else
      var t := Tick(d, r);
      var rest := Drive(d, t.run, k - 1);
      Outcome(rest.run, t.events + rest.events, t.delays + rest.delays)
  }

  /** Each step pressed and then released, in list order. */
  function StepEvents(steps: seq<Step>): (r: seq<Event>)
  {
    if steps == [] then []
    else [Invoke(Down, steps[0].action), Invoke(Up, steps[0].action)] + StepEvents(steps[1..])
  }

  /** The delays a run of `steps` schedules: hold_time, then each step's delay_after. */
  function Delays(steps: seq<Step>): (r: seq<real>)
    ensures |r| == 2 * |steps|
  {
    if steps == [] then [] else [HOLD_TIME, steps[0].delayAfter] + Delays(steps[1..])
  }

  /** The ticks the current run still needs. */
  function Remaining(r: Run): nat
    requires r.current.Some?
  {
    2 * |r.current.value| + (if r.release.Some? then 1 else 0)
  }

  /** The calls into children the current run still makes. */
  function RemainingEvents(r: Run): seq<Event>
    requires r.current.Some?
  {
    (if r.release.Some? then [Invoke(Up, r.release.value.action)] else [])
    + StepEvents(r.current.value)
  }

  /** The delays the current run still schedules if it ends in a restart. */
  function RemainingDelays(r: Run): seq<real>
    requires r.current.Some?
  {
    (if r.release.Some? then [r.release.value.delayAfter] else []) + Delays(r.current.value)
  }

  /** The step at index j is pressed at event 2j and released at event 2j+1. */
  lemma {:induction false} StepEventsOrder(steps: seq<Step>)
    ensures |StepEvents(steps)| == 2 * |steps|
    ensures forall j :: 0 <= j < |steps| ==>
              StepEvents(steps)[2 * j] == Invoke(Down, steps[j].action)
              && StepEvents(steps)[2 * j + 1] == Invoke(Up, steps[j].action)
  {
    if steps != [] {
      StepEventsOrder(steps[1..]);
      var ev := StepEvents(steps);
      forall j | 0 <= j < |steps|
        ensures ev[2 * j] == Invoke(Down, steps[j].action)
        ensures ev[2 * j + 1] == Invoke(Up, steps[j].action)
      {
        if j > 0 {
          assert ev[2 * j] == StepEvents(steps[1..])[2 * (j - 1)];
          assert ev[2 * j + 1] == StepEvents(steps[1..])[2 * (j - 1) + 1];
        }
      }
    }
  }

  /** Hold time at even positions, the step's delay_after at odd ones. */
  lemma {:induction false} DelaysOrder(steps: seq<Step>)
    ensures forall j :: 0 <= j < |steps| ==>
              Delays(steps)[2 * j] == HOLD_TIME && Delays(steps)[2 * j + 1] == steps[j].delayAfter
  {
    if steps != [] {
      DelaysOrder(steps[1..]);
      var ds := Delays(steps);
      forall j | 0 <= j < |steps|
        ensures ds[2 * j] == HOLD_TIME && ds[2 * j + 1] == steps[j].delayAfter
      {
        if j > 0 {
          assert ds[2 * j] == Delays(steps[1..])[2 * (j - 1)];
          assert ds[2 * j + 1] == Delays(steps[1..])[2 * (j - 1) + 1];
        }
      }
    }
  }

  /**
   * What the rest of a run does: it makes the remaining calls in order, and
   * at the end the macro restarts (template refilled, one more tick pending
   * after the last step's delay_after) exactly when it repeats and the
   * button is held; otherwise it is idle and the last delay is never used.
   */
  ghost predicate Finishes(d: MacroDef, r: Run)
    requires Inv(d, r) && r.current.Some?
  {
    var o := Drive(d, r, Remaining(r));
    var full := RemainingDelays(r);
    && |full| > 0
    && o.events == RemainingEvents(r)
    && (d.repeat && r.active ==> o.run == Run(r.active, Some(d.actions), None) && o.delays == full)
    && (!(d.repeat && r.active) ==> o.run == Run(r.active, None, None) && o.delays == full[..|full| - 1])
  }

  /** Unfolds one tick of `Drive`. */
  lemma DriveUnfold(d: MacroDef, r: Run, k: nat)
    requires Inv(d, r) && r.current.Some? && k > 0
    ensures var t := Tick(d, r);
            var rest := Drive(d, t.run, k - 1);
            Drive(d, r, k) == Outcome(rest.run, t.events + rest.events, t.delays + rest.delays)
  {
  }

  /**
   * From any point of a run, the remaining ticks release the held step and
   * press and release every queued step in order. At the end the macro
   * restarts exactly when it repeats and the button is held; otherwise it
   * is idle and the last step's delay_after is never scheduled.
   */
  lemma {:induction false} FinishRun(d: MacroDef, r: Run)
    requires Inv(d, r) && r.current.Some?
    ensures |RemainingDelays(r)| > 0
    ensures Drive(d, r, Remaining(r)).events == RemainingEvents(r)
    ensures d.repeat && r.active ==>
              && Drive(d, r, Remaining(r)).run == Run(r.active, Some(d.actions), None)
              && Drive(d, r, Remaining(r)).delays == RemainingDelays(r)
    ensures !(d.repeat && r.active) ==>
              && Drive(d, r, Remaining(r)).run == Run(r.active, None, None)
              && Drive(d, r, Remaining(r)).delays == RemainingDelays(r)[..|RemainingDelays(r)| - 1]
    decreases Remaining(r), 1
  {
    if r.release.None? {
      FinishAfterPress(d, r);
    } else if r.current.value == [] {
      FinishLastRelease(d, r);
    } else {
      FinishAfterRelease(d, r);
    }
  }

  /** Case of FinishRun: nothing held, so the next tick presses the head step. */
  lemma {:induction false} FinishAfterPress(d: MacroDef, r: Run)
    requires Inv(d, r) && r.current.Some? && r.release.None?
    ensures Finishes(d, r)
    decreases Remaining(r), 0
  {
    var cur := r.current.value;
    var t := Tick(d, r);
    var k := Remaining(r);
    DriveUnfold(d, r, k);
    assert Remaining(t.run) == k - 1;
    FinishRun(d, t.run);
    var full := RemainingDelays(t.run);
    assert full == [cur[0].delayAfter] + Delays(cur[1..]);
    assert RemainingDelays(r) == [HOLD_TIME] + full by {
      assert Delays(cur) == [HOLD_TIME, cur[0].delayAfter] + Delays(cur[1..]);
      ConsPair(HOLD_TIME, cur[0].delayAfter, Delays(cur[1..]));
    }
    assert RemainingEvents(r) == t.events + RemainingEvents(t.run) by {
      assert StepEvents(cur) == [Invoke(Down, cur[0].action), Invoke(Up, cur[0].action)] + StepEvents(cur[1..]);
      ConsPair(Invoke(Down, cur[0].action), Invoke(Up, cur[0].action), StepEvents(cur[1..]));
    }
    DropLastCons(HOLD_TIME, full);
    var rest := Drive(d, t.run, k - 1);
    var o := Drive(d, r, k);
    assert t.delays == [HOLD_TIME];
    assert o.run == rest.run && o.events == t.events + rest.events && o.delays == [HOLD_TIME] + rest.delays;
    if d.repeat && r.active {
      assert rest.delays == full;
    } else {
      assert rest.delays == full[..|full| - 1];
    }
  }

  /** `[x, y] + s` is `[x]` followed by `[y] + s`. */
  lemma ConsPair<T>(x: T, y: T, s: seq<T>)
    ensures [x, y] + s == [x] + ([y] + s)
  {
  }

  /** Dropping the last element commutes with putting one in front. */
  lemma DropLastCons<T>(x: T, s: seq<T>)
    requires s != []
    ensures ([x] + s)[..|[x] + s| - 1] == [x] + s[..|s| - 1]
  {
  }

  /** Case of FinishRun: the last step is held, so the next tick ends the run. */
  lemma {:induction false} FinishLastRelease(d: MacroDef, r: Run)
    requires Inv(d, r) && r.current.Some? && r.release.Some? && r.current.value == []
    ensures Finishes(d, r)
  {
    var t := Tick(d, r);
    DriveUnfold(d, r, 1);
    assert Drive(d, t.run, 0) == Outcome(t.run, [], []);
    assert RemainingEvents(r) == t.events;
  }

  /** Case of FinishRun: a step is held and more are queued. */
  lemma {:induction false} FinishAfterRelease(d: MacroDef, r: Run)
    requires Inv(d, r) && r.current.Some? && r.release.Some? && r.current.value != []
    ensures Finishes(d, r)
    decreases Remaining(r), 0
  {
    var cur := r.current.value;
    var held := r.release.value;
    var t := Tick(d, r);
    var k := Remaining(r);
    DriveUnfold(d, r, k);
    assert Remaining(t.run) == k - 1;
    assert t.run == Run(r.active, Some(cur), None);
    FinishRun(d, t.run);
    var full := RemainingDelays(t.run);
    assert RemainingDelays(r) == [held.delayAfter] + full;
    assert RemainingEvents(r) == t.events + RemainingEvents(t.run);
    assert ([held.delayAfter] + full)[..|[held.delayAfter] + full| - 1] == [held.delayAfter] + full[..|full| - 1];
  }

  /**
   * A non-repeating macro of n steps, pressed while idle and then ticked
   * 2n-1 times, calls press and then release on each step exactly once, in
   * list order, and ends idle. The ticks wait hold_time after each press
   * and the finished step's delay_after after each release but the last.
   */
  lemma {:induction false} SingleRun(d: MacroDef, r: Run)
    requires Inv(d, r) && r.current.None? && d.actions != [] && !d.repeat
    ensures var p := Press(d, r);
            var o := Drive(d, p.run, 2 * |d.actions| - 1);
            && o.run == Run(true, None, None)
            && p.events + o.events == StepEvents(d.actions)
            && p.delays + o.delays == Delays(d.actions)[..2 * |d.actions| - 1]
  {
    var p := Press(d, r);
    var n := |d.actions|;
    assert Remaining(p.run) == 2 * n - 1;
    FinishRun(d, p.run);
    var full := RemainingDelays(p.run);
    assert d.actions == [d.actions[0]] + d.actions[1..];
    assert Delays(d.actions) == [HOLD_TIME] + full;
    assert p.events + RemainingEvents(p.run) == StepEvents(d.actions);
    assert ([HOLD_TIME] + full)[..2 * n - 1] == [HOLD_TIME] + full[..|full| - 1];
  }

  /**
   * A repeating macro pressed while idle and held: after its 2n-1 ticks it
   * has pressed and released each step once, in order, and has refilled its
   * queue with one tick pending after the last step's delay_after.
   */
  lemma {:induction false} RepeatRestarts(d: MacroDef, r: Run)
    requires Inv(d, r) && r.current.None? && d.actions != [] && d.repeat
    ensures var p := Press(d, r);
            var o := Drive(d, p.run, 2 * |d.actions| - 1);
            && o.run == Run(true, Some(d.actions), None)
            && p.events + o.events == StepEvents(d.actions)
            && p.delays + o.delays == Delays(d.actions)
            && (p.delays + o.delays)[2 * |d.actions| - 1] == d.actions[|d.actions| - 1].delayAfter
  {
    var p := Press(d, r);
    var n := |d.actions|;
    var a := d.actions;
    assert p.run == Run(true, Some(a[1..]), Some(a[0]));
    assert p.events == [Invoke(Down, a[0].action)] && p.delays == [HOLD_TIME];
    assert Remaining(p.run) == 2 * n - 1;
    FinishRun(d, p.run);
    assert Delays(a) == [HOLD_TIME] + RemainingDelays(p.run) by {
      ConsPair(HOLD_TIME, a[0].delayAfter, Delays(a[1..]));
    }
    assert p.events + RemainingEvents(p.run) == StepEvents(a) by {
      ConsPair(Invoke(Down, a[0].action), Invoke(Up, a[0].action), StepEvents(a[1..]));
    }
    DelaysOrder(a);
  }

  /** While the button stays held, a repeating macro runs again and again. */
  lemma {:induction false} RepeatIsPeriodic(d: MacroDef)
    requires d.repeat && d.actions != []
    ensures var r := Run(true, Some(d.actions), None);
            Drive(d, r, 2 * |d.actions|) == Outcome(r, StepEvents(d.actions), Delays(d.actions))
  {
    var r := Run(true, Some(d.actions), None);
    assert d.actions[|d.actions| - |d.actions|..] == d.actions;
    FinishRun(d, r);
  }

  /**
   * Releasing the outer button during a run truncates nothing: every step
   * still queued or held is still released and pressed, in order, and the
   * macro then goes idle instead of restarting.
   */
  lemma {:induction false} ReleaseNeverTruncates(d: MacroDef, r: Run)
    requires Inv(d, r) && r.current.Some?
    ensures var o := Drive(d, r.(active := false), Remaining(r));
            o.run == Run(false, None, None) && o.events == RemainingEvents(r)
  {
    FinishRun(d, r.(active := false));
  }

  /** Pressing a running macro again changes neither its queue nor its held step. */
  lemma PressWhileRunning(d: MacroDef, r: Run)
    requires Inv(d, r) && r.current.Some?
    ensures Press(d, r).run.current == r.current && Press(d, r).run.release == r.release
    ensures Press(d, r).events == [] && Press(d, r).delays == []
  {
  }
}
