/**
 * The leaf actions a macro sequences, the edges that drive them, and the
 * events the model records when an action is driven.
 */
module Actions {

  /** Macro.HOLD_TIME: seconds between a step's press and its release. */
  const HOLD_TIME: real := 0.01

  /**
   * The `delay_after` an Action object starts with. It is set by the Action
   * base class, which is not part of this model, so its value is left open.
   */
  const ACTION_DELAY_AFTER: real

  /** A key or button code, or the raw number a float parameter becomes. */
  datatype Key = Named(name: string) | Numeric(x: real)

  /** The two edges of a virtual button. */
  datatype Edge = Down | Up

  /** The action kinds a macro step can hold. */
  datatype Action =
    | Button(key: Key)              // ButtonAction
    | Sleep(delay: real)            // SleepAction
    | PressOnly(inner: Action)      // PressAction
    | ReleaseOnly(inner: Action)    // ReleaseAction

  /** An action object together with its `delay_after` attribute. */
  datatype Step = Step(action: Action, delayAfter: real)

  /**
   * What the model observes: a composite action calling `button_press`
   * (Down) or `button_release` (Up) on a child, or a primitive key edge.
   */
  datatype Event = Invoke(edge: Edge, target: Action) | KeyEvent(edge: Edge, key: Key)

  /**
   * A freshly constructed action object: SleepAction sets its own delay so
   * that hold time plus delay is the requested pause; every other action
   * keeps the default.
   */
  function NewStep(a: Action): (s: Step)
    ensures s.action == a
    ensures a.Sleep? ==> HOLD_TIME + s.delayAfter == a.delay
    ensures !a.Sleep? ==> s.delayAfter == ACTION_DELAY_AFTER
  {
    Step(a, if a.Sleep? then a.delay - HOLD_TIME else ACTION_DELAY_AFTER)
  }

  /** The action a stack of press-only and release-only decorators wraps. */
  function Core(a: Action): (c: Action)
    ensures !c.PressOnly? && !c.ReleaseOnly?
  {
    match a
    case PressOnly(inner) => Core(inner)
    case ReleaseOnly(inner) => Core(inner)
    case _ => a
  }

  /**
   * The primitive key edges that driving `a` with edge `e` produces: at
   * most one edge, always of the key of the button at the core of the
   * decorators; a sleep produces none, and a decorated action none on
   * release.
   */
  function KeyEffect(e: Edge, a: Action): (r: seq<Event>)
    ensures |r| <= 1
    ensures forall i :: 0 <= i < |r| ==> r[i].KeyEvent?
    ensures r != [] ==> Core(a).Button? && r[0].key == Core(a).key
    ensures Core(a).Sleep? ==> r == []
    ensures !a.Button? && e == Up ==> r == []
    decreases a
  {
    match a
    case Button(k) => [KeyEvent(e, k)]
    case Sleep(_) => []
    case PressOnly(inner) => if e == Down then KeyEffect(Down, inner) else []
    case ReleaseOnly(inner) => if e == Down then KeyEffect(Up, inner) else []
  }

  /** Replaces every call into a leaf action by the key edges it produces. */
  function Expand(events: seq<Event>): (r: seq<Event>)
    ensures forall i :: 0 <= i < |r| ==> r[i].KeyEvent?
  {
    if events == [] then []
    else
      (match events[0]
       case Invoke(e, a) => KeyEffect(e, a)
       case KeyEvent(_, _) => [events[0]])
      + Expand(events[1..])
  }

  lemma {:induction false} ExpandAppend(xs: seq<Event>, ys: seq<Event>)
    ensures Expand(xs + ys) == Expand(xs) + Expand(ys)
  {
    if xs == [] {
      assert xs + ys == ys;
    } else {
      assert (xs + ys)[0] == xs[0];
      assert (xs + ys)[1..] == xs[1..] + ys;
      ExpandAppend(xs[1..], ys);
    }
  }

  /**
   * A SleepAction step takes exactly its requested duration: the implicit
   * hold plus its own `delay_after`. Its press and release do nothing.
   */
  lemma SleepPadsToDuration(d: real)
    ensures HOLD_TIME + NewStep(Sleep(d)).delayAfter == d
    ensures KeyEffect(Down, Sleep(d)) == [] && KeyEffect(Up, Sleep(d)) == []
  {
  }

  /**
   * PressAction forwards press and ignores release; ReleaseAction turns its
   * press into the inner action's release and also ignores release.
   */
  lemma DecoratorEdges(a: Action)
    ensures KeyEffect(Down, PressOnly(a)) == KeyEffect(Down, a)
    ensures KeyEffect(Up, PressOnly(a)) == []
    ensures KeyEffect(Down, ReleaseOnly(a)) == KeyEffect(Up, a)
    ensures KeyEffect(Up, ReleaseOnly(a)) == []
  {
  }

  /**
   * A press-only step and a release-only step of the same action, each run
   * as a full press/release step, produce exactly one press and one release
   * of that action, whatever runs between them.
   */
  lemma {:induction false} PressReleaseBracket(a: Action, between: seq<Event>)
    ensures Expand([Invoke(Down, PressOnly(a)), Invoke(Up, PressOnly(a))] + between
                   + [Invoke(Down, ReleaseOnly(a)), Invoke(Up, ReleaseOnly(a))])
         == KeyEffect(Down, a) + Expand(between) + KeyEffect(Up, a)
  {
    var open := [Invoke(Down, PressOnly(a)), Invoke(Up, PressOnly(a))];
    var close := [Invoke(Down, ReleaseOnly(a)), Invoke(Up, ReleaseOnly(a))];
    ExpandAppend(open + between, close);
    ExpandAppend(open, between);
    assert Expand(open) == KeyEffect(Down, a) by {
      assert open[1..] == [Invoke(Up, PressOnly(a))];
      assert open[1..][1..] == [];
      assert Expand(open[1..]) == [];
    }
    assert Expand(close) == KeyEffect(Up, a) by {
      assert close[1..] == [Invoke(Up, ReleaseOnly(a))];
      assert close[1..][1..] == [];
      assert Expand(close[1..]) == [];
      assert KeyEffect(Down, ReleaseOnly(a)) == KeyEffect(Up, a);
    }
  }
}
