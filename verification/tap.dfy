/**
 * TapAction: presses its button for a moment. On a button that is already
 * logically held it instead produces release, press, release, press in
 * quick succession, the first edge at once and the other three each from a
 * callback scheduled at delay 0.
 */
module Tapping {
  import opened Actions
  import opened Scheduler

  /** `ButtonAction._button_press` and `ButtonAction._button_release`. */
  datatype Primitive = KeyPress | KeyRelease

  function EdgeOf(p: Primitive): (e: Edge)
    ensures e == Down <==> p == KeyPress
  {
    match p
    case KeyPress => Down
    case KeyRelease => Up
  }

  /** The steps a tap on a held button goes through. */
  const HELD_SEQUENCE: seq<Primitive> := [KeyRelease, KeyPress, KeyRelease, KeyPress]

  /** `button in mapper.pressed and mapper.pressed[button] > 0`. */
  predicate Held(pressed: map<Key, int>, k: Key): (r: bool)
    ensures r ==> k in pressed
    ensures k in pressed ==> (r <==> pressed[k] > 0)
  {
    k in pressed && pressed[k] > 0
  }

  /** The key edges that running the primitives `ps` on key `k` produces. */
  function Emitted(ps: seq<Primitive>, k: Key): (r: seq<Event>)
    ensures |r| == |ps|
    ensures forall i :: 0 <= i < |ps| ==> r[i] == KeyEvent(EdgeOf(ps[i]), k)
  {
    if ps == [] then [] else [KeyEvent(EdgeOf(ps[0]), k)] + Emitted(ps[1..], k)
  }

  /** Running a tap on a held button to the end gives exactly these edges. */
  lemma HeldTapEdges(k: Key)
    ensures Emitted(HELD_SEQUENCE, k)
      == [KeyEvent(Up, k), KeyEvent(Down, k), KeyEvent(Up, k), KeyEvent(Down, k)]
  {
  }

  class TapAction {
    /** The button the tap acts on. */
    const button: Key
    /** `lst`: the primitives still to run on a held button. */
    var lst: seq<Primitive>

    constructor (button: Key)
      ensures this.button == button && lst == []
    {
      this.button := button;
      lst := [];
    }

    /**
     * `button_press`. On a held button the first release runs at once and
     * the remaining three steps wait in `lst` behind one pending callback;
     * otherwise the button is pressed and one release is scheduled.
     */
    method ButtonPress(mapper: Mapper)
      modifies this, mapper
      ensures Held(mapper.pressed, button) ==>
        && lst == HELD_SEQUENCE[1..]
        && mapper.trace == old(mapper.trace) + [KeyEvent(Up, button)]
        && mapper.queue == old(mapper.queue) + [Entry(0.0, TapStep(this))]
        && mapper.Pending(TapStep(this)) == old(mapper.Pending(TapStep(this))) + 1
        && mapper.trace + Emitted(lst, button) == old(mapper.trace) + Emitted(HELD_SEQUENCE, button)
      ensures !Held(mapper.pressed, button) ==>
        && lst == old(lst)
        && mapper.trace == old(mapper.trace) + [KeyEvent(Down, button)]
        && mapper.queue == old(mapper.queue) + [Entry(0.0, TapRelease(this))]
        && mapper.Pending(TapRelease(this)) == old(mapper.Pending(TapRelease(this))) + 1
    {
      if button in mapper.pressed && mapper.pressed[button] > 0 {
        lst := HELD_SEQUENCE;
        var ok := RelTapPress(mapper);
      } else {
        mapper.trace := mapper.trace + [KeyEvent(Down, button)];
        mapper.Schedule(0.0, TapRelease(this));
      }
    }

    /**
     * `_rel_tap_press`: runs the first primitive in `lst` and, while any are
     * left, schedules itself again at delay 0. The edges emitted so far
     * followed by those still in `lst` never change. On an empty `lst` the
     * source fails with an IndexError: `ok` is false and nothing changes.
     */
    method RelTapPress(mapper: Mapper) returns (ok: bool)
      modifies this, mapper
      ensures ok <==> old(lst) != []
      ensures !ok ==> lst == old(lst) && mapper.trace == old(mapper.trace) && mapper.queue == old(mapper.queue)
      ensures ok ==> lst == old(lst)[1..]
      ensures ok ==> mapper.trace == old(mapper.trace) + [KeyEvent(EdgeOf(old(lst)[0]), button)]
      ensures mapper.trace + Emitted(lst, button) == old(mapper.trace) + Emitted(old(lst), button)
      ensures mapper.queue == old(mapper.queue) + (if ok && lst != [] then [Entry(0.0, TapStep(this))] else [])
      ensures mapper.Pending(TapStep(this)) == old(mapper.Pending(TapStep(this))) + (if ok && lst != [] then 1 else 0)
    {
      if lst == [] {
        return false;
      }
      ghost var before := lst;
      ghost var t0 := mapper.trace;
      var a := lst[0];
      lst := lst[1..];
      mapper.trace := mapper.trace + [KeyEvent(EdgeOf(a), button)];
      assert Emitted(before, button) == [KeyEvent(EdgeOf(a), button)] + Emitted(lst, button);
      assert mapper.trace + Emitted(lst, button) == t0 + Emitted(before, button);
      if |lst| > 0 {
        mapper.Schedule(0.0, TapStep(this));
      } else {
        assert mapper.queue + [] == mapper.queue;
      }
      return true;
    }

    /** `_scheduled_release`: releases the button. */
    method ScheduledRelease(mapper: Mapper)
      modifies mapper
      ensures mapper.trace == old(mapper.trace) + [KeyEvent(Up, button)]
      ensures mapper.queue == old(mapper.queue)
    {
      mapper.trace := mapper.trace + [KeyEvent(Up, button)];
    }
  }
}
