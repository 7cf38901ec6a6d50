/**
 * The dispatcher ("mapper") as the actions see it: a FIFO queue of
 * `(delay, callback)` registrations, the table of logically pressed
 * buttons, and a ghost trace of everything the actions did.
 */
module Scheduler {
  import opened Actions

  /** The callbacks actions register; each names the object it belongs to. */
  datatype Callback =
    | MacroTimer(owner: object)    // Macro.timer
    | TapStep(owner: object)       // TapAction._rel_tap_press
    | TapRelease(owner: object)    // TapAction._scheduled_release

  /** One `mapper.schedule(delay, callback)` registration. */
  datatype Entry = Entry(delay: real, callback: Callback)

  /** The registrations `schedule` makes for each delay in `delays`, in order. */
  function Scheduled(cb: Callback, delays: seq<real>): (q: seq<Entry>)
    ensures |q| == |delays|
    ensures forall i :: 0 <= i < |q| ==> q[i] == Entry(delays[i], cb)
  {
    if delays == [] then [] else [Entry(delays[0], cb)] + Scheduled(cb, delays[1..])
  }

  /** How many registrations of `cb` are waiting in `q`. */
  function CountOf(q: seq<Entry>, cb: Callback): nat
  {
    if q == [] then 0
    else CountOf(q[..|q| - 1], cb) + (if q[|q| - 1].callback == cb then 1 else 0)
  }

  /** Appending registrations of `cb` raises its count by their number. */
  lemma {:induction false} CountAfterSchedule(q: seq<Entry>, cb: Callback, delays: seq<real>)
    ensures CountOf(q + Scheduled(cb, delays), cb) == CountOf(q, cb) + |delays|
    decreases |delays|
  {
    if delays != [] {
      var last := delays[|delays| - 1];
      var init := delays[..|delays| - 1];
      assert Scheduled(cb, delays) == Scheduled(cb, init) + [Entry(last, cb)];
      CountAfterSchedule(q, cb, init);
      assert q + Scheduled(cb, delays) == (q + Scheduled(cb, init)) + [Entry(last, cb)];
      assert (q + Scheduled(cb, delays))[..|q + Scheduled(cb, delays)| - 1] == q + Scheduled(cb, init);
    } else {
      assert q + Scheduled(cb, delays) == q;
    }
  }

  /** Taking the oldest registration off the front lowers its callback's count by one. */
  lemma {:induction false} CountOfDropFirst(q: seq<Entry>, cb: Callback)
    requires q != []
    ensures CountOf(q, cb) == CountOf(q[1..], cb) + (if q[0].callback == cb then 1 else 0)
    decreases |q|
  {
    if |q| > 1 {
      var init := q[..|q| - 1];
      CountOfDropFirst(init, cb);
      assert init[1..] == q[1..][..|q[1..]| - 1];
      assert q[1..][|q[1..]| - 1] == q[|q| - 1];
    } else {
      assert q[1..] == [];
      assert q[..|q| - 1] == [];
    }
  }

  /** A queue with no registration of `cb` has none of its runs pending. */
  lemma {:induction false} CountOfAbsent(q: seq<Entry>, cb: Callback)
    requires forall i :: 0 <= i < |q| ==> q[i].callback != cb
    ensures CountOf(q, cb) == 0
    decreases |q|
  {
    if q != [] {
      CountOfAbsent(q[..|q| - 1], cb);
    }
  }

  class Mapper {
    /** Callbacks waiting to run, in registration order. */
    var queue: seq<Entry>
    /** Calls into child actions and key edges, in the order they happened. */
    ghost var trace: seq<Event>
    /** `mapper.pressed`: how long each button has been logically held. */
    const pressed: map<Key, int>

    constructor (pressed: map<Key, int>)
      ensures queue == [] && trace == [] && this.pressed == pressed
    {
      queue := [];
      trace := [];
      this.pressed := pressed;
    }

    /** How many runs of `cb` are pending. */
    function Pending(cb: Callback): nat
      reads this
    {
      CountOf(queue, cb)
    }

    /** `mapper.schedule`: registers `cb` to run once after `delay` seconds. */
    method Schedule(delay: real, cb: Callback)
      modifies this
      ensures queue == old(queue) + [Entry(delay, cb)]
      ensures trace == old(trace)
      ensures Pending(cb) == old(Pending(cb)) + 1
    {
      queue := queue + [Entry(delay, cb)];
      CountAfterSchedule(old(queue), cb, [delay]);
    }

    /**
     * The dispatcher taking the oldest registration off the queue to run its
     * callback: that callback has one run fewer pending, every other
     * callback as many as before.
     */
    method Pop() returns (e: Entry)
      requires queue != []
      modifies this
      ensures e == old(queue)[0] && queue == old(queue)[1..]
      ensures trace == old(trace)
      ensures forall cb :: CountOf(old(queue), cb) == CountOf(queue, cb) + (if e.callback == cb then 1 else 0)
    {
      ghost var q0 := queue;
      e := queue[0];
      queue := queue[1..];
      forall cb
        ensures CountOf(q0, cb) == CountOf(queue, cb) + (if e.callback == cb then 1 else 0)
      {
        CountOfDropFirst(q0, cb);
      }
    }
  }
}
