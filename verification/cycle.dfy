/**
 * Cycle: several actions on one button. The n-th press/release pair of the
 * physical button is forwarded to action number n modulo the list length.
 */
module Cycling {
  import opened Actions
  import opened Scheduler

  /** The index after `i` in a cycle of length `n`: one more, wrapping to 0. */
  function Next(i: nat, n: nat): (j: nat)
    requires i < n
    ensures j < n
    ensures j == (i + 1) % n
  {
    if i + 1 >= n then 0 else i + 1
  }

  /** The index reached from `i` after `k` releases. */
  function Advance(i: nat, n: nat, k: nat): (j: nat)
    requires i < n
    ensures j < n
    decreases k
  {
    if k == 0 then i else Advance(Next(i, n), n, k - 1)
  }

  /**
   * The calls into the children made by `k` press/release pairs on a
   * non-empty cycle whose index starts at `i`.
   */
  function Pairs(actions: seq<Action>, i: nat, k: nat): (r: seq<Event>)
    requires i < |actions|
    ensures |r| == 2 * k
    decreases k
  {
    if k == 0 then []
    else [Invoke(Down, actions[i]), Invoke(Up, actions[i])] + Pairs(actions, Next(i, |actions|), k - 1)
  }

  /** After `k` releases the index has moved `k` places around the cycle. */
  lemma {:induction false} AdvanceWraps(i: nat, n: nat, k: nat)
    requires i < n
    ensures Advance(i, n, k) == (i + k) % n
    decreases k
  {
    if k > 0 {
      AdvanceWraps(Next(i, n), n, k - 1);
      ModStep(i, n, k);
    }
  }

  /** Moving one place and then k - 1 more is moving k places, modulo n. */
  lemma ModStep(i: nat, n: nat, k: nat)
    requires i < n && k >= 1
    ensures (Next(i, n) + (k - 1)) % n == (i + k) % n
  {
    if i + 1 == n {
      ModPlusN(k - 1, n);
    }
  }

  /** A whole turn around the cycle does not change the remainder. */
  lemma ModPlusN(x: nat, n: nat)
    requires n > 0
    ensures (x + n) % n == x % n
  {
    var q, r := x / n, x % n;
    assert x == q * n + r;
    assert (q + 1) * n == q * n + n;
    DivModUnique(x + n, n, q + 1, r);
  }

  /** The remainder is the only r in [0, n) with x == q * n + r. */
  lemma DivModUnique(x: int, n: int, q: int, r: int)
    requires n > 0 && 0 <= r < n && x == q * n + r
    ensures x % n == r
  {
    var q', r' := x / n, x % n;
    assert x == q' * n + r' && 0 <= r' < n;
    assert q * n - q' * n == r' - r;
    assert (q - q') * n == q * n - q' * n;
    if q > q' {
      MulAtLeast(q - q', n);
    } else if q < q' {
      MulAtLeast(q' - q, n);
    }
  }

  lemma MulAtLeast(d: int, n: int)
    requires d >= 1 && n > 0
    ensures d * n >= n
  {
    assert d * n == (d - 1) * n + n;
    assert (d - 1) * n >= 0;
  }

  /**
   * Pair `j` of `k` consecutive press/release pairs drives the action the
   * index has reached after `j` releases, first its press and then its
   * release.
   */
  lemma {:induction false} CycleWraps(actions: seq<Action>, i: nat, k: nat, j: nat)
    requires i < |actions| && j < k
    ensures Pairs(actions, i, k)[2 * j] == Invoke(Down, actions[Advance(i, |actions|, j)])
    ensures Pairs(actions, i, k)[2 * j + 1] == Invoke(Up, actions[Advance(i, |actions|, j)])
    decreases j
  {
    var n := |actions|;
    if j > 0 {
      CycleWraps(actions, Next(i, n), k - 1, j - 1);
      assert Pairs(actions, i, k)[2 * j] == Pairs(actions, Next(i, n), k - 1)[2 * (j - 1)];
      assert Pairs(actions, i, k)[2 * j + 1] == Pairs(actions, Next(i, n), k - 1)[2 * (j - 1) + 1];
    }
  }

  /** So pair `j` goes to the action at index (i + j) mod n. */
  lemma CycleModulo(actions: seq<Action>, i: nat, k: nat, j: nat)
    requires i < |actions| && j < k
    ensures Pairs(actions, i, k)[2 * j] == Invoke(Down, actions[(i + j) % |actions|])
    ensures Pairs(actions, i, k)[2 * j + 1] == Invoke(Up, actions[(i + j) % |actions|])
  {
    CycleWraps(actions, i, k, j);
    AdvanceWraps(i, |actions|, j);
  }

  /** A full round of `n` pairs brings the index back to where it started. */
  lemma FullRound(i: nat, n: nat)
    requires i < n
    ensures Advance(i, n, n) == i
  {
    AdvanceWraps(i, n, n);
    ModPlusN(i, n);
    DivModUnique(i, n, 0, i);
  }

  class Cycle {
    /** The actions taking turns, in order. */
    const actions: seq<Action>
    /** `_current`: the action the next press goes to. */
    var current: nat

    /** The index stays inside the list; an empty list keeps it at 0. */
    ghost predicate Valid()
      reads this
    {
      if |actions| == 0 then current == 0 else current < |actions|
    }

    constructor (actions: seq<Action>)
      ensures this.actions == actions && current == 0 && Valid()
    {
      this.actions := actions;
      current := 0;
    }

    /** Forwards the press to the current action; the index stays. */
    method ButtonPress(mapper: Mapper)
      requires Valid()
      modifies mapper
      ensures mapper.trace == old(mapper.trace)
        + (if |actions| > 0 then [Invoke(Down, actions[current])] else [])
      ensures mapper.queue == old(mapper.queue)
    {
      if |actions| > 0 {
        mapper.trace := mapper.trace + [Invoke(Down, actions[current])];
      }
    }

    /**
     * Forwards the release to the current action, then moves the index on
     * by one, wrapping to 0 past the last action.
     */
    method ButtonRelease(mapper: Mapper)
      requires Valid()
      modifies this, mapper
      ensures Valid()
      ensures mapper.trace == old(mapper.trace)
        + (if |actions| > 0 then [Invoke(Up, actions[old(current)])] else [])
      ensures |actions| > 0 ==> current == Next(old(current), |actions|)
      ensures |actions| == 0 ==> current == old(current)
      ensures mapper.queue == old(mapper.queue)
    {
      if |actions| > 0 {
        mapper.trace := mapper.trace + [Invoke(Up, actions[current])];
        current := current + 1;
        if current >= |actions| {
          current := 0;
        }
      }
    }
  }

  /**
   * The physical button pressed and released `k` times: the children get
   * exactly the calls `Pairs` lists, and the index ends `k` places on.
   */
  method PressReleaseTimes(c: Cycle, mapper: Mapper, k: nat)
    requires c.Valid() && |c.actions| > 0
    modifies c, mapper
    ensures c.Valid()
    ensures mapper.trace == old(mapper.trace) + Pairs(c.actions, old(c.current), k)
    ensures c.current == Advance(old(c.current), |c.actions|, k)
    ensures mapper.queue == old(mapper.queue)
    decreases k
  {
    if k == 0 {
      assert mapper.trace + [] == mapper.trace;
      return;
    }
    ghost var i := c.current;
    ghost var t0 := mapper.trace;
    c.ButtonPress(mapper);
    c.ButtonRelease(mapper);
    ghost var t1 := mapper.trace;
    assert t1 == (t0 + [Invoke(Down, c.actions[i])]) + [Invoke(Up, c.actions[i])];
    PressReleaseTimes(c, mapper, k - 1);
    PairsUnfold(c.actions, i, k);
    AppendPair(t0, Invoke(Down, c.actions[i]), Invoke(Up, c.actions[i]), Pairs(c.actions, Next(i, |c.actions|), k - 1));
  }

  /** The first press/release pair, then the rest from the next index. */
  lemma PairsUnfold(actions: seq<Action>, i: nat, k: nat)
    requires i < |actions| && k > 0
    ensures Pairs(actions, i, k)
      == [Invoke(Down, actions[i]), Invoke(Up, actions[i])] + Pairs(actions, Next(i, |actions|), k - 1)
  {
  }

  lemma AppendPair(t: seq<Event>, x: Event, y: Event, rest: seq<Event>)
    ensures ((t + [x]) + [y]) + rest == t + ([x, y] + rest)
  {
  }

  /** cycle(X, Y, Z) pressed four times: X, Y, Z, then X again. */
  lemma ExampleFourPresses(x: Action, y: Action, z: Action)
    ensures Pairs([x, y, z], 0, 4)[6] == Invoke(Down, x)
    ensures Pairs([x, y, z], 0, 4)[4] == Invoke(Down, z)
  {
    CycleModulo([x, y, z], 0, 4, 3);
    CycleModulo([x, y, z], 0, 4, 2);
  }
}
