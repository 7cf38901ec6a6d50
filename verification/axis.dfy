/**
 * The axis action family (`axis`, `raxis`, `hatup`, `hatdown`, `hatleft`,
 * `hatright`): an action that, bound to a button, moves one output axis to
 * its configured maximum on press and back to its minimum on release.
 */
module AxisBinding {
  import opened Wrappers

  /** Linux input axis codes the clamp distinguishes. */
  const ABS_Z: int := 0x02
  const ABS_RZ: int := 0x05
  const ABS_HAT0X: int := 0x10
  const ABS_HAT0Y: int := 0x11

  /**
   * STICK_PAD_MIN/MAX and TRIGGER_MIN/MAX. Their values are defined outside
   * this model; all it relies on is that each range is non-empty.
   */
  datatype Bounds = Bounds(stickMin: int, stickMax: int, triggerMin: int, triggerMax: int)
  type Limits = b: Bounds | b.stickMin < b.stickMax && b.triggerMin < b.triggerMax
    witness Bounds(-32768, 32767, 0, 255)

  predicate IsTrigger(axis: int) { axis == ABS_Z || axis == ABS_RZ }
  predicate IsHat(axis: int) { axis == ABS_HAT0X || axis == ABS_HAT0Y }

  /** The lowest value `clamp_axis` lets through on `axis`. */
  function Low(axis: int, lim: Limits): int
  {
    if IsTrigger(axis) then lim.triggerMin else if IsHat(axis) then -1 else lim.stickMin
  }

  /** The highest value `clamp_axis` lets through on `axis`. */
  function High(axis: int, lim: Limits): (hi: int)
    ensures Low(axis, lim) < hi
  {
    if IsTrigger(axis) then lim.triggerMax else if IsHat(axis) then 1 else lim.stickMax
  }

  function MaxOf(a: int, b: int): int { if a < b then b else a }
  function MinOf(a: int, b: int): int { if a < b then a else b }

  /**
   * `clamp_axis`: the value nearest to `value` inside the axis's range,
   * which is the trigger range, [-1, 1] for the d-pad hats, or the stick
   * range.
   */
  function Clamp(axis: int, value: int, lim: Limits): (r: int)
    ensures Low(axis, lim) <= r <= High(axis, lim)
    ensures Low(axis, lim) <= value <= High(axis, lim) ==> r == value
    ensures value < Low(axis, lim) ==> r == Low(axis, lim)
    ensures value > High(axis, lim) ==> r == High(axis, lim)
  {
    if IsTrigger(axis) then MaxOf(lim.triggerMin, MinOf(lim.triggerMax, value))
    else if IsHat(axis) then MaxOf(-1, MinOf(1, value))
    else MaxOf(lim.stickMin, MinOf(lim.stickMax, value))
  }

  /** Clamping twice is clamping once. */
  lemma ClampIdempotent(axis: int, value: int, lim: Limits)
    ensures Clamp(axis, Clamp(axis, value, lim), lim) == Clamp(axis, value, lim)
  {
  }

  /** `strstr(s, p) == s`: `s` begins with `p`. */
  predicate StartsWith(s: string, p: string)
  {
    |p| <= |s| && s[..|p|] == p
  }

  /** `strstr(s, p) != NULL`: `p` occurs somewhere in `s`. */
  predicate Contains(s: string, p: string)
    decreases |s|
  {
    StartsWith(s, p) || (s != [] && Contains(s[1..], p))
  }

  /** The keywords the constructor is registered under. */
  const KEYWORDS: set<string> := {"axis", "raxis", "hatup", "hatdown", "hatleft", "hatright"}

  predicate IsHatKeyword(keyword: string) { StartsWith(keyword, "hat") }

  /** The hat keywords that push the axis towards its positive end. */
  predicate PointsUp(keyword: string) { Contains(keyword, "down") || Contains(keyword, "right") }

  /** What `apply_axis_params` decides: success, and the final min and max. */
  datatype Setting = Setting(ok: bool, min: int, max: int)

  /**
   * The min and max `apply_axis_params` leaves for `keyword` and the
   * integer parameters `params` (the axis first), and whether it succeeds.
   */
  function AxisParams(keyword: string, params: seq<int>, lim: Limits): (s: Setting)
    requires |params| >= 1
    ensures s.ok <==> !IsHatKeyword(keyword) || |params| == 1
    ensures IsHatKeyword(keyword) ==>
              && s.min == 0 && lim.stickMin <= s.max <= lim.stickMax
              && (s.max == lim.stickMin + 1 || s.max == lim.stickMax - 1)
    ensures !IsHatKeyword(keyword) && |params| > 2 ==>
              (s.min, s.max) in {(params[1], params[2]), (params[2], params[1])}
    ensures !IsHatKeyword(keyword) && |params| == 1 && IsTrigger(params[0]) ==>
              (s.min, s.max) in {(lim.triggerMin, lim.triggerMax), (lim.triggerMax, lim.triggerMin)}
    ensures !IsHatKeyword(keyword) && |params| == 1 && !IsTrigger(params[0]) ==>
              (s.min, s.max) in {(lim.stickMin, lim.stickMax), (lim.stickMax, lim.stickMin)}
    ensures !IsHatKeyword(keyword) && |params| == 2 && IsTrigger(params[0]) ==>
              (s.min, s.max) in {(params[1], lim.triggerMax), (lim.triggerMax, params[1])}
    ensures !IsHatKeyword(keyword) && |params| == 2 && !IsTrigger(params[0]) ==>
              (s.min, s.max) in {(params[1], lim.stickMax), (lim.stickMax, params[1])}
    ensures !IsHatKeyword(keyword) && keyword != "raxis" && |params| > 1 ==> s.min == params[1]
  {
    if IsHatKeyword(keyword) then
      Setting(|params| == 1, 0, if PointsUp(keyword) then lim.stickMax - 1 else lim.stickMin + 1)
    else
      var lo := if |params| > 1 then params[1] else if IsTrigger(params[0]) then lim.triggerMin else lim.stickMin;
      var hi := if |params| > 2 then params[2] else if IsTrigger(params[0]) then lim.triggerMax else lim.stickMax;
      if keyword == "raxis" then Setting(true, hi, lo) else Setting(true, lo, hi)
  }

  /** Which registered keywords are hats, and which of those point up. */
  lemma KeywordKinds(keyword: string)
    requires keyword in KEYWORDS
    ensures IsHatKeyword(keyword) <==> keyword in {"hatup", "hatdown", "hatleft", "hatright"}
    ensures IsHatKeyword(keyword) ==> (PointsUp(keyword) <==> keyword in {"hatdown", "hatright"})
  {
    if keyword == "axis" || keyword == "raxis" {
      FirstCharDiffers(keyword, "hat");
    } else {
      assert keyword[..3] == "hat";
      if keyword == "hatup" || keyword == "hatleft" {
        Lacks(keyword, "down");
        Lacks(keyword, "right");
      } else if keyword == "hatdown" {
        assert keyword[3..][..4] == "down";
        ContainsSuffix(keyword, "down", 3);
      } else {
        assert keyword[3..][..5] == "right";
        ContainsSuffix(keyword, "right", 3);
      }
    }
  }

  /** A string does not begin with a needle whose first character differs. */
  lemma FirstCharDiffers(s: string, p: string)
    requires s != [] && p != [] && s[0] != p[0]
    ensures !StartsWith(s, p)
  {
  }

  /** A needle whose first character never appears in `s` does not occur in it. */
  lemma {:induction false} Lacks(s: string, p: string)
    requires p != [] && forall i :: 0 <= i < |s| ==> s[i] != p[0]
    ensures !Contains(s, p)
    decreases |s|
  {
    if s != [] {
      FirstCharDiffers(s, p);
      Lacks(s[1..], p);
    }
  }

  /** A needle found in a suffix is found in the whole string. */
  lemma {:induction false} ContainsSuffix(s: string, p: string, k: nat)
    requires k <= |s| && Contains(s[k..], p)
    ensures Contains(s, p)
    decreases k
  {
    if k > 0 {
      assert s[1..][k - 1..] == s[k..];
      ContainsSuffix(s[1..], p, k - 1);
    } else {
      assert s[k..] == s;
    }
  }

  /**
   * Hat keywords: min is 0, max is one step inside the stick range at the
   * end the hat points to, and only a lone axis parameter is accepted.
   */
  lemma HatSetting(keyword: string, params: seq<int>, lim: Limits)
    requires keyword in {"hatup", "hatdown", "hatleft", "hatright"} && |params| >= 1
    ensures AxisParams(keyword, params, lim).ok <==> |params| == 1
    ensures AxisParams(keyword, params, lim).min == 0
    ensures AxisParams(keyword, params, lim).max
      == if keyword in {"hatdown", "hatright"} then lim.stickMax - 1 else lim.stickMin + 1
  {
    KeywordKinds(keyword);
  }

  /**
   * `axis`: the range defaults to the trigger range on triggers and the
   * stick range elsewhere; a second parameter overrides min, a third max.
   */
  lemma AxisSetting(params: seq<int>, lim: Limits)
    requires |params| >= 1
    ensures AxisParams("axis", params, lim).ok
    ensures AxisParams("axis", params, lim).min
      == if |params| > 1 then params[1] else if IsTrigger(params[0]) then lim.triggerMin else lim.stickMin
    ensures AxisParams("axis", params, lim).max
      == if |params| > 2 then params[2] else if IsTrigger(params[0]) then lim.triggerMax else lim.stickMax
  {
    KeywordKinds("axis");
  }

  /** `raxis` is `axis` with min and max exchanged after the overrides. */
  lemma RaxisSwaps(params: seq<int>, lim: Limits)
    requires |params| >= 1
    ensures AxisParams("raxis", params, lim).ok
    ensures AxisParams("raxis", params, lim).min == AxisParams("axis", params, lim).max
    ensures AxisParams("raxis", params, lim).max == AxisParams("axis", params, lim).min
  {
    KeywordKinds("axis");
    KeywordKinds("raxis");
  }

  /**
   * A hat binding on a d-pad axis, with stick limits wider than +-2, is
   * pressed to the full d-pad deflection in its direction and released to
   * the centre.
   */
  lemma HatOnDpad(keyword: string, params: seq<int>, lim: Limits)
    requires keyword in {"hatup", "hatdown", "hatleft", "hatright"} && |params| == 1
    requires IsHat(params[0]) && lim.stickMin < -2 && 2 < lim.stickMax
    ensures Clamp(params[0], AxisParams(keyword, params, lim).max, lim)
      == if keyword in {"hatdown", "hatright"} then 1 else -1
    ensures Clamp(params[0], AxisParams(keyword, params, lim).min, lim) == 0
  {
    HatSetting(keyword, params, lim);
  }

  /** The output axes as the mapper holds them. */
  class AxisMapper {
    var axes: map<int, int>

    constructor ()
      ensures axes == map[]
    {
      axes := map[];
    }

    /** `m->set_axis`: records `value` as the position of `axis`. */
    method SetAxis(axis: int, value: int)
      modifies this
      ensures axes == old(axes)[axis := value]
    {
      axes := axes[axis := value];
    }
  }

  /** Why the constructor refused a parameter list. */
  datatype AxisError =
    | CheckerError(message: string)              // from the "xi16?i16?" parameter checker
    | InvalidNumberOfParameters(keyword: string) // invalid_number_of_parameters(keyword)

  class AxisAction {
    const lim: Limits
    /** The keyword as registered; "" until a successful apply. */
    var keyword: string
    /** The parameter list kept for printing the action back. */
    var params: seq<int>
    var axis: int
    var scale: real
    var min: int
    var max: int

    /** The freshly allocated action, before any parameter is applied. */
    constructor (lim: Limits)
      ensures this.lim == lim && keyword == "" && params == []
    {
      this.lim := lim;
      keyword := "";
      params := [];
      axis := 0;
      scale := 0.0;
      min := 0;
      max := 0;
    }

    /**
     * `apply_axis_params`: sets the axis and scale, then min, max and the
     * keyword exactly as AxisParams says; the keyword is left alone when a
     * hat gets more than one parameter.
     */
    method ApplyAxisParams(keyword: string, params: seq<int>) returns (ok: bool)
      requires keyword in KEYWORDS && |params| >= 1
      modifies this
      ensures ok == AxisParams(keyword, params, lim).ok
      ensures axis == params[0] && scale == 1.0
      ensures min == AxisParams(keyword, params, lim).min
      ensures max == AxisParams(keyword, params, lim).max
      ensures this.keyword == if ok then keyword else old(this.keyword)
      ensures this.params == old(this.params)
    {
      KeywordKinds(keyword);
      axis := params[0];
      scale := 1.0;
      if StartsWith(keyword, "hat") {
        min := 0;
        max := lim.stickMin + 1;
        if Contains(keyword, "down") || Contains(keyword, "right") {
          max := lim.stickMax - 1;
        }
        if |params| != 1 {
          return false;
        }
        this.keyword := keyword;
      } else {
        min := lim.stickMin;
        max := lim.stickMax;
        if axis == ABS_Z || axis == ABS_RZ {
          // triggers
          min := lim.triggerMin;
          max := lim.triggerMax;
        }
        if |params| > 1 { min := params[1]; }
        if |params| > 2 { max := params[2]; }
        if keyword == "axis" {
          this.keyword := keyword;
        } else {
          var tmp := min;
          this.keyword := keyword;
          min := max;
          max := tmp;
        }
      }
      return true;
    }

    /** `button_press`: moves the axis to its max, clamped to the axis range. */
    method ButtonPress(mapper: AxisMapper)
      modifies mapper
      ensures mapper.axes == old(mapper.axes)[axis := Clamp(axis, max, lim)]
    {
      mapper.SetAxis(axis, Clamp(axis, max, lim));
    }

    /** `button_release`: moves the axis to its min, clamped to the axis range. */
    method ButtonRelease(mapper: AxisMapper)
      modifies mapper
      ensures mapper.axes == old(mapper.axes)[axis := Clamp(axis, min, lim)]
    {
      mapper.SetAxis(axis, Clamp(axis, min, lim));
    }
  }

  /**
   * `axis_constructor`. The parameter checker is not part of this model: its
   * verdict is `checkError`, and when it accepts, the list holds the axis
   * and at most two optional integers. A checker error is passed on; a
   * failed apply becomes an invalid-number-of-parameters error; otherwise
   * the new action keeps the parameter list.
   */
  method AxisConstructor(keyword: string, params: seq<int>, checkError: Option<string>, lim: Limits)
    returns (r: Result<AxisAction, AxisError>)
    requires keyword in KEYWORDS
    requires checkError.None? ==> 1 <= |params| <= 3
    ensures checkError.Some? ==> r == Failure(CheckerError(checkError.value))
    ensures checkError.None? ==>
      (r.Failure? <==> !AxisParams(keyword, params, lim).ok)
    ensures checkError.None? && r.Failure? ==> r.error == InvalidNumberOfParameters(keyword)
    ensures r.Success? ==>
      && fresh(r.value)
      && r.value.lim == lim
      && r.value.keyword == keyword
      && r.value.params == params
      && r.value.axis == params[0]
      && r.value.scale == 1.0
      && r.value.min == AxisParams(keyword, params, lim).min
      && r.value.max == AxisParams(keyword, params, lim).max
  {
    if checkError.Some? {
      return Failure(CheckerError(checkError.value));
    }
    var ax := new AxisAction(lim);
    var ok := ax.ApplyAxisParams(keyword, params);
    if !ok {
      return Failure(InvalidNumberOfParameters(keyword));
    }
    ax.params := params;
    return Success(ax);
  }
}
