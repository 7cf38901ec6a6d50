/**
 * How a Macro is built: flattening its constructor arguments into one step
 * list, the Repeat transform, and the "repeat" prefix of its text forms.
 */
module MacroBuild {
  import opened Wrappers
  import opened Actions
  import opened MacroRun

  /** One positional argument of the Macro constructor. */
  datatype Param =
    | Number(seconds: real)       // a Python float
    | Composite(def: MacroDef)    // an Action that is itself a Macro
    | Plain(action: Action)       // any other Action
    | Raw(key: Key)               // anything else, wrapped as a ButtonAction

  /**
   * Adds one argument to the steps built so far: a float after a step
   * retimes that step and touches nothing else; any other argument keeps
   * the earlier steps and adds its own after them.
   */
  function Append(acc: seq<Step>, p: Param): (r: seq<Step>)
    ensures |r| == |acc| + Contribution(|acc|, p)
    ensures p.Composite? ==> r[|acc|..] == p.def.actions
    ensures p.Plain? ==> r[|acc|..] == [NewStep(p.action)]
    ensures p.Raw? ==> r[|acc|..] == [NewStep(Button(p.key))]
    ensures p.Number? && acc == [] ==> r == [NewStep(Button(Numeric(p.seconds)))]
    ensures p.Number? && |acc| > 0 ==>
              && r[..|acc| - 1] == acc[..|acc| - 1]
              && r[|acc| - 1].action == acc[|acc| - 1].action
              && r[|acc| - 1].delayAfter == p.seconds
    ensures !(p.Number? && |acc| > 0) ==> r[..|acc|] == acc
  {
    match p
    case Number(x) =>
      if |acc| > 0 then acc[..|acc| - 1] + [acc[|acc| - 1].(delayAfter := x)]
      else acc + [NewStep(Button(Numeric(x)))]
    case Composite(m) => acc + m.actions
    case Plain(a) => acc + [NewStep(a)]
    case Raw(k) => acc + [NewStep(Button(k))]
  }

  /** The action a plain or raw argument is run as. */
  function ActionOf(p: Param): Action
    requires p.Plain? || p.Raw?
  {
    if p.Plain? then p.action else Button(p.key)
  }

  /**
   * The step list `Macro(*params)` builds, arguments taken left to right.
   * Only nested macros can contribute more than one step each; a list of
   * actions and raw values gives one step per argument, in order.
   */
  function Flatten(params: seq<Param>): (steps: seq<Step>)
    ensures (forall i :: 0 <= i < |params| ==> !params[i].Composite?) ==> |steps| <= |params|
    ensures (forall i :: 0 <= i < |params| ==> params[i].Plain? || params[i].Raw?) ==>
              && |steps| == |params|
              && forall i :: 0 <= i < |params| ==> steps[i] == NewStep(ActionOf(params[i]))
  {
    if params == [] then [] else Append(Flatten(params[..|params| - 1]), params[|params| - 1])
  }

  /** `Macro(*params)`: a new macro never repeats; its steps are the flattened arguments. */
  function Construct(params: seq<Param>): (d: MacroDef)
    ensures !d.repeat
  {
    MacroDef(Flatten(params), false)
  }

  /** How many steps an argument adds after `before` steps. */
  function Contribution(before: nat, p: Param): nat
  {
    match p
    case Number(_) => if before > 0 then 0 else 1
    case Composite(m) => |m.actions|
    case Plain(_) => 1
    case Raw(_) => 1
  }

  /**
   * What each argument adds at the end of the step list: a float that
   * follows a step only retimes that step; a leading float becomes a button
   * step; a macro adds its own steps, an action itself, and anything else a
   * button over it.
   */
  lemma FlattenLength(params: seq<Param>, p: Param)
    ensures |Flatten(params + [p])| == |Flatten(params)| + Contribution(|Flatten(params)|, p)
    ensures p.Number? && Flatten(params) != [] ==>
              var f := Flatten(params);
              Flatten(params + [p]) == f[..|f| - 1] + [f[|f| - 1].(delayAfter := p.seconds)]
    ensures p.Number? && Flatten(params) == [] ==> Flatten(params + [p]) == [NewStep(Button(Numeric(p.seconds)))]
    ensures p.Composite? ==> Flatten(params + [p]) == Flatten(params) + p.def.actions
    ensures p.Plain? ==> Flatten(params + [p]) == Flatten(params) + [NewStep(p.action)]
    ensures p.Raw? ==> Flatten(params + [p]) == Flatten(params) + [NewStep(Button(p.key))]
  {
    assert (params + [p])[..|params + [p]| - 1] == params;
  }

  /** Flatten takes its arguments left to right. */
  lemma FlattenSnoc(params: seq<Param>, p: Param)
    ensures Flatten(params + [p]) == Append(Flatten(params), p)
  {
    assert (params + [p])[..|params + [p]| - 1] == params;
  }

  /**
   * Nesting is invisible: a macro argument contributes its own steps, so
   * `Macro(Macro(ps), qs)` has the steps of `Macro(ps, qs)`.
   */
  lemma NestedMacroSplices(ps: seq<Param>, qs: seq<Param>, rep: bool)
    ensures Flatten([Composite(MacroDef(Flatten(ps), rep))] + qs) == Flatten(ps + qs)
  {
    var head := [Composite(MacroDef(Flatten(ps), rep))];
    assert head == [] + head;
    FlattenSnoc([], head[0]);
    SameSteps(head, ps, qs);
  }

  /** Argument lists with the same steps keep them equal under the same further arguments. */
  lemma {:induction false} SameSteps(a: seq<Param>, b: seq<Param>, qs: seq<Param>)
    requires Flatten(a) == Flatten(b)
    ensures Flatten(a + qs) == Flatten(b + qs)
    decreases |qs|
  {
    if qs == [] {
      assert a + qs == a && b + qs == b;
    } else {
      var init, last := qs[..|qs| - 1], qs[|qs| - 1];
      SameSteps(a, b, init);
      SplitLast(a, qs);
      SplitLast(b, qs);
      FlattenSnoc(a + init, last);
      FlattenSnoc(b + init, last);
    }
  }

  /** `a + qs` is `a` plus all of `qs` but its last argument, then that one. */
  lemma SplitLast(a: seq<Param>, qs: seq<Param>)
    requires qs != []
    ensures a + qs == (a + qs[..|qs| - 1]) + [qs[|qs| - 1]]
  {
  }

  /**
   * Once a step exists, later arguments never change which action comes
   * first; so a leading float is always run as a button press.
   */
  lemma {:induction false} FirstActionStable(ps: seq<Param>, qs: seq<Param>)
    requires Flatten(ps) != []
    ensures Flatten(ps + qs) != [] && Flatten(ps + qs)[0].action == Flatten(ps)[0].action
    decreases |qs|
  {
    if qs == [] {
      assert ps + qs == ps;
    } else {
      var init := qs[..|qs| - 1];
      FirstActionStable(ps, init);
      assert (ps + qs)[..|ps + qs| - 1] == ps + init;
    }
  }

  lemma LeadingNumberIsButton(x: real, qs: seq<Param>)
    ensures Flatten([Number(x)] + qs) != []
    ensures Flatten([Number(x)] + qs)[0].action == Button(Numeric(x))
  {
    assert [Number(x)][..0] == [];
    FirstActionStable([Number(x)], qs);
  }

  /** What Repeat can be given: a plain action or a macro. */
  datatype Bindable = Single(action: Action) | Nested(def: MacroDef)

  /**
   * `Repeat(a)`: a macro is returned with `repeat` set and its steps
   * untouched; any other action becomes a one-step repeating macro.
   */
  function Repeat(b: Bindable): (m: MacroDef)
    ensures m.repeat
  {
    match b
    case Nested(d) => d.(repeat := true)
    case Single(a) => Construct([Plain(a)]).(repeat := true)
  }

  lemma RepeatKeepsSteps(b: Bindable)
    ensures b.Nested? ==> Repeat(b).actions == b.def.actions
    ensures b.Single? ==> Repeat(b).actions == [NewStep(b.action)]
  {
    if b.Single? {
      var ps := [Plain(b.action)];
      assert ps[..|ps| - 1] == [];
      assert Flatten(ps) == Append([], Plain(b.action));
    }
  }

  /** Applying Repeat twice is the same as applying it once. */
  lemma RepeatIdempotent(b: Bindable)
    ensures Repeat(Nested(Repeat(b))) == Repeat(b)
  {
  }

  /** `sep.join(parts)`. */
  function Join(sep: string, parts: seq<string>): (r: string)
  {
    if parts == [] then ""
    else if |parts| == 1 then parts[0]
    else parts[0] + sep + Join(sep, parts[1..])
  }

  /** `n` spaces, Python's `" " * n`. */
  function Spaces(n: nat): (r: string)
    ensures |r| == n && forall i :: 0 <= i < n ==> r[i] == ' '
  {
    if n == 0 then "" else Spaces(n - 1) + " "
  }

  /** `if self.name:`, Python truthiness: a name is set and not empty. */
  predicate HasName(name: Option<string>)
  {
    name.Some? && name.value != ""
  }

  /**
   * `describe`, given the action's `name` and its children's descriptions:
   * a set name wins; otherwise the children's descriptions joined by "; ",
   * after "repeat " when the macro repeats.
   */
  function Describe(name: Option<string>, repeat: bool, parts: seq<string>): (r: string)
    ensures HasName(name) ==> r == name.value
    ensures !HasName(name) && repeat ==> |r| >= 7 && r[..7] == "repeat "
    ensures !HasName(name) ==>
              |Join("; ", parts)| <= |r| && r[|r| - |Join("; ", parts)|..] == Join("; ", parts)
  {
    if HasName(name) then name.value
    else if repeat then "repeat " + Join("; ", parts)
    else Join("; ", parts)
  }

  /**
   * `to_string`, given its padding and its children's `to_string` forms:
   * `pad` spaces, then the children joined by "; ", inside `repeat(...)`
   * when the macro repeats.
   */
  function ToString(repeat: bool, pad: nat, parts: seq<string>): (r: string)
    ensures |r| >= pad && r[..pad] == Spaces(pad)
    ensures repeat ==> |r| >= pad + 8 && r[pad..pad + 7] == "repeat(" && r[|r| - 1] == ')'
    ensures !repeat ==> r[pad..] == Join("; ", parts)
  {
    var lst := Join("; ", parts);
    if repeat then Spaces(pad) + "repeat(" + lst + ")" else Spaces(pad) + lst
  }

  /**
   * A repeating macro is described exactly as the plain one with a
   * "repeat " prefix, and written as the plain form inside `repeat(...)`,
   * after the same padding; a set, non-empty name overrides both
   * descriptions.
   */
  lemma RepeatPrefix(name: Option<string>, pad: nat, parts: seq<string>)
    ensures !HasName(name) ==> Describe(name, true, parts) == "repeat " + Describe(name, false, parts)
    ensures HasName(name) ==> Describe(name, true, parts) == Describe(name, false, parts) == name.value
    ensures ToString(true, pad, parts) == Spaces(pad) + "repeat(" + ToString(false, 0, parts) + ")"
    ensures ToString(false, pad, parts) == Spaces(pad) + ToString(false, 0, parts)
  {
    assert Spaces(0) + Join("; ", parts) == Join("; ", parts);
  }

  /** A repeating macro whose name is empty is still described as "repeat ...". */
  lemma EmptyNameIsUnnamed(parts: seq<string>)
    ensures Describe(Some(""), true, parts) == "repeat " + Join("; ", parts)
  {
  }
}
