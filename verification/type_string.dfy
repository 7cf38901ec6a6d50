/**
 * Type: a macro built from literal text, one key step per character, with
 * the left shift key pressed before a run of uppercase letters and released
 * before the next lowercase letter or digit.
 */
module TypeString {
  import opened Wrappers
  import opened Actions
  import opened Scheduler
  import opened MacroRun
  import opened MacroBuild
  import opened MacroObject

  /** Type.HOLD_TIME. Declared by the class but never read: see MacroObject. */
  const TYPE_HOLD_TIME: real := 0.001

  const SHIFT: Key := Named("KEY_LEFTSHIFT")
  const SPACE: Key := Named("KEY_SPACE")

  predicate IsLowerOrDigit(c: char) { ('a' <= c <= 'z') || ('0' <= c <= '9') }
  predicate IsUpper(c: char) { 'A' <= c <= 'Z' }
  /** The characters Type accepts. */
  predicate Typable(c: char) { IsLowerOrDigit(c) || c == ' ' || IsUpper(c) }

  function Upper(c: char): char
  {
    if 'a' <= c <= 'z' then (c as int - 32) as char else c
  }

  /** The key a character is typed with: `Keys.KEY_<C>` or KEY_SPACE. */
  function KeyOf(c: char): Key
  {
    if c == ' ' then SPACE else Named("KEY_" + [Upper(c)])
  }

  /** Puts `xs` in front of a successful result; an error passes through. */
  function Prefix(xs: seq<Action>, r: Result<seq<Action>, char>): Result<seq<Action>, char>
  {
    if r.Success? then Success(xs + r.value) else r
  }

  /** The Type action that presses the left shift key and keeps it down. */
  const SHIFT_PRESS: Action := PressOnly(Button(SHIFT))
  /** The Type action that releases the left shift key. */
  const SHIFT_RELEASE: Action := ReleaseOnly(Button(SHIFT))

  /**
   * The actions one accepted character adds, given the shift state before
   * it: its key, preceded by a shift release when a lowercase letter or
   * digit follows shift, or by a shift press when an uppercase letter
   * finds shift up.
   */
  function CharActions(c: char, shift: bool): (r: seq<Action>)
    ensures 1 <= |r| <= 2 && r[|r| - 1] == Button(KeyOf(c))
    ensures Typable(c) ==> (|r| == 2 <==> (IsLowerOrDigit(c) && shift) || (IsUpper(c) && !shift))
    ensures |r| == 2 ==> r[0] == if IsLowerOrDigit(c) then SHIFT_RELEASE else SHIFT_PRESS
  {
    if IsLowerOrDigit(c) then (if shift then [SHIFT_RELEASE] else []) + [Button(KeyOf(c))]
    else if c == ' ' then [Button(SPACE)]
    else (if shift then [] else [SHIFT_PRESS]) + [Button(KeyOf(c))]
  }

  /**
   * The shift state after one accepted character: up after a lowercase
   * letter or digit, down after an uppercase letter, unchanged by a space.
   */
  function NextShift(c: char, shift: bool): (r: bool)
    // after a letter or digit shift is down iff it was uppercase
    ensures IsLowerOrDigit(c) || IsUpper(c) ==> (r <==> IsUpper(c))
    // any other character leaves shift alone
    ensures !IsLowerOrDigit(c) && !IsUpper(c) ==> r == shift
  {
    if IsLowerOrDigit(c) then false else if IsUpper(c) then true else shift
  }

  /**
   * The actions Type builds from `s` when shift starts out as `shift`, or
   * the first character it rejects.
   */
  function Typed(s: string, shift: bool): (r: Result<seq<Action>, char>)
    ensures r.Success? ==> |s| <= |r.value| <= 2 * |s|
    ensures r.Failure? ==> r.error in s && !Typable(r.error)
    decreases |s|
  {
    if s == [] then Success([])
    else if !Typable(s[0]) then Failure(s[0])
    else Prefix(CharActions(s[0], shift), Typed(s[1..], NextShift(s[0], shift)))
  }

  lemma PrefixAppend(xs: seq<Action>, ys: seq<Action>, r: Result<seq<Action>, char>)
    ensures Prefix(xs, Prefix(ys, r)) == Prefix(xs + ys, r)
  {
    if r.Success? {
      assert xs + (ys + r.value) == (xs + ys) + r.value;
    }
  }

  /** The character loop of `Type.__init__`, raising ValueError as Failure. */
  method TypeParams(s: string) returns (r: Result<seq<Action>, char>)
    ensures r == Typed(s, false)
  {
    var params: seq<Action> := [];
    var shift := false;
    var i := 0;
    assert s[0..] == s;
    assert Prefix([], Typed(s, false)) == Typed(s, false) by {
      if Typed(s, false).Success? { assert [] + Typed(s, false).value == Typed(s, false).value; }
    }
    while i < |s|
      invariant 0 <= i <= |s|
      invariant Typed(s, false) == Prefix(params, Typed(s[i..], shift))
    {
      var letter := s[i];
      assert s[i..][1..] == s[i + 1..];
      ghost var before := params;
      ghost var added := CharActions(letter, shift);
      ghost var next := NextShift(letter, shift);
      if IsLowerOrDigit(letter) {
        if shift {
          params := params + [SHIFT_RELEASE];
          shift := false;
        }
        params := params + [Button(KeyOf(letter))];
        i := i + 1;
        assert params == before + added;
        PrefixAppend(before, added, Typed(s[i..], next));
        continue;
      }
      if letter == ' ' {
        params := params + [Button(SPACE)];
        i := i + 1;
        PrefixAppend(before, added, Typed(s[i..], next));
        continue;
      }
      if IsUpper(letter) {
        if !shift {
          params := params + [SHIFT_PRESS];
          shift := true;
        }
        params := params + [Button(KeyOf(letter))];
        i := i + 1;
        assert params == before + added;
        PrefixAppend(before, added, Typed(s[i..], next));
        continue;
      }
      assert Typed(s[i..], shift) == Failure(letter);
      return Failure(letter);
    }
    assert s[i..] == [];
    assert params + [] == params;
    return Success(params);
  }

  /** Each action passed on to the Macro constructor as a plain argument. */
  function Plains(xs: seq<Action>): (ps: seq<Param>)
    ensures |ps| == |xs| && forall i :: 0 <= i < |xs| ==> ps[i] == Plain(xs[i])
  {
    if xs == [] then [] else Plains(xs[..|xs| - 1]) + [Plain(xs[|xs| - 1])]
  }

  /** `Type(s)`: a plain Macro over the generated actions, or the rejected character. */
  method NewType(s: string) returns (r: Result<Macro, char>)
    ensures Typed(s, false).Failure? ==> r.Failure? && r.error == Typed(s, false).error
    ensures Typed(s, false).Success? ==>
              && r.Success? && fresh(r.value) && r.value.Valid()
              && r.value.Def() == Construct(Plains(Typed(s, false).value))
              && r.value.State() == Run(false, None, None)
  {
    var params := TypeParams(s);
    if params.Failure? {
      return Failure(params.error);
    }
    var m := new Macro(Construct(Plains(params.value)));
    return Success(m);
  }

  /** Type's actions become its steps one for one, each with its own delay. */
  lemma {:induction false} TypeStepsAreActions(xs: seq<Action>)
    ensures |Flatten(Plains(xs))| == |xs|
    ensures forall i :: 0 <= i < |xs| ==> Flatten(Plains(xs))[i] == NewStep(xs[i])
    decreases |xs|
  {
    if xs != [] {
      var init := xs[..|xs| - 1];
      TypeStepsAreActions(init);
      assert Plains(xs)[..|xs| - 1] == Plains(init);
    }
  }

  /** Rejection: Type succeeds iff every character is accepted, else names the first bad one. */
  lemma {:induction false} TypedRejects(s: string, shift: bool)
    ensures Typed(s, shift).Success? <==> forall i :: 0 <= i < |s| ==> Typable(s[i])
    ensures Typed(s, shift).Failure? ==>
              exists i :: 0 <= i < |s| && s[i] == Typed(s, shift).error && !Typable(s[i])
                          && forall j :: 0 <= j < i ==> Typable(s[j])
    decreases |s|
  {
    if s != [] {
      var c := s[0];
      var next := if IsLowerOrDigit(c) then false else if IsUpper(c) then true else shift;
      TypedRejects(s[1..], next);
      if Typable(c) {
        assert Typed(s, shift).Success? <==> Typed(s[1..], next).Success?;
        assert Typed(s, shift).Failure? ==> Typed(s, shift).error == Typed(s[1..], next).error;
        if Typed(s, shift).Failure? {
          var i :| 0 <= i < |s[1..]| && s[1..][i] == Typed(s[1..], next).error && !Typable(s[1..][i])
                   && forall j :: 0 <= j < i ==> Typable(s[1..][j]);
          assert s[i + 1] == s[1..][i];
          assert forall j :: 0 <= j < i + 1 ==> Typable(s[j]) by {
            forall j | 0 <= j < i + 1 ensures Typable(s[j]) {
              if j > 0 { assert s[j] == s[1..][j - 1]; }
            }
          }
        } else {
          forall i | 0 <= i < |s| ensures Typable(s[i]) {
            if i > 0 { assert s[i] == s[1..][i - 1]; }
          }
        }
      } else {
        assert Typed(s, shift) == Failure(c);
      }
    }
  }

  /** Whether shift is down after running `xs`, if it was `shift` before. */
  function ShiftAfter(xs: seq<Action>, shift: bool): bool
  {
    if xs == [] then shift
    else ShiftAfter(xs[1..], if xs[0] == SHIFT_PRESS then true else if xs[0] == SHIFT_RELEASE then false else shift)
  }

  /** The keys `xs` presses, each with whether shift is down at that moment. */
  function Pressings(xs: seq<Action>, shift: bool): seq<(Key, bool)>
  {
    if xs == [] then []
    else if xs[0] == SHIFT_PRESS then Pressings(xs[1..], true)
    else if xs[0] == SHIFT_RELEASE then Pressings(xs[1..], false)
    else if xs[0].Button? then [(xs[0].key, shift)] + Pressings(xs[1..], shift)
    else Pressings(xs[1..], shift)
  }

  /** The shift steps of `xs`: true for a press, false for a release. */
  function ShiftMarks(xs: seq<Action>): seq<bool>
  {
    if xs == [] then []
    else if xs[0] == SHIFT_PRESS then [true] + ShiftMarks(xs[1..])
    else if xs[0] == SHIFT_RELEASE then [false] + ShiftMarks(xs[1..])
    else ShiftMarks(xs[1..])
  }

  /** `m` alternates, beginning with `first`. */
  predicate Alternates(m: seq<bool>, first: bool)
  {
    forall i :: 0 <= i < |m| ==> m[i] == (if i % 2 == 0 then first else !first)
  }

  lemma {:induction false} PressingsAppend(xs: seq<Action>, ys: seq<Action>, shift: bool)
    ensures Pressings(xs + ys, shift) == Pressings(xs, shift) + Pressings(ys, ShiftAfter(xs, shift))
    decreases |xs|
  {
    if xs == [] {
      assert xs + ys == ys;
    } else {
      assert (xs + ys)[0] == xs[0];
      assert (xs + ys)[1..] == xs[1..] + ys;
      var next := if xs[0] == SHIFT_PRESS then true else if xs[0] == SHIFT_RELEASE then false else shift;
      PressingsAppend(xs[1..], ys, next);
    }
  }

  lemma {:induction false} ShiftAfterAppend(xs: seq<Action>, ys: seq<Action>, shift: bool)
    ensures ShiftAfter(xs + ys, shift) == ShiftAfter(ys, ShiftAfter(xs, shift))
    decreases |xs|
  {
    if xs == [] {
      assert xs + ys == ys;
    } else {
      assert (xs + ys)[0] == xs[0];
      assert (xs + ys)[1..] == xs[1..] + ys;
      var next := if xs[0] == SHIFT_PRESS then true else if xs[0] == SHIFT_RELEASE then false else shift;
      ShiftAfterAppend(xs[1..], ys, next);
    }
  }

  lemma {:induction false} ShiftMarksAppend(xs: seq<Action>, ys: seq<Action>)
    ensures ShiftMarks(xs + ys) == ShiftMarks(xs) + ShiftMarks(ys)
    decreases |xs|
  {
    if xs == [] {
      assert xs + ys == ys;
    } else {
      assert (xs + ys)[0] == xs[0];
      assert (xs + ys)[1..] == xs[1..] + ys;
      ShiftMarksAppend(xs[1..], ys);
    }
  }

  /** What one accepted character contributes, and the shift state after it. */
  lemma CharStep(c: char, shift: bool)
    requires Typable(c)
    ensures Pressings(CharActions(c, shift), shift) == [(KeyOf(c), NextShift(c, shift))]
    ensures ShiftAfter(CharActions(c, shift), shift) == NextShift(c, shift)
    ensures ShiftMarks(CharActions(c, shift)) == if NextShift(c, shift) == shift then [] else [NextShift(c, shift)]
  {
    var xs := CharActions(c, shift);
    var key := [Button(KeyOf(c))];
    assert key[1..] == [];
    assert Pressings(key, NextShift(c, shift)) == [(KeyOf(c), NextShift(c, shift))];
    assert ShiftAfter(key, NextShift(c, shift)) == NextShift(c, shift);
    assert ShiftMarks(key) == [];
    if |xs| == 2 {
      assert xs[1..] == key;
      assert xs[0] == SHIFT_PRESS || xs[0] == SHIFT_RELEASE;
      assert xs[0] == SHIFT_PRESS <==> NextShift(c, shift);
    } else {
      assert xs == key;
    }
  }

  /** Splits a successful Typed at its first character. */
  lemma TypedHead(s: string, shift: bool)
    requires s != [] && Typed(s, shift).Success?
    ensures Typable(s[0]) && Typed(s[1..], NextShift(s[0], shift)).Success?
    ensures Typed(s, shift).value == CharActions(s[0], shift) + Typed(s[1..], NextShift(s[0], shift)).value
  {
  }

  /**
   * The keys typed are exactly the characters of `s`, in order, and every
   * letter or digit is typed with shift down iff it is uppercase; a space
   * keeps whatever shift state it finds.
   */
  lemma {:induction false} TypeCasing(s: string, shift: bool)
    requires Typed(s, shift).Success?
    ensures var ks := Pressings(Typed(s, shift).value, shift);
            && |ks| == |s|
            && (forall i :: 0 <= i < |s| ==> ks[i].0 == KeyOf(s[i]))
            && (forall i :: 0 <= i < |s| && s[i] != ' ' ==> ks[i].1 == IsUpper(s[i]))
    decreases |s|
  {
    if s != [] {
      TypedHead(s, shift);
      var c := s[0];
      var next := NextShift(c, shift);
      var xs := CharActions(c, shift);
      CharStep(c, shift);
      TypeCasing(s[1..], next);
      var rest := Typed(s[1..], next).value;
      PressingsAppend(xs, rest, shift);
      var ks := Pressings(Typed(s, shift).value, shift);
      assert ks == [(KeyOf(c), next)] + Pressings(rest, next);
      forall i | 0 <= i < |s| ensures ks[i].0 == KeyOf(s[i]) && (s[i] != ' ' ==> ks[i].1 == IsUpper(s[i])) {
        if i > 0 { assert s[i] == s[1..][i - 1]; }
      }
    }
  }

  /**
   * Shift presses and releases strictly alternate, beginning with a press
   * when shift starts up; shift ends down iff an odd number of them ran.
   */
  lemma {:induction false} ShiftAlternates(s: string, shift: bool)
    requires Typed(s, shift).Success?
    ensures Alternates(ShiftMarks(Typed(s, shift).value), !shift)
    ensures ShiftAfter(Typed(s, shift).value, shift) == (if |ShiftMarks(Typed(s, shift).value)| % 2 == 0 then shift else !shift)
    decreases |s|
  {
    if s != [] {
      TypedHead(s, shift);
      var c := s[0];
      var next := NextShift(c, shift);
      CharStep(c, shift);
      ShiftAlternates(s[1..], next);
      AlternatesStep(CharActions(c, shift), Typed(s[1..], next).value, shift, next);
    }
  }

  /** One character's shift marks put in front of an alternating rest still alternate. */
  lemma AlternatesStep(xs: seq<Action>, rest: seq<Action>, shift: bool, next: bool)
    requires ShiftAfter(xs, shift) == next
    requires ShiftMarks(xs) == if next == shift then [] else [next]
    requires Alternates(ShiftMarks(rest), !next)
    requires ShiftAfter(rest, next) == (if |ShiftMarks(rest)| % 2 == 0 then next else !next)
    ensures Alternates(ShiftMarks(xs + rest), !shift)
    ensures ShiftAfter(xs + rest, shift) == (if |ShiftMarks(xs + rest)| % 2 == 0 then shift else !shift)
  {
    ShiftMarksAppend(xs, rest);
    ShiftAfterAppend(xs, rest, shift);
    var m := ShiftMarks(xs + rest);
    if next != shift {
      assert m == [next] + ShiftMarks(rest);
      forall i | 0 <= i < |m| ensures m[i] == (if i % 2 == 0 then !shift else shift) {
        if i > 0 { assert m[i] == ShiftMarks(rest)[i - 1]; }
      }
    } else {
      assert m == ShiftMarks(rest);
    }
  }

  /** Text ending in an uppercase letter leaves shift pressed: no final release. */
  lemma {:induction false} TrailingUpperKeepsShift(s: string, c: char)
    requires IsUpper(c) && Typed(s + [c], false).Success?
    ensures ShiftAfter(Typed(s + [c], false).value, false)
    ensures |ShiftMarks(Typed(s + [c], false).value)| % 2 == 1
  {
    EndsUpper(s, c, false);
    ShiftAlternates(s + [c], false);
  }

  lemma {:induction false} EndsUpper(s: string, c: char, shift: bool)
    requires IsUpper(c) && Typed(s + [c], shift).Success?
    ensures ShiftAfter(Typed(s + [c], shift).value, shift)
    decreases |s|
  {
    var t := s + [c];
    TypedHead(t, shift);
    var next := NextShift(t[0], shift);
    var xs := CharActions(t[0], shift);
    CharStep(t[0], shift);
    var rest := Typed(t[1..], next).value;
    ShiftAfterAppend(xs, rest, shift);
    if s == [] {
      assert t[1..] == [];
      assert t[0] == c;
    } else {
      assert t[1..] == s[1..] + [c];
      EndsUpper(s[1..], c, next);
    }
  }

  /**
   * Type's steps as written: the shift steps hand PressAction and
   * ReleaseAction the bare key code `Keys.KEY_LEFTSHIFT` rather than a
   * ButtonAction, and a key code has no `button_press` to call.
   */
  datatype Written = Direct(action: Action) | PressCode(code: Key) | ReleaseCode(code: Key)

  /** Whether a written step can run: only one holding an action can. */
  predicate Runs(w: Written)
  {
    w.Direct?
  }

  /** The steps one accepted character adds, as written. */
  function CharStepsAsWritten(c: char, shift: bool): (r: seq<Written>)
    ensures 1 <= |r| <= 2 && r[|r| - 1] == Direct(Button(KeyOf(c)))
    ensures |r| == 2 ==> r[0] == if IsLowerOrDigit(c) then ReleaseCode(SHIFT) else PressCode(SHIFT)
  {
    if IsLowerOrDigit(c) then (if shift then [ReleaseCode(SHIFT)] else []) + [Direct(Button(KeyOf(c)))]
    else if c == ' ' then [Direct(Button(SPACE))]
    else (if shift then [] else [PressCode(SHIFT)]) + [Direct(Button(KeyOf(c)))]
  }

  /** The intended step: a key code wrapped as a ButtonAction before the decorator. */
  function Fix(w: Written): (a: Action)
    ensures Runs(w) ==> a == w.action
    ensures w.PressCode? ==> a == PressOnly(Button(w.code))
    ensures w.ReleaseCode? ==> a == ReleaseOnly(Button(w.code))
  {
    match w
    case Direct(x) => x
    case PressCode(k) => PressOnly(Button(k))
    case ReleaseCode(k) => ReleaseOnly(Button(k))
  }

  /**
   * The written steps and CharActions agree step for step once the key
   * code is wrapped, and the written steps that cannot run are exactly
   * the shift presses and releases.
   */
  lemma AsWrittenFailsAtShift(c: char, shift: bool)
    ensures var w := CharStepsAsWritten(c, shift);
            var xs := CharActions(c, shift);
            && |w| == |xs|
            && (forall i :: 0 <= i < |w| ==> Fix(w[i]) == xs[i])
            && (forall i :: 0 <= i < |w| ==> (!Runs(w[i]) <==> xs[i] == SHIFT_PRESS || xs[i] == SHIFT_RELEASE))
  {
  }

  /** Typing "A" as written fails at once: its first step is a bare key code. */
  lemma UpperAsWrittenCannotRun()
    ensures Typable('A') && CharStepsAsWritten('A', false)[0] == PressCode(SHIFT)
    ensures !Runs(CharStepsAsWritten('A', false)[0])
    ensures Fix(CharStepsAsWritten('A', false)[0]) == CharActions('A', false)[0] == SHIFT_PRESS
  {
  }

  /** "Ab 1": shift press, A, shift release, b, space, 1. */
  lemma ExampleAb1()
    ensures Typed("Ab 1", false) == Success([SHIFT_PRESS, Button(KeyOf('A')), SHIFT_RELEASE,
                                             Button(KeyOf('b')), Button(SPACE), Button(KeyOf('1'))])
  {
    var s4: string := "1";
    assert s4[0] == '1' && s4[1..] == [];
    var k4 := [Button(KeyOf('1'))];
    assert Typed(s4, false) == Success(k4) by {
      assert CharActions(s4[0], false) == k4 && !NextShift(s4[0], false);
      assert Typed(s4[1..], false) == Success([]);
      assert k4 + [] == k4;
    }
    var s3: string := " 1";
    assert s3[0] == ' ' && s3[1..] == s4;
    var k3 := [Button(SPACE)] + k4;
    assert Typed(s3, false) == Success(k3);
    var s2: string := "b 1";
    assert s2[0] == 'b' && s2[1..] == s3;
    var k2 := [SHIFT_RELEASE, Button(KeyOf('b'))] + k3;
    assert CharActions(s2[0], true) == [SHIFT_RELEASE, Button(KeyOf('b'))] && !NextShift(s2[0], true);
    assert Typed(s2, true) == Success(k2);
    var s1: string := "Ab 1";
    assert s1[0] == 'A' && s1[1..] == s2;
    var k1 := [SHIFT_PRESS, Button(KeyOf('A'))] + k2;
    assert CharActions(s1[0], false) == [SHIFT_PRESS, Button(KeyOf('A'))] && NextShift(s1[0], false);
    assert Typed(s1, false) == Success(k1);
    assert k1 == [SHIFT_PRESS, Button(KeyOf('A')), SHIFT_RELEASE,
                  Button(KeyOf('b')), Button(SPACE), Button(KeyOf('1'))];
  }

  /**
   * "A B": the space does not release shift, so B needs no second press,
   * and the trailing uppercase letter leaves shift down.
   */
  lemma ExampleSpaceKeepsShift()
    ensures Typed("A B", false) == Success([SHIFT_PRESS, Button(KeyOf('A')), Button(SPACE), Button(KeyOf('B'))])
  {
    var s3: string := "B";
    assert s3[0] == 'B' && s3[1..] == [];
    var k3 := [Button(KeyOf('B'))];
    assert Typed(s3, true) == Success(k3) by {
      assert CharActions(s3[0], true) == k3 && NextShift(s3[0], true);
      assert Typed(s3[1..], true) == Success([]);
      assert k3 + [] == k3;
    }
    var s2: string := " B";
    assert s2[0] == ' ' && s2[1..] == s3;
    var k2 := [Button(SPACE)] + k3;
    assert CharActions(s2[0], true) == [Button(SPACE)] && NextShift(s2[0], true);
    assert Typed(s2, true) == Success(k2);
    var s1: string := "A B";
    assert s1[0] == 'A' && s1[1..] == s2;
    var k1 := [SHIFT_PRESS, Button(KeyOf('A'))] + k2;
    assert CharActions(s1[0], false) == [SHIFT_PRESS, Button(KeyOf('A'))] && NextShift(s1[0], false);
    assert Typed(s1, false) == Success(k1);
    assert k1 == [SHIFT_PRESS, Button(KeyOf('A')), Button(SPACE), Button(KeyOf('B'))];
  }

  /** A '#' is rejected, and the error names it. */
  lemma ExampleHash()
    ensures Typed("a#", false) == Failure('#')
  {
    assert "a#"[1..] == "#";
  }
}
