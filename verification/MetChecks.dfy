/** When a check passes, and what it says when it does not. */
module MetChecks {
  import opened Options
  import opened Text
  import opened Json
  import opened Pointer
  import S = Surface
  import opened Inputs
  import opened Validate
  import opened Click

  // ----- what a condition asks for -----

  /** What an argument stands for: what its pointer reads, or itself. */
  function Held(arg: Json, model: Json): Json {
    match S.BoundPath(arg)
    case Some(path) => Read(model, path)
    case None => arg
  }

  /** The value a call is about. */
  function About(args: seq<Field>, model: Json): Json
    requires Find(args, "value").Some?
  {
    Held(Find(args, "value").value, model)
  }

  /** The characters of a text; anything else has none. */
  function Characters(value: Json): string {
    match value
    case Str(s) => s
    case _ => ""
  }

  ghost predicate AtLeast(args: seq<Field>, text: string) {
    forall n :: Find(args, "min") == Some(Int(n)) ==> n <= |text|
  }

  ghost predicate AtMost(args: seq<Field>, text: string) {
    forall n :: Find(args, "max") == Some(Int(n)) ==> |text| <= n
  }

  /** Something is there: no null, no empty list and no text of blanks alone. */
  predicate Something(value: Json) {
    value != Null && value != Arr([]) && (value.Str? ==> exists i :: 0 <= i < |value.s| && !JsSpace(value.s[i]))
  }

  ghost predicate Met(c: S.Condition, model: Json)
    requires TypedCondition(c)
  {
    match c
    case AtPath(path) => Read(model, path) == Bool(true)
    case Call(name, args) =>
      var value := About(args, model);
      && (name == "required" ==> Something(value))
      && (name == "length" ==> AtLeast(args, Characters(value)) && AtMost(args, Characters(value)))
      && (name == "email" ==> value == Str("") || !value.Str? || Email(value.s))
  }

  /** What a condition that is not met says by default. */
  ghost function Default(c: S.Condition, model: Json): string
    requires TypedCondition(c)
  {
    match c
    case AtPath(_) => "Check this field."
    case Call(name, args) =>
      if name == "required" then "Required."
      else if name == "email" then "Enter an email address."
      else if !AtLeast(args, Characters(About(args, model))) then
        "Use at least " + IntText(Find(args, "min").value.n) + " characters."
      else if Find(args, "max").Some? then "Use at most " + IntText(Find(args, "max").value.n) + " characters."
      else ""
  }

  lemma LimitIsTyped(args: seq<Field>, key: string, default: int, model: Json)
    requires TypedLimit(args, key)
    ensures Limit(args, key, default, model)
         == Done(if Find(args, key).Some? then Find(args, key).value.n else default)
  {
  }

  lemma FailureOfCall(name: string, args: seq<Field>, model: Json, min: int, max: int)
    requires TypedCondition(S.Call(name, args))
    requires min == if Find(args, "min").Some? then Find(args, "min").value.n else 0
    requires max == if Find(args, "max").Some? then Find(args, "max").value.n else |Characters(About(args, model))|
    ensures Failure(S.Call(name, args), model) == CallFailure(name, About(args, model), Done(min), Done(max))
  {
    var value := About(args, model);
    assert Arg(Find(args, "value").value, model) == value && StringOf(value) == Characters(value);
    LimitIsTyped(args, "min", 0, model);
    LimitIsTyped(args, "max", |StringOf(value)|, model);
  }

  lemma LengthCall(args: seq<Field>, model: Json, min: int, max: int)
    requires TypedCondition(S.Call("length", args))
    requires min == if Find(args, "min").Some? then Find(args, "min").value.n else 0
    requires max == if Find(args, "max").Some? then Find(args, "max").value.n else |Characters(About(args, model))|
    ensures CallFailure("length", About(args, model), Done(min), Done(max))
         == Done(if Met(S.Call("length", args), model) then None else Some(Default(S.Call("length", args), model)))
  {
    LengthIff(args, Characters(About(args, model)));
  }

  lemma OtherCall(name: string, args: seq<Field>, model: Json, min: int, max: int)
    requires TypedCondition(S.Call(name, args)) && name != "length"
    ensures CallFailure(name, About(args, model), Done(min), Done(max))
         == Done(if Met(S.Call(name, args), model) then None else Some(Default(S.Call(name, args), model)))
  {
  }

  /** A typed condition passes exactly when it is met. */
  lemma FailureIff(c: S.Condition, model: Json)
    requires TypedCondition(c)
    ensures Failure(c, model) == Done(if Met(c, model) then None else Some(Default(c, model)))
  {
    match c
    case AtPath(path) =>
    case Call(name, args) =>
      var min := if Find(args, "min").Some? then Find(args, "min").value.n else 0;
      var max := if Find(args, "max").Some? then Find(args, "max").value.n else |Characters(About(args, model))|;
      FailureOfCall(name, args, model, min, max);
      if name == "length" {
        LengthCall(args, model, min, max);
      } else {
        OtherCall(name, args, model, min, max);
      }
  }

  lemma LengthIff(args: seq<Field>, text: string)
    requires TypedLimit(args, "min") && TypedLimit(args, "max")
    ensures AtLeast(args, text) <==> Find(args, "min").None? || Find(args, "min").value.n <= |text|
    ensures AtMost(args, text) <==> Find(args, "max").None? || |text| <= Find(args, "max").value.n
  {
    if Find(args, "min").Some? {
      assert Find(args, "min") == Some(Int(Find(args, "min").value.n));
    }
    if Find(args, "max").Some? {
      assert Find(args, "max") == Some(Int(Find(args, "max").value.n));
    }
  }

  // ----- several checks -----

  predicate AllTyped(checks: seq<S.Check>) { forall k :: 0 <= k < |checks| ==> TypedCondition(checks[k].condition) }

  ghost predicate AllMet(checks: seq<S.Check>, model: Json)
    requires AllTyped(checks)
  {
    forall k :: 0 <= k < |checks| ==> Met(checks[k].condition, model)
  }

  /** What a check that is not met says: its message, unless that is empty, else the default. */
  ghost function Says(check: S.Check, model: Json): string
    requires TypedCondition(check.condition)
  {
    match check.message
    case None => Default(check.condition, model)
    case Some(m) => if m != "" then m else Default(check.condition, model)
  }

  /** The first check that is not met says this. */
  ghost predicate FirstSays(checks: seq<S.Check>, model: Json, text: string)
    requires AllTyped(checks)
  {
    exists k :: 0 <= k < |checks|
      && !Met(checks[k].condition, model) && (forall j :: 0 <= j < k ==> Met(checks[j].condition, model))
      && text == Says(checks[k], model)
  }

  lemma FailuresStep(checks: seq<S.Check>, model: Json)
    requires checks != [] && TypedCondition(checks[0].condition) && CheckFailures(checks[1..], model).Done?
    ensures CheckFailures(checks, model) == Done(
      (if Met(checks[0].condition, model) then [] else [Says(checks[0], model)]) + CheckFailures(checks[1..], model).value)
  {
    FailureIff(checks[0].condition, model);
  }

  lemma {:induction false} FailuresIff(checks: seq<S.Check>, model: Json)
    requires AllTyped(checks)
    ensures CheckFailures(checks, model).Done?
    ensures CheckFailures(checks, model).value == [] <==> AllMet(checks, model)
    ensures !AllMet(checks, model) ==> FirstSays(checks, model, CheckFailures(checks, model).value[0])
  {
    if checks != [] {
      var rest := checks[1..];
      assert forall k :: 0 <= k < |rest| ==> rest[k] == checks[k + 1];
      FailuresIff(rest, model);
      FailuresStep(checks, model);
      var later := CheckFailures(rest, model).value;
      if Met(checks[0].condition, model) {
        assert [] + later == later;
        AllMetLater(checks, model);
        if !AllMet(rest, model) {
          FirstLater(checks, model, later[0]);
        }
      } else {
        FirstAtOnce(checks, model);
      }
    }
  }

  lemma FirstAtOnce(checks: seq<S.Check>, model: Json)
    requires checks != [] && AllTyped(checks) && !Met(checks[0].condition, model)
    ensures !AllMet(checks, model) && FirstSays(checks, model, Says(checks[0], model))
  {
  }

  lemma AllMetLater(checks: seq<S.Check>, model: Json)
    requires checks != [] && AllTyped(checks) && AllTyped(checks[1..]) && Met(checks[0].condition, model)
    ensures AllMet(checks, model) <==> AllMet(checks[1..], model)
  {
    if AllMet(checks[1..], model) {
      forall k | 0 <= k < |checks| ensures Met(checks[k].condition, model) {
        if k > 0 {
          assert checks[k] == checks[1..][k - 1];
        }
      }
    }
  }

  lemma FirstLater(checks: seq<S.Check>, model: Json, text: string)
    requires checks != [] && AllTyped(checks) && AllTyped(checks[1..]) && Met(checks[0].condition, model)
    requires FirstSays(checks[1..], model, text)
    ensures FirstSays(checks, model, text)
  {
    var rest := checks[1..];
    var k :| 0 <= k < |rest|
      && !Met(rest[k].condition, model) && (forall j :: 0 <= j < k ==> Met(rest[j].condition, model))
      && text == Says(rest[k], model);
    assert checks[k + 1] == rest[k];
    forall j | 0 <= j < k + 1 ensures Met(checks[j].condition, model) {
      if j > 0 {
        assert checks[j] == rest[j - 1];
      }
    }
  }

  // ----- the checks of several components -----

  predicate PartsTyped(checked: seq<Checked>) { forall i :: 0 <= i < |checked| ==> AllTyped(checked[i].checks) }

  ghost predicate PartsMet(checked: seq<Checked>, model: Json)
    requires PartsTyped(checked)
  {
    forall i :: 0 <= i < |checked| ==> AllMet(checked[i].checks, model)
  }

  /** Refused at the first component with a check that is not met, with what that says. */
  ghost predicate RefusedAtFirst(checked: seq<Checked>, model: Json, at: string, text: string)
    requires PartsTyped(checked)
  {
    exists i :: 0 <= i < |checked| && checked[i].at == at
      && (forall j :: 0 <= j < i ==> AllMet(checked[j].checks, model))
      && FirstSays(checked[i].checks, model, text)
  }

  /** The checks pass exactly when all are met; else the first one that is not refuses. */
  lemma {:induction false} PassIff(checked: seq<Checked>, model: Json)
    requires PartsTyped(checked)
    ensures PassChecks(checked, model).Done? <==> PartsMet(checked, model)
    ensures !PartsMet(checked, model) ==>
      var r := PassChecks(checked, model);
      r.Refused? && r.why.CheckFails? && RefusedAtFirst(checked, model, r.at, r.why.text)
  {
    if checked != [] {
      var rest := checked[1..];
      assert forall k :: 0 <= k < |rest| ==> rest[k] == checked[k + 1];
      FailuresIff(checked[0].checks, model);
      PassIff(rest, model);
      if AllMet(checked[0].checks, model) {
        PartsMetLater(checked, model);
        if !PartsMet(rest, model) {
          RefusedLater(checked, model, PassChecks(rest, model).at, PassChecks(rest, model).why.text);
        }
      } else {
        assert !AllMet(checked[0].checks, model);
      }
    }
  }

  lemma PartsMetLater(checked: seq<Checked>, model: Json)
    requires checked != [] && PartsTyped(checked) && PartsTyped(checked[1..]) && AllMet(checked[0].checks, model)
    ensures PartsMet(checked, model) <==> PartsMet(checked[1..], model)
  {
    if PartsMet(checked[1..], model) {
      forall k | 0 <= k < |checked| ensures AllMet(checked[k].checks, model) {
        if k > 0 {
          assert checked[k] == checked[1..][k - 1];
        }
      }
    }
  }

  lemma RefusedLater(checked: seq<Checked>, model: Json, at: string, text: string)
    requires checked != [] && PartsTyped(checked) && PartsTyped(checked[1..]) && AllMet(checked[0].checks, model)
    requires RefusedAtFirst(checked[1..], model, at, text)
    ensures RefusedAtFirst(checked, model, at, text)
  {
    var rest := checked[1..];
    var i :| 0 <= i < |rest| && rest[i].at == at
      && (forall j :: 0 <= j < i ==> AllMet(rest[j].checks, model)) && FirstSays(rest[i].checks, model, text);
    assert checked[i + 1] == rest[i];
    forall j | 0 <= j < i + 1 ensures AllMet(checked[j].checks, model) {
      if j > 0 {
        assert checked[j] == rest[j - 1];
      }
    }
  }

  lemma EmptyIsUnmet(args: seq<Field>, path: string, model: Json)
    requires args == [Field("value", Obj([Field("@path", Str(path))]))] && Read(model, path) == Str("")
    ensures TypedCondition(S.Call("required", args)) && !Met(S.Call("required", args), model)
  {
    assert args[0].value.fields[0] == Field("@path", Str(path));
    assert About(args, model) == Str("");
  }

  /** A required text that is sent empty is refused. */
  lemma EmptyIsNotRequired(args: seq<Field>, path: string, model: Json, at: string)
    requires args == [Field("value", Obj([Field("@path", Str(path))]))] && Read(model, path) == Str("")
    ensures PassChecks([Checked(at, [S.Check(S.Call("required", args), None)])], model) == Refused(at, CheckFails("Required."))
  {
    var check := S.Check(S.Call("required", args), None);
    EmptyIsUnmet(args, path, model);
    FailureIff(check.condition, model);
    assert [check][1..] == [];
    assert CheckFailures([check], model) == Done(["Required."] + []);
  }
}
