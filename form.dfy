/**
 * The validator attached to one form: its resolved configuration, the
 * fields it manages with their presentation state, the per-field event
 * policy and the full-form pass run on submission.
 */
module Form {
  import opened JsValue
  import opened Options
  import opened Engine

  const InputValid := "input-valid"
  const InputInvalid := "input-invalid"

  /**
   * One form control: its name, its tag, and the presentation state the
   * validator changes: its class list and the texts of the `.error-message`
   * spans inside its wrapper, in document order.
   */
  class Field {
    const name: string
    /** An `<input>`, as opposed to a `<textarea>` or `<select>`. */
    const isInputTag: bool
    var classes: set<string>
    var errorSpans: seq<Value>

    ghost predicate Valid()
      reads this
    {
      |errorSpans| <= 1
    }

    constructor(name: string, isInputTag: bool, classes: set<string>)
      ensures Valid()
      ensures this.name == name && this.isInputTag == isInputTag
      ensures this.classes == classes && errorSpans == []
    {
      this.name := name;
      this.isInputTag := isInputTag;
      this.classes := classes;
      errorSpans := [];
    }
  }

  /** A snapshot the browser can report: one flag per constraint. */
  predicate WellFormedSnapshot(s: Snapshot) {
    |s.validity| == |ValidationStates|
  }

  /**
   * How a field looks after validation with final message `message`, given
   * its classes before: marked invalid with one span holding the message, or
   * marked valid with no span.
   */
  ghost predicate Presents(f: Field, message: Value, classesBefore: set<string>)
    reads f
  {
    if Truthy(message) then
      f.classes == classesBefore + {InputInvalid} - {InputValid} && f.errorSpans == [message]
    else
      f.classes == classesBefore + {InputValid} - {InputInvalid} && f.errorSpans == []
  }

  /** What a field listener does with an event. */
  datatype Action = Ignore | ClearOnly | Revalidate

  /**
   * The listener policy: only `<input>` fields have listeners. Under
   * `"submit"` an `input` event clears the field's error; under any other
   * trigger the event of that name validates the field.
   */
  function Policy(trigger: Trigger, isInputTag: bool, eventType: string): (a: Action)
    ensures a == Revalidate <==> isInputTag && trigger != Submit && eventType == trigger.Name()
    ensures a == ClearOnly <==> isInputTag && trigger == Submit && eventType == "input"
  {
    if !isInputTag then Ignore
    else if trigger == Submit then (if eventType == "input" then ClearOnly else Ignore)
    else if eventType == trigger.Name() then Revalidate
    else Ignore
  }

  class FormValidator {
    const inputs: seq<Field>
    const colors: Colors
    const validateOn: Trigger
    const errorMessages: Value
    const rules: Value
    /** The behaviour of the rule functions the options refer to. */
    const run: RuleImpl
    var isValid: bool
    ghost const Repr: set<Field>

    ghost predicate Valid()
      reads Repr
    {
      && RulesWellFormed(rules)
      && (forall j :: 0 <= j < |inputs| ==> inputs[j] in Repr)
      && (forall j, k :: 0 <= j < k < |inputs| ==> inputs[j] != inputs[k])
      && forall j :: 0 <= j < |inputs| ==> inputs[j].Valid()
    }

    /** `new FormValidator(form, options)` for an options value the proxy can wrap. */
    constructor(inputs: seq<Field>, options: Value, run: RuleImpl)
      requires IsProxyTarget(options)
      requires forall j, k :: 0 <= j < k < |inputs| ==> inputs[j] != inputs[k]
      requires forall f :: f in inputs ==> f.Valid()
      ensures Valid()
      ensures this.inputs == inputs && this.run == run && isValid
      ensures Repr == set f | f in inputs
      ensures Resolve(options) == Some(Config(colors, validateOn, errorMessages, rules))
    {
      var target := OptionsObject(options);
      this.inputs := inputs;
      this.run := run;
      isValid := true;
      colors := ResolveColors(target);
      validateOn := ResolveValidateOn(target);
      errorMessages := Get(target, "errorMessages");
      var got, _ := GetRules(Get(target, "rules"));
      rules := Or(got, Obj(map[]));
      Repr := set f | f in inputs;
    }

    /** The message validation settles on for a field called `name` reporting `s`. */
    function FieldMessage(name: string, s: Snapshot): Value
      requires RulesWellFormed(rules) && WellFormedSnapshot(s)
    {
      FinalMessage(errorMessages, rules, name, s, run)
    }

    /** Marks `f` invalid and writes `message` into its one error span, creating it if needed. */
    method ShowError(f: Field, message: Value)
      modifies f
      ensures f.classes == old(f.classes) + {InputInvalid} - {InputValid}
      ensures f.errorSpans == if old(f.errorSpans) == [] then [message] else old(f.errorSpans)[0 := message]
      ensures |old(f.errorSpans)| <= 1 ==> f.errorSpans == [message]
    {
      f.classes := f.classes + {InputInvalid} - {InputValid};
      if f.errorSpans == [] {
        f.errorSpans := [message];
      } else {
        f.errorSpans := f.errorSpans[0 := message];
      }
    }

    /** Removes the invalid mark and the first error span of `f`. */
    method ClearError(f: Field)
      modifies f
      ensures f.classes == old(f.classes) - {InputInvalid}
      ensures f.errorSpans == if old(f.errorSpans) == [] then [] else old(f.errorSpans)[1..]
      ensures |old(f.errorSpans)| <= 1 ==> f.errorSpans == []
    {
      f.classes := f.classes - {InputInvalid};
      if f.errorSpans != [] {
        f.errorSpans := f.errorSpans[1..];
      }
    }

    /**
     * Validates field `f`, which the browser reports as `s`: true exactly
     * when the final message is falsy (the empty string), with the field
     * presented accordingly.
     */
    method ValidateInput(f: Field, s: Snapshot) returns (ok: bool)
      requires RulesWellFormed(rules) && WellFormedSnapshot(s) && f.Valid()
      modifies f
      ensures f.Valid()
      ensures ok <==> !Truthy(FieldMessage(f.name, s))
      ensures ok <==> FieldMessage(f.name, s) == Str("")
      ensures Presents(f, FieldMessage(f.name, s), old(f.classes))
    {
      var errorMessage := ScanNative(s.validity, errorMessages, s.validationMessage);
      var entry := Get(rules, f.name);
      WellFormedLookup(rules, f.name);
      if !Truthy(errorMessage) && Truthy(entry) {
        errorMessage := RunRules(entry.elems, s.value, run, errorMessage);
      }
      FalsyFinalIsEmpty(errorMessages, rules, f.name, s, run);
      if Truthy(errorMessage) {
        ShowError(f, errorMessage);
        ok := false;
      } else {
        f.classes := f.classes + {InputValid};
        ClearError(f);
        ok := true;
      }
    }

    /**
     * The submit handler, with `snapshots[i]` what the browser reports for
     * `inputs[i]`: validates every field, even after a failure; the form is
     * valid, and submitted, exactly when every field is.
     */
    method ValidateForm(snapshots: seq<Snapshot>) returns (submitted: bool)
      requires Valid()
      requires |snapshots| == |inputs| && forall j :: 0 <= j < |snapshots| ==> WellFormedSnapshot(snapshots[j])
      modifies this, Repr
      ensures Valid()
      ensures isValid <==> forall i :: 0 <= i < |inputs| ==> !Truthy(FieldMessage(inputs[i].name, snapshots[i]))
      ensures submitted == isValid
      ensures forall i :: 0 <= i < |inputs| ==>
        Presents(inputs[i], FieldMessage(inputs[i].name, snapshots[i]), old(inputs[i].classes))
    {
      var valid := true;
      ghost var messages: seq<Value> := [];
      var i := 0;
      while i < |inputs|
        invariant 0 <= i <= |inputs| && |messages| == i
        invariant forall j :: 0 <= j < i ==> messages[j] == FieldMessage(inputs[j].name, snapshots[j])
        invariant forall j :: 0 <= j < |inputs| ==> inputs[j].Valid()
        invariant forall j :: 0 <= j < i ==> Presents(inputs[j], messages[j], old(inputs[j].classes))
        invariant forall j :: i <= j < |inputs| ==>
          inputs[j].classes == old(inputs[j].classes) && inputs[j].errorSpans == old(inputs[j].errorSpans)
        invariant valid <==> forall j :: 0 <= j < i ==> !Truthy(messages[j])
      {
        ghost var message := FieldMessage(inputs[i].name, snapshots[i]);
        var ok := ValidateInput(inputs[i], snapshots[i]);
        messages := messages + [message];
        if !ok {
          valid := false;
        }
        i := i + 1;
      }
      isValid := valid;
      submitted := isValid;
    }

    /**
     * An event of type `eventType` reaching field `f`, which the browser
     * reports as `s`: what its listener does under the configured trigger.
     * `verdict` is the validation result when the field was validated.
     * Nothing but `f` changes.
     */
    method OnFieldEvent(f: Field, eventType: string, s: Snapshot) returns (verdict: Option<bool>)
      requires Valid() && f in inputs && WellFormedSnapshot(s)
      modifies f
      ensures Valid() && f.Valid() && isValid == old(isValid)
      ensures Policy(validateOn, f.isInputTag, eventType) == Ignore ==>
        verdict.None? && f.classes == old(f.classes) && f.errorSpans == old(f.errorSpans)
      ensures Policy(validateOn, f.isInputTag, eventType) == ClearOnly ==>
        verdict.None? && f.classes == old(f.classes) - {InputInvalid} && f.errorSpans == []
      ensures Policy(validateOn, f.isInputTag, eventType) == Revalidate ==>
        verdict == Some(!Truthy(FieldMessage(f.name, s))) && Presents(f, FieldMessage(f.name, s), old(f.classes))
    {
      match Policy(validateOn, f.isInputTag, eventType) {
        case Ignore =>
          verdict := None;
        case ClearOnly =>
          ClearError(f);
          verdict := None;
        case Revalidate =>
          var ok := ValidateInput(f, s);
          verdict := Some(ok);
      }
    }
  }

  /**
   * `validateForm(form, options)`: a validator over `inputs`, or None where
   * the options cannot be wrapped and construction throws.
   */
  method Attach(inputs: seq<Field>, options: Value, run: RuleImpl) returns (r: Option<FormValidator>)
    requires forall j, k :: 0 <= j < k < |inputs| ==> inputs[j] != inputs[k]
    requires forall f :: f in inputs ==> f.Valid()
    ensures r.None? <==> !IsProxyTarget(options)
    ensures r.Some? ==> fresh(r.value) && r.value.Valid() && r.value.inputs == inputs && r.value.isValid
    ensures r.Some? ==> r.value.Repr == set f | f in inputs
    ensures r.Some? ==>
      Resolve(options) == Some(Config(r.value.colors, r.value.validateOn, r.value.errorMessages, r.value.rules))
  {
    if !IsProxyTarget(options) {
      return None;
    }
    var v := new FormValidator(inputs, options, run);
    return Some(v);
  }

  /**
   * Validating the same field twice with the same snapshot gives the same
   * verdict and still leaves at most one error span.
   */
  method ValidateTwice(v: FormValidator, f: Field, s: Snapshot) returns (first: bool, second: bool)
    requires RulesWellFormed(v.rules) && WellFormedSnapshot(s) && f.Valid()
    modifies f
    ensures first == second
    ensures f.Valid()
    ensures Presents(f, v.FieldMessage(f.name, s), old(f.classes))
  {
    first := v.ValidateInput(f, s);
    second := v.ValidateInput(f, s);
  }
}
