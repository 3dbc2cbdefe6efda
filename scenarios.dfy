/**
 * The situations the repository's own test suites exercise, stated against
 * the model.
 */
module Scenarios {
  import opened JsValue
  import opened Options
  import opened Engine
  import opened Form

  const RedGreen: Value := Obj(map["error" := Str("red"), "success" := Str("green")])

  const ValidOptions: Value := Obj(map["colors" := RedGreen, "validate" := Str("submit")])

  /** Well-formed colours and a known trigger are kept as given. */
  lemma ValidOptionsKept()
    ensures Resolve(ValidOptions) == Some(Config(Colors(Str("red"), Str("green")), Submit, Undefined, Obj(map[])))
  {
    assert ColorsGet(ValidOptions) == RedGreen;
    assert ValidateGet(ValidOptions) == Str("submit");
    assert RulesGet(Get(ValidOptions, "rules")) == Undefined;
  }

  const InvalidOptions: Value := Obj(map["colors" := Str("invalidColor"), "validate" := Str("invalidValidation"),
                                         "rules" := Arr([Str("invalidRule")])])

  /**
   * A string `colors`, an unknown trigger and an array of non-functions as
   * `rules` fall back to the defaults; the array stays an array, its bad
   * entry emptied.
   */
  lemma InvalidOptionsFallBack()
    ensures Resolve(InvalidOptions)
         == Some(Config(Colors(DefaultErrorColor, DefaultSuccessColor), Submit, Undefined, Arr([Arr([])])))
  {
    assert ColorsGet(InvalidOptions) == DefaultColorsObject;
    assert ValidateGet(InvalidOptions) == Str("submit");
    var t := Arr([Str("invalidRule")]);
    assert Get(InvalidOptions, "rules") == t;
    assert !IsRuleArray(t.elems[0]);
    assert SanitizedSeq(t.elems) == [Arr([])];
  }

  const EmailMessages: Value := Obj(map["valueMissing" := Str("Email is required."),
                                         "typeMismatch" := Str("Invalid email format.")])

  const EmailOptions: Value := Obj(map["colors" := RedGreen, "validate" := Str("submit"), "errorMessages" := EmailMessages])

  const OnlyValueMissing: seq<bool> := [true, false, false, false, false, false, false, false, false, false]

  lemma EmailOptionsResolve()
    ensures Resolve(EmailOptions) == Some(Config(Colors(Str("red"), Str("green")), Submit, EmailMessages, Obj(map[])))
  {
    assert ColorsGet(EmailOptions) == RedGreen;
    assert ValidateGet(EmailOptions) == Str("submit");
    assert RulesGet(Get(EmailOptions, "rules")) == Undefined;
  }

  /** An empty required field with the `valueMissing` override: its message is the override. */
  lemma EmptyEmailMessage(run: RuleImpl)
    ensures FinalMessage(EmailMessages, Obj(map[]), "email", Snapshot("", OnlyValueMissing, "Constraints not satisfied"), run)
         == Str("Email is required.")
  {
    LastTrueFlagWins(OnlyValueMissing, EmailMessages, "Constraints not satisfied", 0);
  }

  /**
   * A required e-mail field left empty: submitting marks it invalid, shows
   * the override for `valueMissing` and blocks submission; a later `input`
   * event removes the mark and the message again. The two DOM tests run
   * here as one sequence on one form.
   */
  method RequiredEmailScenario(run: RuleImpl)
      returns (submitted: bool, invalidAfterSubmit: bool, shownAfterSubmit: seq<Value>,
               invalidAfterInput: bool, shownAfterInput: seq<Value>)
    ensures !submitted
    ensures invalidAfterSubmit && shownAfterSubmit == [Str("Email is required.")]
    ensures !invalidAfterInput && shownAfterInput == []
  {
    var email := new Field("email", true, {});
    var reported := Snapshot("", OnlyValueMissing, "Constraints not satisfied");
    EmailOptionsResolve();
    var v := Attach([email], EmailOptions, run);
    var validator := v.value;
    assert validator.validateOn == Submit && validator.inputs == [email];
    EmptyEmailMessage(run);
    assert validator.FieldMessage(email.name, reported) == Str("Email is required.");

    var snapshots := [reported];
    submitted := validator.ValidateForm(snapshots);
    assert validator.inputs[0] == email && snapshots[0] == reported;
    invalidAfterSubmit := InputInvalid in email.classes;
    shownAfterSubmit := email.errorSpans;

    assert Policy(validator.validateOn, email.isInputTag, "input") == ClearOnly;
    var verdict := validator.OnFieldEvent(email, "input", reported);
    invalidAfterInput := InputInvalid in email.classes;
    shownAfterInput := email.errorSpans;
  }
}
