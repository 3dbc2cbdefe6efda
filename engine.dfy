/**
 * Choosing a field's error message: the scan over the ten constraint flags
 * of the HTML constraint validation API (the `ValidityState` attributes of
 * section 4.10.20.3 of the WHATWG HTML Living Standard), then the custom
 * rules, and the verdict that follows from the message.
 */
module Engine {
  import opened JsValue
  import opened Options

  /** The flags in the order the scan visits them. */
  const ValidationStates: seq<string> := [
    "valueMissing", "typeMismatch", "patternMismatch", "tooLong", "tooShort",
    "rangeUnderflow", "rangeOverflow", "stepMismatch", "badInput", "customError"
  ]

  /** What the host's rule function with a given identity returns for a value. */
  type RuleImpl = (nat, string) -> string

  /**
   * What the browser reports for a field when it is validated: its value,
   * one flag per entry of ValidationStates, and its `validationMessage`.
   */
  datatype Snapshot = Snapshot(value: string, validity: seq<bool>, validationMessage: string)

  /** The index of the last true flag: the "last one wins" rule of the flag scan. */
  function LastTrue(flags: seq<bool>): (r: Option<nat>)
    ensures r.Some? ==> r.value < |flags| && flags[r.value]
    ensures r.Some? ==> forall j :: r.value < j < |flags| ==> !flags[j]
    ensures r.None? ==> forall j :: 0 <= j < |flags| ==> !flags[j]
  {
    if flags == [] then None
    else if flags[|flags| - 1] then Some(|flags| - 1)
    else LastTrue(flags[..|flags| - 1])
  }

  /** One more flag: it wins if it is true, else nothing changes. */
  lemma LastTrueSnoc(flags: seq<bool>, x: bool)
    ensures LastTrue(flags + [x]) == if x then Some(|flags|) else LastTrue(flags)
  {
    assert (flags + [x])[..|flags|] == flags;
  }

  /** The index of the last non-empty result: the "last one wins" rule of the rule loop. */
  function LastNonEmpty(results: seq<string>): (r: Option<nat>)
    ensures r.Some? ==> r.value < |results| && results[r.value] != ""
    ensures r.Some? ==> forall j :: r.value < j < |results| ==> results[j] == ""
    ensures r.None? ==> forall j :: 0 <= j < |results| ==> results[j] == ""
  {
    if results == [] then None
    else if results[|results| - 1] != "" then Some(|results| - 1)
    else LastNonEmpty(results[..|results| - 1])
  }

  /** One more result: it wins if it is non-empty, else nothing changes. */
  lemma LastNonEmptySnoc(results: seq<string>, x: string)
    ensures LastNonEmpty(results + [x]) == if x != "" then Some(|results|) else LastNonEmpty(results)
  {
    assert (results + [x])[..|results|] == results;
  }

  /** The message for one true flag: its override if truthy, else the native message. */
  function MessageFor(errorMessages: Value, state: string, validationMessage: string): (r: Value)
    ensures Truthy(Get(errorMessages, state)) ==> r == Get(errorMessages, state)
    ensures !Truthy(Get(errorMessages, state)) ==> r == Str(validationMessage)
  {
    Or(Get(errorMessages, state), Str(validationMessage))
  }

  /**
   * The message after scanning the flags `validity` (a prefix of the ten):
   * that of the last true flag, or `""` when none is true.
   */
  function NativeMessage(validity: seq<bool>, errorMessages: Value, validationMessage: string): (r: Value)
    requires |validity| <= |ValidationStates|
    ensures (forall k :: 0 <= k < |validity| ==> !validity[k]) ==> r == Str("")
    ensures Truthy(r) ==>
      exists j :: 0 <= j < |validity| && validity[j] && r == MessageFor(errorMessages, ValidationStates[j], validationMessage)
  {
    match LastTrue(validity)
    case None => Str("")
    case Some(i) => MessageFor(errorMessages, ValidationStates[i], validationMessage)
  }

  /** The flag loop: every true flag overwrites the message. */
  method ScanNative(validity: seq<bool>, errorMessages: Value, validationMessage: string)
      returns (errorMessage: Value)
    requires |validity| == |ValidationStates|
    ensures errorMessage == NativeMessage(validity, errorMessages, validationMessage)
  {
    errorMessage := Str("");
    var i := 0;
    while i < |ValidationStates|
      invariant 0 <= i <= |ValidationStates|
      invariant errorMessage == NativeMessage(validity[..i], errorMessages, validationMessage)
    {
      LastTrueSnoc(validity[..i], validity[i]);
      assert validity[..i + 1] == validity[..i] + [validity[i]];
      if validity[i] {
        errorMessage := MessageFor(errorMessages, ValidationStates[i], validationMessage);
      }
      i := i + 1;
    }
    assert validity[..i] == validity;
  }

  /** What each rule of a rule array returns for `value`, in order. */
  function RuleResults(rules: seq<Value>, value: string, run: RuleImpl): (rs: seq<string>)
    ensures |rs| == |rules|
    ensures forall i :: 0 <= i < |rules| && rules[i].Fn? ==> rs[i] == run(rules[i].id, value)
  {
    seq(|rules|, i requires 0 <= i < |rules| => match rules[i] case Fn(id) => run(id, value) case _ => "")
  }

  /** The message once the rules have run: the last non-empty result, else `initial`. */
  function CustomMessage(rules: seq<Value>, value: string, run: RuleImpl, initial: Value): (r: Value)
    ensures var results := RuleResults(rules, value, run);
      (forall k :: 0 <= k < |results| ==> results[k] == "") ==> r == initial
    ensures var results := RuleResults(rules, value, run);
      r == initial || exists j :: 0 <= j < |results| && results[j] != "" && r == Str(results[j])
  {
    var results := RuleResults(rules, value, run);
    match LastNonEmpty(results)
    case None => initial
    case Some(i) => Str(results[i])
  }

  /** The rule loop: every rule is called, and each non-empty result overwrites the message. */
  method RunRules(rules: seq<Value>, value: string, run: RuleImpl, initial: Value)
      returns (errorMessage: Value)
    requires forall i :: 0 <= i < |rules| ==> rules[i].Fn?
    ensures errorMessage == CustomMessage(rules, value, run, initial)
  {
    errorMessage := initial;
    var i := 0;
    while i < |rules|
      invariant 0 <= i <= |rules|
      invariant errorMessage == CustomMessage(rules[..i], value, run, initial)
    {
      var error := run(rules[i].id, value);
      assert RuleResults(rules[..i + 1], value, run) == RuleResults(rules[..i], value, run) + [error];
      LastNonEmptySnoc(RuleResults(rules[..i], value, run), error);
      if error != "" {
        errorMessage := Str(error);
      }
      i := i + 1;
    }
    assert rules[..i] == rules;
  }

  lemma WellFormedLookup(rules: Value, name: string)
    requires RulesWellFormed(rules)
    ensures Get(rules, name).Undefined? || IsRuleArray(Get(rules, name))
  {
  }

  /**
   * The message `validateInput` settles on: the flags' message, and when that
   * is falsy and the field's name has a rule list, the rules' message.
   */
  function FinalMessage(errorMessages: Value, rules: Value, name: string, snapshot: Snapshot, run: RuleImpl): (r: Value)
    requires RulesWellFormed(rules)
    requires |snapshot.validity| == |ValidationStates|
    ensures var native := NativeMessage(snapshot.validity, errorMessages, snapshot.validationMessage);
      Truthy(native) || !Truthy(Get(rules, name)) ==> r == native
    ensures var native := NativeMessage(snapshot.validity, errorMessages, snapshot.validationMessage);
      !Truthy(native) && Truthy(Get(rules, name)) ==>
        r == CustomMessage(Get(rules, name).elems, snapshot.value, run, Str(""))
  {
    var native := NativeMessage(snapshot.validity, errorMessages, snapshot.validationMessage);
    var entry := Get(rules, name);
    WellFormedLookup(rules, name);
    if !Truthy(native) && Truthy(entry) then CustomMessage(entry.elems, snapshot.value, run, native)
    else native
  }

  // ------------------------------------------------------------ properties

  /** The last true flag decides the message, whatever flags before it say. */
  lemma LastTrueFlagWins(validity: seq<bool>, errorMessages: Value, validationMessage: string, j: nat)
    requires |validity| == |ValidationStates|
    requires j < |validity| && validity[j]
    requires forall k :: j < k < |validity| ==> !validity[k]
    ensures NativeMessage(validity, errorMessages, validationMessage)
         == MessageFor(errorMessages, ValidationStates[j], validationMessage)
  {
    var r := LastTrue(validity);
    assert r.Some? && r.value == j;
  }

  /** No true flag: the flags give the empty string. */
  lemma NoFlagNoMessage(validity: seq<bool>, errorMessages: Value, validationMessage: string)
    requires |validity| == |ValidationStates|
    requires forall k :: 0 <= k < |validity| ==> !validity[k]
    ensures NativeMessage(validity, errorMessages, validationMessage) == Str("")
  {
  }

  /** A falsy flag message is the empty string, so the rules start from `""`. */
  lemma FalsyNativeIsEmpty(validity: seq<bool>, errorMessages: Value, validationMessage: string)
    requires |validity| == |ValidationStates|
    ensures var m := NativeMessage(validity, errorMessages, validationMessage);
      !Truthy(m) ==> m == Str("")
  {
  }

  /** A truthy flag message is final: the rules are not consulted at all. */
  lemma RulesSkippedAfterNativeError(errorMessages: Value, rules: Value, name: string, snapshot: Snapshot,
                                     run1: RuleImpl, run2: RuleImpl)
    requires RulesWellFormed(rules) && |snapshot.validity| == |ValidationStates|
    requires Truthy(NativeMessage(snapshot.validity, errorMessages, snapshot.validationMessage))
    ensures FinalMessage(errorMessages, rules, name, snapshot, run1)
         == FinalMessage(errorMessages, rules, name, snapshot, run2)
         == NativeMessage(snapshot.validity, errorMessages, snapshot.validationMessage)
  {
  }

  /**
   * With no flag error, the rule whose result is the last non-empty one
   * supplies the message; earlier failures are overwritten.
   */
  lemma LastRuleErrorWins(errorMessages: Value, rules: Value, name: string, snapshot: Snapshot,
                          run: RuleImpl, j: nat)
    requires RulesWellFormed(rules) && |snapshot.validity| == |ValidationStates|
    requires !Truthy(NativeMessage(snapshot.validity, errorMessages, snapshot.validationMessage))
    requires IsRuleArray(Get(rules, name))
    requires var fs := Get(rules, name).elems;
      && j < |fs| && run(fs[j].id, snapshot.value) != ""
      && forall k :: j < k < |fs| ==> run(fs[k].id, snapshot.value) == ""
    ensures FinalMessage(errorMessages, rules, name, snapshot, run)
         == Str(run(Get(rules, name).elems[j].id, snapshot.value))
  {
    var fs := Get(rules, name).elems;
    var results := RuleResults(fs, snapshot.value, run);
    var r := LastNonEmpty(results);
    assert results[j] != "";
    assert r.Some? && r.value == j;
  }

  /** With no flag error and no rule reporting one, the message is `""`. */
  lemma NoErrorAnywhere(errorMessages: Value, rules: Value, name: string, snapshot: Snapshot, run: RuleImpl)
    requires RulesWellFormed(rules) && |snapshot.validity| == |ValidationStates|
    requires forall k :: 0 <= k < |snapshot.validity| ==> !snapshot.validity[k]
    requires IsRuleArray(Get(rules, name)) ==>
      var fs := Get(rules, name).elems;
      forall k :: 0 <= k < |fs| ==> run(fs[k].id, snapshot.value) == ""
    ensures FinalMessage(errorMessages, rules, name, snapshot, run) == Str("")
  {
    WellFormedLookup(rules, name);
    var entry := Get(rules, name);
    if IsRuleArray(entry) {
      var results := RuleResults(entry.elems, snapshot.value, run);
      assert forall k :: 0 <= k < |results| ==> results[k] == "";
    }
  }

  /** The message `validateInput` settles on is falsy exactly when it is `""`. */
  lemma FalsyFinalIsEmpty(errorMessages: Value, rules: Value, name: string, snapshot: Snapshot, run: RuleImpl)
    requires RulesWellFormed(rules) && |snapshot.validity| == |ValidationStates|
    ensures var m := FinalMessage(errorMessages, rules, name, snapshot, run);
      !Truthy(m) <==> m == Str("")
  {
  }
}
