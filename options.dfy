/**
 * Option resolution: the property-reading proxy that sanitises `colors`,
 * `validate` and `rules`, and the validator constructor's `||` defaults.
 * The proxy runs on every read. The constructor reads `colors` twice, once
 * per colour, and every other property once; only a read of `rules` writes
 * to the target, so resolution is one function of the raw options.
 */
module Options {
  import opened JsValue

  const DefaultErrorColor: Value := Str("maroon")
  const DefaultSuccessColor: Value := Str("#5cb85c")
  /** What the proxy hands back for a malformed `colors`. */
  const DefaultColorsObject: Value := Obj(map["error" := DefaultErrorColor, "success" := DefaultSuccessColor])

  datatype Colors = Colors(error: Value, success: Value)

  /** The four accepted validation events. */
  datatype Trigger = Submit | Input | Change | Blur {
    function Name(): string {
      match this
      case Submit => "submit"
      case Input => "input"
      case Change => "change"
      case Blur => "blur"
    }
  }

  const ValidEvents: seq<Value> := [Str("submit"), Str("input"), Str("change"), Str("blur")]

  datatype Config = Config(colors: Colors, validateOn: Trigger, errorMessages: Value, rules: Value)

  // ---------------------------------------------------------------- colors

  /**
   * The proxy's answer when `colors` is read off `target`: whatever is
   * truthy comes back as an object, the default pair replacing anything else.
   */
  function ColorsGet(target: Value): (r: Value)
    ensures Truthy(r) ==> TypeOf(r) == "object"
    ensures !Truthy(Get(target, "colors")) || TypeOf(Get(target, "colors")) == "object" ==> r == Get(target, "colors")
    ensures Truthy(Get(target, "colors")) && TypeOf(Get(target, "colors")) != "object" ==> r == DefaultColorsObject
  {
    var c := Get(target, "colors");
    if Truthy(c) && (TypeOf(c) != "object" || c == Null) then DefaultColorsObject else c
  }

  /**
   * `this.colors`: a truthy non-object `colors` gives the default pair;
   * otherwise each colour is kept when truthy and defaulted on its own.
   */
  function ResolveColors(options: Value): (r: Colors)
    ensures Truthy(r.error) && Truthy(r.success)
    ensures var c := Get(options, "colors");
      Truthy(c) && TypeOf(c) != "object" ==> r == Colors(DefaultErrorColor, DefaultSuccessColor)
    ensures var c := Get(options, "colors");
      !Truthy(c) || TypeOf(c) == "object" ==>
        && (Truthy(Get(c, "error")) ==> r.error == Get(c, "error"))
        && (!Truthy(Get(c, "error")) ==> r.error == DefaultErrorColor)
        && (Truthy(Get(c, "success")) ==> r.success == Get(c, "success"))
        && (!Truthy(Get(c, "success")) ==> r.success == DefaultSuccessColor)
  {
    Colors(Or(Get(ColorsGet(options), "error"), DefaultErrorColor),
           Or(Get(ColorsGet(options), "success"), DefaultSuccessColor))
  }

  // -------------------------------------------------------------- validate

  /**
   * The proxy's answer when `validate` is read off `target`: a truthy answer
   * is always one of the four events, and a valid event comes back as is.
   */
  function ValidateGet(target: Value): (r: Value)
    ensures Truthy(r) ==> r in ValidEvents
    ensures Get(target, "validate") in ValidEvents ==> r == Get(target, "validate")
    ensures !Truthy(Get(target, "validate")) ==> r == Get(target, "validate")
    ensures Truthy(Get(target, "validate")) && Get(target, "validate") !in ValidEvents ==> r == Str("submit")
  {
    var v := Get(target, "validate");
    if Truthy(v) && v !in ValidEvents then Str("submit") else v
  }

  function TriggerNamed(v: Value): (t: Trigger)
    requires v in ValidEvents
    ensures Str(t.Name()) == v
  {
    if v == Str("input") then Input
    else if v == Str("change") then Change
    else if v == Str("blur") then Blur
    else Submit
  }

  /**
   * `this.validateOn`: `validate` when it is one of the four events,
   * `"submit"` for anything else, absent and falsy values included.
   */
  function ResolveValidateOn(options: Value): (t: Trigger)
    ensures Get(options, "validate") in ValidEvents ==> Str(t.Name()) == Get(options, "validate")
    ensures Get(options, "validate") !in ValidEvents ==> t == Submit
  {
    TriggerNamed(Or(ValidateGet(options), Str("submit")))
  }

  // ----------------------------------------------------------------- rules

  /** An array whose every element is a function (`[]` included). */
  predicate IsRuleArray(v: Value) {
    v.Arr? && forall i :: 0 <= i < |v.elems| ==> TypeOf(v.elems[i]) == "function"
  }

  /** One entry after sanitisation: kept if it is a rule array, else `[]`. */
  function SanitizeEntry(v: Value): (r: Value)
    ensures IsRuleArray(r)
    ensures IsRuleArray(v) ==> r == v
    ensures !IsRuleArray(v) ==> r == Arr([])
  {
    if IsRuleArray(v) then v else Arr([])
  }

  function SanitizedMap(m: map<string, Value>): (r: map<string, Value>)
    ensures r.Keys == m.Keys
    ensures forall k :: k in m ==> r[k] == SanitizeEntry(m[k])
  {
    map k | k in m :: SanitizeEntry(m[k])
  }

  function SanitizedSeq(s: seq<Value>): (r: seq<Value>)
    ensures |r| == |s|
    ensures forall i :: 0 <= i < |s| ==> r[i] == SanitizeEntry(s[i])
  {
    seq(|s|, i requires 0 <= i < |s| => SanitizeEntry(s[i]))
  }

  /** Whether the proxy rejects `rules` outright (a truthy non-object). */
  predicate RulesRejected(t: Value) {
    Truthy(t) && TypeOf(t) != "object"
  }

  /**
   * The value `target.rules` holds after the proxy has run its loop: an
   * object or array has every entry sanitised in place; anything else is
   * left as it was.
   */
  function StoredAfterGet(t: Value): (r: Value)
    ensures !t.Obj? && !t.Arr? ==> r == t
    ensures t.Obj? ==> r.Obj? && r.props.Keys == t.props.Keys && RulesWellFormed(r)
    ensures t.Arr? ==> r.Arr? && |r.elems| == |t.elems| && RulesWellFormed(r)
    ensures t.Obj? ==> forall k :: k in t.props && IsRuleArray(t.props[k]) ==> r.props[k] == t.props[k]
    ensures t.Arr? ==> forall i :: 0 <= i < |t.elems| && IsRuleArray(t.elems[i]) ==> r.elems[i] == t.elems[i]
  {
    if RulesRejected(t) then t
    else match t
      case Obj(m) => Obj(SanitizedMap(m))
      case Arr(s) => Arr(SanitizedSeq(s))
      case _ => t
  }

  /**
   * The proxy's answer when `rules` is read, for `target.rules == t`: a
   * truthy answer is always well-formed rules, and a falsy one is `t` itself.
   */
  function RulesGet(t: Value): (r: Value)
    ensures Truthy(r) ==> RulesWellFormed(r)
    ensures !Truthy(r) ==> r == t
    ensures RulesRejected(t) ==> r == Obj(map[])
  {
    if RulesRejected(t) then Obj(map[]) else StoredAfterGet(t)
  }

  /** Every entry of an object or array of rules is a rule array. */
  predicate RulesWellFormed(r: Value) {
    || (r.Obj? && forall k :: k in r.props ==> IsRuleArray(r.props[k]))
    || (r.Arr? && forall i :: 0 <= i < |r.elems| ==> IsRuleArray(r.elems[i]))
  }

  /**
   * `this.rules`: `{}` unless `rules` is an object or array; for those, the
   * same keys, each entry kept if it is an array of functions and `[]`
   * otherwise.
   */
  function ResolveRules(options: Value): (r: Value)
    ensures RulesWellFormed(r)
    ensures var t := Get(options, "rules");
      !t.Obj? && !t.Arr? ==> r == Obj(map[])
    ensures var t := Get(options, "rules");
      t.Obj? ==>
        && r.Obj? && r.props.Keys == t.props.Keys
        && forall k :: k in t.props ==>
             r.props[k] == (if IsRuleArray(t.props[k]) then t.props[k] else Arr([]))
    ensures var t := Get(options, "rules");
      t.Arr? ==>
        && r.Arr? && |r.elems| == |t.elems|
        && forall i :: 0 <= i < |t.elems| ==>
             r.elems[i] == (if IsRuleArray(t.elems[i]) then t.elems[i] else Arr([]))
  {
    Or(RulesGet(Get(options, "rules")), Obj(map[]))
  }

  /** Reading `rules` a second time sees the sanitised value and gives the same answer. */
  lemma RulesReadTwice(t: Value)
    ensures RulesGet(StoredAfterGet(t)) == RulesGet(t)
    ensures StoredAfterGet(StoredAfterGet(t)) == StoredAfterGet(t)
  {
    match t
    case Obj(m) =>
      assert SanitizedMap(SanitizedMap(m)) == SanitizedMap(m);
    case Arr(s) =>
      assert SanitizedSeq(SanitizedSeq(s)) == SanitizedSeq(s);
    case _ =>
  }

  /** The entry loop over an object: every bad entry is overwritten with `[]`. */
  method SanitizeEntries(m: map<string, Value>) returns (r: map<string, Value>)
    ensures r.Keys == m.Keys
    ensures forall k :: k in m ==> r[k] == (if IsRuleArray(m[k]) then m[k] else Arr([]))
  {
    r := m;
    var todo := m.Keys;
    while todo != {}
      invariant todo <= m.Keys && r.Keys == m.Keys
      invariant forall k :: k in m && k in todo ==> r[k] == m[k]
      invariant forall k :: k in m && k !in todo ==> r[k] == SanitizeEntry(m[k])
      decreases |todo|
    {
      var field :| field in todo;
      var ruleArray := m[field];
      if !IsRuleArray(ruleArray) {
        r := r[field := Arr([])];
      }
      todo := todo - {field};
    }
  }

  /** The same loop over an array, whose entries are its indices. */
  method SanitizeElements(s: seq<Value>) returns (r: seq<Value>)
    ensures |r| == |s|
    ensures forall i :: 0 <= i < |s| ==> r[i] == (if IsRuleArray(s[i]) then s[i] else Arr([]))
  {
    r := s;
    var i := 0;
    while i < |s|
      invariant 0 <= i <= |s| && |r| == |s|
      invariant forall j :: 0 <= j < i ==> r[j] == SanitizeEntry(s[j])
      invariant forall j :: i <= j < |s| ==> r[j] == s[j]
    {
      if !IsRuleArray(s[i]) {
        r := r[i := Arr([])];
      }
      i := i + 1;
    }
  }

  /**
   * One read of `rules` through the proxy, given `target.rules == stored`:
   * `got` is what the read returns and `updated` what `target.rules` holds
   * afterwards.
   */
  method GetRules(stored: Value) returns (got: Value, updated: Value)
    ensures updated == StoredAfterGet(stored)
    ensures got == RulesGet(stored)
    ensures !RulesRejected(stored) ==> got == updated
  {
    if Truthy(stored) && TypeOf(stored) != "object" {
      return Obj(map[]), stored;
    }
    match stored {
      case Obj(m) =>
        var m' := SanitizeEntries(m);
        updated := Obj(m');
      case Arr(s) =>
        var s' := SanitizeElements(s);
        updated := Arr(s');
      case _ =>
        updated := stored;
    }
    got := updated;
  }

  // --------------------------------------------------------------- resolve

  /**
   * Values the proxy can wrap: objects, arrays and functions, plus
   * `undefined`, which the `options = {}` default replaces. Anything else
   * makes `new Proxy` throw a TypeError.
   */
  predicate IsProxyTarget(options: Value) {
    options.Undefined? || options.Obj? || options.Arr? || options.Fn?
  }

  function OptionsObject(options: Value): Value {
    if options.Undefined? then Obj(map[]) else options
  }

  /** The whole configuration the constructor builds, or None where it throws. */
  function Resolve(options: Value): (r: Option<Config>)
    ensures r.Some? <==> IsProxyTarget(options)
    ensures r.Some? ==>
      && r.value.errorMessages == Get(options, "errorMessages")
      && RulesWellFormed(r.value.rules)
      && Truthy(r.value.colors.error) && Truthy(r.value.colors.success)
  {
    if !IsProxyTarget(options) then None
    else
      var o := OptionsObject(options);
      Some(Config(ResolveColors(o), ResolveValidateOn(o), Get(o, "errorMessages"), ResolveRules(o)))
  }
}
