# form-validation, modelled in Dafny

This project models the core of a small browser form-validation library, `src/index.js`. A validator is attached to one form. It resolves an untrusted options object into a configuration:

- a colour pair;
- a validation trigger, one of `submit`, `input`, `change` and `blur`;
- per-field custom rule lists;
- message overrides.

When its trigger fires, the validator decides each field's error message. It does this from the browser's ten constraint flags for the field (the `ValidityState` attributes of section 4.10.20.3 of the WHATWG HTML Living Standard) and from the custom rules. It then marks the field valid or invalid and shows or removes one error span. The submit handler validates every field and submits the form only when all of them pass.

Files, one module each:

- `js_value.dfy` (`JsValue`): JavaScript values as a datatype (`undefined`, `null`, booleans, integer numbers, strings, objects, arrays, functions by identity). It also holds `typeof`, truthiness, `||`, and reading an own property.
- `options.dfy` (`Options`): what the option-sanitising proxy returns for `colors`, `validate` and `rules`, and the constructor's `||` defaults. The in-place rule sanitisation is written as loops.
- `engine.dfy` (`Engine`): the flag scan and the rule loop, as methods proved against reference functions. Those functions are built on `LastTrue` and `LastNonEmpty`, the index of the last true flag and of the last non-empty rule result. The module also holds the final message and its properties.
- `form.dfy` (`Form`): the `Field` and `FormValidator` classes, the listener policy, `showError`/`clearError`, `validateInput`, the full-form pass and attachment.
- `scenarios.dfy` (`Scenarios`): the situations from `test/index.test.js` and `test/dom.test.js`, stated against the model. `RequiredEmailScenario` chains the two DOM tests, submit and then `input`, into one sequence on one form.

How the code chooses a message, which the model follows:

- Custom rules are all called, and the **last** non-empty result wins: the `forEach` over the rules has no early exit (src/index.js:153-156).
- Among the ten flags, the **last** true one in the fixed order supplies the message: every true flag overwrites it (src/index.js:146-150).
- The override for a flag is used only when it is truthy. A falsy override, such as `""`, falls back to the browser's `validationMessage` (src/index.js:148).
- If a true flag's message is `""`, it still replaces any earlier flag's message. The custom rules then run (src/index.js:152).

## Model

| member | source | states |
|---|---|---|
| `Options.ColorsGet` | src/index.js:3-13 | A truthy answer is always an object. A truthy non-object `colors` gives the default pair `{ error: "maroon", success: "#5cb85c" }`; any other value comes back unchanged. |
| `Options.ValidateGet` | src/index.js:15-27 | A truthy answer is always one of the four events. A valid event, or a falsy value, comes back unchanged. A truthy value outside the four events gives `"submit"`. |
| `Options.StoredAfterGet` | src/index.js:34-42 | After a read, an object or array held in `target.rules` keeps its keys or length, every entry is a rule array, and every entry that already was one is kept. Any other value stays as it was. |
| `Options.RulesGet` | src/index.js:29-45 | A truthy answer is always well-formed rules. A falsy answer is the stored value itself. A truthy non-object gives `{}`. |
| `Options.ResolveColors` | src/index.js:67-70 | A truthy non-object `colors` (a string, number, `true` or a function) resolves to `maroon`/`#5cb85c`. Otherwise each colour is kept when truthy and falls back to its own default on its own. Both resolved colours are always truthy. |
| `Options.ResolveValidateOn` | src/index.js:15-26 | The resolved trigger is always one of the four events. It equals `validate` when that is one of them. Any other value, absent, falsy or unknown, gives `submit`. |
| `Options.ResolveRules` | src/index.js:29-43 | The resolved rules are well formed: every entry is an array of functions. A non-object or falsy `rules` gives `{}`. An object keeps exactly its keys, and an array keeps its length. Each entry that is not an array of functions becomes `[]`. Every other entry is kept unchanged, order included. So `["x"]` becomes `[[]]`. |
| `Options.SanitizeEntries` | src/index.js:34-42 | The entry loop over an object keeps the key set. It overwrites exactly the entries that are not arrays of functions with `[]`. |
| `Options.SanitizeElements` | src/index.js:34-42 | The same loop over an array keeps the length. It overwrites exactly the bad elements with `[]`. |
| `Options.GetRules` | src/index.js:29-45 | One proxy read of `rules` returns the sanitised value, or `{}` for a truthy non-object. It leaves `target.rules` holding the in-place sanitised container. Apart from the rejected case, what it returns is what it stores. |
| `Options.RulesReadTwice` | src/index.js:29-45 | Reading `rules` again through the proxy, after the in-place write, gives the same answer. A second sanitisation changes nothing. |
| `Options.Resolve` | src/index.js:62-73 | Construction succeeds exactly when the options can be wrapped by the proxy: an object, array or function, or `undefined`, which the `{}` default replaces. It then yields well-formed rules, truthy colours and `errorMessages` passed through unchanged. |
| `Engine.LastTrue` | src/index.js:146-150 | Gives the index of a true flag with no true flag after it, or None exactly when no flag is true. This is the last-wins rule of the flag scan. |
| `Engine.LastTrueSnoc` | src/index.js:146-150 | One more flag takes over exactly when it is true; otherwise the winner is unchanged. |
| `Engine.LastNonEmpty` | src/index.js:153-156 | Gives the index of a non-empty result with only empty results after it, or None exactly when every result is empty. This is the last-wins rule of the rule loop. |
| `Engine.LastNonEmptySnoc` | src/index.js:153-156 | One more rule result takes over exactly when it is non-empty; otherwise the winner is unchanged. |
| `Engine.MessageFor` | src/index.js:148 | A flag's message is its override when that is truthy, else the native `validationMessage`. |
| `Engine.NativeMessage` | src/index.js:144-150 | With no true flag the flag stage gives `""`. A truthy result is the message of some true flag. |
| `Engine.ScanNative` | src/index.js:144-150 | The loop over the ten flags yields the message of the last true flag, or `""` when no flag is true. |
| `Engine.RunRules` | src/index.js:153-156 | The rule loop calls every rule in order. It yields the last non-empty result, or the incoming message when every rule returns `""`. |
| `Engine.CustomMessage` | src/index.js:152-157 | When every rule returns `""`, the message is the incoming one. Otherwise it is either the incoming message or some rule's non-empty result. |
| `Engine.FinalMessage` | src/index.js:144-157 | A truthy flag message, or a field without a rule list, keeps the flag message. Otherwise the rules decide, starting from `""`. |
| `Engine.LastTrueFlagWins` | src/index.js:146-150 | When flag j is true and no later flag is, the message is flag j's, whatever the earlier flags say. |
| `Engine.NoFlagNoMessage` | src/index.js:144-150 | With no true flag, the flag stage gives `""`. |
| `Engine.FalsyNativeIsEmpty` | src/index.js:144-152 | A falsy flag-stage message is exactly `""`, so the rules always start from the empty message. |
| `Engine.RulesSkippedAfterNativeError` | src/index.js:152 | When the flag stage produced a message, the final message is that message, and it does not depend on what any rule would return. |
| `Engine.LastRuleErrorWins` | src/index.js:152-157 | With no flag error, the field's last rule that returns a non-empty result supplies the final message. Earlier failures are overwritten. |
| `Engine.NoErrorAnywhere` | src/index.js:144-157 | With no true flag and no rule reporting an error, or no rule list for the field, the final message is `""`. |
| `Engine.FalsyFinalIsEmpty` | src/index.js:158-165 | The final message is falsy exactly when it is `""`. So the verdict "valid" means "empty message". |
| `Form.Policy` | src/index.js:109-120 | Only `<input>` fields react to events. Under `submit`, exactly an `input` event clears the field's error. Under another trigger, exactly the event named by that trigger validates the field. |
| `Form.FormValidator.constructor` | src/index.js:62-73 | The validator starts with `isValid` true. Its colours, trigger, messages and rules are those that `Resolve` gives for the options. |
| `Form.FormValidator.ShowError` | src/index.js:167-182 | Adds `input-invalid` and removes `input-valid`. It writes the message into the first error span, creating one only when there is none. So a field with at most one span ends with exactly one span, holding the message. |
| `Form.FormValidator.ClearError` | src/index.js:183-190 | Removes `input-invalid` and the first error span, leaving `input-valid` as it was. A field with at most one span ends with none. |
| `Form.FormValidator.ValidateInput` | src/index.js:134-166 | Returns true exactly when the final message is empty. On false, the field has `input-invalid`, lacks `input-valid`, and has one span holding the message. On true, it has `input-valid`, lacks `input-invalid`, and has no span. |
| `Form.FormValidator.ValidateForm` | src/index.js:121-133 | Every field is validated and presented by its own message, even after a failure. `isValid` is the AND of all verdicts, which is true for no fields. The form is submitted exactly when `isValid` holds. |
| `Form.FormValidator.OnFieldEvent` | src/index.js:111-119 | An event on a field follows `Policy` and keeps the validator's invariant. An ignored event changes nothing. A clear-only event removes the error without validating. A validating event gives that field's verdict. Nothing but that field changes, and `isValid` is untouched. |
| `Form.Attach` | src/index.js:205-208 | Attaching fails exactly when the options are `null` or a primitive other than `undefined`, since the proxy throws for those. Otherwise it returns a fresh validator over the given fields, configured by `Resolve`, that starts valid. |
| `Form.ValidateTwice` | src/index.js:134-190 | Validating a field twice while the browser reports the same state gives the same verdict. The field ends presented by its message, with at most one error span. |
| `Scenarios.ValidOptionsKept` | test/index.test.js:15-24 | Well-formed colours and the `submit` trigger are kept as given. |
| `Scenarios.InvalidOptionsFallBack` | test/index.test.js:26-37 | A string `colors`, an unknown trigger and `rules: ["invalidRule"]` resolve to the default colours, `submit` and `[[]]`. |
| `Scenarios.EmailOptionsResolve` | test/dom.test.js:19-26 | The options of the DOM test resolve to red/green, `submit`, the two overrides and no rules. |
| `Scenarios.EmptyEmailMessage` | test/dom.test.js:19-37 | An empty required field whose `valueMissing` override is "Email is required." gets exactly that message. |
| `Scenarios.RequiredEmailScenario` | test/dom.test.js:29-44 | The two DOM tests chained into one sequence on one form (the tests themselves rebuild the form before each). Submitting the empty e-mail field is blocked. The field is marked `input-invalid` and has one span holding "Email is required.". A later `input` event removes the mark and the span. |

## Left out

- Style injection (`setStyles`, with its once-per-document guard) and the `novalidate` attribute set on the form by `init` are not modelled. The first only builds CSS text from the colours; the second turns off the browser's own constraint validation on submission, so the `submit` event, and `ValidateForm`, runs even when a field is invalid.
- Wrapper creation, re-parenting and the `aria-describedby` link are not modelled. Each field carries its own error spans, standing for the `.error-message` spans inside its wrapper.
- `addEventListener`, `bind`, `preventDefault` and `form.submit()` are not modelled. The listener is an explicit call, `OnFieldEvent` or `ValidateForm`, and submission is the boolean `ValidateForm` returns.
- Native constraint checking (`input.validity`, `input.validationMessage`) is not modelled. The browser computes both, together with the field's value. Each validation takes them as a `Snapshot` argument, one per field for `ValidateForm`, rather than reading them from the field.
- The `Proxy` mechanism itself is not modelled. Each read is the getter function for that property (`ColorsGet`, `ValidateGet`, `GetRules`). The constructor reads `colors` twice, once per colour; that read does not change the target, so both reads agree (each read of a malformed `colors` warns, so the constructor warns twice). Only a read of `rules` writes to the target. `RulesReadTwice` shows that repeated reads of `rules` agree.
- The text of the `console.warn` diagnostics is not modelled, nor whether one was emitted.
- The `instanceof HTMLFormElement` check and the "no inputs" warning are not modelled. They are host type checks.
- `Options.GetRules`: the write to `target.rules` is modelled on values, as the new value it returns. The fact that the caller's own options object is mutated, and seen mutated by anyone holding it, is not captured.
- `Options.SanitizeEntries`: the order in which `Object.entries` visits keys is not modelled. It affects only the order of warnings.
- `JsValue.Get` reads only own data properties: object keys and canonical array indices. Inherited or built-in properties are not modelled. For example, a field named `constructor` reads the inherited `Object` (or, for an array, `Array`) constructor, which has no `forEach`, so the real code throws. When `rules` is a non-empty array, a field named `length` reads a number and throws the same way; for an object `rules` it reads `undefined` and nothing is thrown. The model gives no rule list in all of these cases.
- Numbers are integers. NaN and fractional values are not modelled, and neither are sparse arrays.
- A rule's result depends only on its identity and the field's value, through one pure, total `run` fixed at attachment. Stateful or side-effecting rules are not modelled. `Form.ValidateTwice` giving the same verdict twice relies on this.
- A rule is modelled as returning a string, with `""` meaning "no error". A rule returning another truthy value is not modelled, and neither is a rule that throws.
- `Form.FormValidator.ShowError`: the span holds the assigned value itself. The conversion to text done by `textContent` is not modelled.
