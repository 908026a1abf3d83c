# Request validation and handlers of api-node-mongodb, in Dafny

This project models the request-handling core of a small Express/MongoDB user API.

- **The validator `Validations.checkFields`.** It walks a rule table in declaration order. Each entry maps a field to a text such as `"Email|string|required|email"`. The first token is the label used in the messages. Every token, the label included, is tested as a directive. For each entry the validator pushes one message per violated directive.
- **The handler `AuthController.login`.** It validates the body, looks the user up by e-mail, compares the password hash, signs a token, and maps every outcome to an HTTP status and a JSON body.
- **The five handlers of `UserController`:** `create`, `getAll`, `getById`, `update` and `delete`.

Modules:

- `JsString`: the parts of JavaScript's `String` the validator uses: white space as `trim` and `\s` see it, `trim`, `split` and `join`.
- `JsNumber`: the StringNumericLiteral grammar of section 7.1.4.1.1 of ECMA-262, which decides `isNaN` on text, and the text of an integral number.
- `JsValue`: the values a parsed body holds. It also models `toString()`, `ToString`, `isNaN` and truthiness on those values, and the TypeErrors they can raise.
- `EmailPattern`: the e-mail regular expression in two forms.
  - A checkable predicate, `MatchesEmail`.
  - The language read directly off the pattern, `EmailLanguage`.
  - The lemma `MatchesEmailIff` proves that the two agree.
- `Validations`: `checkFields`.
  - It is an imperative method with the source's loop, `CheckFields`.
  - That method is proved equal to a pure specification, `Validate`.
  - The pure side has two levels. The first repeats the pushes of the loop (`RulePush`, `Messages`, `FirstError`).
  - The second says what each message means: `Violated(request, rule, d)` holds when a directive `d` is broken.
  - The lemmas connect the two levels.
- `Http`, `AuthController`, `UserController`: the handlers as pure functions.
  - Each returns the response and the list of service calls made on the way to it.
  - The services (user store, password hash check, token signer) are function-valued parameters. Each returns a value or throws.

`checkFields` can throw, and the model includes those paths. If the body has its own `hasOwnProperty` key, that key hides the method the validator calls, so `request.hasOwnProperty(field)` throws. A value whose `toString` cannot be called, such as an object with its own `toString` key, also throws. The handlers answer these errors with 500.

Two consequences of the code:

- **The label is always the first token, even when it is a directive keyword.**
  - `login`'s rules `'string|required|email'` and `'string|required'` therefore use the label `string` for both fields.
  - An empty body gets two `"string is required."` messages.
  - See `LoginEmptyBody`.
  - The table's `string` token is still tested as a directive.
- **`checkFields` is not total.** It can throw, as described above, and the handlers answer with 500.

## Model

| member | source | states |
|---|---|---|
| Validations.CheckFields | src/helpers/Validations.js:11-47 | the loop returns exactly `Validate`: the first TypeError any entry throws, otherwise every entry's messages in table order |
| Validations.CheckRule | src/helpers/Validations.js:15-43 | one loop iteration throws exactly `RuleError` and otherwise pushes that entry's messages onto the accumulator |
| Validations.CheckRequired | src/helpers/Validations.js:16-23 | the `required` test throws only when `required` is listed and the guard throws; otherwise it pushes `"<label> is required."` exactly when the field is absent, null or trims to `''` |
| Validations.CheckFormat | src/helpers/Validations.js:26-43 | the guard of the format tests throws exactly `RuleError`; otherwise, for a present, non-null, non-blank value, it pushes the string, number and e-mail messages in that order |
| Validations.LoopStep | src/helpers/Validations.js:14-44 | one iteration of the loop: a throw makes the whole call throw that error; otherwise the prefix still throws nowhere and the accumulator holds its messages |
| Validations.PrefixStep | src/helpers/Validations.js:14-44 | one more table entry appends that entry's pushes and keeps an earlier error |
| Validations.FirstErrorPersists | src/helpers/Validations.js:14-44 | once an entry throws, the whole call throws that error (later entries are not reached) |
| Validations.RuleMessagesByDirective | src/helpers/Validations.js:18-43 | one entry pushes exactly the messages of its violated directives, in the order required, string, numeric, email |
| Validations.RequiredReported | src/helpers/Validations.js:21-23 | the `required` message is pushed iff `required` is listed and the field is blank (absent, null, or white space only) |
| Validations.FormatReported | src/helpers/Validations.js:26-43 | the format tests push exactly the messages of the violated format directives, and nothing for a blank field |
| Validations.StringReported | src/helpers/Validations.js:30-32 | the string message is pushed iff `string` is listed and the given value is not a string |
| Validations.NumberReported | src/helpers/Validations.js:35-37 | the number message is pushed iff `numeric` is listed and the given value is NaN |
| Validations.EmailReported | src/helpers/Validations.js:40-42 | the e-mail message is pushed iff `email` is listed and the value's text is outside the language of the pattern |
| Validations.PresentIsNotBlank | src/helpers/Validations.js:21-26 | the guard of the format tests is exactly the negation of the `required` condition, so the required message and the format messages exclude each other |
| Validations.FormatTestsSplit | src/helpers/Validations.js:29-42 | the three format tests contribute independently, one optional message each, in source order |
| Validations.RuleMessagesShape | src/helpers/Validations.js:18-43 | at most three messages per entry; a blank required field gets only its required message; a blank optional field gets none |
| Validations.RulePushAppends | src/helpers/Validations.js:22-42 | `push` only appends: earlier messages stay in front, unchanged |
| Validations.PushedAppends | src/helpers/Validations.js:22 | one conditional push after `front + back` keeps `front` in front |
| Validations.RequiredPushAppends | src/helpers/Validations.js:21-23 | the `required` test only appends to the accumulator |
| Validations.FormatPushAppends | src/helpers/Validations.js:26-43 | the format tests only append to the accumulator |
| Validations.FormatTestsAppend | src/helpers/Validations.js:29-42 | the three format pushes only append to the accumulator |
| Validations.MessagesAppend | src/helpers/Validations.js:14-46 | the messages of a concatenated table are the messages of its parts, in table order |
| Validations.MessagesBound | src/helpers/Validations.js:14-46 | at most 3 messages per table entry |
| Validations.RuleMessagesEmptyIff | src/helpers/Validations.js:18-43 | an entry pushes nothing iff none of its directives is violated |
| Validations.MessagesEmptyIff | src/helpers/Validations.js:12-46 | the result is empty iff every entry conforms (both directions) |
| Validations.AllConformSplit | src/helpers/Validations.js:14 | every entry conforms iff all but the last do and the last does |
| Validations.RuleIgnoresOtherKeys | src/helpers/Validations.js:16-43 | an entry reads only its own field and whether `hasOwnProperty` is an own key |
| Validations.UndeclaredKeysIgnored | src/helpers/Validations.js:14-44 | bodies that agree on the declared fields and on `hasOwnProperty` give the same error and the same messages |
| Validations.ValidateIgnoresOtherKeys | src/helpers/Validations.js:11-47 | undeclared keys never change what `checkFields` returns or throws |
| Validations.ShadowedHasOwnPropertyThrows | src/helpers/Validations.js:21 | an own `hasOwnProperty` key makes every non-empty table throw `request.hasOwnProperty is not a function` |
| Validations.NothingRequiredNothingGiven | src/helpers/Validations.js:18-26 | a table without `required`, given none of its fields, returns `[]`; this holds for a body with no own `hasOwnProperty` key (with one, validation throws and the answer is 500) |
| Validations.AbsentFieldsMessages | src/helpers/Validations.js:18-26 | a body with none of the fields gets the required message of each required entry, in table order, and nothing else; this holds for a body with no own `hasOwnProperty` key (with one, validation throws and the answer is 500) |
| Validations.LabelAndDirectives | src/helpers/Validations.js:16-17 | a table text `t0|t1|...` splits back into its tokens, and label `t0` when `t0` is non-empty |
| Validations.LabelFallsBack | src/helpers/Validations.js:17 | an empty first token (`''` or `'|...'`) makes the field name the label |
| Validations.LabelCountsAsDirective | src/helpers/Validations.js:16-18 | a one-word rule text is both the label and the only directive tested by `includes` |
| Validations.SingleRule | src/helpers/Validations.js:14-46 | a one-entry table returns that entry's messages or throws its error |
| Validations.RequiredAsLabel | src/helpers/Validations.js:17-22 | the rule text `required` both requires the field and labels it "required"; this holds for a body with no own `hasOwnProperty` key (with one, validation throws and the answer is 500) |
| Validations.ConformingValue | src/helpers/Validations.js:21-42 | a passing entry with `required` and `string` guarantees a non-blank string value, and one in the e-mail language when `email` is listed |
| Validations.ConformingFormat | src/helpers/Validations.js:26-42 | a passing entry with a given, non-blank value guarantees each format it lists |
| Validations.RequiredFieldMissing | src/helpers/Validations.js:21-22 | a missing required field does not throw and gets only its required message; this holds for a body with no own `hasOwnProperty` key (with one, validation throws and the answer is 500) |
| Validations.OptionalFieldMissing | src/helpers/Validations.js:21-26 | a missing optional field does not throw and gets no message; this holds for a body with no own `hasOwnProperty` key (with one, validation throws and the answer is 500) |
| Validations.ExtendQuietPrefix | src/helpers/Validations.js:14-44 | a prefix that does not throw, extended by an entry that does not throw, still does not throw and appends that entry's messages |
| Validations.TwoRules | src/helpers/Validations.js:14-46 | a two-entry table that throws nowhere returns the first entry's messages followed by the second's |
| JsString.TrimEmptyIff | src/helpers/Validations.js:21 | `s.trim() === ''` iff every character of `s` is white space |
| JsString.TrimStartDrops | src/helpers/Validations.js:21 | `trim` drops exactly the leading run of white space |
| JsString.TrimEndDrops | src/helpers/Validations.js:21 | `trim` drops exactly the trailing run of white space |
| JsString.TrimUnchanged | src/helpers/Validations.js:21 | text without white space at either end is its own trim |
| JsString.JoinSplit | src/helpers/Validations.js:16 | joining the pieces of `split('|')` gives the text back |
| JsString.SplitJoin | src/helpers/Validations.js:16 | splitting a join of `|`-free tokens gives the tokens back |
| JsString.FirstPieceIsPrefix | src/helpers/Validations.js:17 | `rulesArray[0]` is the longest `|`-free prefix of the rule text |
| JsString.IndexOfIs | src/helpers/Validations.js:40 | `IndexOf` is the position of the first occurrence |
| JsNumber.IntTextIsNumeric | src/helpers/Validations.js:35 | the text of an integer is a numeric literal, so `isNaN` is false on it |
| JsNumber.IntTextHasNoAt | src/helpers/Validations.js:40 | the text of an integer never contains `@` |
| JsNumber.NatTextValue | src/helpers/Validations.js:21 | the digits of the text of a natural number spell that number |
| JsNumber.IntTextValue | src/helpers/Validations.js:21 | the text of an integer spells it: its digits, after a `-` when it is negative |
| JsValue.NumberIsNoEmail | src/helpers/Validations.js:40 | a number never passes the e-mail test |
| JsNumber.NotNumericByFirstChar | src/helpers/Validations.js:35 | text with no white space at either end whose first character is not a digit, `.`, `+`, `-` or the `I` of `Infinity` is NaN |
| JsValue.IsNaNCases | src/helpers/Validations.js:35 | only strings, arrays and objects can be NaN; a plain object always is; a string is NaN iff it is not a numeric literal |
| JsValue.NumberTextNotNaN | src/helpers/Validations.js:35 | a number is not NaN, and neither is its text |
| JsValue.ObjectTextIsNaN | src/helpers/Validations.js:35 | `Number("[object Object]")` is NaN |
| EmailPattern.MatchesEmailIff | src/helpers/Validations.js:40 | the executable check accepts exactly the language of `/^[^\s@]+@[^\s@]+\.[^\s@]+$/` |
| EmailPattern.MatchedIsInLanguage | src/helpers/Validations.js:40 | every text the check accepts is in the language |
| EmailPattern.LanguageIsMatched | src/helpers/Validations.js:40 | every text in the language is accepted |
| EmailPattern.MatchedAt | src/helpers/Validations.js:40 | one `@`, a later `.`, plain characters elsewhere, and the check accepts |
| EmailPattern.PlainOutside | src/helpers/Validations.js:40 | in a match, every character except the `@` is plain |
| AuthController.LoginAfter | src/controllers/AuthController.js:25-51 | after `checkFields` has returned or thrown: statuses 200/400/401/500 only. 400 iff validation returned messages; no call then. The lookup key is `req.body.email`. An unknown user and a wrong password both give the same 401. 200 only after a matching password, carrying `{ token }` signed over `{ id: user._id, email: user.email }`. A throw from validation, the lookup, the hash compare or the signer gives 500 with the calls made so far |
| AuthController.Login | src/controllers/AuthController.js:12-52 | `login` as a whole: `LoginAfter` applied to what `checkFields` gives for the login table. 400 iff validation returns messages; a service is called only when it returns `[]`; a validation throw gives 500 with no call. Its further properties are `LoginBadRequestIff`, `LoginLooksUpValidatedEmail`, `LoginWithoutCredentials`, `LoginShadowedHasOwnProperty` and `LoginIgnoresOtherKeys` |
| AuthController.EmailRuleTokens | src/controllers/AuthController.js:18 | the e-mail rule has the tokens string, required, email and the label "string" |
| AuthController.PasswordRuleTokens | src/controllers/AuthController.js:19 | the password rule has the tokens string, required and the label "string" |
| AuthController.LoginBadRequestIff | src/controllers/AuthController.js:23-28 | 400 iff validation does not throw and some field breaks a directive |
| AuthController.LoginLooksUpValidatedEmail | src/controllers/AuthController.js:14-31 | whenever the store is consulted, the key is `body.email`, a string in the e-mail language, and the password is a non-blank string |
| AuthController.LoginWithoutCredentials | src/controllers/AuthController.js:17-28 | a body without e-mail and password: 400 with `["string is required.", "string is required."]`, no call; this holds for a body with no own `hasOwnProperty` key (with one, validation throws and the answer is 500) |
| AuthController.RequiredMessageText | src/helpers/Validations.js:22 | the required message for the label "string" is `"string is required."` |
| AuthController.LoginValidation | src/controllers/AuthController.js:17-23 | validation of a body without credentials returns the required message twice; this holds for a body with no own `hasOwnProperty` key (with one, validation throws and the answer is 500) |
| AuthController.LoginValidationByRule | src/controllers/AuthController.js:17-23 | neither login rule throws on such a body, so the result is rule by rule; this holds for a body with no own `hasOwnProperty` key (with one, validation throws and the answer is 500) |
| AuthController.MissingCredentials | src/controllers/AuthController.js:18-19 | a body without credentials gets, for each login rule, only the required message under the label "string"; this holds for a body with no own `hasOwnProperty` key (with one, validation throws and the answer is 500) |
| AuthController.MissingCredential | src/controllers/AuthController.js:18-19 | a missing credential gets only the required message under the label "string"; this holds for a body with no own `hasOwnProperty` key (with one, validation throws and the answer is 500) |
| AuthController.LoginEmptyBody | src/controllers/AuthController.js:17-28 | the empty body gets 400 with `["string is required.", "string is required."]` |
| AuthController.LoginShadowedHasOwnProperty | src/controllers/AuthController.js:49-51 | an own `hasOwnProperty` key gives 500 with the TypeError's message and no service call |
| AuthController.LoginAfterReadsCredentials | src/controllers/AuthController.js:14 | after validation, only `email` and `password` of the body matter |
| AuthController.LoginIgnoresOtherKeys | src/controllers/AuthController.js:12-52 | keys other than `email`, `password` and `hasOwnProperty` never change the answer |
| UserController.CreateAfter | src/controllers/UserController.js:24-34 | after `checkFields` has returned or thrown: statuses 201/400/500 only. 400 iff validation returned messages; no call then. `createUser(body)` is called iff validation returned `[]`. 201 iff it then returns, with its value as the body. 500 carries `{ message }` of the error |
| UserController.Create | src/controllers/UserController.js:11-35 | `create` as a whole: `CreateAfter` applied to what `checkFields` gives for the create table. 400 iff validation returns messages; `createUser` is called iff it returns `[]`; a validation throw gives 500 with no call. Its further properties are `CreateBadRequestIff`, `CreateStoresValidatedUser`, `CreateWithoutFields` and `CreateShadowedHasOwnProperty` |
| UserController.GetAll | src/controllers/UserController.js:43-50 | one `getAllUsers` call; 200 with the list unchanged iff it returns; otherwise 500 with its message |
| UserController.GetById | src/controllers/UserController.js:58-69 | one `getUserById(id)` call: 200 with the user iff truthy, 404 `User not found` iff falsy, 500 on an error |
| UserController.UpdateAfter | src/controllers/UserController.js:90-103 | after `checkFields` has returned or thrown: statuses 200/400/404/500 only. 400 iff validation returned messages; no call then. `updateUser(id, body)` is called iff validation returned `[]`. 200 iff the result is truthy, 404 iff falsy. 500 carries the error's message |
| UserController.Update | src/controllers/UserController.js:77-104 | `update` as a whole: `UpdateAfter` applied to what `checkFields` gives for the update table. 400 iff validation returns messages; `updateUser` is called iff it returns `[]`; a validation throw gives 500 with no call. Its further properties are `UpdateBadRequestIff`, `UpdateStoresValidatedFields`, `UpdateWithoutFields` and `UpdateShadowedHasOwnProperty` |
| UserController.Delete | src/controllers/UserController.js:112-123 | one `deleteUser(id)` call: 204 with no body iff the result is truthy, 404 iff falsy, 500 on an error |
| UserController.CreateRuleTokens | src/controllers/UserController.js:14-19 | the create rules have labels Name, Email, Password, Age; the first three are required strings, the e-mail also `email`, the age `numeric` |
| UserController.UpdateRuleTokens | src/controllers/UserController.js:80-85 | the update rules have the same labels and formats, without `required` |
| UserController.UpdateRulesRequireNothing | src/controllers/UserController.js:80-85 | no update rule contains `required` |
| UserController.CreateBadRequestIff | src/controllers/UserController.js:22-27 | 400 iff validation does not throw and some field breaks a directive |
| UserController.CreateStoresValidatedUser | src/controllers/UserController.js:14-30 | `createUser` only ever receives a body with non-blank string name, e-mail and password, the e-mail in the pattern language, and an age that is not NaN when it is given and not blank |
| UserController.CreatePassesConforming | src/controllers/UserController.js:22-27 | a body that passes the create table breaks none of its directives |
| UserController.CreatedFieldConforms | src/controllers/UserController.js:14-19 | what one passing create rule guarantees of its field |
| UserController.CreateWithoutFields | src/controllers/UserController.js:14-27 | a body with none of the fields: 400 with the three required messages in table order, nothing stored; this holds for a body with no own `hasOwnProperty` key (with one, validation throws and the answer is 500) |
| UserController.CreateEmptyBody | src/controllers/UserController.js:14-27 | the empty body gets the same 400 |
| UserController.CreateMessagesText | src/helpers/Validations.js:22 | the required messages of Name, Email and Password as texts |
| UserController.CreateValidation | src/controllers/UserController.js:14-22 | validation of a body without fields returns the three required messages; this holds for a body with no own `hasOwnProperty` key (with one, validation throws and the answer is 500) |
| UserController.CreateFirstThree | src/controllers/UserController.js:15-17 | the first three create rules, missing, give their required messages in order; this holds for a body with no own `hasOwnProperty` key (with one, validation throws and the answer is 500) |
| UserController.CreateFirstTwo | src/controllers/UserController.js:15-16 | the first two create rules, missing, give their required messages in order; this holds for a body with no own `hasOwnProperty` key (with one, validation throws and the answer is 500) |
| UserController.CreateFirstOne | src/controllers/UserController.js:15 | the name rule, missing, gives its required message; this holds for a body with no own `hasOwnProperty` key (with one, validation throws and the answer is 500) |
| UserController.CreateFieldMissing | src/controllers/UserController.js:15-18 | each missing create field: a required message for the first three, nothing for the age; this holds for a body with no own `hasOwnProperty` key (with one, validation throws and the answer is 500) |
| UserController.CreateShadowedHasOwnProperty | src/controllers/UserController.js:32-34 | an own `hasOwnProperty` key gives 500 and nothing is stored |
| UserController.UpdateWithoutFields | src/controllers/UserController.js:80-95 | a body with none of the fields passes validation and reaches `updateUser`; this holds for a body with no own `hasOwnProperty` key (with one, validation throws and the answer is 500) |
| UserController.UpdateEmptyBody | src/controllers/UserController.js:80-95 | the empty body reaches `updateUser` |
| UserController.UpdateBadRequestIff | src/controllers/UserController.js:88-93 | 400 iff validation does not throw and some field breaks a directive |
| UserController.UpdateStoresValidatedFields | src/controllers/UserController.js:80-95 | `updateUser` only receives bodies whose given, non-blank fields have their formats |
| UserController.UpdatedFieldConforms | src/controllers/UserController.js:80-85 | what one passing update rule guarantees of its given field |
| UserController.UpdatePassesConforming | src/controllers/UserController.js:88-93 | a body that passes the update table breaks none of its directives |
| UserController.UpdateShadowedHasOwnProperty | src/controllers/UserController.js:101-103 | an own `hasOwnProperty` key gives 500 and nothing is updated |
| UserController.NotFoundIsShared | src/controllers/UserController.js:58-123 | `getById`, `update` and `delete` answer a missing user with the same 404 |

## Left out

- Numbers are integral. Floating-point values and `NaN` in a body are not modelled. The text of integers at or above 10^21, which JavaScript writes in exponent form, is not modelled either. `isNaN` on text is modelled concretely by the StringNumericLiteral grammar.
- A body is a map of own properties. The rule tables are sequences in `Object.entries` order. Evaluating a table literal cannot produce duplicate fields, so none are modelled. The tables are written as joins of their tokens, so their texts are the source's texts.
- Prototype properties other than an own `hasOwnProperty` or `toString` key are not modelled. Neither are getters or bodies that are not plain objects.
- `UserService`, `bcrypt.compare` (behind `validateHash`) and `generateToken` are parameters that return a value or throw. Their persistence, hashing and signing are not modelled. src/services/UserService.js, src/services/jwtService.js and src/models/User.js are not part of this model.
- The errors a service throws are modelled by their `message` text only.
- Promises and `await` are modelled as immediate outcomes. Concurrency between requests is out of scope.
- Express itself is not part of this model: routing, `express.json()` parsing, the `res` object and `req.params`. The last is modelled as the string `id`. src/routes/api/userRoute.js, src/database/connection.js and src/index.js are not part of this model.
- JavaScript's re-ordering of integer-like keys in `Object.entries` is not modelled.
- Strings are sequences of Unicode scalar values. The lone surrogates that `JSON.parse` accepts (such as `"\ud800"`) cannot be expressed. No message depends on them.
- `Num(n)` holds an exact integer. `JSON.parse` rounds integers above 2^53 to the nearest double, so their text in JavaScript can differ from `IntText(n)`. No message echoes a value's text.
- `Validations.validateHash` (src/helpers/Validations.js:50-52) only forwards to bcrypt. It appears as the `validateHash` service.
