/** `Validations.checkFields` (src/helpers/Validations.js): walks a rule table of
    field -> "Label|directive|directive" entries in declaration order and collects one
    message per violated directive. */
module Validations {
  import opened Wrappers
  import opened JsString
  import opened JsValue
  import opened EmailPattern

  /** A parsed request body: its own properties. */
  type Request = map<string, Value>

  /** One entry of a rule table, as `Object.entries` yields it. */
  datatype Rule = Rule(field: string, spec: string)

  /** An own property named `hasOwnProperty` hides the inherited method, and
      `request.hasOwnProperty(field)` then throws this TypeError (V8's wording). */
  const HasOwnPropertyNotAFunction := "request.hasOwnProperty is not a function"

  /** `rules.split('|')` */
  function Tokens(rule: Rule): seq<string> {
    Split(rule.spec, '|')
  }

  /** `rulesArray[0] || field` */
  function Label(rule: Rule): string {
    var first := Tokens(rule)[0];
    if first == "" then rule.field else first
  }

  function RequiredMessage(fieldLabel: string): string { fieldLabel + " is required." }
  function StringMessage(fieldLabel: string): string { "The " + fieldLabel + " must be a string." }
  function NumberMessage(fieldLabel: string): string { "The " + fieldLabel + " must be a number." }
  function EmailMessage(fieldLabel: string): string { "The " + fieldLabel + " must be a valid email address." }

  /** The condition tested together with `required`: the field is absent, null, or its text
      trimmed is empty. */
  predicate MissingOrEmpty(request: Request, field: string) {
    field !in request || request[field] == Null || Trim(Text(request[field])) == ""
  }

  /** The condition guarding the type and format directives, tested separately. */
  predicate PresentNonEmpty(request: Request, field: string) {
    field in request && request[field] != Null && Trim(Text(request[field])) != ""
  }

  /** The TypeError the iteration for `rule` throws, if any: the shadowed
      `hasOwnProperty`, or a `toString()` that cannot be called on the present value. */
  function RuleError(request: Request, rule: Rule): Option<string> {
    if "hasOwnProperty" in request then Some(HasOwnPropertyNotAFunction)
    else if rule.field in request && request[rule.field] != Null && ToStringCall(request[rule.field]).Err?
    then Some(ToStringCall(request[rule.field]).error)
    else None
  }

  /** `if (condition) missingFields.push(message)` */
  function Pushed(condition: bool, message: string, acc: seq<string>): seq<string> {
    if condition then acc + [message] else acc
  }

  /** `missingFields` after the `required` test of `rule`. */
  function RequiredPush(request: Request, rule: Rule, acc: seq<string>): seq<string> {
    Pushed("required" in Tokens(rule) && MissingOrEmpty(request, rule.field), RequiredMessage(Label(rule)), acc)
  }

  /** The `string`, `numeric` and `email` tests, in that order, on a value that is or is
      not a string, is or is not NaN, and does or does not match the e-mail pattern. */
  function FormatTests(tokens: seq<string>, fieldLabel: string, isString: bool, isNaN: bool, isEmail: bool,
                       acc: seq<string>): seq<string>
  {
    var acc1 := Pushed("string" in tokens && !isString, StringMessage(fieldLabel), acc);
    var acc2 := Pushed("numeric" in tokens && isNaN, NumberMessage(fieldLabel), acc1);
    Pushed("email" in tokens && !isEmail, EmailMessage(fieldLabel), acc2)
  }

  /** `missingFields` after the format tests of `rule`, which look at a present, non-empty
      value only. */
  function FormatPush(request: Request, rule: Rule, acc: seq<string>): seq<string> {
    if PresentNonEmpty(request, rule.field) then
      var value := request[rule.field];
      FormatTests(Tokens(rule), Label(rule), value.Str?, IsNaN(value), MatchesEmail(Text(value)), acc)
    else acc
  }

  /** `missingFields` after the iteration for `rule`, when it does not throw. */
  function RulePush(request: Request, rule: Rule, acc: seq<string>): seq<string> {
    FormatPush(request, rule, RequiredPush(request, rule, acc))
  }

  /** The messages the iteration for `rule` pushes when it does not throw. */
  function RuleMessages(request: Request, rule: Rule): seq<string> {
    RulePush(request, rule, [])
  }

  /** Every message of a table that throws nowhere, rule by rule. */
  function Messages(request: Request, rules: seq<Rule>): seq<string>
    decreases |rules|
  {
    if rules == [] then []
    else
      RulePush(request, rules[|rules| - 1], Messages(request, rules[..|rules| - 1]))
  }

  /** The error of the first rule whose iteration throws. */
  function FirstError(request: Request, rules: seq<Rule>): Option<string>
    decreases |rules|
  {
    if rules == [] then None
    else match FirstError(request, rules[..|rules| - 1])
      case Some(e) => Some(e)
      case None => RuleError(request, rules[|rules| - 1])
  }

  /** What `checkFields(request, fields)` returns, or the error it throws. */
  function Validate(request: Request, rules: seq<Rule>): Result<seq<string>> {
    match FirstError(request, rules)
    case Some(e) => Err(e)
    case None => Ok(Messages(request, rules))
  }

  /** `Validations.checkFields`: one pass over the rule table, pushing messages onto
      `missingFields`; a TypeError raised on the way ends the call. */
  method CheckFields(request: Request, fields: seq<Rule>) returns (result: Result<seq<string>>)
    ensures result == Validate(request, fields)
  {
    var missingFields: seq<string> := [];
    var i := 0;
    while i < |fields|
      invariant 0 <= i <= |fields|
      invariant FirstError(request, fields[..i]) == None
      invariant missingFields == Messages(request, fields[..i])
    {
      var pushed, thrown := CheckRule(request, fields[i], missingFields);
      LoopStep(request, fields, i, missingFields, pushed, thrown);
      if thrown.Some? {
        return Err(thrown.value);
      }
      missingFields, i := pushed, i + 1;
    }
    assert fields[..i] == fields;
    return Ok(missingFields);
  }

  /** One iteration of the loop of `CheckFields`: a throw ends the whole call with that
      error, otherwise the prefix grows by one entry and still throws nowhere. */
  lemma LoopStep(request: Request, fields: seq<Rule>, i: nat, missingFields: seq<string>,
                 pushed: seq<string>, thrown: Option<string>)
    requires i < |fields| && FirstError(request, fields[..i]) == None
    requires missingFields == Messages(request, fields[..i])
    requires thrown == RuleError(request, fields[i])
    requires thrown == None ==> pushed == RulePush(request, fields[i], missingFields)
    ensures thrown.Some? ==> Validate(request, fields) == Err(thrown.value)
    ensures thrown == None ==>
      FirstError(request, fields[..i + 1]) == None && pushed == Messages(request, fields[..i + 1])
  {
    PrefixStep(request, fields, i);
    if thrown.Some? {
      FirstErrorPersists(request, fields, i + 1);
    }
  }

  /** The body of the loop for one entry of the table. */
  method CheckRule(request: Request, rule: Rule, missingFields: seq<string>)
    returns (pushed: seq<string>, thrown: Option<string>)
    ensures thrown == RuleError(request, rule)
    ensures thrown == None ==> pushed == RulePush(request, rule, missingFields)
  {
    var rulesArray := Split(rule.spec, '|');
    var fieldLabel := if rulesArray[0] != "" then rulesArray[0] else rule.field;
    pushed, thrown := CheckRequired(request, rule, rulesArray, fieldLabel, missingFields);
    if thrown.Some? {
      return;
    }
    pushed, thrown := CheckFormat(request, rule, rulesArray, fieldLabel, pushed);
  }

  /** The body of the loop up to the `required` test: pushes the required message when
      the tokens include `required` and the field is absent, null or blank. Evaluating
      that condition can throw. */
  method CheckRequired(request: Request, rule: Rule, rulesArray: seq<string>, fieldLabel: string,
                       missingFields: seq<string>)
    returns (pushed: seq<string>, thrown: Option<string>)
    requires rulesArray == Tokens(rule) && fieldLabel == Label(rule)
    ensures thrown == if "required" in rulesArray then RuleError(request, rule) else None
    ensures thrown == None ==> pushed == RequiredPush(request, rule, missingFields)
  {
    pushed, thrown := missingFields, None;
    var field := rule.field;
    var isRequired := "required" in rulesArray;
    if isRequired {
      if "hasOwnProperty" in request {
        return pushed, Some(HasOwnPropertyNotAFunction);
      }
      var missing := true;
      if field in request && request[field] != Null {
        var text := ToStringCall(request[field]);
        if text.Err? {
          return pushed, Some(text.error);
        }
        missing := Trim(text.value) == "";
      }
      if missing {
        pushed := pushed + [RequiredMessage(fieldLabel)];
      }
    }
  }

  /** The rest of the loop body: for a present, non-null value whose text is not blank,
      the `string`, `numeric` and `email` tests in that order. Evaluating the guard can
      throw. */
  method CheckFormat(request: Request, rule: Rule, rulesArray: seq<string>, fieldLabel: string,
                     missingFields: seq<string>)
    returns (pushed: seq<string>, thrown: Option<string>)
    requires rulesArray == Tokens(rule) && fieldLabel == Label(rule)
    ensures thrown == RuleError(request, rule)
    ensures thrown == None ==> pushed == FormatPush(request, rule, missingFields)
  {
    pushed, thrown := missingFields, None;
    var field := rule.field;
    if "hasOwnProperty" in request {
      return pushed, Some(HasOwnPropertyNotAFunction);
    }
    if field in request && request[field] != Null {
      var text := ToStringCall(request[field]);
      if text.Err? {
        return pushed, Some(text.error);
      }
      if Trim(text.value) != "" {
        var value := request[field];
        if "string" in rulesArray && !value.Str? {
          pushed := pushed + [StringMessage(fieldLabel)];
        }
        if "numeric" in rulesArray && IsNaN(value) {
          pushed := pushed + [NumberMessage(fieldLabel)];
        }
        if "email" in rulesArray && !MatchesEmail(text.value) {
          pushed := pushed + [EmailMessage(fieldLabel)];
        }
      }
    }
  }

  /** Extending a prefix of the table by one rule. */
  lemma PrefixStep(request: Request, rules: seq<Rule>, i: nat)
    requires i < |rules|
    ensures Messages(request, rules[..i + 1]) == RulePush(request, rules[i], Messages(request, rules[..i]))
    ensures FirstError(request, rules[..i + 1]) ==
      match FirstError(request, rules[..i]) case Some(e) => Some(e) case None => RuleError(request, rules[i])
  {
    assert rules[..i + 1][..i] == rules[..i];
  }

  /** Once a prefix of the table throws, the whole table throws the same error. */
  lemma {:induction false} FirstErrorPersists(request: Request, rules: seq<Rule>, k: nat)
    requires k <= |rules| && FirstError(request, rules[..k]).Some?
    ensures FirstError(request, rules) == FirstError(request, rules[..k])
    decreases |rules| - k
  {
    if k < |rules| {
      assert rules[..k + 1][..k] == rules[..k];
      FirstErrorPersists(request, rules, k + 1);
    } else {
      assert rules[..k] == rules;
    }
  }

  // ----- What the messages mean, directive by directive -----

  /** The four directives a rule can name after its label. */
  datatype Directive = Required | IsString | Numeric | Email

  function Keyword(d: Directive): string {
    match d
    case Required => "required"
    case IsString => "string"
    case Numeric => "numeric"
    case Email => "email"
  }

  function Message(d: Directive, fieldLabel: string): string {
    match d
    case Required => RequiredMessage(fieldLabel)
    case IsString => StringMessage(fieldLabel)
    case Numeric => NumberMessage(fieldLabel)
    case Email => EmailMessage(fieldLabel)
  }

  /** The field counts as not supplied: no own property, `null`, or text made only of
      white space. */
  ghost predicate Blank(request: Request, field: string) {
    field !in request || request[field] == Null || AllSpace(Text(request[field]))
  }

  /** The rule names directive `d` and the value breaks it. The format directives only
      judge a supplied value; the e-mail directive is judged by the language of the
      pattern. */
  ghost predicate Violated(request: Request, rule: Rule, d: Directive) {
    && Keyword(d) in Tokens(rule)
    && match d
       case Required => Blank(request, rule.field)
       case IsString => !Blank(request, rule.field) && !request[rule.field].Str?
       case Numeric => !Blank(request, rule.field) && IsNaN(request[rule.field])
       case Email => !Blank(request, rule.field) && !EmailLanguage(Text(request[rule.field]))
  }

  /** The message for `d`, when `d` is violated. */
  ghost function Reported(request: Request, rule: Rule, d: Directive): seq<string> {
    if Violated(request, rule, d) then [Message(d, Label(rule))] else []
  }

  /** One rule pushes exactly the messages of its violated directives, in the order
      required, string, numeric, email. */
  lemma RuleMessagesByDirective(request: Request, rule: Rule)
    ensures RuleMessages(request, rule) ==
      Reported(request, rule, Required) + Reported(request, rule, IsString)
      + Reported(request, rule, Numeric) + Reported(request, rule, Email)
  {
    var r, s, n, e := Reported(request, rule, Required), Reported(request, rule, IsString),
      Reported(request, rule, Numeric), Reported(request, rule, Email);
    RequiredReported(request, rule);
    FormatReported(request, rule);
    FormatPushAppends(request, rule, RequiredPush(request, rule, []));
    assert r + (s + n + e) == r + s + n + e;
  }

  /** The `required` test pushes its message exactly when `required` is violated. */
  lemma RequiredReported(request: Request, rule: Rule)
    ensures RequiredPush(request, rule, []) == Reported(request, rule, Required)
  {
    if rule.field in request && request[rule.field] != Null {
      TrimEmptyIff(Text(request[rule.field]));
    }
  }

  /** The format tests push the messages of the violated format directives, in order. */
  lemma FormatReported(request: Request, rule: Rule)
    ensures FormatPush(request, rule, []) ==
      Reported(request, rule, IsString) + Reported(request, rule, Numeric) + Reported(request, rule, Email)
  {
    if PresentNonEmpty(request, rule.field) {
      var value := request[rule.field];
      FormatTestsSplit(Tokens(rule), Label(rule), value.Str?, IsNaN(value), MatchesEmail(Text(value)));
      StringReported(request, rule);
      NumberReported(request, rule);
      EmailReported(request, rule);
    } else if rule.field in request && request[rule.field] != Null {
      TrimEmptyIff(Text(request[rule.field]));
    }
  }

  lemma StringReported(request: Request, rule: Rule)
    requires PresentNonEmpty(request, rule.field)
    ensures Pushed("string" in Tokens(rule) && !request[rule.field].Str?, StringMessage(Label(rule)), [])
      == Reported(request, rule, IsString)
  {
    PresentIsNotBlank(request, rule.field);
  }

  lemma NumberReported(request: Request, rule: Rule)
    requires PresentNonEmpty(request, rule.field)
    ensures Pushed("numeric" in Tokens(rule) && IsNaN(request[rule.field]), NumberMessage(Label(rule)), [])
      == Reported(request, rule, Numeric)
  {
    PresentIsNotBlank(request, rule.field);
  }

  /** The e-mail test pushes its message exactly when the text is outside the language
      of the pattern. */
  lemma EmailReported(request: Request, rule: Rule)
    requires PresentNonEmpty(request, rule.field)
    ensures Pushed("email" in Tokens(rule) && !MatchesEmail(Text(request[rule.field])), EmailMessage(Label(rule)), [])
      == Reported(request, rule, Email)
  {
    PresentIsNotBlank(request, rule.field);
    MatchesEmailIff(Text(request[rule.field]));
  }

  /** The guard of the format tests holds exactly for a field that is not blank. */
  lemma PresentIsNotBlank(request: Request, field: string)
    ensures PresentNonEmpty(request, field) <==> !Blank(request, field)
  {
    if field in request && request[field] != Null {
      TrimEmptyIff(Text(request[field]));
    }
  }

  /** The format tests on their own, one list per test. */
  lemma FormatTestsSplit(tokens: seq<string>, fieldLabel: string, isString: bool, isNaN: bool, isEmail: bool)
    ensures FormatTests(tokens, fieldLabel, isString, isNaN, isEmail, []) ==
      Pushed("string" in tokens && !isString, StringMessage(fieldLabel), [])
      + Pushed("numeric" in tokens && isNaN, NumberMessage(fieldLabel), [])
      + Pushed("email" in tokens && !isEmail, EmailMessage(fieldLabel), [])
  {
    var s := Pushed("string" in tokens && !isString, StringMessage(fieldLabel), []);
    PushedAppends("numeric" in tokens && isNaN, NumberMessage(fieldLabel), s, []);
    var n := Pushed("numeric" in tokens && isNaN, NumberMessage(fieldLabel), []);
    assert s + [] == s;
    PushedAppends("email" in tokens && !isEmail, EmailMessage(fieldLabel), s + n, []);
    assert (s + n) + [] == s + n;
  }

  /** A missing value is reported once and for nothing else; one rule pushes at most
      three messages; a blank field that is not required pushes none. */
  lemma RuleMessagesShape(request: Request, rule: Rule)
    ensures |RuleMessages(request, rule)| <= 3
    ensures Violated(request, rule, Required) ==> RuleMessages(request, rule) == [RequiredMessage(Label(rule))]
    ensures Blank(request, rule.field) && "required" !in Tokens(rule) ==> RuleMessages(request, rule) == []
  {
    RuleMessagesByDirective(request, rule);
  }

  /** `push` only appends: what was collected before stays in front, unchanged. */
  lemma RulePushAppends(request: Request, rule: Rule, acc: seq<string>)
    ensures RulePush(request, rule, acc) == acc + RuleMessages(request, rule)
  {
    var required := RequiredPush(request, rule, []);
    var format := FormatPush(request, rule, []);
    RequiredPushAppends(request, rule, acc);
    FormatPushAppends(request, rule, RequiredPush(request, rule, acc));
    FormatPushAppends(request, rule, required);
    assert (acc + required) + format == acc + (required + format);
  }

  /** A push after `front + back` is a push after `back`, with `front` kept in front. */
  lemma PushedAppends(condition: bool, message: string, front: seq<string>, back: seq<string>)
    ensures Pushed(condition, message, front + back) == front + Pushed(condition, message, back)
  {
    if condition {
      assert (front + back) + [message] == front + (back + [message]);
    }
  }

  lemma RequiredPushAppends(request: Request, rule: Rule, acc: seq<string>)
    ensures RequiredPush(request, rule, acc) == acc + RequiredPush(request, rule, [])
  {
    PushedAppends("required" in Tokens(rule) && MissingOrEmpty(request, rule.field), RequiredMessage(Label(rule)), acc, []);
    assert acc + [] == acc;
  }

  lemma FormatPushAppends(request: Request, rule: Rule, acc: seq<string>)
    ensures FormatPush(request, rule, acc) == acc + FormatPush(request, rule, [])
  {
    if PresentNonEmpty(request, rule.field) {
      var value := request[rule.field];
      FormatTestsAppend(Tokens(rule), Label(rule), value.Str?, IsNaN(value), MatchesEmail(Text(value)), acc);
    }
  }

  lemma FormatTestsAppend(tokens: seq<string>, fieldLabel: string, isString: bool, isNaN: bool, isEmail: bool,
                          acc: seq<string>)
    ensures FormatTests(tokens, fieldLabel, isString, isNaN, isEmail, acc)
      == acc + FormatTests(tokens, fieldLabel, isString, isNaN, isEmail, [])
  {
    var noString := "string" in tokens && !isString;
    var s := Pushed(noString, StringMessage(fieldLabel), []);
    PushedAppends(noString, StringMessage(fieldLabel), acc, []);
    assert acc + [] == acc;
    PushedAppends("numeric" in tokens && isNaN, NumberMessage(fieldLabel), acc, s);
    var n := Pushed("numeric" in tokens && isNaN, NumberMessage(fieldLabel), s);
    PushedAppends("email" in tokens && !isEmail, EmailMessage(fieldLabel), acc, n);
  }

  /** The messages of a table are those of its rules, in table order. */
  lemma {:induction false} MessagesAppend(request: Request, front: seq<Rule>, back: seq<Rule>)
    ensures Messages(request, front + back) == Messages(request, front) + Messages(request, back)
    decreases |back|
  {
    if back == [] {
      assert front + back == front;
    } else {
      var butLast := back[..|back| - 1];
      assert (front + back)[..|front + back| - 1] == front + butLast;
      MessagesAppend(request, front, butLast);
      RulePushAppends(request, back[|back| - 1], Messages(request, front + butLast));
      RulePushAppends(request, back[|back| - 1], Messages(request, butLast));
    }
  }

  /** At most three messages per rule. */
  lemma {:induction false} MessagesBound(request: Request, rules: seq<Rule>)
    ensures |Messages(request, rules)| <= 3 * |rules|
    decreases |rules|
  {
    if rules != [] {
      var butLast := rules[..|rules| - 1];
      MessagesBound(request, butLast);
      RulePushAppends(request, rules[|rules| - 1], Messages(request, butLast));
      RuleMessagesShape(request, rules[|rules| - 1]);
    }
  }

  /** The rule has no violated directive. */
  ghost predicate Conforms(request: Request, rule: Rule) {
    && !Violated(request, rule, Required) && !Violated(request, rule, IsString)
    && !Violated(request, rule, Numeric) && !Violated(request, rule, Email)
  }

  /** One rule pushes nothing exactly when it has no violated directive. */
  lemma RuleMessagesEmptyIff(request: Request, rule: Rule)
    ensures RuleMessages(request, rule) == [] <==> Conforms(request, rule)
  {
    RuleMessagesByDirective(request, rule);
  }

  /** No message at all exactly when no rule has a violated directive. */
  lemma {:induction false} MessagesEmptyIff(request: Request, rules: seq<Rule>)
    ensures Messages(request, rules) == [] <==> forall i :: 0 <= i < |rules| ==> Conforms(request, rules[i])
    decreases |rules|
  {
    if rules != [] {
      var butLast := rules[..|rules| - 1];
      var last := rules[|rules| - 1];
      MessagesEmptyIff(request, butLast);
      RulePushAppends(request, last, Messages(request, butLast));
      RuleMessagesEmptyIff(request, last);
      var m, r := Messages(request, butLast), RuleMessages(request, last);
      assert m + r == [] <==> m == [] && r == [] by {
        assert |m + r| == |m| + |r|;
      }
      AllConformSplit(request, rules, butLast);
    }
  }

  /** Every rule of a non-empty table conforms exactly when every rule but the last does
      and the last does. */
  lemma AllConformSplit(request: Request, rules: seq<Rule>, butLast: seq<Rule>)
    requires rules != [] && butLast == rules[..|rules| - 1]
    ensures (forall i :: 0 <= i < |rules| ==> Conforms(request, rules[i])) <==>
      (forall i :: 0 <= i < |butLast| ==> Conforms(request, butLast[i])) && Conforms(request, rules[|rules| - 1])
  {
    assert forall i :: 0 <= i < |butLast| ==> butLast[i] == rules[i];
  }

  /** Two bodies that agree on `field`. */
  predicate Agree(r1: Request, r2: Request, field: string) {
    (field in r1 <==> field in r2) && (field in r1 ==> r1[field] == r2[field])
  }

  /** One rule looks at its own field and at the `hasOwnProperty` key only. */
  lemma RuleIgnoresOtherKeys(r1: Request, r2: Request, rule: Rule, acc: seq<string>)
    requires Agree(r1, r2, rule.field)
    requires "hasOwnProperty" in r1 <==> "hasOwnProperty" in r2
    ensures RuleError(r1, rule) == RuleError(r2, rule)
    ensures RulePush(r1, rule, acc) == RulePush(r2, rule, acc)
  {
    if rule.field in r1 {
      assert r1[rule.field] == r2[rule.field];
    }
    assert MissingOrEmpty(r1, rule.field) == MissingOrEmpty(r2, rule.field);
    assert PresentNonEmpty(r1, rule.field) == PresentNonEmpty(r2, rule.field);
    var pushed := RequiredPush(r1, rule, acc);
    assert pushed == RequiredPush(r2, rule, acc);
    assert FormatPush(r1, rule, pushed) == FormatPush(r2, rule, pushed);
  }

  /** Only the declared fields and the presence of an own `hasOwnProperty` key decide the
      outcome; every other key of the body is ignored. */
  lemma {:induction false} UndeclaredKeysIgnored(r1: Request, r2: Request, rules: seq<Rule>)
    requires forall i :: 0 <= i < |rules| ==> Agree(r1, r2, rules[i].field)
    requires "hasOwnProperty" in r1 <==> "hasOwnProperty" in r2
    ensures FirstError(r1, rules) == FirstError(r2, rules)
    ensures Messages(r1, rules) == Messages(r2, rules)
    decreases |rules|
  {
    if rules != [] {
      var butLast := rules[..|rules| - 1];
      assert forall i :: 0 <= i < |butLast| ==> butLast[i] == rules[i];
      UndeclaredKeysIgnored(r1, r2, butLast);
      RuleIgnoresOtherKeys(r1, r2, rules[|rules| - 1], Messages(r2, butLast));
    }
  }

  /** The same, for what `checkFields` returns or throws. */
  lemma ValidateIgnoresOtherKeys(r1: Request, r2: Request, rules: seq<Rule>)
    requires forall i :: 0 <= i < |rules| ==> Agree(r1, r2, rules[i].field)
    requires "hasOwnProperty" in r1 <==> "hasOwnProperty" in r2
    ensures Validate(r1, rules) == Validate(r2, rules)
  {
    UndeclaredKeysIgnored(r1, r2, rules);
  }

  /** An own `hasOwnProperty` key in the body hides the method the validator calls, so any
      non-empty table throws on its first entry. */
  lemma {:induction false} ShadowedHasOwnPropertyThrows(request: Request, rules: seq<Rule>)
    requires "hasOwnProperty" in request && rules != []
    ensures Validate(request, rules) == Err(HasOwnPropertyNotAFunction)
    decreases |rules|
  {
    if |rules| > 1 {
      ShadowedHasOwnPropertyThrows(request, rules[..|rules| - 1]);
    } else {
      assert rules[..0] == [];
      assert FirstError(request, rules[..0]) == None;
      assert RuleError(request, rules[0]) == Some(HasOwnPropertyNotAFunction);
    }
  }

  /** A table without `required` passes a body that supplies none of its fields. */
  lemma {:induction false} NothingRequiredNothingGiven(request: Request, rules: seq<Rule>)
    requires "hasOwnProperty" !in request
    requires forall i :: 0 <= i < |rules| ==> "required" !in Tokens(rules[i]) && rules[i].field !in request
    ensures Validate(request, rules) == Ok([])
    decreases |rules|
  {
    if rules != [] {
      NothingRequiredNothingGiven(request, rules[..|rules| - 1]);
    }
  }

  /** What a body that has none of the table's fields is told: the `required` message of
      every rule with that directive, in table order. */
  function AbsentMessages(rules: seq<Rule>): seq<string>
    decreases |rules|
  {
    if rules == [] then []
    else
      var last := rules[|rules| - 1];
      AbsentMessages(rules[..|rules| - 1]) + (if "required" in Tokens(last) then [RequiredMessage(Label(last))] else [])
  }

  /** A body without any of the declared fields passes every directive but `required`. */
  lemma {:induction false} AbsentFieldsMessages(request: Request, rules: seq<Rule>)
    requires "hasOwnProperty" !in request
    requires forall i :: 0 <= i < |rules| ==> rules[i].field !in request
    ensures Validate(request, rules) == Ok(AbsentMessages(rules))
    decreases |rules|
  {
    if rules != [] {
      var butLast := rules[..|rules| - 1];
      var last := rules[|rules| - 1];
      assert forall i :: 0 <= i < |butLast| ==> butLast[i] == rules[i];
      AbsentFieldsMessages(request, butLast);
      assert RuleError(request, last) == None;
      RulePushAppends(request, last, Messages(request, butLast));
      assert RuleMessages(request, last) == if "required" in Tokens(last) then [RequiredMessage(Label(last))] else [];
    }
  }

  /** A rule written `Label|directive|...` has those tokens and, the first one being
      non-empty, that label. */
  lemma LabelAndDirectives(field: string, tokens: seq<string>)
    requires |tokens| >= 1 && tokens[0] != ""
    requires forall i :: 0 <= i < |tokens| ==> '|' !in tokens[i]
    ensures Tokens(Rule(field, Join(tokens, '|'))) == tokens
    ensures Label(Rule(field, Join(tokens, '|'))) == tokens[0]
  {
    SplitJoin(tokens, '|');
  }

  /** An empty leading piece (`|required`, or no text at all) falls back to the field name. */
  lemma LabelFallsBack(field: string, spec: string)
    requires spec == "" || spec[0] == '|'
    ensures Label(Rule(field, spec)) == field
  {
    FirstPieceIsPrefix(spec, '|');
  }

  /** The label is one of the tokens `includes` looks at: a rule whose whole text is one
      word has that word as its label and as its only directive. */
  lemma LabelCountsAsDirective(rule: Rule)
    requires rule.spec != "" && '|' !in rule.spec
    ensures Tokens(rule) == [rule.spec] && Label(rule) == rule.spec
  {
    LabelAndDirectives(rule.field, [rule.spec]);
  }

  /** A table of one entry returns that entry's messages or throws its error. */
  lemma SingleRule(request: Request, rule: Rule)
    ensures Validate(request, [rule]) ==
      match RuleError(request, rule) case Some(e) => Err(e) case None => Ok(RuleMessages(request, rule))
  {
    assert [rule][..0] == [];
    assert Messages(request, [rule][..0]) == [] && FirstError(request, [rule][..0]) == None;
    assert Messages(request, [rule]) == RulePush(request, rule, []);
    assert FirstError(request, [rule]) == RuleError(request, rule);
  }

  /** So a rule written `required` makes its field required and names it "required". */
  lemma RequiredAsLabel(request: Request, field: string)
    requires "hasOwnProperty" !in request && field !in request
    ensures Validate(request, [Rule(field, "required")]) == Ok([RequiredMessage("required")])
  {
    var rule := Rule(field, "required");
    LabelCountsAsDirective(rule);
    SingleRule(request, rule);
    assert RequiredPush(request, rule, []) == [RequiredMessage("required")];
  }

  /** What a rule with `required` and `string` guarantees of a value it passes. */
  lemma ConformingValue(request: Request, rule: Rule)
    requires Conforms(request, rule) && "required" in Tokens(rule) && "string" in Tokens(rule)
    ensures rule.field in request && request[rule.field].Str? && !AllSpace(request[rule.field].s)
    ensures "email" in Tokens(rule) ==> EmailLanguage(request[rule.field].s)
  {
    assert !Violated(request, rule, Required) && !Violated(request, rule, IsString);
    assert !Violated(request, rule, Email);
  }

  /** What a rule guarantees of a value it passes that is given and not blank. */
  lemma ConformingFormat(request: Request, rule: Rule)
    requires Conforms(request, rule) && !Blank(request, rule.field)
    ensures "string" in Tokens(rule) ==> request[rule.field].Str?
    ensures "numeric" in Tokens(rule) ==> !IsNaN(request[rule.field])
    ensures "email" in Tokens(rule) ==> EmailLanguage(Text(request[rule.field]))
  {
    assert !Violated(request, rule, IsString) && !Violated(request, rule, Numeric);
    assert !Violated(request, rule, Email);
  }

  /** A required field the body does not have gets the required message and nothing else. */
  lemma RequiredFieldMissing(request: Request, rule: Rule)
    requires "hasOwnProperty" !in request && rule.field !in request && "required" in Tokens(rule)
    ensures RuleError(request, rule) == None
    ensures RuleMessages(request, rule) == [RequiredMessage(Label(rule))]
  {
  }

  /** An optional field the body does not have is passed silently. */
  lemma OptionalFieldMissing(request: Request, rule: Rule)
    requires "hasOwnProperty" !in request && rule.field !in request && "required" !in Tokens(rule)
    ensures RuleError(request, rule) == None
    ensures RuleMessages(request, rule) == []
  {
  }

  /** A prefix of the table that throws nowhere, extended by a rule that does not throw. */
  lemma ExtendQuietPrefix(request: Request, rules: seq<Rule>, i: nat)
    requires i < |rules| && FirstError(request, rules[..i]) == None && RuleError(request, rules[i]) == None
    ensures FirstError(request, rules[..i + 1]) == None
    ensures Messages(request, rules[..i + 1]) == Messages(request, rules[..i]) + RuleMessages(request, rules[i])
  {
    PrefixStep(request, rules, i);
    RulePushAppends(request, rules[i], Messages(request, rules[..i]));
  }

  /** A table of two entries, rule by rule. */
  lemma TwoRules(request: Request, first: Rule, second: Rule)
    requires RuleError(request, first) == None && RuleError(request, second) == None
    ensures Validate(request, [first, second]) == Ok(RuleMessages(request, first) + RuleMessages(request, second))
  {
    var rules := [first, second];
    assert rules[..1] == [first];
    SingleRule(request, first);
    RulePushAppends(request, second, RuleMessages(request, first));
  }
}
