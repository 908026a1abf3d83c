/** `AuthController.login` (src/controllers/AuthController.js): validate the body, look the
    user up by e-mail, compare the password with the stored hash, sign a token. The user
    store, the hash comparison and the token signer are given as `Services`; the handler
    is the decision procedure around them. */
module AuthController {
  import opened Wrappers
  import opened JsString
  import opened JsValue
  import opened EmailPattern
  import opened Validations
  import opened Http

  /** The rule table of `login`: `email: 'string|required|email'` and
      `password: 'string|required'`, written as the joins of their tokens. */
  const LoginRules: seq<Rule> := [
    Rule("email", Join(["string", "required", "email"], '|')),
    Rule("password", Join(["string", "required"], '|'))]

  const InvalidCredentials := "Invalid email or password"
  const ServerError := "Server error"

  /** The payload handed to the token signer: `{ id: user._id, email: user.email }`, where
      a property the user does not have stays `undefined` (None). */
  datatype Claims = Claims(id: Option<Value>, email: Option<Value>)

  /** The service calls `login` can make. */
  datatype Call =
    | GetUserByEmail(email: Option<Value>)
    | ValidateHash(password: Option<Value>, hash: Option<Value>)
    | GenerateToken(claims: Claims)

  /** `UserService.getUserByEmail`, `Validations.validateHash` (which compares the password
      with `user.password`) and `generateToken`. */
  datatype Services = Services(
    getUserByEmail: Option<Value> -> Outcome<Value>,
    validateHash: (Option<Value>, Option<Value>) -> Outcome<bool>,
    generateToken: Claims -> Outcome<string>)

  /** `req.body[key]`, None for `undefined`. */
  function Field(body: Request, key: string): Option<Value> {
    if key in body then Some(body[key]) else None
  }

  /** `{ message: 'Server error', error: error.message }` */
  function ServerErrorBody(message: string): Value {
    Obj(map["message" := Str(ServerError), "error" := Str(message)])
  }

  /** The shape of every 500 body of `login`. */
  predicate IsServerErrorBody(v: Value) {
    v.Obj? && v.fields.Keys == {"message", "error"} && v.fields["message"] == Str(ServerError)
    && v.fields["error"].Str?
  }

  /** `{ token }` */
  function TokenBody(token: string): Value {
    Obj(map["token" := Str(token)])
  }

  /** The 500 response for an error with message `m`. */
  function Failed(m: string, calls: seq<Call>): Handled<Call> {
    Handled(Response(500, Some(ServerErrorBody(m))), calls)
  }

  /** The 401 response, shared by the unknown e-mail and the wrong password. */
  function Unauthorized(calls: seq<Call>): Handled<Call> {
    Handled(Response(401, Some(MessageBody(InvalidCredentials))), calls)
  }

  /** `AuthController.login` after `checkFields` has returned `validation` (or thrown). */
  function LoginAfter(validation: Result<seq<string>>, body: Request, svc: Services): (h: Handled<Call>)
    ensures h.response.status in {200, 400, 401, 500}
    ensures h.response.status == 400 <==> validation.Ok? && validation.value != []
    ensures h.response.status == 400 ==> h.calls == [] && h.response.body == Some(ErrorsBody(validation.value))
    ensures h.calls != [] ==> validation == Ok([]) && h.calls[0] == GetUserByEmail(Field(body, "email"))
    ensures h.response.status == 401 ==>
      h.response.body == Some(MessageBody(InvalidCredentials)) && 1 <= |h.calls| <= 2
    ensures h.response.status == 500 ==> h.response.body.Some? && IsServerErrorBody(h.response.body.value)
    ensures validation.Err? ==> h == Failed(validation.error, [])
    ensures validation == Ok([]) && svc.getUserByEmail(Field(body, "email")).Threw? ==>
      h == Failed(svc.getUserByEmail(Field(body, "email")).message, [GetUserByEmail(Field(body, "email"))])
    ensures validation == Ok([]) && svc.getUserByEmail(Field(body, "email")).Returned? ==>
      var user := svc.getUserByEmail(Field(body, "email")).value;
      && (!Truthy(user) ==> h == Unauthorized([GetUserByEmail(Field(body, "email"))]))
      && (Truthy(user) && svc.validateHash(Field(body, "password"), Member(user, "password")).Threw? ==>
            h == Failed(svc.validateHash(Field(body, "password"), Member(user, "password")).message,
                        [GetUserByEmail(Field(body, "email")), ValidateHash(Field(body, "password"), Member(user, "password"))]))
    ensures validation == Ok([]) && svc.getUserByEmail(Field(body, "email")).Returned? ==>
      var user := svc.getUserByEmail(Field(body, "email")).value;
      var compare := [GetUserByEmail(Field(body, "email")), ValidateHash(Field(body, "password"), Member(user, "password"))];
      var claims := Claims(Member(user, "_id"), Member(user, "email"));
      Truthy(user) && svc.validateHash(Field(body, "password"), Member(user, "password")).Returned? ==>
        && (!svc.validateHash(Field(body, "password"), Member(user, "password")).value ==> h == Unauthorized(compare))
        && (svc.validateHash(Field(body, "password"), Member(user, "password")).value ==>
              && (svc.generateToken(claims).Threw? ==>
                    h == Failed(svc.generateToken(claims).message, compare + [GenerateToken(claims)]))
              && (svc.generateToken(claims).Returned? ==>
                    h == Handled(Response(200, Some(TokenBody(svc.generateToken(claims).value))),
                                 compare + [GenerateToken(claims)])))
    ensures h.response.status == 200 ==>
      && svc.getUserByEmail(Field(body, "email")).Returned?
      && var user := svc.getUserByEmail(Field(body, "email")).value;
         var claims := Claims(Member(user, "_id"), Member(user, "email"));
         && Truthy(user)
         && svc.validateHash(Field(body, "password"), Member(user, "password")) == Returned(true)
         && h.calls == [GetUserByEmail(Field(body, "email")),
                        ValidateHash(Field(body, "password"), Member(user, "password")),
                        GenerateToken(claims)]
         && svc.generateToken(claims).Returned?
         && h.response.body == Some(TokenBody(svc.generateToken(claims).value))
  {
    match validation
    case Err(m) => Failed(m, [])
    case Ok(errors) =>
      if errors != [] then Handled(Response(400, Some(ErrorsBody(errors))), [])
      else
        var email := Field(body, "email");
        var password := Field(body, "password");
        var lookup := [GetUserByEmail(email)];
        match svc.getUserByEmail(email)
        case Threw(m) => Failed(m, lookup)
        case Returned(user) =>
          if !Truthy(user) then Unauthorized(lookup)
          else
            var compare := lookup + [ValidateHash(password, Member(user, "password"))];
            match svc.validateHash(password, Member(user, "password"))
            case Threw(m) => Failed(m, compare)
            case Returned(isMatch) =>
              if !isMatch then Unauthorized(compare)
              else
                var claims := Claims(Member(user, "_id"), Member(user, "email"));
                var sign := compare + [GenerateToken(claims)];
                match svc.generateToken(claims)
                case Threw(m) => Failed(m, sign)
                case Returned(token) => Handled(Response(200, Some(TokenBody(token))), sign)
  }

  /** `AuthController.login` */
  function Login(body: Request, svc: Services): (h: Handled<Call>)
    ensures var v := Validate(body, LoginRules);
      && (h.response.status == 400 <==> v.Ok? && v.value != [])
      && (h.calls != [] ==> v == Ok([]))
      && (v.Err? ==> h == Failed(v.error, []))
  {
    LoginAfter(Validate(body, LoginRules), body, svc)
  }

  /** The e-mail rule reads as the label "string" and the directives `string`, `required`
      and `email`. */
  lemma EmailRuleTokens()
    ensures Tokens(LoginRules[0]) == ["string", "required", "email"] && Label(LoginRules[0]) == "string"
  {
    LabelAndDirectives("email", ["string", "required", "email"]);
  }

  /** The password rule reads as the label "string" and the directives `string` and
      `required`. */
  lemma PasswordRuleTokens()
    ensures Tokens(LoginRules[1]) == ["string", "required"] && Label(LoginRules[1]) == "string"
  {
    LabelAndDirectives("password", ["string", "required"]);
  }

  /** 400 is answered exactly when validation does not throw and some field of the table
      breaks one of its directives. */
  lemma LoginBadRequestIff(body: Request, svc: Services)
    ensures Login(body, svc).response.status == 400 <==>
      FirstError(body, LoginRules) == None && exists i :: 0 <= i < |LoginRules| && !Conforms(body, LoginRules[i])
  {
    MessagesEmptyIff(body, LoginRules);
  }

  /** Whenever the user store is consulted, the key is `req.body.email`, and it, like the
      password, has passed validation: the e-mail is a string in the language of the
      pattern and the password a string that is not blank. */
  lemma LoginLooksUpValidatedEmail(body: Request, svc: Services)
    ensures Login(body, svc).calls != [] ==>
      && "email" in body && Login(body, svc).calls[0] == GetUserByEmail(Some(body["email"]))
      && body["email"].Str? && EmailLanguage(body["email"].s)
      && "password" in body && body["password"].Str? && !AllSpace(body["password"].s)
  {
    if Login(body, svc).calls != [] {
      MessagesEmptyIff(body, LoginRules);
      EmailRuleTokens();
      PasswordRuleTokens();
      ConformingValue(body, LoginRules[0]);
      ConformingValue(body, LoginRules[1]);
    }
  }

  /** A body with neither `email` nor `password` is answered 400 with the `required`
      message of both fields, each named by the label "string". */
  lemma LoginWithoutCredentials(body: Request, svc: Services)
    requires "email" !in body && "password" !in body && "hasOwnProperty" !in body
    ensures Login(body, svc) ==
      Handled(Response(400, Some(ErrorsBody(["string is required.", "string is required."]))), [])
  {
    LoginValidation(body);
    RequiredMessageText();
  }

  lemma RequiredMessageText()
    ensures RequiredMessage("string") == "string is required."
  {
    assert |"string is required."| == 19;
    assert forall k :: 0 <= k < 19 ==> RequiredMessage("string")[k] == "string is required."[k];
  }

  /** Validation of a body without credentials: the `required` message of each field. */
  lemma LoginValidation(body: Request)
    requires "email" !in body && "password" !in body && "hasOwnProperty" !in body
    ensures Validate(body, LoginRules) == Ok([RequiredMessage("string"), RequiredMessage("string")])
  {
    LoginValidationByRule(body);
    MissingCredentials(body);
    var m := RequiredMessage("string");
    assert [m] + [m] == [m, m];
  }

  /** Neither rule throws, so validation reports the messages of the two rules in order. */
  lemma LoginValidationByRule(body: Request)
    requires "email" !in body && "password" !in body && "hasOwnProperty" !in body
    ensures Validate(body, LoginRules) == Ok(RuleMessages(body, LoginRules[0]) + RuleMessages(body, LoginRules[1]))
  {
    EmailRuleTokens();
    PasswordRuleTokens();
    RequiredFieldMissing(body, LoginRules[0]);
    RequiredFieldMissing(body, LoginRules[1]);
    TwoRules(body, LoginRules[0], LoginRules[1]);
  }

  /** Each missing credential gets the `required` message under the label "string". */
  lemma MissingCredentials(body: Request)
    requires "email" !in body && "password" !in body && "hasOwnProperty" !in body
    ensures RuleMessages(body, LoginRules[0]) == [RequiredMessage("string")]
    ensures RuleMessages(body, LoginRules[1]) == [RequiredMessage("string")]
  {
    MissingCredential(body, 0);
    MissingCredential(body, 1);
  }

  /** A missing credential gets the `required` message under the label "string". */
  lemma MissingCredential(body: Request, k: nat)
    requires k < 2 && "email" !in body && "password" !in body && "hasOwnProperty" !in body
    ensures RuleMessages(body, LoginRules[k]) == [RequiredMessage("string")]
  {
    if k == 0 {
      EmailRuleTokens();
    } else {
      PasswordRuleTokens();
    }
    RequiredFieldMissing(body, LoginRules[k]);
  }

  /** In particular the empty body. */
  lemma LoginEmptyBody(svc: Services)
    ensures Login(map[], svc) ==
      Handled(Response(400, Some(ErrorsBody(["string is required.", "string is required."]))), [])
  {
    LoginWithoutCredentials(map[], svc);
  }

  /** A body with an own `hasOwnProperty` key makes validation throw: 500, no call. */
  lemma LoginShadowedHasOwnProperty(body: Request, svc: Services)
    requires "hasOwnProperty" in body
    ensures Login(body, svc) == Failed(HasOwnPropertyNotAFunction, [])
  {
    ShadowedHasOwnPropertyThrows(body, LoginRules);
  }

  /** After validation, `login` reads the body only through `email` and `password`. */
  lemma LoginAfterReadsCredentials(validation: Result<seq<string>>, b1: Request, b2: Request, svc: Services)
    requires Field(b1, "email") == Field(b2, "email") && Field(b1, "password") == Field(b2, "password")
    ensures LoginAfter(validation, b1, svc) == LoginAfter(validation, b2, svc)
  {
  }

  /** Keys other than `email`, `password` and `hasOwnProperty` do not change the answer. */
  lemma LoginIgnoresOtherKeys(b1: Request, b2: Request, svc: Services)
    requires Agree(b1, b2, "email") && Agree(b1, b2, "password")
    requires "hasOwnProperty" in b1 <==> "hasOwnProperty" in b2
    ensures Login(b1, svc) == Login(b2, svc)
  {
    ValidateIgnoresOtherKeys(b1, b2, LoginRules);
    assert Field(b1, "email") == Field(b2, "email") && Field(b1, "password") == Field(b2, "password");
    LoginAfterReadsCredentials(Validate(b1, LoginRules), b1, b2, svc);
  }
}
