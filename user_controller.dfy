/** The five handlers of `UserController` (src/controllers/UserController.js). Each one
    awaits at most one call of the user store, given here as `Services`, and maps its
    outcome to a status code and a body; `create` and `update` first run the validator
    over the request body. */
module UserController {
  import opened Wrappers
  import opened JsString
  import opened JsValue
  import opened EmailPattern
  import opened Validations
  import opened Http

  /** The rule table of `create`: `name: 'Name|string|required'`,
      `email: 'Email|string|required|email'`, `password: 'Password|string|required'` and
      `age: 'Age|numeric'`, written as the joins of their tokens. */
  const CreateRules: seq<Rule> := [
    Rule("name", Join(["Name", "string", "required"], '|')),
    Rule("email", Join(["Email", "string", "required", "email"], '|')),
    Rule("password", Join(["Password", "string", "required"], '|')),
    Rule("age", Join(["Age", "numeric"], '|'))]

  /** The rule table of `update`: the same fields and formats, nothing required. */
  const UpdateRules: seq<Rule> := [
    Rule("name", Join(["Name", "string"], '|')),
    Rule("email", Join(["Email", "string", "email"], '|')),
    Rule("password", Join(["Password", "string"], '|')),
    Rule("age", Join(["Age", "numeric"], '|'))]

  const UserNotFound := "User not found"

  /** The service calls the handlers can make; `id` is `req.params.id`. */
  datatype Call =
    | CreateUser(body: Request)
    | GetAllUsers
    | GetUserById(id: string)
    | UpdateUser(id: string, body: Request)
    | DeleteUser(id: string)

  /** `UserService.createUser`, `getAllUsers`, `getUserById`, `updateUser` and
      `deleteUser`, each with what awaiting it gives. */
  datatype Services = Services(
    createUser: Request -> Outcome<Value>,
    getAllUsers: Outcome<Value>,
    getUserById: string -> Outcome<Value>,
    updateUser: (string, Request) -> Outcome<Value>,
    deleteUser: string -> Outcome<Value>)

  /** The 500 response every handler gives for an error with message `m`. */
  function Failed(m: string, calls: seq<Call>): Handled<Call> {
    Handled(Response(500, Some(MessageBody(m))), calls)
  }

  /** The 404 response of `getById`, `update` and `delete`. */
  function NotFound(calls: seq<Call>): Handled<Call> {
    Handled(Response(404, Some(MessageBody(UserNotFound))), calls)
  }

  /** The 400 response for the validator's messages. */
  function BadRequest(errors: seq<string>): Handled<Call> {
    Handled(Response(400, Some(ErrorsBody(errors))), [])
  }

  /** The message of an outcome the handler is answering with 500. */
  function ErrorOf<T>(o: Outcome<T>): string {
    if o.Threw? then o.message else ""
  }

  /** `create` after `checkFields` has returned `validation` (or thrown). */
  function CreateAfter(validation: Result<seq<string>>, body: Request, svc: Services): (h: Handled<Call>)
    ensures h.response.status in {201, 400, 500}
    ensures h.response.status == 400 <==> validation.Ok? && validation.value != []
    ensures h.response.status == 400 ==> h.calls == [] && h.response.body == Some(ErrorsBody(validation.value))
    ensures h.calls != [] <==> validation == Ok([])
    ensures h.calls != [] ==> h.calls == [CreateUser(body)]
    ensures h.response.status == 201 <==> validation == Ok([]) && svc.createUser(body).Returned?
    ensures h.response.status == 201 ==> h.response.body == Some(svc.createUser(body).value)
    ensures h.response.status == 500 ==>
      h.response.body == Some(MessageBody(if validation.Err? then validation.error else ErrorOf(svc.createUser(body))))
  {
    match validation
    case Err(m) => Failed(m, [])
    case Ok(errors) =>
      if errors != [] then BadRequest(errors)
      else
        var calls := [CreateUser(body)];
        match svc.createUser(body)
        case Threw(m) => Failed(m, calls)
        case Returned(user) => Handled(Response(201, Some(user)), calls)
  }

  /** `UserController.create` */
  function Create(body: Request, svc: Services): (h: Handled<Call>)
    ensures var v := Validate(body, CreateRules);
      && (h.response.status == 400 <==> v.Ok? && v.value != [])
      && (h.calls != [] <==> v == Ok([]))
      && (v.Err? ==> h == Failed(v.error, []))
  {
    CreateAfter(Validate(body, CreateRules), body, svc)
  }

  /** `UserController.getAll`: the service's list, unchanged, or 500. */
  function GetAll(svc: Services): (h: Handled<Call>)
    ensures h.calls == [GetAllUsers]
    ensures h.response.status in {200, 500}
    ensures h.response.status == 200 <==> svc.getAllUsers.Returned?
    ensures h.response.status == 200 ==> h.response.body == Some(svc.getAllUsers.value)
    ensures h.response.status == 500 ==> h.response.body == Some(MessageBody(svc.getAllUsers.message))
  {
    match svc.getAllUsers
    case Threw(m) => Failed(m, [GetAllUsers])
    case Returned(users) => Handled(Response(200, Some(users)), [GetAllUsers])
  }

  /** `UserController.getById`: 200 with a truthy user, 404 otherwise, 500 on an error. */
  function GetById(id: string, svc: Services): (h: Handled<Call>)
    ensures h.calls == [GetUserById(id)]
    ensures h.response.status in {200, 404, 500}
    ensures h.response.status == 200 <==> svc.getUserById(id).Returned? && Truthy(svc.getUserById(id).value)
    ensures h.response.status == 200 ==> h.response.body == Some(svc.getUserById(id).value)
    ensures h.response.status == 404 <==> svc.getUserById(id).Returned? && !Truthy(svc.getUserById(id).value)
    ensures h.response.status == 404 ==> h.response.body == Some(MessageBody(UserNotFound))
    ensures h.response.status == 500 ==> h.response.body == Some(MessageBody(svc.getUserById(id).message))
  {
    var calls := [GetUserById(id)];
    match svc.getUserById(id)
    case Threw(m) => Failed(m, calls)
    case Returned(user) => if Truthy(user) then Handled(Response(200, Some(user)), calls) else NotFound(calls)
  }

  /** `update` after `checkFields` has returned `validation` (or thrown). */
  function UpdateAfter(validation: Result<seq<string>>, id: string, body: Request, svc: Services): (h: Handled<Call>)
    ensures h.response.status in {200, 400, 404, 500}
    ensures h.response.status == 400 <==> validation.Ok? && validation.value != []
    ensures h.response.status == 400 ==> h.calls == [] && h.response.body == Some(ErrorsBody(validation.value))
    ensures h.calls != [] <==> validation == Ok([])
    ensures h.calls != [] ==> h.calls == [UpdateUser(id, body)]
    ensures h.response.status == 200 <==>
      validation == Ok([]) && svc.updateUser(id, body).Returned? && Truthy(svc.updateUser(id, body).value)
    ensures h.response.status == 200 ==> h.response.body == Some(svc.updateUser(id, body).value)
    ensures h.response.status == 404 <==>
      validation == Ok([]) && svc.updateUser(id, body).Returned? && !Truthy(svc.updateUser(id, body).value)
    ensures h.response.status == 404 ==> h.response.body == Some(MessageBody(UserNotFound))
    ensures h.response.status == 500 ==>
      h.response.body == Some(MessageBody(if validation.Err? then validation.error else ErrorOf(svc.updateUser(id, body))))
  {
    match validation
    case Err(m) => Failed(m, [])
    case Ok(errors) =>
      if errors != [] then BadRequest(errors)
      else
        var calls := [UpdateUser(id, body)];
        match svc.updateUser(id, body)
        case Threw(m) => Failed(m, calls)
        case Returned(user) => if Truthy(user) then Handled(Response(200, Some(user)), calls) else NotFound(calls)
  }

  /** `UserController.update` */
  function Update(id: string, body: Request, svc: Services): (h: Handled<Call>)
    ensures var v := Validate(body, UpdateRules);
      && (h.response.status == 400 <==> v.Ok? && v.value != [])
      && (h.calls != [] <==> v == Ok([]))
      && (v.Err? ==> h == Failed(v.error, []))
  {
    UpdateAfter(Validate(body, UpdateRules), id, body, svc)
  }

  /** `UserController.delete`: 204 without a body for a truthy result, 404 otherwise, 500
      on an error. */
  function Delete(id: string, svc: Services): (h: Handled<Call>)
    ensures h.calls == [DeleteUser(id)]
    ensures h.response.status in {204, 404, 500}
    ensures h.response.status == 204 <==> svc.deleteUser(id).Returned? && Truthy(svc.deleteUser(id).value)
    ensures h.response.status == 204 ==> h.response.body == None
    ensures h.response.status == 404 <==> svc.deleteUser(id).Returned? && !Truthy(svc.deleteUser(id).value)
    ensures h.response.status == 404 ==> h.response.body == Some(MessageBody(UserNotFound))
    ensures h.response.status == 500 ==> h.response.body == Some(MessageBody(svc.deleteUser(id).message))
  {
    var calls := [DeleteUser(id)];
    match svc.deleteUser(id)
    case Threw(m) => Failed(m, calls)
    case Returned(result) => if Truthy(result) then Handled(Response(204, None), calls) else NotFound(calls)
  }

  // ----- The rule tables -----

  /** How the rules of `create` read: each has its capitalised label, the first three are
      required strings, the e-mail also has `email`, the age is an optional number. */
  lemma CreateRuleTokens(k: nat)
    requires k < 4
    ensures k == 0 ==> Tokens(CreateRules[0]) == ["Name", "string", "required"] && Label(CreateRules[0]) == "Name"
    ensures k == 1 ==> Tokens(CreateRules[1]) == ["Email", "string", "required", "email"] && Label(CreateRules[1]) == "Email"
    ensures k == 2 ==> Tokens(CreateRules[2]) == ["Password", "string", "required"] && Label(CreateRules[2]) == "Password"
    ensures k == 3 ==> Tokens(CreateRules[3]) == ["Age", "numeric"] && Label(CreateRules[3]) == "Age"
  {
    if k == 0 {
      LabelAndDirectives("name", ["Name", "string", "required"]);
    } else if k == 1 {
      LabelAndDirectives("email", ["Email", "string", "required", "email"]);
    } else if k == 2 {
      LabelAndDirectives("password", ["Password", "string", "required"]);
    } else {
      LabelAndDirectives("age", ["Age", "numeric"]);
    }
  }

  /** How the rules of `update` read: the same labels and formats, none of them with
      `required`. */
  lemma UpdateRuleTokens(k: nat)
    requires k < 4
    ensures k == 0 ==> Tokens(UpdateRules[0]) == ["Name", "string"] && Label(UpdateRules[0]) == "Name"
    ensures k == 1 ==> Tokens(UpdateRules[1]) == ["Email", "string", "email"] && Label(UpdateRules[1]) == "Email"
    ensures k == 2 ==> Tokens(UpdateRules[2]) == ["Password", "string"] && Label(UpdateRules[2]) == "Password"
    ensures k == 3 ==> Tokens(UpdateRules[3]) == ["Age", "numeric"] && Label(UpdateRules[3]) == "Age"
  {
    if k == 0 {
      LabelAndDirectives("name", ["Name", "string"]);
    } else if k == 1 {
      LabelAndDirectives("email", ["Email", "string", "email"]);
    } else if k == 2 {
      LabelAndDirectives("password", ["Password", "string"]);
    } else {
      LabelAndDirectives("age", ["Age", "numeric"]);
    }
  }

  /** No rule of `update` contains the token `required`. */
  lemma UpdateRulesRequireNothing()
    ensures forall i :: 0 <= i < |UpdateRules| ==> "required" !in Tokens(UpdateRules[i])
  {
    forall i | 0 <= i < |UpdateRules| ensures "required" !in Tokens(UpdateRules[i]) {
      UpdateRuleTokens(i);
    }
  }

  // ----- create -----

  /** 400 is answered exactly when validation does not throw and some field breaks one of
      its directives; `createUser` is then not called. */
  lemma CreateBadRequestIff(body: Request, svc: Services)
    ensures Create(body, svc).response.status == 400 <==>
      FirstError(body, CreateRules) == None && exists i :: 0 <= i < |CreateRules| && !Conforms(body, CreateRules[i])
  {
    MessagesEmptyIff(body, CreateRules);
  }

  /** What `createUser` is given has passed validation: a non-blank string name, e-mail and
      password, the e-mail in the language of the pattern, and an age that, when given and
      not blank, is a number. */
  lemma CreateStoresValidatedUser(body: Request, svc: Services)
    ensures Create(body, svc).calls != [] ==>
      && Create(body, svc).calls == [CreateUser(body)]
      && "name" in body && body["name"].Str? && !AllSpace(body["name"].s)
      && "email" in body && body["email"].Str? && EmailLanguage(body["email"].s)
      && "password" in body && body["password"].Str? && !AllSpace(body["password"].s)
      && (!Blank(body, "age") ==> !IsNaN(body["age"]))
  {
    if Create(body, svc).calls != [] {
      CreatePassesConforming(body);
      CreatedFieldConforms(body, 0);
      CreatedFieldConforms(body, 1);
      CreatedFieldConforms(body, 2);
      CreatedFieldConforms(body, 3);
      assert CreateRules[0].field == "name" && CreateRules[1].field == "email";
      assert CreateRules[2].field == "password" && CreateRules[3].field == "age";
    }
  }

  /** A body that passes the table of `create` breaks none of its directives. */
  lemma CreatePassesConforming(body: Request)
    requires Validate(body, CreateRules) == Ok([])
    ensures forall k :: 0 <= k < |CreateRules| ==> Conforms(body, CreateRules[k])
  {
    MessagesEmptyIff(body, CreateRules);
  }

  /** The checks of field `k` of the table of `create` on a body that passes it. */
  ghost predicate CreatedFieldChecked(body: Request, k: nat)
    requires k < 4
  {
    var field := CreateRules[k].field;
    if k == 3 then !Blank(body, field) ==> !IsNaN(body[field])
    else
      && field in body && body[field].Str? && !AllSpace(body[field].s)
      && (k == 1 ==> EmailLanguage(body[field].s))
  }

  lemma CreatedFieldConforms(body: Request, k: nat)
    requires k < 4 && Conforms(body, CreateRules[k])
    ensures CreatedFieldChecked(body, k)
  {
    CreateRuleTokens(k);
    if k < 3 {
      ConformingValue(body, CreateRules[k]);
    } else if !Blank(body, CreateRules[k].field) {
      ConformingFormat(body, CreateRules[k]);
    }
  }

  /** A body with none of the four fields is told that the three required ones are
      missing, in table order, and nothing is stored. */
  lemma CreateWithoutFields(body: Request, svc: Services)
    requires "name" !in body && "email" !in body && "password" !in body && "age" !in body
    requires "hasOwnProperty" !in body
    ensures Create(body, svc) ==
      BadRequest(["Name is required.", "Email is required.", "Password is required."])
  {
    CreateValidation(body);
    CreateMessagesText();
  }

  /** In particular the empty body. */
  lemma CreateEmptyBody(svc: Services)
    ensures Create(map[], svc) ==
      BadRequest(["Name is required.", "Email is required.", "Password is required."])
  {
    CreateWithoutFields(map[], svc);
  }

  lemma CreateMessagesText()
    ensures RequiredMessage("Name") == "Name is required."
    ensures RequiredMessage("Email") == "Email is required."
    ensures RequiredMessage("Password") == "Password is required."
  {
    assert forall k :: 0 <= k < 17 ==> RequiredMessage("Name")[k] == "Name is required."[k];
    assert forall k :: 0 <= k < 18 ==> RequiredMessage("Email")[k] == "Email is required."[k];
    assert forall k :: 0 <= k < 21 ==> RequiredMessage("Password")[k] == "Password is required."[k];
  }

  /** Validation of a body without any of the fields of `create`. */
  lemma CreateValidation(body: Request)
    requires "name" !in body && "email" !in body && "password" !in body && "age" !in body
    requires "hasOwnProperty" !in body
    ensures Validate(body, CreateRules) ==
      Ok([RequiredMessage("Name"), RequiredMessage("Email"), RequiredMessage("Password")])
  {
    CreateFirstThree(body);
    CreateFieldMissing(body, 3);
    ExtendQuietPrefix(body, CreateRules, 3);
    assert CreateRules[..4] == CreateRules;
  }

  /** The required fields of `create`, missing from the body, in table order. */
  lemma CreateFirstThree(body: Request)
    requires "name" !in body && "email" !in body && "password" !in body && "hasOwnProperty" !in body
    ensures FirstError(body, CreateRules[..3]) == None
    ensures Messages(body, CreateRules[..3]) ==
      [RequiredMessage("Name"), RequiredMessage("Email"), RequiredMessage("Password")]
  {
    CreateFirstTwo(body);
    CreateFieldMissing(body, 2);
    ExtendQuietPrefix(body, CreateRules, 2);
  }

  lemma CreateFirstTwo(body: Request)
    requires "name" !in body && "email" !in body && "hasOwnProperty" !in body
    ensures FirstError(body, CreateRules[..2]) == None
    ensures Messages(body, CreateRules[..2]) == [RequiredMessage("Name"), RequiredMessage("Email")]
  {
    CreateFirstOne(body);
    CreateFieldMissing(body, 1);
    ExtendQuietPrefix(body, CreateRules, 1);
  }

  lemma CreateFirstOne(body: Request)
    requires "name" !in body && "hasOwnProperty" !in body
    ensures FirstError(body, CreateRules[..1]) == None
    ensures Messages(body, CreateRules[..1]) == [RequiredMessage("Name")]
  {
    assert CreateRules[..0] == [];
    CreateFieldMissing(body, 0);
    ExtendQuietPrefix(body, CreateRules, 0);
  }

  /** Field `k` of the table of `create`, missing from the body: the first three get their
      `required` message, the age nothing. */
  lemma CreateFieldMissing(body: Request, k: nat)
    requires k < 4 && CreateRules[k].field !in body && "hasOwnProperty" !in body
    ensures RuleError(body, CreateRules[k]) == None
    ensures k == 0 ==> RuleMessages(body, CreateRules[k]) == [RequiredMessage("Name")]
    ensures k == 1 ==> RuleMessages(body, CreateRules[k]) == [RequiredMessage("Email")]
    ensures k == 2 ==> RuleMessages(body, CreateRules[k]) == [RequiredMessage("Password")]
    ensures k == 3 ==> RuleMessages(body, CreateRules[k]) == []
  {
    CreateRuleTokens(k);
    if k < 3 {
      RequiredFieldMissing(body, CreateRules[k]);
    } else {
      OptionalFieldMissing(body, CreateRules[k]);
    }
  }

  /** A body with an own `hasOwnProperty` key makes validation throw: 500, nothing stored. */
  lemma CreateShadowedHasOwnProperty(body: Request, svc: Services)
    requires "hasOwnProperty" in body
    ensures Create(body, svc) == Failed(HasOwnPropertyNotAFunction, [])
  {
    ShadowedHasOwnPropertyThrows(body, CreateRules);
  }

  // ----- update -----

  /** A body that supplies none of the table's fields, the empty one first of all, passes
      validation, so `updateUser` is called with it. */
  lemma UpdateWithoutFields(id: string, body: Request, svc: Services)
    requires "name" !in body && "email" !in body && "password" !in body && "age" !in body
    requires "hasOwnProperty" !in body
    ensures Validate(body, UpdateRules) == Ok([])
    ensures Update(id, body, svc).calls == [UpdateUser(id, body)]
  {
    UpdateRulesRequireNothing();
    NothingRequiredNothingGiven(body, UpdateRules);
  }

  /** In particular the empty body. */
  lemma UpdateEmptyBody(id: string, svc: Services)
    ensures Update(id, map[], svc).calls == [UpdateUser(id, map[])]
  {
    UpdateWithoutFields(id, map[], svc);
  }

  /** 400 is answered exactly when validation does not throw and some field breaks one of
      its directives; `updateUser` is then not called. */
  lemma UpdateBadRequestIff(id: string, body: Request, svc: Services)
    ensures Update(id, body, svc).response.status == 400 <==>
      FirstError(body, UpdateRules) == None && exists i :: 0 <= i < |UpdateRules| && !Conforms(body, UpdateRules[i])
  {
    MessagesEmptyIff(body, UpdateRules);
  }

  /** What `updateUser` is given has passed validation: each field that is given and not
      blank has its format, the e-mail in the language of the pattern. */
  lemma UpdateStoresValidatedFields(id: string, body: Request, svc: Services)
    ensures Update(id, body, svc).calls != [] ==>
      && (!Blank(body, "name") ==> body["name"].Str?)
      && (!Blank(body, "email") ==> body["email"].Str? && EmailLanguage(body["email"].s))
      && (!Blank(body, "password") ==> body["password"].Str?)
      && (!Blank(body, "age") ==> !IsNaN(body["age"]))
  {
    if Update(id, body, svc).calls != [] {
      UpdatePassesConforming(body);
      forall k | 0 <= k < 4 && !Blank(body, UpdateRules[k].field)
        ensures UpdatedFieldChecked(body, k)
      {
        UpdatedFieldConforms(body, k);
      }
      assert UpdateRules[0].field == "name" && UpdateRules[1].field == "email";
      assert UpdateRules[2].field == "password" && UpdateRules[3].field == "age";
    }
  }

  /** The format check of field `k` of the table of `update`. */
  ghost predicate UpdatedFieldChecked(body: Request, k: nat)
    requires k < 4 && UpdateRules[k].field in body
  {
    var v := body[UpdateRules[k].field];
    if k == 1 then v.Str? && EmailLanguage(v.s)
    else if k == 3 then !IsNaN(v)
    else v.Str?
  }

  lemma UpdatedFieldConforms(body: Request, k: nat)
    requires k < 4 && Conforms(body, UpdateRules[k]) && !Blank(body, UpdateRules[k].field)
    ensures UpdatedFieldChecked(body, k)
  {
    UpdateRuleTokens(k);
    ConformingFormat(body, UpdateRules[k]);
  }

  /** A body that passes the table of `update` breaks none of its directives. */
  lemma UpdatePassesConforming(body: Request)
    requires Validate(body, UpdateRules) == Ok([])
    ensures forall k :: 0 <= k < |UpdateRules| ==> Conforms(body, UpdateRules[k])
  {
    MessagesEmptyIff(body, UpdateRules);
  }

  /** A body with an own `hasOwnProperty` key makes validation throw: 500, nothing updated. */
  lemma UpdateShadowedHasOwnProperty(id: string, body: Request, svc: Services)
    requires "hasOwnProperty" in body
    ensures Update(id, body, svc) == Failed(HasOwnPropertyNotAFunction, [])
  {
    ShadowedHasOwnPropertyThrows(body, UpdateRules);
  }

  // ----- All handlers -----

  /** `getById`, `update` and `delete` answer a missing user with one and the same 404. */
  lemma NotFoundIsShared(id: string, body: Request, svc: Services)
    ensures GetById(id, svc).response.status == 404 ==> GetById(id, svc).response == NotFound([]).response
    ensures Update(id, body, svc).response.status == 404 ==> Update(id, body, svc).response == NotFound([]).response
    ensures Delete(id, svc).response.status == 404 ==> Delete(id, svc).response == NotFound([]).response
  {
  }
}
