/** What an Express handler writes: a status code and, unless it calls `send()` with no
    argument, a JSON body. The outcomes of the services a handler awaits are values of
    `Outcome`: either what the promise resolves to, or the `message` of what it rejects or
    throws with. */
module Http {
  import opened Wrappers
  import opened JsValue

  /** `res.status(status).json(body)`, or `res.status(status).send()` when `body` is None. */
  datatype Response = Response(status: nat, body: Option<Value>)

  /** A response together with the service calls made on the way to it, in call order. */
  datatype Handled<C> = Handled(response: Response, calls: seq<C>)

  /** What awaiting a service gives: its result, or the message of the error it raised. */
  datatype Outcome<T> = Returned(value: T) | Threw(message: string)

  /** The strings as a JSON array. */
  function Strings(xs: seq<string>): (r: seq<Value>)
    ensures |r| == |xs| && forall i :: 0 <= i < |xs| ==> r[i] == Str(xs[i])
  {
    if xs == [] then [] else [Str(xs[0])] + Strings(xs[1..])
  }

  /** `{ errors }` for the messages of the validator. */
  function ErrorsBody(errors: seq<string>): Value {
    Obj(map["errors" := Arr(Strings(errors))])
  }

  /** `{ message }` */
  function MessageBody(message: string): Value {
    Obj(map["message" := Str(message)])
  }
}
