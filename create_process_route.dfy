/**
 * The `POST` handler of the process-creation route: decode the body, check
 * `tipo_proceso` and `actor_hash` in a fixed order, and only then ask the
 * backend procedure `create_process_with_event` to create the process.
 *
 * The request body arrives already decoded (or as the exception decoding
 * raised), and the backend procedure is a parameter `rpc` from its arguments to
 * its outcome, so "the backend is not called" reads as "the response does not
 * depend on `rpc`".
 */
module CreateProcessRoute {
  import opened Wrappers
  import opened Text
  import opened PiiGuard

  /** A JSON value as the backend returns it; a number carries the text
      `String()` gives it. */
  datatype Json =
    | JNull
    | JBool(b: bool)
    | JNum(text: string)
    | JStr(s: string)
    | JArr(items: seq<Json>)
    | JObj(members: map<string, Json>)

  /** An exception reaching the handler's `catch`; `message` is `e?.message`. */
  datatype Thrown = Thrown(message: Option<string>)

  /** One property of the decoded body, as `body?.<name>` yields it. */
  datatype Field =
    | Absent                                  // undefined: no such key, or the body is not an object
    | Null
    | Bool(b: bool)
    | Num(text: string)                       // a number, with the text String() gives it
    | Str(s: string)
    | Compound(rendering: Result<string, Thrown>)  // an array or object: what String() returns or throws

  /** What `await req.json()` produced. */
  datatype Body =
    | Malformed(failure: Thrown)
    | Parsed(tipoProceso: Field, actorHash: Field)

  /** The arguments of `create_process_with_event`. */
  datatype RpcArgs = RpcArgs(pTipoProceso: string, pActorHash: string)

  /** What the backend call gave back: `{ error }`, `{ data }`, or an exception. */
  datatype RpcOutcome =
    | RpcError(message: Option<string>)
    | RpcData(data: Json)
    | RpcThrew(failure: Thrown)

  /** The JSON response: its status and its keys (None: the key is absent). */
  datatype Response = Response(status: nat, ok: bool, error: Option<string>, message: Option<string>, result: Option<Json>)

  const TipoRequired := "tipo_proceso es requerido"
  const PiiDetected := "PII_DETECTED"
  const PiiMessage := "No se permite email/tel\U{e9}fono en tipo_proceso. (MVP)"
  const ActorRequired := "actor_hash requerido"

  // ---------------------------------------------------------------------
  // JavaScript coercions
  // ---------------------------------------------------------------------

  /** `v == null` */
  predicate IsNullish(f: Field) {
    f.Absent? || f.Null?
  }

  /** `!v`: undefined, null, false, 0, -0, NaN and "" (String(-0) is "0");
      arrays and objects are truthy. */
  predicate IsFalsy(f: Field) {
    || IsNullish(f)
    || f == Bool(false)
    || f == Num("0") || f == Num("NaN")
    || f == Str("")
  }

  /** `String(v)` */
  function ToText(f: Field): Result<string, Thrown> {
    match f
    case Absent => Ok("undefined")
    case Null => Ok("null")
    case Bool(b) => Ok(if b then "true" else "false")
    case Num(t) => Ok(t)
    case Str(s) => Ok(s)
    case Compound(r) => r
  }

  /** `String(v ?? "")`, as applied to `tipo_proceso`. */
  function TextUnlessNullish(f: Field): (r: Result<string, Thrown>)
    ensures r.Err? ==> f.Compound?
    ensures IsNullish(f) ==> r == Ok("")
    ensures f == Bool(false) ==> r == Ok("false")
  {
    if IsNullish(f) then Ok("") else ToText(f)
  }

  /** `String(v || "")`, as applied to `actor_hash`. */
  function TextUnlessFalsy(f: Field): (r: Result<string, Thrown>)
    ensures r.Err? ==> f.Compound?
    ensures IsFalsy(f) ==> r == Ok("")
  {
    if IsFalsy(f) then Ok("") else ToText(f)
  }

  // ---------------------------------------------------------------------
  // Responses
  // ---------------------------------------------------------------------

  /** A 400 response for a request the handler refuses. */
  function Rejected(error: string, message: Option<string>): Response {
    Response(400, false, Some(error), message, None)
  }

  /** The `catch` block: 500 with `e?.message ?? "error"`. */
  function Caught(e: Thrown): (r: Response)
    ensures r.status == 500 && !r.ok && r.error.Some?
    ensures e.message.None? ==> r.error == Some("error")
    ensures e.message.Some? ==> r.error == e.message
    ensures r.message.None? && r.result.None?
  {
    Response(500, false, Some(e.message.GetOr("error")), None, None)
  }

  /** `data?.[0] ?? data`: the first element of an array, the "0" member of
      an object or the first character of a string, unless that is missing
      or null, in which case `data` itself. */
  function FirstOrSelf(data: Json): (r: Json)
    ensures r == JNull <==> data == JNull
    ensures data.JArr? && |data.items| > 0 && data.items[0] != JNull ==> r == data.items[0]
    ensures data.JArr? && (|data.items| == 0 || data.items[0] == JNull) ==> r == data
    ensures data.JObj? && "0" in data.members && data.members["0"] != JNull ==> r == data.members["0"]
    ensures data.JObj? && !("0" in data.members && data.members["0"] != JNull) ==> r == data
    ensures data.JStr? ==> r == if data.s == [] then data else JStr(data.s[..1])
    ensures data.JNull? || data.JBool? || data.JNum? ==> r == data
  {
    match data
    case JArr(items) => if |items| > 0 && items[0] != JNull then items[0] else data
    case JObj(m) => if "0" in m && m["0"] != JNull then m["0"] else data
    case JStr(s) => if |s| > 0 then JStr(s[..1]) else data
    case _ => data
  }

  /** The response built from the backend's outcome. */
  function Reply(outcome: RpcOutcome): (r: Response)
    ensures r.ok <==> outcome.RpcData?
    ensures r.ok ==> r.status == 200 && r.error.None? && r.result == Some(FirstOrSelf(outcome.data))
    ensures !r.ok ==> r.status == 500 && r.result.None?
    ensures outcome.RpcError? ==> r.error == outcome.message
    ensures outcome.RpcThrew? ==> r == Caught(outcome.failure)
  {
    match outcome
    case RpcError(m) => Response(500, false, m, None, None)
    case RpcData(d) => Response(200, true, None, None, Some(FirstOrSelf(d)))
    case RpcThrew(e) => Caught(e)
  }

  // ---------------------------------------------------------------------
  // The handler
  // ---------------------------------------------------------------------

  /** The checks before the backend call, in the handler's order: either
      the arguments for the call or the response that ends the request. */
  function Admit(tipoProceso: Field, actorHash: Field): (r: Result<RpcArgs, Response>)
    ensures r.Ok? ==> r.value.pTipoProceso != [] && r.value.pActorHash != []
    ensures r.Ok? ==> !PiiSuspected(r.value.pTipoProceso)
    ensures r.Ok? ==> !IsSpace(r.value.pTipoProceso[0]) && !IsSpace(r.value.pActorHash[0])
    ensures r.Ok? ==>
      !IsSpace(r.value.pTipoProceso[|r.value.pTipoProceso| - 1]) && !IsSpace(r.value.pActorHash[|r.value.pActorHash| - 1])
    ensures r.Ok? ==> !IsFalsy(actorHash) && !IsNullish(tipoProceso)
    ensures r.Err? ==> !r.error.ok && r.error.result.None?
    ensures r.Err? ==> r.error.status in {400, 500}
    ensures r.Err? && r.error.status == 400 ==>
      r.error.error in {Some(TipoRequired), Some(PiiDetected), Some(ActorRequired)}
  {
    match TextUnlessNullish(tipoProceso)
    case Err(e) => Err(Caught(e))
    case Ok(rawTipo) =>
      var tipo := Trim(rawTipo);
      if tipo == [] then Err(Rejected(TipoRequired, None))
      else if PiiSuspected(tipo) then Err(Rejected(PiiDetected, Some(PiiMessage)))
      else
        match TextUnlessFalsy(actorHash)
        case Err(e) => Err(Caught(e))
        case Ok(rawActor) =>
          var actor := Trim(rawActor);
          if actor == [] then Err(Rejected(ActorRequired, None))
          else Ok(RpcArgs(tipo, actor))
  }

  /** `POST(req)`: a refused or failed request gets its error response; an
      admitted one gets the response built from the backend's outcome. */
  function Post(body: Body, rpc: RpcArgs -> RpcOutcome): (r: Response)
    ensures r.status in {200, 400, 500}
    ensures r.ok <==> r.status == 200
    ensures r.ok <==> r.result.Some?
    ensures r.ok ==> body.Parsed? && Admit(body.tipoProceso, body.actorHash).Ok?
    ensures r.status == 400 ==>
      r.error in {Some(TipoRequired), Some(PiiDetected), Some(ActorRequired)}
  {
    match body
    case Malformed(e) => Caught(e)
    case Parsed(tipoProceso, actorHash) =>
      match Admit(tipoProceso, actorHash)
      case Err(early) => early
      case Ok(args) => Reply(rpc(args))
  }
}
