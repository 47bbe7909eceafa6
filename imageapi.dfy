/** The serverless handler that draws a knowledge card as an image: method check,
    its own rate limit, validation of the card, and the mapping of every failure
    to a status-500 reply with a category message. */
module ImageApi {
  import opened JsText
  import opened Js
  import opened RateLimit
  import Gemini
  import CardApi

  const IMAGE_PREFIX: string := "rate_limit_img_"

  const CARD_MISSING: string := "请求体缺少 card 字段"
  const CARD_EMPTY: string := "卡片内容不能为空"

  const CONFIG_ERROR: string := "API配置错误"
  const TIMEOUT_ERROR: string := "请求超时，请稍后再试"
  const SERVICE_ERROR: string := "AI服务暂时不可用"
  const INTERNAL_ERROR: string := "服务器内部错误，请稍后再试"

  /** `validateCard(card)`: only an object or an array is a card. */
  function ValidateCard(card: Json): (error: Option<string>)
    ensures error.None? <==> card.JObj? || card.JArr?
    ensures error.Some? ==> error.value == CARD_EMPTY
  {
    if !Truthy(card) || !(card.JObj? || card.JArr?) then Some(CARD_EMPTY) else None
  }

  /** The category of a failure as the `catch` block writes it: the first of
      `GEMINI_API_KEY`, `timeout` and `Gemini` that the message contains decides. */
  function ClassifyErrorAsWritten(message: string): (r: string)
    ensures Contains(message, "GEMINI_API_KEY") ==> r == CONFIG_ERROR
    ensures !Contains(message, "GEMINI_API_KEY") && Contains(message, "timeout") ==> r == TIMEOUT_ERROR
    ensures (!Contains(message, "GEMINI_API_KEY") && !Contains(message, "timeout")
      && Contains(message, "Gemini")) ==> r == SERVICE_ERROR
    ensures (!Contains(message, "GEMINI_API_KEY") && !Contains(message, "timeout")
      && !Contains(message, "Gemini")) ==> r == INTERNAL_ERROR
  {
    if Contains(message, "GEMINI_API_KEY") then CONFIG_ERROR
    else if Contains(message, "timeout") then TIMEOUT_ERROR
    else if Contains(message, "Gemini") then SERVICE_ERROR
    else INTERNAL_ERROR
  }

  /** The message of the 30-second abort holds none of the three words, so the
      request that timed out is reported as an internal error. */
  lemma AbortReportedAsInternal()
    ensures ClassifyErrorAsWritten(ABORT_MESSAGE) == INTERNAL_ERROR
  {
    var m := ABORT_MESSAGE;
    assert 'G' !in m && 'm' !in m;
    OccurrenceHasChars(m, "GEMINI_API_KEY", 'G');
    OccurrenceHasChars(m, "timeout", 'm');
    OccurrenceHasChars(m, "Gemini", 'G');
  }

  /** The classification the handler evidently intends: the abort the client's
      30-second timer causes counts as a timeout. */
  function ClassifyError(message: string): (r: string)
    ensures message == ABORT_MESSAGE ==> r == TIMEOUT_ERROR
    ensures message != ABORT_MESSAGE ==> r == ClassifyErrorAsWritten(message)
  {
    if message == ABORT_MESSAGE then TIMEOUT_ERROR else ClassifyErrorAsWritten(message)
  }

  /** The missing key is reported as a configuration error, and an error status of
      the Gemini API as the service being unavailable, unless its text mentions a
      timeout or the key variable. */
  lemma ErrorCategories(status: int, statusText: string, bodyText: string)
    requires !IsOk(status)
    requires !Contains(Gemini.PostJson(Reply(status, statusText, bodyText, Throw(""))).message, "GEMINI_API_KEY")
    requires !Contains(Gemini.PostJson(Reply(status, statusText, bodyText, Throw(""))).message, "timeout")
    ensures ClassifyError(Gemini.MISSING_KEY) == CONFIG_ERROR
    ensures ClassifyError(Gemini.PostJson(Reply(status, statusText, bodyText, Throw(""))).message) == SERVICE_ERROR
  {
    var k := Gemini.MISSING_KEY;
    assert k[..14] == "GEMINI_API_KEY";
    assert Gemini.MISSING_KEY != ABORT_MESSAGE;
    var m := Gemini.PostJson(Reply(status, statusText, bodyText, Throw(""))).message;
    assert m[..6] == "Gemini";
    assert StartsWith(m, "Gemini");
    assert m != ABORT_MESSAGE by {
      assert ABORT_MESSAGE[0] != m[0];
    }
  }

  /** The JSON body of a reply. `Produced` carries the image and the metadata
      source; the timestamp is not modelled. */
  datatype ImageBody =
    | NoBody
    | Failure(error: string)
    | ServerError(error: string, details: string)
    | Produced(image: Gemini.Image, source: string)

  /** A reply: the status, the `X-RateLimit-Remaining` header when it was set, the body. */
  datatype Response = Response(status: int, remaining: Option<int>, body: ImageBody)

  /** The card of the request, when the body carries a truthy one. */
  function RequestCard(body: Option<Json>): Option<Json> {
    if Defined(body) && Defined(Get(body.value, "card")) then Get(body.value, "card") else None
  }

  /** The reply to a POST once the rate limit has decided `d`, given whether the
      environment holds a key and how the Gemini request ends. */
  function Respond(body: Option<Json>, d: Decision, haveKey: bool, reply: FetchResult): (res: Response)
    ensures res.remaining == Some(d.remaining)
    ensures res.status in {200, 400, 429, 500}
    ensures res.status == 429 <==> !d.allowed
    ensures res.status == 200 <==> res.body.Produced?
    ensures res.status == 500 <==> res.body.ServerError?
    ensures res.body.ServerError? ==> res.body.error == ClassifyError(res.body.details)
    ensures res.body.Produced? ==>
      Truthy(res.body.image.mimeType) && Truthy(res.body.image.base64Data)
      && res.body.source == Gemini.GEMINI_SOURCE
    ensures d.allowed && RequestCard(body).None? ==> res == Response(400, Some(d.remaining), Failure(CARD_MISSING))
    ensures d.allowed && RequestCard(body).Some? && ValidateCard(RequestCard(body).value).Some?
      ==> res == Response(400, Some(d.remaining), Failure(CARD_EMPTY))
    ensures res.body.Produced? ==>
      (haveKey && Gemini.GenerateImageFromCard(RequestCard(body).value, reply).Ok?
       && res.body.image == Gemini.GenerateImageFromCard(RequestCard(body).value, reply).value)
    ensures res.body.ServerError? ==>
      (d.allowed && RequestCard(body).Some? && ValidateCard(RequestCard(body).value).None?
       && (!haveKey ==> res.body.details == Gemini.MISSING_KEY)
       && (haveKey ==> (Gemini.GenerateImageFromCard(RequestCard(body).value, reply).Throw?
             && res.body.details == Gemini.GenerateImageFromCard(RequestCard(body).value, reply).message)))
  {
    if !d.allowed then Response(429, Some(d.remaining), Failure(CardApi.TOO_MANY_REQUESTS))
    else
      match RequestCard(body)
      case None => Response(400, Some(d.remaining), Failure(CARD_MISSING))
      case Some(card) =>
        match ValidateCard(card)
        case Some(e) => Response(400, Some(d.remaining), Failure(e))
        case None =>
          var generated := if haveKey then Gemini.GenerateImageFromCard(card, reply) else Throw(Gemini.MISSING_KEY);
          match generated
          case Throw(m) => Response(500, Some(d.remaining), ServerError(ClassifyError(m), m))
          case Ok(image) => Response(200, Some(d.remaining), Produced(image, Gemini.GEMINI_SOURCE))
  }

  /** A request that passes the rate limit with a card object or array gets its
      image, or a 500 reply whose details are exactly the error the image request
      ended with. */
  lemma CardRequestOutcome(body: Option<Json>, d: Decision, haveKey: bool, reply: FetchResult)
    requires d.allowed && RequestCard(body).Some? && ValidateCard(RequestCard(body).value).None?
    ensures var card := RequestCard(body).value;
      var res := Respond(body, d, haveKey, reply);
      (!haveKey ==> res == Response(500, Some(d.remaining), ServerError(CONFIG_ERROR, Gemini.MISSING_KEY)))
      && (haveKey ==> (res.status == 200 <==> Gemini.GenerateImageFromCard(card, reply).Ok?))
      && (haveKey && Gemini.GenerateImageFromCard(card, reply).Throw? ==>
            res.body.details == Gemini.GenerateImageFromCard(card, reply).message)
      && (haveKey && Gemini.GenerateImageFromCard(card, reply).Ok? ==>
            res.body == Produced(Gemini.GenerateImageFromCard(card, reply).value, Gemini.GEMINI_SOURCE))
  {
    var k := Gemini.MISSING_KEY;
    assert k[..14] == "GEMINI_API_KEY";
    assert k != ABORT_MESSAGE;
  }

  /** A card the prompt can be built from, whose request is aborted by the timer,
      is reported as a timeout. */
  lemma TimeoutReported(body: Option<Json>, d: Decision)
    requires d.allowed && RequestCard(body).Some? && RequestCard(body).value.JObj?
    requires Gemini.BuildImagePrompt(RequestCard(body).value).Ok?
    ensures Respond(body, d, true, Aborted) == Response(500, Some(d.remaining), ServerError(TIMEOUT_ERROR, ABORT_MESSAGE))
  {
  }

  /** The reply as the handler writes it: the same as `Respond` except that a
      failure is categorised by the `catch` block's own word tests. */
  function RespondAsWritten(body: Option<Json>, d: Decision, haveKey: bool, reply: FetchResult): (res: Response)
    ensures var fixed := Respond(body, d, haveKey, reply);
      (res.status == fixed.status && res.remaining == fixed.remaining)
      && (!fixed.body.ServerError? ==> res == fixed)
      && (fixed.body.ServerError? ==>
            res.body == ServerError(ClassifyErrorAsWritten(fixed.body.details), fixed.body.details))
  {
    var fixed := Respond(body, d, haveKey, reply);
    match fixed.body
    case ServerError(_, details) => fixed.(body := ServerError(ClassifyErrorAsWritten(details), details))
    case _ => fixed
  }

  /** The two replies differ only for the aborted request, which the handler as
      written reports as an internal error instead of a timeout. */
  lemma AsWrittenDiffersOnlyOnAbort(body: Option<Json>, d: Decision, haveKey: bool, reply: FetchResult)
    ensures var fixed := Respond(body, d, haveKey, reply);
      (RespondAsWritten(body, d, haveKey, reply) != fixed)
      <==> (fixed.body.ServerError? && fixed.body.details == ABORT_MESSAGE)
  {
    var fixed := Respond(body, d, haveKey, reply);
    if fixed.body.ServerError? && fixed.body.details == ABORT_MESSAGE {
      AbortReportedAsInternal();
      assert INTERNAL_ERROR != TIMEOUT_ERROR by {
        assert INTERNAL_ERROR[0] != TIMEOUT_ERROR[0];
      }
    }
  }

  /** The image handler's state across requests: its own rate-limit store. A new
      Gemini client is made for every request, so nothing else persists. */
  class ImageService {
    const limiter: Limiter

    constructor ()
      ensures limiter.prefix == IMAGE_PREFIX && fresh(limiter) && limiter.store == map[]
    {
      limiter := new Limiter(IMAGE_PREFIX);
    }

    /** `handler(req, res)`, with the two clock readings of the rate limiter, the
        `GEMINI_API_KEY` environment value and how the Gemini `fetch` ends as parameters. */
    method Handle(req: CardApi.Request, sweepNow: int, now: int, envKey: Option<string>,
                  reply: FetchResult) returns (res: Response)
      requires limiter.prefix == IMAGE_PREFIX
      modifies limiter
      ensures req.httpMethod == "OPTIONS" ==> res == Response(200, None, NoBody)
      ensures req.httpMethod != "OPTIONS" && req.httpMethod != "POST" ==>
        res == Response(405, None, Failure(CardApi.METHOD_NOT_ALLOWED))
      ensures req.httpMethod != "POST" ==> limiter.store == old(limiter.store)
      ensures req.httpMethod == "POST" ==>
        var (d, store) := Check(old(limiter.store), IMAGE_PREFIX + req.clientIp, sweepNow, now);
        limiter.store == store
        && res == Respond(req.body, d, envKey.Some? && envKey.value != [], reply)
    {
      if req.httpMethod == "OPTIONS" {
        return Response(200, None, NoBody);
      }
      if req.httpMethod != "POST" {
        return Response(405, None, Failure(CardApi.METHOD_NOT_ALLOWED));
      }
      var d := limiter.CheckRequest(req.clientIp, sweepNow, now);
      if !d.allowed {
        return Response(429, Some(d.remaining), Failure(CardApi.TOO_MANY_REQUESTS));
      }
      var card := RequestCard(req.body);
      if card.None? {
        return Response(400, Some(d.remaining), Failure(CARD_MISSING));
      }
      var invalid := ValidateCard(card.value);
      if invalid.Some? {
        return Response(400, Some(d.remaining), Failure(invalid.value));
      }
      var client := Gemini.GetGeminiClient(envKey);
      var generated := if client.Ok? then Gemini.GenerateImageFromCard(card.value, reply) else Throw(client.message);
      match generated {
        case Throw(m) =>
          res := Response(500, Some(d.remaining), ServerError(ClassifyError(m), m));
        case Ok(image) =>
          res := Response(200, Some(d.remaining), Produced(image, Gemini.GEMINI_SOURCE));
      }
    }
  }
}
