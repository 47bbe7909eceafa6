/** The `generate-card` serverless handler: CORS preflight, method check, the
    per-client rate limit, question validation, the GLM client with the built-in
    template cards as the fallback, and the JSON reply. */
module CardApi {
  import opened JsText
  import opened Js
  import opened Cards
  import opened RateLimit
  import opened Glm

  // ---------------------------------------------------------------------------
  // Question validation

  const MAX_QUESTION_LENGTH: nat := 200
  const QUESTION_EMPTY: string := "问题不能为空"
  const QUESTION_TOO_LONG: string := "问题长度不能超过200个字符"
  const QUESTION_UNSUITABLE: string := "问题内容不适合儿童，请重新输入"

  /** The words a question must not contain. */
  const FORBIDDEN_WORDS: seq<string> := ["暴力", "色情", "政治", "赌博"]

  /** The question mentions a forbidden word. */
  predicate Unsuitable(q: string) {
    exists k :: 0 <= k < |FORBIDDEN_WORDS| && Contains(q, FORBIDDEN_WORDS[k])
  }

  datatype Validation = Valid(question: string) | Invalid(error: string)

  /** The checks on the trimmed question: empty, then longer than 200 characters,
      then a forbidden word; a question passing all three is accepted as it is. */
  function ValidateTrimmed(trimmed: string): (r: Validation)
    ensures r.Valid? <==> (trimmed != [] && |trimmed| <= MAX_QUESTION_LENGTH && !Unsuitable(trimmed))
    ensures r.Valid? ==> r.question == trimmed
    ensures trimmed == [] ==> r == Invalid(QUESTION_EMPTY)
    ensures |trimmed| > MAX_QUESTION_LENGTH ==> r == Invalid(QUESTION_TOO_LONG)
    ensures 0 < |trimmed| <= MAX_QUESTION_LENGTH && Unsuitable(trimmed) ==> r == Invalid(QUESTION_UNSUITABLE)
  {
    if |trimmed| == 0 then Invalid(QUESTION_EMPTY)
    else if |trimmed| > MAX_QUESTION_LENGTH then Invalid(QUESTION_TOO_LONG)
    else if Unsuitable(trimmed) then Invalid(QUESTION_UNSUITABLE)
    else Valid(trimmed)
  }

  /** `validateQuestion(question)`: a non-empty string whose trimmed form has 1 to 200
      characters and no forbidden word is accepted in its trimmed form; otherwise the
      first failing rule (empty, too long, unsuitable) names the error. */
  function ValidateQuestion(question: Option<Json>): (r: Validation)
    ensures r.Valid? <==> (question.Some? && question.value.JStr? && Trim(question.value.s) != []
      && |Trim(question.value.s)| <= MAX_QUESTION_LENGTH && !Unsuitable(Trim(question.value.s)))
    ensures r.Valid? ==> (r.question == Trim(question.value.s) && 1 <= |r.question| <= MAX_QUESTION_LENGTH
      && !Unsuitable(r.question))
    ensures (question.None? || !question.value.JStr? || Trim(question.value.s) == [])
      ==> r == Invalid(QUESTION_EMPTY)
    ensures question.Some? && question.value.JStr? && |Trim(question.value.s)| > MAX_QUESTION_LENGTH
      ==> r == Invalid(QUESTION_TOO_LONG)
    ensures (question.Some? && question.value.JStr? && 0 < |Trim(question.value.s)| <= MAX_QUESTION_LENGTH
      && Unsuitable(Trim(question.value.s))) ==> r == Invalid(QUESTION_UNSUITABLE)
  {
    if !Defined(question) || !question.value.JStr? then Invalid(QUESTION_EMPTY)
    else
      ValidateTrimmed(Trim(question.value.s))
  }

  /** A question of nothing but whitespace is rejected as empty. */
  lemma BlankQuestionRejected(s: string)
    requires IsBlank(s)
    ensures ValidateQuestion(Some(JStr(s))) == Invalid(QUESTION_EMPTY)
  {
    TrimEmptyIffBlank(s);
  }

  /** An accepted question neither starts nor ends with whitespace. */
  lemma AcceptedQuestionTrimmed(question: Option<Json>)
    requires ValidateQuestion(question).Valid?
    ensures var q := ValidateQuestion(question).question;
      q != [] && !IsSpace(q[0]) && !IsSpace(q[|q| - 1])
  {
    AcceptedIsTrim(question);
    TrimmedEdges(question.value.s, ValidateQuestion(question).question);
  }

  /** A non-empty trim has no whitespace at either end. */
  lemma TrimmedEdges(s: string, q: string)
    requires q == Trim(s) != []
    ensures !IsSpace(q[0]) && !IsSpace(q[|q| - 1])
  {
  }

  /** An accepted question is the non-empty trim of the text sent. */
  lemma AcceptedIsTrim(question: Option<Json>)
    requires ValidateQuestion(question).Valid?
    ensures question.Some? && question.value.JStr?
    ensures ValidateQuestion(question).question == Trim(question.value.s) != []
  {
  }

  /** A question surrounded by whitespace is validated as the text inside it. */
  lemma ValidationIgnoresSurroundingSpace(q: string, pad: string)
    requires AllSpace(pad) && q != [] && !IsSpace(q[0]) && !IsSpace(q[|q| - 1])
    ensures ValidateQuestion(Some(JStr(pad + q + pad))) == ValidateQuestion(Some(JStr(q)))
  {
    TrimUntouched(q);
    TrimPadded(pad, q, pad);
    ValidatesTrimmed(pad + q + pad);
    ValidatesTrimmed(q);
  }

  /** Validation looks at a question text only through its trimmed form. */
  lemma ValidatesTrimmed(s: string)
    ensures ValidateQuestion(Some(JStr(s))) == ValidateTrimmed(Trim(s))
  {
  }

  // ---------------------------------------------------------------------------
  // Template cards

  const MOCK_SOURCE: string := "mock-data"

  const DINOSAUR_CARD: Card := Card(
    "🦕 恐龙的神秘世界",
    "小朋友，恐龙是地球上曾经生活过的神奇生物！让我们一起探索它们的秘密吧！",
    [ Point("🌍 恐龙的时代", "恐龙生活在很久很久以前，大约2.3亿年前到6500万年前。那时候地球的样子和现在很不一样呢！"),
      Point("🦴 恐龙的种类", "恐龙有很多种类，有吃植物的温和恐龙，也有吃肉的凶猛恐龙。最大的恐龙比现在的大象还要大很多倍！"),
      Point("🔍 恐龙的消失", "科学家认为，可能是因为一颗巨大的陨石撞击地球，改变了环境，恐龙就慢慢消失了。") ],
    "虽然恐龙消失了，但通过化石，我们仍然可以了解这些神奇的生物！",
    Some(MOCK_SOURCE))

  const SOLAR_SYSTEM_CARD: Card := Card(
    "🪐 太阳系的奇妙之旅",
    "小朋友，太阳系是我们地球的家！让我们一起去看看太阳系里都有什么吧！",
    [ Point("☀️ 太阳 - 我们的恒星", "太阳是太阳系的中心，它非常非常大，能发出光和热。没有太阳，地球上就不会有生命！"),
      Point("🌍 八大行星", "太阳系有八颗行星：水星、金星、地球、火星、木星、土星、天王星、海王星。地球是我们的家！"),
      Point("🌙 月亮和其他", "除了行星，太阳系还有很多月亮、小行星和彗星。月亮是地球的好朋友，每天晚上陪伴着我们！") ],
    "太阳系就像一个大家庭，每个成员都有自己的特点和作用！",
    Some(MOCK_SOURCE))

  const RAINBOW_CARD: Card := Card(
    "🌈 彩虹的美丽秘密",
    "小朋友，你见过雨后的彩虹吗？让我们一起了解彩虹是怎么形成的吧！",
    [ Point("💧 阳光和水滴", "彩虹需要两个好朋友：阳光和小水滴。当阳光照射到空气中的小水滴时，就可能出现彩虹！"),
      Point("🎨 七种颜色", "彩虹有七种美丽的颜色：红、橙、黄、绿、蓝、靛、紫。这些颜色按顺序排列，非常漂亮！"),
      Point("🔬 光的分解", "其实白色的阳光里包含了所有颜色！当光线通过水滴时，就像通过三棱镜一样，把颜色分开了。") ],
    "彩虹是大自然送给我们的美丽礼物，提醒我们世界充满了奇妙的科学！",
    Some(MOCK_SOURCE))

  /** The keywords of the templates, in the order they are tried. */
  const TEMPLATE_KEYWORDS: seq<string> := ["恐龙", "太阳系", "彩虹"]
  const TEMPLATE_CARDS: seq<Card> := [DINOSAUR_CARD, SOLAR_SYSTEM_CARD, RAINBOW_CARD]

  /** The card for a question no template matches: its title quotes the question. */
  function GenericCard(question: string): (c: Card)
    ensures c.source == Some(MOCK_SOURCE) && |c.points| == 3
  {
    Card(
      "🌟 关于\"" + question + "\"的知识",
      "小朋友，这是一个很棒的问题！让我来为你解答吧！",
      [ Point("📚 基础认识", "首先，我们来了解一下这个问题的基本概念。每个新知识都有它有趣的地方！"),
        Point("🔍 深入探索", "接下来，让我们更深入地了解这个话题。科学家们通过研究发现了很多有趣的事实！"),
        Point("🎯 生活应用", "这些知识在我们的日常生活中也有很多应用，让我们的生活变得更美好！") ],
      "学习新知识让我们变得更聪明，保持好奇心是最重要的！",
      Some(MOCK_SOURCE))
  }

  /** The templates tried from position `from` on; the first whose keyword the
      question contains wins. */
  function FirstTemplate(question: string, from: nat): (c: Card)
    requires from <= |TEMPLATE_KEYWORDS|
    decreases |TEMPLATE_KEYWORDS| - from
  {
    if from == |TEMPLATE_KEYWORDS| then GenericCard(question)
    else if Contains(question, TEMPLATE_KEYWORDS[from]) then TEMPLATE_CARDS[from]
    else FirstTemplate(question, from + 1)
  }

  /** `generateMockCard(question)`: the template of the first keyword the question
      contains, in the order 恐龙, 太阳系, 彩虹; otherwise the generic card. */
  function MockCard(question: string): (c: Card)
    ensures c.source == Some(MOCK_SOURCE) && |c.points| == 3
  {
    FirstTemplate(question, 0)
  }

  /** The template chosen is the one of the first keyword the question contains, and
      the generic card, whose title quotes the question, when it contains none. */
  lemma {:induction false} MockCardChoice(question: string, from: nat)
    requires from <= |TEMPLATE_KEYWORDS|
    ensures forall k :: (from <= k < |TEMPLATE_KEYWORDS| && Contains(question, TEMPLATE_KEYWORDS[k])
                         && (forall j :: from <= j < k ==> !Contains(question, TEMPLATE_KEYWORDS[j])))
                         ==> FirstTemplate(question, from) == TEMPLATE_CARDS[k]
    ensures (forall j :: from <= j < |TEMPLATE_KEYWORDS| ==> !Contains(question, TEMPLATE_KEYWORDS[j]))
      ==> FirstTemplate(question, from) == GenericCard(question)
    decreases |TEMPLATE_KEYWORDS| - from
  {
    if from < |TEMPLATE_KEYWORDS| {
      MockCardChoice(question, from + 1);
    }
  }

  /** The generic card's title contains the question itself. */
  lemma GenericTitleQuotes(question: string)
    ensures Contains(GenericCard(question).title, question)
  {
    var pre := "🌟 关于\"";
    ContainsAt(question, question);
    assert OccursAt(question, question, 0);
    ContainsInConcat(pre, question, question);
    ContainsInConcat(pre + question, "\"的知识", question);
    assert GenericCard(question).title == pre + question + "\"的知识";
  }

  // ---------------------------------------------------------------------------
  // The handler

  /** What the handler reads of a request: the method, the client address the
      rate-limit key is built from, and the parsed body (`None` when absent). */
  datatype Request = Request(httpMethod: string, clientIp: string, body: Option<Json>)

  /** The JSON body of a reply. `Generated` carries the card and the metadata
      question and source; the timestamp is not modelled. */
  datatype CardBody =
    | NoBody
    | Failure(error: string)
    | Generated(card: Card, question: string, source: string)

  /** A reply: the status, the `X-RateLimit-Remaining` header when it was set, the body. */
  datatype Response = Response(status: int, remaining: Option<int>, body: CardBody)

  const METHOD_NOT_ALLOWED: string := "只支持POST请求"
  const TOO_MANY_REQUESTS: string := "请求过于频繁，请稍后再试"
  const BODY_MISSING: string := "请求体不能为空"
  const GLM_SOURCE: string := "glm-api"

  /** `cardData.source || 'glm-api'`. */
  function SourceOf(card: Card): (s: string)
    ensures s != []
    ensures card.source.Some? && card.source.value != [] ==> s == card.source.value
    ensures (card.source.None? || card.source.value == []) ==> s == GLM_SOURCE
  {
    if card.source.Some? && card.source.value != [] then card.source.value else GLM_SOURCE
  }

  /** The reply to a POST once the rate limit has decided `d`, where `generated` is
      how the GLM attempt ended for the validated question. */
  function Respond(body: Option<Json>, d: Decision, generated: Outcome<Card>): (res: Response)
    ensures res.remaining == Some(d.remaining)
    ensures res.status in {200, 400, 429}
    ensures res.status == 429 <==> !d.allowed
    ensures res.status == 200 <==> res.body.Generated?
    ensures d.allowed && !Defined(body) ==> res == Response(400, Some(d.remaining), Failure(BODY_MISSING))
    ensures d.allowed && Defined(body) && ValidateQuestion(Get(body.value, "question")).Invalid?
      ==> res.body == Failure(ValidateQuestion(Get(body.value, "question")).error)
    ensures res.body.Generated? ==>
      (res.body.question == ValidateQuestion(Get(body.value, "question")).question
       && res.body.source == SourceOf(res.body.card)
       && (generated.Ok? ==> res.body.card == generated.value)
       && (generated.Throw? ==> res.body.card == MockCard(res.body.question)))
  {
    if !d.allowed then Response(429, Some(d.remaining), Failure(TOO_MANY_REQUESTS))
    else if !Defined(body) then Response(400, Some(d.remaining), Failure(BODY_MISSING))
    else
      match ValidateQuestion(Get(body.value, "question"))
      case Invalid(e) => Response(400, Some(d.remaining), Failure(e))
      case Valid(q) =>
        var card := if generated.Ok? then generated.value else MockCard(q);
        Response(200, Some(d.remaining), Generated(card, q, SourceOf(card)))
  }

  /** The question the GLM client is asked about, when the request gets that far. */
  function AdmittedQuestion(body: Option<Json>, d: Decision): Option<string> {
    if d.allowed && Defined(body) && ValidateQuestion(Get(body.value, "question")).Valid? then
      Some(ValidateQuestion(Get(body.value, "question")).question)
    else None
  }

  /** A successful reply carries the validated question; its card is the GLM card
      when the client produced one (source `glm-api`) and otherwise the template
      card for the question (source `mock-data`). */
  lemma GeneratedReply(body: Option<Json>, d: Decision, generated: Outcome<Card>)
    ensures Respond(body, d, generated).body.Generated? <==> AdmittedQuestion(body, d).Some?
    ensures AdmittedQuestion(body, d).Some? ==>
      var q := AdmittedQuestion(body, d).value;
      var b := Respond(body, d, generated).body;
      b.question == q && 1 <= |q| <= MAX_QUESTION_LENGTH && !Unsuitable(q)
      && (generated.Ok? && generated.value.source.None? ==> b.card == generated.value && b.source == GLM_SOURCE)
      && (generated.Throw? ==> b.card == MockCard(q) && b.source == MOCK_SOURCE)
  {
  }

  /** The GLM cards the handler receives carry no source, so a successful GLM call
      is reported as `glm-api`, and a failed one as `mock-data`. */
  lemma ReportedSource(body: Option<Json>, d: Decision, f: FetchResult, parse: string -> Option<map<string, Json>>)
    requires AdmittedQuestion(body, d).Some?
    ensures var generated := GenerateKnowledgeCard(f, parse);
      Respond(body, d, generated).body.source == if generated.Ok? then GLM_SOURCE else MOCK_SOURCE
  {
    GeneratedReply(body, d, GenerateKnowledgeCard(f, parse));
  }

  /** The handler's state across requests: its rate-limit store and the lazily
      created GLM client. */
  class CardService {
    const limiter: Limiter
    const registry: GlmRegistry

    /** The store keys are `rate_limit_` and the client address, and the two parts
        of the state are distinct objects. */
    predicate Valid() {
      limiter.prefix == "rate_limit_" && limiter != registry as object
    }

    constructor ()
      ensures Valid() && fresh(limiter) && fresh(registry)
      ensures limiter.store == map[] && registry.instance.None?
    {
      limiter := new Limiter("rate_limit_");
      registry := new GlmRegistry();
    }

    /** `handler(req, res)`, with the two clock readings of the rate limiter, the
        `GLM_API_KEY` environment value, how the GLM `fetch` ends and `JSON.parse`
        as parameters. */
    method Handle(req: Request, sweepNow: int, now: int, envKey: Option<string>,
                  glmReply: FetchResult, parse: string -> Option<map<string, Json>>) returns (res: Response)
      requires Valid()
      modifies limiter, registry
      ensures req.httpMethod == "OPTIONS" ==> res == Response(200, None, NoBody)
      ensures req.httpMethod != "OPTIONS" && req.httpMethod != "POST" ==> res == Response(405, None, Failure(METHOD_NOT_ALLOWED))
      ensures req.httpMethod != "POST" ==> limiter.store == old(limiter.store) && registry.instance == old(registry.instance)
      ensures req.httpMethod == "POST" ==>
        var (d, store) := Check(old(limiter.store), "rate_limit_" + req.clientIp, sweepNow, now);
        var admitted := AdmittedQuestion(req.body, d);
        var haveClient := old(registry.instance).Some? || (envKey.Some? && envKey.value != []);
        var generated := if haveClient then GenerateKnowledgeCard(glmReply, parse) else Throw(MISSING_KEY);
        limiter.store == store
        && res == Respond(req.body, d, generated)
        && (admitted.None? ==> registry.instance == old(registry.instance))
        && (admitted.Some? && haveClient ==> registry.instance.Some?)
    {
      if req.httpMethod == "OPTIONS" {
        return Response(200, None, NoBody);
      }
      if req.httpMethod != "POST" {
        return Response(405, None, Failure(METHOD_NOT_ALLOWED));
      }
      var d := limiter.CheckRequest(req.clientIp, sweepNow, now);
      res := Answer(req.body, d, envKey, glmReply, parse);
    }

    /** The part of the handler after the rate limit has decided `d`: the body and
        question checks, then the GLM client, whose failure falls back to the
        template card. */
    method Answer(body: Option<Json>, d: Decision, envKey: Option<string>,
                  glmReply: FetchResult, parse: string -> Option<map<string, Json>>) returns (res: Response)
      modifies registry
      ensures
        var admitted := AdmittedQuestion(body, d);
        var haveClient := old(registry.instance).Some? || (envKey.Some? && envKey.value != []);
        var generated := if haveClient then GenerateKnowledgeCard(glmReply, parse) else Throw(MISSING_KEY);
        res == Respond(body, d, generated)
        && (admitted.None? ==> registry.instance == old(registry.instance))
        && (admitted.Some? && haveClient ==> registry.instance.Some?)
    {
      if !d.allowed {
        return Response(429, Some(d.remaining), Failure(TOO_MANY_REQUESTS));
      }
      if !Defined(body) {
        return Response(400, Some(d.remaining), Failure(BODY_MISSING));
      }
      var validation := ValidateQuestion(Get(body.value, "question"));
      if validation.Invalid? {
        return Response(400, Some(d.remaining), Failure(validation.error));
      }
      var client := registry.GetClient(envKey);
      var card: Card;
      var generated := if client.Ok? then GenerateKnowledgeCard(glmReply, parse) else Throw(client.message);
      if generated.Ok? {
        card := generated.value;
      } else {
        card := MockCard(validation.question);
      }
      res := Response(200, Some(d.remaining), Generated(card, validation.question, SourceOf(card)));
    }
  }
}
