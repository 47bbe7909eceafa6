/** The browser side: keyword highlighting, the card's HTML, the message shown
    when a generation fails, and the page's generation state. */
module Frontend {
  import opened JsText
  import opened Js
  import opened Cards

  // ---------------------------------------------------------------------------
  // Keyword highlighting (`highlightKeywords`)

  /** A keyword of the highlighting tables; none is empty. */
  type Keyword = s: string | s != [] witness "水"

  const HIGHLIGHT_OPEN: string := "<span class=\"highlight\">"
  const HIGHLIGHT_CLOSE: string := "</span>"

  /** The keywords shown with an icon, in table order, and their icons. */
  const ICON_KEYWORDS: seq<Keyword> := ICON_KEYWORDS_1 + ICON_KEYWORDS_2 + ICON_KEYWORDS_3
  const ICON_KEYWORDS_1: seq<Keyword> := [
    "恐龙", "太阳系", "行星", "彩虹", "科学", "学习", "知识", "探索", "发现", "研究", "实验", "观察"]
  const ICON_KEYWORDS_2: seq<Keyword> := [
    "思考", "好奇", "智慧", "成长", "地球", "宇宙", "自然", "动物", "植物", "环境", "生命", "进化"]
  const ICON_KEYWORDS_3: seq<Keyword> := [
    "太阳", "月亮", "星星", "水", "火", "空气", "森林", "海洋", "山", "花", "树"]
  const ICONS: seq<string> := [
    "🦕", "🪐", "🌍", "🌈", "🔬", "📚", "💡", "🔍", "🔎", "🧪",
    "\U{2697}\U{FE0F}", "👀", "🤔", "\U{2753}", "🧠", "🌱", "🌍", "🌌", "🌿", "🐾",
    "🌱", "🌍", "💫", "🔄", "\U{2600}\U{FE0F}", "🌙", "\U{2B50}", "💧", "🔥", "💨",
    "🌲", "🌊", "\U{26F0}\U{FE0F}", "🌸", "🌳"]

  /** The keywords highlighted without an icon, in list order. */
  const PLAIN_KEYWORDS: seq<Keyword> := [
    "为什么", "怎么", "什么", "哪里", "什么时候", "多少",
    "重要", "有趣", "神奇", "美丽", "奇妙", "特别"]

  /** The text an icon keyword's occurrence becomes. */
  function IconMarkup(keyword: string, icon: string): string {
    HIGHLIGHT_OPEN + icon + " " + keyword + HIGHLIGHT_CLOSE
  }

  /** The text a plain keyword's occurrence becomes. */
  function PlainMarkup(keyword: string): string {
    HIGHLIGHT_OPEN + keyword + HIGHLIGHT_CLOSE
  }

  /** The text after the first `n` icon keywords have been applied, each to the
      result of the previous one. */
  function IconPass(text: string, n: nat): string
    requires n <= |ICON_KEYWORDS|
  {
    if n == 0 then text
    else
      ReplaceAll(IconPass(text, n - 1), ICON_KEYWORDS[n - 1], IconMarkup(ICON_KEYWORDS[n - 1], ICONS[n - 1]))
  }

  /** The text after the first `n` plain keywords have been applied. */
  function PlainPass(text: string, n: nat): string
    requires n <= |PLAIN_KEYWORDS|
  {
    if n == 0 then text
    else
      var keyword := PLAIN_KEYWORDS[n - 1];
      ReplaceAll(PlainPass(text, n - 1), keyword, PlainMarkup(keyword))
  }

  /** What `highlightKeywords(text)` returns: `''` for an empty text, otherwise the
      icon table and then the plain list applied in order. */
  function Highlighted(text: string): (r: string)
    ensures text == [] ==> r == []
  {
    if text == [] then [] else PlainPass(IconPass(text, |ICON_KEYWORDS|), |PLAIN_KEYWORDS|)
  }

  /** `highlightKeywords(text)`: the two `forEach` passes rewriting the text in place. */
  method HighlightKeywords(text: string) returns (r: string)
    ensures r == Highlighted(text)
    ensures text == [] ==> r == []
  {
    if text == [] {
      return [];
    }
    var highlighted := text;
    for i := 0 to |ICON_KEYWORDS|
      invariant highlighted == IconPass(text, i)
    {
      highlighted := ReplaceAll(highlighted, ICON_KEYWORDS[i], IconMarkup(ICON_KEYWORDS[i], ICONS[i]));
    }
    ghost var afterIcons := highlighted;
    for i := 0 to |PLAIN_KEYWORDS|
      invariant highlighted == PlainPass(afterIcons, i)
    {
      var keyword := PLAIN_KEYWORDS[i];
      highlighted := ReplaceAll(highlighted, keyword, PlainMarkup(keyword));
    }
    r := highlighted;
  }

  /** No keyword of the icon table occurs in the text. */
  predicate NoIconKeyword(text: string) {
    forall k :: 0 <= k < |ICON_KEYWORDS| ==> !Contains(text, ICON_KEYWORDS[k])
  }

  /** No keyword of the plain list occurs in the text. */
  predicate NoPlainKeyword(text: string) {
    forall k :: 0 <= k < |PLAIN_KEYWORDS| ==> !Contains(text, PLAIN_KEYWORDS[k])
  }

  lemma {:induction false} IconPassAbsent(text: string, n: nat)
    requires n <= |ICON_KEYWORDS| && NoIconKeyword(text)
    ensures IconPass(text, n) == text
  {
    if n > 0 {
      IconPassAbsent(text, n - 1);
      ReplaceAllAbsent(text, ICON_KEYWORDS[n - 1], IconMarkup(ICON_KEYWORDS[n - 1], ICONS[n - 1]));
    }
  }

  lemma {:induction false} PlainPassAbsent(text: string, n: nat)
    requires n <= |PLAIN_KEYWORDS| && NoPlainKeyword(text)
    ensures PlainPass(text, n) == text
  {
    if n > 0 {
      PlainPassAbsent(text, n - 1);
      var keyword := PLAIN_KEYWORDS[n - 1];
      ReplaceAllAbsent(text, keyword, PlainMarkup(keyword));
    }
  }

  /** A text that contains none of the keywords is shown as it is. */
  lemma NoKeywordUnchanged(text: string)
    requires NoIconKeyword(text) && NoPlainKeyword(text)
    ensures Highlighted(text) == text
  {
    IconPassAbsent(text, |ICON_KEYWORDS|);
    PlainPassAbsent(text, |PLAIN_KEYWORDS|);
  }

  // ---------------------------------------------------------------------------
  // The card's HTML (`formatCardContent`)

  const TITLE_OPEN: string := "<h1 class=\"card-title\">"
  const INTRO_OPEN: string := "<div class=\"card-intro\">"
  const POINTS_OPEN: string := "<div class=\"knowledge-points\">"

  /** `n` spaces of the template literals' indentation. */
  function Spaces(n: nat): (r: string)
    ensures |r| == n && forall k :: 0 <= k < n ==> r[k] == ' '
  {
    seq(n, _ => ' ')
  }

  function TitleHtml(title: string): (r: string)
    ensures r == [] <==> title == []
    ensures r != [] ==> StartsWith(r, TITLE_OPEN)
  {
    if title == [] then [] else TITLE_OPEN + Highlighted(title) + "</h1>"
  }

  function IntroHtml(intro: string): (r: string)
    ensures r == [] <==> intro == []
    ensures r != [] ==> StartsWith(r, INTRO_OPEN)
  {
    if intro == [] then [] else INTRO_OPEN + Highlighted(intro) + "</div>"
  }

  /** The point template literal around a highlighted title and content, with its
      indentation. */
  function PointMarkup(title: string, content: string): (r: string)
    ensures r != [] && r[0] == '\n'
  {
    "\n" + Spaces(20) + "<div class=\"knowledge-point\">\n"
    + Spaces(24) + "<h3 class=\"point-title\">" + title + "</h3>\n"
    + Spaces(24) + "<p class=\"point-content\">" + content + "</p>\n"
    + Spaces(20) + "</div>\n" + Spaces(16)
  }

  /** The block one point adds. */
  function PointHtml(p: Point): string {
    PointMarkup(Highlighted(p.title), Highlighted(p.content))
  }

  /** The blocks of the first `n` points, in order. */
  function PointBlocks(ps: seq<Point>, n: nat): string
    requires n <= |ps|
  {
    if n == 0 then [] else PointBlocks(ps, n - 1) + PointHtml(ps[n - 1])
  }

  function PointsHtml(ps: seq<Point>): (r: string)
    ensures r == [] <==> ps == []
    ensures r != [] ==> StartsWith(r, POINTS_OPEN)
  {
    if ps == [] then [] else POINTS_OPEN + PointBlocks(ps, |ps|) + "</div>"
  }

  /** The summary template literal around a highlighted summary. */
  function SummaryMarkup(summary: string): (r: string)
    ensures r != [] && r[0] == '\n'
  {
    "\n" + Spaces(16) + "<div class=\"card-summary\">\n"
    + Spaces(20) + "<div class=\"summary-icon\">💡</div>\n"
    + Spaces(20) + "<p class=\"summary-text\">" + summary + "</p>\n"
    + Spaces(16) + "</div>\n" + Spaces(12)
  }

  function SummaryHtml(summary: string): (r: string)
    ensures r == [] <==> summary == []
    ensures r != [] ==> r[0] == '\n'
  {
    if summary == [] then [] else SummaryMarkup(Highlighted(summary))
  }

  /** The HTML of a card: its sections in the order title, introduction, points,
      summary, each only when present. */
  function CardHtml(c: Card): (r: string)
    ensures r == [] <==> c.title == [] && c.introduction == [] && c.points == [] && c.summary == []
    ensures StartsWith(r, TITLE_OPEN) <==> c.title != []
  {
    var t, i, p, s := TitleHtml(c.title), IntroHtml(c.introduction), PointsHtml(c.points), SummaryHtml(c.summary);
    SectionsOpenWithTitle(t, i, p, s);
    assert |t + i + p + s| == |t| + |i| + |p| + |s|;
    t + i + p + s
  }

  /** Regrouping a concatenation, stated apart so the appending loops do not have
      to prove it by extensionality themselves. */
  lemma ConcatAssociates(a: string, b: string, c: string)
    ensures (a + b) + c == a + (b + c)
  {
  }

  /** `formatCardContent(cardData)`, appending to `html` section by section. */
  method FormatCardContent(c: Card) returns (html: string)
    ensures html == CardHtml(c)
  {
    html := [];
    if c.title != [] {
      var t := HighlightKeywords(c.title);
      html := html + (TITLE_OPEN + t + "</h1>");
      assert html == TitleHtml(c.title);
    }
    if c.introduction != [] {
      var t := HighlightKeywords(c.introduction);
      html := html + (INTRO_OPEN + t + "</div>");
    }
    assert html == TitleHtml(c.title) + IntroHtml(c.introduction);
    html := AppendPoints(html, c.points);
    if c.summary != [] {
      var t := HighlightKeywords(c.summary);
      html := html + SummaryMarkup(t);
    }
  }

  /** The points section of `formatCardContent`: the opening tag, the blocks and
      the closing tag, appended in that order. */
  method AppendPoints(html: string, ps: seq<Point>) returns (out: string)
    ensures out == html + PointsHtml(ps)
  {
    out := html;
    if |ps| > 0 {
      out := AppendPointBlocks(out + POINTS_OPEN, ps);
      ConcatAssociates(html, POINTS_OPEN, PointBlocks(ps, |ps|));
      ConcatAssociates(html, POINTS_OPEN + PointBlocks(ps, |ps|), "</div>");
      out := out + "</div>";
    }
  }

  /** The loop over the points, appending one block per point. */
  method AppendPointBlocks(html: string, ps: seq<Point>) returns (out: string)
    ensures out == html + PointBlocks(ps, |ps|)
  {
    out := html;
    for i := 0 to |ps|
      invariant out == html + PointBlocks(ps, i)
    {
      var title := HighlightKeywords(ps[i].title);
      var content := HighlightKeywords(ps[i].content);
      ConcatAssociates(html, PointBlocks(ps, i), PointMarkup(title, content));
      out := out + PointMarkup(title, content);
    }
  }

  /** Sections that open as the title, introduction, points and summary do put
      the title heading first exactly when the title section is there. */
  lemma SectionsOpenWithTitle(t: string, i: string, p: string, s: string)
    requires t == [] || StartsWith(t, TITLE_OPEN)
    requires i == [] || StartsWith(i, INTRO_OPEN)
    requires p == [] || StartsWith(p, POINTS_OPEN)
    requires s == [] || s[0] == '\n'
    ensures StartsWith(t + i + p + s, TITLE_OPEN) <==> t != []
  {
    var html := t + i + p + s;
    if t != [] {
      assert html[..|TITLE_OPEN|] == t[..|TITLE_OPEN|];
    } else if i != [] {
      assert html[1] == i[1] == INTRO_OPEN[1];
    } else if p != [] {
      assert html[1] == p[1] == POINTS_OPEN[1];
    } else if s != [] {
      assert html[0] == s[0];
    }
  }

  // ---------------------------------------------------------------------------
  // The message shown when a generation fails

  const BUSY: string := "抱歉，AI老师暂时有点忙，请稍后再试！"
  const TOO_FREQUENT: string := "请求太频繁了，请稍等一分钟再试哦！"
  const BAD_QUESTION: string := "问题格式不正确，请重新输入！"
  const TECHNICAL_PROBLEM: string := "AI老师遇到了技术问题，请稍后再试！"
  const NETWORK_PROBLEM: string := "网络连接有问题，请检查网络后重试！"

  /** The message for an error: the first of `429`, `400`, `500` and `网络` that the
      error's message contains decides, and anything else is the busy message. */
  function ErrorMessage(message: string): (r: string)
    ensures Contains(message, "429") ==> r == TOO_FREQUENT
    ensures !Contains(message, "429") && Contains(message, "400") ==> r == BAD_QUESTION
    ensures !Contains(message, "429") && !Contains(message, "400") && Contains(message, "500") ==>
      r == TECHNICAL_PROBLEM
    ensures (!Contains(message, "429") && !Contains(message, "400") && !Contains(message, "500")
      && Contains(message, "网络")) ==> r == NETWORK_PROBLEM
    ensures (!Contains(message, "429") && !Contains(message, "400") && !Contains(message, "500")
      && !Contains(message, "网络")) ==> r == BUSY
    ensures r in {BUSY, TOO_FREQUENT, BAD_QUESTION, TECHNICAL_PROBLEM, NETWORK_PROBLEM}
  {
    if Contains(message, "429") then TOO_FREQUENT
    else if Contains(message, "400") then BAD_QUESTION
    else if Contains(message, "500") then TECHNICAL_PROBLEM
    else if Contains(message, "网络") then NETWORK_PROBLEM
    else BUSY
  }

  const HTTP_ERROR_PREFIX: string := "HTTP error! status: "

  /** The message thrown for a reply that is not ok. */
  function HttpErrorText(status: int): string {
    HTTP_ERROR_PREFIX + IntToString(status)
  }

  predicate IsDigit(c: char) {
    '0' <= c <= '9'
  }

  /** A word of digits, as long as the digits after a digit-free prefix, occurs in
      the whole exactly when it is those digits. */
  lemma DigitWordAfterPrefix(p: string, d: string, w: string)
    requires forall k :: 0 <= k < |p| ==> !IsDigit(p[k])
    requires w != [] && |w| == |d| && forall k :: 0 <= k < |w| ==> IsDigit(w[k])
    ensures Contains(p + d, w) <==> d == w
  {
    ContainsAt(p + d, w);
    if d == w {
      assert (p + d)[|p|..|p| + |w|] == w;
      assert OccursAt(p + d, w, |p|);
    }
    if i :| OccursAt(p + d, w, i) {
      assert (p + d)[i] == w[0];
      assert i >= |p|;
      assert d == (p + d)[i..i + |w|];
    }
  }

  lemma DigitCharInjective(a: nat, b: nat)
    requires a < 10 && b < 10
    ensures DigitChar(a) == DigitChar(b) ==> a == b
  {
  }

  /** Two three-digit numbers are written alike exactly when they are equal. */
  lemma ThreeDigitTexts(n: nat, m: nat)
    requires 100 <= n < 1000 && 100 <= m < 1000
    ensures NatToString(n) == NatToString(m) <==> n == m
  {
    ThreeDigits(n);
    ThreeDigits(m);
    if NatToString(n) == NatToString(m) {
      DigitCharInjective(n / 100, m / 100);
      DigitCharInjective(n / 10 % 10, m / 10 % 10);
      DigitCharInjective(n % 10, m % 10);
      DigitsRebuild(n);
      DigitsRebuild(m);
    }
  }

  /** A three-digit number is its hundreds, tens and units put back together. */
  lemma DigitsRebuild(n: nat)
    requires n < 1000
    ensures n == n / 100 * 100 + n / 10 % 10 * 10 + n % 10
  {
  }

  /** The message for a three-digit status contains a three-digit word exactly
      when the status is written as that word. */
  lemma HttpErrorContains(status: int, w: nat)
    requires 100 <= status < 1000 && 100 <= w < 1000
    ensures Contains(HttpErrorText(status), NatToString(w)) <==> status == w
    ensures !Contains(HttpErrorText(status), "网络")
  {
    StatusWordInText(status, w);
    NoNetworkInHttpError(status);
  }

  /** The status text contains a three-digit word exactly when it is that status. */
  lemma StatusWordInText(status: nat, w: nat)
    requires 100 <= status < 1000 && 100 <= w < 1000
    ensures Contains(HTTP_ERROR_PREFIX + NatToString(status), NatToString(w)) <==> status == w
  {
    assert forall k :: 0 <= k < |HTTP_ERROR_PREFIX| ==> !IsDigit(HTTP_ERROR_PREFIX[k]);
    ThreeDigits(status);
    ThreeDigits(w);
    DigitWordAfterPrefix(HTTP_ERROR_PREFIX, NatToString(status), NatToString(w));
    ThreeDigitTexts(status, w);
  }

  /** The status text never mentions the network. */
  lemma NoNetworkInHttpError(status: nat)
    requires 100 <= status < 1000
    ensures !Contains(HTTP_ERROR_PREFIX + NatToString(status), "网络")
  {
    ThreeDigits(status);
    OccurrenceHasChars(HTTP_ERROR_PREFIX + NatToString(status), "网络", '网');
    assert '网' !in HTTP_ERROR_PREFIX;
  }

  /** A reply with a three-digit status that is not ok is shown as too frequent for
      429, a bad question for 400, a technical problem for 500, and busy otherwise. */
  lemma HttpErrorShown(status: int)
    requires 100 <= status < 1000
    ensures ErrorMessage(HttpErrorText(status)) ==
      if status == 429 then TOO_FREQUENT
      else if status == 400 then BAD_QUESTION
      else if status == 500 then TECHNICAL_PROBLEM
      else BUSY
  {
    assert NatToString(429) == "429" && NatToString(400) == "400" && NatToString(500) == "500";
    HttpErrorContains(status, 429);
    HttpErrorContains(status, 400);
    HttpErrorContains(status, 500);
  }

  // ---------------------------------------------------------------------------
  // The page (`KnowledgeCardApp`)

  const EMPTY_QUESTION_WARNING: string := "请输入你想了解的问题哦！"
  const GENERATION_FAILED: string := "生成失败"

  /** Which of the three panels is shown, and the card's HTML when it is the card. */
  datatype View = Welcome | Loading | CardShown(html: string)

  /** The toast `showMessage` raises, if any. */
  datatype Notice = NoNotice | Warning(text: string) | ErrorNotice(text: string)

  /** How the request to `/api/generate-card` ended: `fetch` or `response.json()`
      threw, the status was not ok, or the body was read. */
  datatype CardReply =
    | Rejected(message: string)
    | NotOk(status: int)
    | Answered(success: bool, card: Option<Card>, error: Option<string>)

  /** The message of the error a reply other than a successful card ends in. */
  function FailureMessage(reply: CardReply): string {
    match reply
    case Rejected(m) => m
    case NotOk(status) => HttpErrorText(status)
    case Answered(success, card, error) =>
      if success then TYPE_ERROR
      else if error.Some? && error.value != [] then error.value
      else GENERATION_FAILED
  }

  /** The page's state. `generateKnowledgeCard` awaits its request, so it is split in
      two: `Begin` runs up to the `fetch`, `Complete` from the reply to the
      `finally`; other submissions can arrive in between. */
  class KnowledgeCardApp {
    var currentQuestion: string
    var currentCard: Option<Card>
    var isGenerating: bool
    var view: View

    /** A generation is running exactly while the loading panel is shown. */
    predicate Valid()
      reads this
    {
      isGenerating <==> view == Loading
    }

    constructor ()
      ensures Valid()
      ensures currentQuestion == [] && currentCard.None? && !isGenerating && view == Welcome
    {
      currentQuestion := [];
      currentCard := None;
      isGenerating := false;
      view := Welcome;
    }

    /** The first half of `generateKnowledgeCard`: `setGeneratingState(true)` and
        the loading panel. */
    method Begin(question: string)
      modifies this
      ensures Valid()
      ensures isGenerating && view == Loading
      ensures currentQuestion == old(currentQuestion) && currentCard == old(currentCard)
    {
      isGenerating := true;
      view := Loading;
    }

    /** `handleQuestionSubmit()` with the input's value: returns the question whose
        request is sent, if any, and the toast it raises. */
    method HandleQuestionSubmit(input: string) returns (sent: Option<string>, notice: Notice)
      requires Valid()
      modifies this
      ensures Valid()
      ensures Trim(input) == [] ==>
        sent.None? && notice == Warning(EMPTY_QUESTION_WARNING) && unchanged(this)
      ensures Trim(input) != [] && old(isGenerating) ==> sent.None? && notice == NoNotice && unchanged(this)
      ensures Trim(input) != [] && !old(isGenerating) ==>
        sent == Some(Trim(input)) && notice == NoNotice
        && currentQuestion == Trim(input) && isGenerating && view == Loading
        && currentCard == old(currentCard)
    {
      var question := Trim(input);
      if question == [] {
        return None, Warning(EMPTY_QUESTION_WARNING);
      }
      if isGenerating {
        return None, NoNotice;
      }
      currentQuestion := question;
      Begin(question);
      return Some(question), NoNotice;
    }

    /** `regenerateCard()`: asks again for the current question, without looking
        at `isGenerating`. */
    method RegenerateCard() returns (sent: Option<string>)
      requires Valid()
      modifies this
      ensures Valid()
      ensures old(currentQuestion) == [] ==> sent.None? && unchanged(this)
      ensures old(currentQuestion) != [] ==>
        sent == Some(old(currentQuestion)) && isGenerating && view == Loading
        && currentQuestion == old(currentQuestion) && currentCard == old(currentCard)
    {
      if currentQuestion != [] {
        Begin(currentQuestion);
        return Some(currentQuestion);
      }
      return None;
    }

    /** The second half of `generateKnowledgeCard`: show the card, or the message
        for the error and the welcome panel; `isGenerating` ends false either way. */
    method Complete(reply: CardReply) returns (notice: Notice)
      modifies this
      ensures Valid() && !isGenerating
      ensures currentQuestion == old(currentQuestion)
      ensures reply.Answered? && reply.success && reply.card.Some? ==>
        currentCard == reply.card && view == CardShown(CardHtml(reply.card.value)) && notice == NoNotice
      ensures reply.Answered? && reply.success && reply.card.None? ==>
        currentCard.None? && view == Welcome && notice == ErrorNotice(BUSY)
      ensures !(reply.Answered? && reply.success) ==>
        currentCard == old(currentCard) && view == Welcome
        && notice == ErrorNotice(ErrorMessage(FailureMessage(reply)))
    {
      if reply.Answered? && reply.success {
        currentCard := reply.card;
        if reply.card.Some? {
          var html := FormatCardContent(reply.card.value);
          view := CardShown(html);
          notice := NoNotice;
        } else {
          TypeErrorShownAsBusy();
          notice := ErrorNotice(ErrorMessage(TYPE_ERROR));
          view := Welcome;
        }
      } else {
        notice := ErrorNotice(ErrorMessage(FailureMessage(reply)));
        view := Welcome;
      }
      isGenerating := false;
    }
  }

  /** An error thrown by the engine, such as reading a field of a missing card, is
      shown as the busy message. */
  lemma TypeErrorShownAsBusy()
    ensures ErrorMessage(TYPE_ERROR) == BUSY
  {
    var m := TYPE_ERROR;
    assert '4' !in m && '5' !in m && '网' !in m;
    OccurrenceHasChars(m, "429", '4');
    OccurrenceHasChars(m, "400", '4');
    OccurrenceHasChars(m, "500", '5');
    OccurrenceHasChars(m, "网络", '网');
  }

  /** A rate-limited request is shown as too frequent. */
  lemma RateLimitedShownAsTooFrequent()
    ensures ErrorMessage(FailureMessage(NotOk(429))) == TOO_FREQUENT
  {
    HttpErrorShown(429);
  }
}
