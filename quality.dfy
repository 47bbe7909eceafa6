/** The content-quality checker: the standards a knowledge card should meet, the
    list of issues a card raises against them, and the pass/fail verdict. */
module Quality {
  import opened JsText
  import opened Js
  import opened Cards
  import Glm
  import CardApi

  // ---------------------------------------------------------------------------
  // The standards (`qualityStandards`)

  const TITLE_MAX: nat := 15
  const INTRO_TARGET: nat := 40
  const INTRO_TOLERANCE: nat := 10
  const POINT_TITLE_MAX: nat := 12
  const CONTENT_MIN: nat := 80
  const CONTENT_MAX: nat := 120
  const SUMMARY_TARGET: nat := 30
  const SUMMARY_TOLERANCE: nat := 10
  const TOTAL_POINTS: nat := 3

  /** `Math.abs(a - b)`. */
  function Distance(a: int, b: int): nat {
    if a >= b then a - b else b - a
  }

  // ---------------------------------------------------------------------------
  // Emoji detection

  /** The eight code-point ranges of the checker's emoji expression. */
  predicate InEmojiRange(c: char) {
    ('\U{1F600}' <= c <= '\U{1F64F}') || ('\U{1F300}' <= c <= '\U{1F5FF}')
    || ('\U{1F680}' <= c <= '\U{1F6FF}') || ('\U{1F1E0}' <= c <= '\U{1F1FF}')
    || ('\U{2600}' <= c <= '\U{26FF}') || ('\U{2700}' <= c <= '\U{27BF}')
    || ('\U{1F900}' <= c <= '\U{1F9FF}') || ('\U{1FA70}' <= c <= '\U{1FAFF}')
  }

  predicate MatchesEmojiRanges(s: string) {
    exists i :: 0 <= i < |s| && InEmojiRange(s[i])
  }

  /** The emoji the checker also looks for by substring; the sun is written with
      its variation selector. */
  const COMMON_EMOJIS: seq<string> := [
    "🌟", "🦕", "🌍", "🦴", "🔍", "💡", "🪐", "\U{2600}\U{FE0F}",
    "🌈", "💧", "🎨", "🔬", "📚", "🎯"]

  /** `hasEmoji(text)`. */
  predicate HasEmoji(s: string) {
    MatchesEmojiRanges(s) || exists k :: 0 <= k < |COMMON_EMOJIS| && Contains(s, COMMON_EMOJIS[k])
  }

  /** Every listed common emoji starts with a code point of the ranges, so the
      list adds nothing to the expression. */
  lemma CommonEmojisAddNothing(s: string)
    ensures HasEmoji(s) <==> MatchesEmojiRanges(s)
  {
    if k :| 0 <= k < |COMMON_EMOJIS| && Contains(s, COMMON_EMOJIS[k]) {
      var e := COMMON_EMOJIS[k];
      assert InEmojiRange(e[0]) by {
        assert k in {0, 1, 2, 3, 4, 5, 6, 7, 8, 9, 10, 11, 12, 13};
      }
      ContainsAt(s, e);
      var i :| OccursAt(s, e, i);
      assert s[i] == s[i..i + |e|][0];
    }
  }

  /** Whatever the GLM client counts as an emoji the checker counts too: its six
      ranges are among the checker's eight. */
  lemma GlmEmojiCounts(s: string)
    ensures Glm.HasEmoji(s) ==> HasEmoji(s)
  {
    if Glm.HasEmoji(s) {
      var i :| 0 <= i < |s| && Glm.IsEmoji(s[i]);
      assert InEmojiRange(s[i]);
    }
  }

  // ---------------------------------------------------------------------------
  // Depth of a point

  const DEPTH_KEYWORDS: seq<string> := [
    "原理", "因为", "所以", "科学", "研究", "发现", "例如", "比如", "就像", "通过",
    "机制", "现象", "规律", "实验", "观察", "分析", "证明", "解释", "理论", "方法"]

  /** `/\d+/.test(text)`: an ASCII digit occurs. */
  predicate HasDigit(s: string) {
    exists i :: 0 <= i < |s| && '0' <= s[i] <= '9'
  }

  /** A point content with a depth keyword, a number, or one of 米, 度, 年. */
  predicate Deep(content: string) {
    (exists k :: 0 <= k < |DEPTH_KEYWORDS| && Contains(content, DEPTH_KEYWORDS[k]))
    || HasDigit(content) || Contains(content, "米") || Contains(content, "度") || Contains(content, "年")
  }

  // ---------------------------------------------------------------------------
  // Issues

  /** One line of `results.issues`; `number` is the 1-based position of a point. */
  datatype Issue =
    | TitleTooLong(length: nat)
    | TitleNoEmoji
    | IntroLength(length: nat)
    | PointCount(count: nat)
    | PointTitleTooLong(number: nat, length: nat)
    | PointTitleNoEmoji(number: nat)
    | ContentTooShort(number: nat, length: nat)
    | ContentTooLong(number: nat, length: nat)
    | Shallow(number: nat)
    | SummaryLength(length: nat)
    | SummaryNoEmoji

  /** The message the checker pushes for an issue. */
  function IssueText(issue: Issue): string {
    match issue
    case TitleTooLong(n) => "标题过长: " + NatToString(n) + "字 > 15字"
    case TitleNoEmoji => "标题缺少emoji"
    case IntroLength(n) => "引导语长度不合适: " + NatToString(n) + "字 (目标: 40±10字)"
    case PointCount(n) => "知识点数量错误: " + NatToString(n) + " ≠ 3"
    case PointTitleTooLong(i, n) => "知识点" + NatToString(i) + "标题过长: " + NatToString(n) + "字"
    case PointTitleNoEmoji(i) => "知识点" + NatToString(i) + "标题缺少emoji"
    case ContentTooShort(i, n) => "知识点" + NatToString(i) + "内容过短: " + NatToString(n) + "字 < 80字"
    case ContentTooLong(i, n) => "知识点" + NatToString(i) + "内容过长: " + NatToString(n) + "字 > 120字"
    case Shallow(i) => "知识点" + NatToString(i) + "缺乏深度解释"
    case SummaryLength(n) => "总结长度不合适: " + NatToString(n) + "字 (目标: 30±10字)"
    case SummaryNoEmoji => "总结缺少emoji"
  }

  /** Every issue but a shallow point fails the card. */
  predicate Blocking(issue: Issue) {
    !issue.Shallow?
  }

  predicate NoBlocking(issues: seq<Issue>) {
    forall k :: 0 <= k < |issues| ==> !Blocking(issues[k])
  }

  function TitleIssues(t: string): seq<Issue> {
    (if |t| > TITLE_MAX then [TitleTooLong(|t|)] else [])
    + (if !HasEmoji(t) then [TitleNoEmoji] else [])
  }

  function IntroIssues(t: string): seq<Issue> {
    if Distance(|t|, INTRO_TARGET) > INTRO_TOLERANCE then [IntroLength(|t|)] else []
  }

  function CountIssues(ps: seq<Point>): seq<Issue> {
    if |ps| != TOTAL_POINTS then [PointCount(|ps|)] else []
  }

  /** The issues of one point, at 1-based position `number`. */
  function PointIssues(p: Point, number: nat): seq<Issue> {
    (if |p.title| > POINT_TITLE_MAX then [PointTitleTooLong(number, |p.title|)] else [])
    + (if !HasEmoji(p.title) then [PointTitleNoEmoji(number)] else [])
    + (if |p.content| < CONTENT_MIN then [ContentTooShort(number, |p.content|)] else [])
    + (if |p.content| > CONTENT_MAX then [ContentTooLong(number, |p.content|)] else [])
    + (if !Deep(p.content) then [Shallow(number)] else [])
  }

  /** The issues of the first `n` points, in order. */
  function PointIssuesUpTo(ps: seq<Point>, n: nat): seq<Issue>
    requires n <= |ps|
  {
    if n == 0 then [] else PointIssuesUpTo(ps, n - 1) + PointIssues(ps[n - 1], n)
  }

  function SummaryIssues(s: string): seq<Issue> {
    (if Distance(|s|, SUMMARY_TARGET) > SUMMARY_TOLERANCE then [SummaryLength(|s|)] else [])
    + (if !HasEmoji(s) then [SummaryNoEmoji] else [])
  }

  /** All issues of a card: title, introduction, point count, the points in order,
      summary. */
  function CardIssues(c: Card): seq<Issue> {
    TitleIssues(c.title) + IntroIssues(c.introduction) + CountIssues(c.points)
    + PointIssuesUpTo(c.points, |c.points|) + SummaryIssues(c.summary)
  }

  // ---------------------------------------------------------------------------
  // The verdict

  predicate TitlePasses(t: string) {
    |t| <= TITLE_MAX && HasEmoji(t)
  }

  predicate PointPasses(p: Point) {
    |p.title| <= POINT_TITLE_MAX && HasEmoji(p.title) && CONTENT_MIN <= |p.content| <= CONTENT_MAX
  }

  /** The standards, stated directly: the card meets every length, count and emoji
      requirement; depth is advice only. */
  predicate Passes(c: Card) {
    TitlePasses(c.title)
    && Distance(|c.introduction|, INTRO_TARGET) <= INTRO_TOLERANCE
    && |c.points| == TOTAL_POINTS
    && (forall k :: 0 <= k < |c.points| ==> PointPasses(c.points[k]))
    && Distance(|c.summary|, SUMMARY_TARGET) <= SUMMARY_TOLERANCE && HasEmoji(c.summary)
  }

  lemma NoBlockingConcat(a: seq<Issue>, b: seq<Issue>)
    ensures NoBlocking(a + b) <==> NoBlocking(a) && NoBlocking(b)
  {
    if NoBlocking(a) && NoBlocking(b) {
      forall k | 0 <= k < |a + b| ensures !Blocking((a + b)[k]) {
        if k >= |a| {
          assert (a + b)[k] == b[k - |a|];
        }
      }
    }
    if NoBlocking(a + b) {
      forall k | 0 <= k < |b| ensures !Blocking(b[k]) {
        assert (a + b)[|a| + k] == b[k];
      }
      forall k | 0 <= k < |a| ensures !Blocking(a[k]) {
        assert (a + b)[k] == a[k];
      }
    }
  }

  /** A one-issue list is free of failing issues exactly when its issue is not one. */
  lemma NoBlockingSingle(issue: Issue)
    ensures NoBlocking([issue]) <==> !Blocking(issue)
  {
    assert [issue][0] == issue;
  }

  /** A point raises a failing issue exactly when it misses a standard. */
  lemma PointIssuesBlock(p: Point, number: nat)
    ensures NoBlocking(PointIssues(p, number)) <==> PointPasses(p)
  {
    var a := if |p.title| > POINT_TITLE_MAX then [PointTitleTooLong(number, |p.title|)] else [];
    var b := if !HasEmoji(p.title) then [PointTitleNoEmoji(number)] else [];
    var c := if |p.content| < CONTENT_MIN then [ContentTooShort(number, |p.content|)] else [];
    var d := if |p.content| > CONTENT_MAX then [ContentTooLong(number, |p.content|)] else [];
    var e := if !Deep(p.content) then [Shallow(number)] else [];
    assert PointIssues(p, number) == a + b + c + d + e;
    NoBlockingSingle(PointTitleTooLong(number, |p.title|));
    NoBlockingSingle(PointTitleNoEmoji(number));
    NoBlockingSingle(ContentTooShort(number, |p.content|));
    NoBlockingSingle(ContentTooLong(number, |p.content|));
    NoBlockingSingle(Shallow(number));
    NoBlockingConcat(a + b + c + d, e);
    NoBlockingConcat(a + b + c, d);
    NoBlockingConcat(a + b, c);
    NoBlockingConcat(a, b);
  }

  lemma {:induction false} PointIssuesUpToBlock(ps: seq<Point>, n: nat)
    requires n <= |ps|
    ensures NoBlocking(PointIssuesUpTo(ps, n)) <==> forall k :: 0 <= k < n ==> PointPasses(ps[k])
  {
    if n > 0 {
      PointIssuesUpToBlock(ps, n - 1);
      PointIssuesBlock(ps[n - 1], n);
      NoBlockingConcat(PointIssuesUpTo(ps, n - 1), PointIssues(ps[n - 1], n));
    }
  }

  /** The card passes exactly when none of its issues is a failing one: a shallow
      point is reported but never fails the card. */
  lemma PassesIffNoBlockingIssue(c: Card)
    ensures Passes(c) <==> NoBlocking(CardIssues(c))
  {
    var t := TitleIssues(c.title);
    var i := IntroIssues(c.introduction);
    var n := CountIssues(c.points);
    var p := PointIssuesUpTo(c.points, |c.points|);
    var s := SummaryIssues(c.summary);
    NoBlockingConcat(t + i + n + p, s);
    NoBlockingConcat(t + i + n, p);
    NoBlockingConcat(t + i, n);
    NoBlockingConcat(t, i);
    PointIssuesUpToBlock(c.points, |c.points|);
    var t1 := if |c.title| > TITLE_MAX then [TitleTooLong(|c.title|)] else [];
    var t2 := if !HasEmoji(c.title) then [TitleNoEmoji] else [];
    NoBlockingConcat(t1, t2);
    NoBlockingSingle(TitleTooLong(|c.title|));
    NoBlockingSingle(TitleNoEmoji);
    NoBlockingSingle(IntroLength(|c.introduction|));
    NoBlockingSingle(PointCount(|c.points|));
    NoBlockingSingle(SummaryLength(|c.summary|));
    NoBlockingSingle(SummaryNoEmoji);
    var s1 := if Distance(|c.summary|, SUMMARY_TARGET) > SUMMARY_TOLERANCE then [SummaryLength(|c.summary|)] else [];
    var s2 := if !HasEmoji(c.summary) then [SummaryNoEmoji] else [];
    NoBlockingConcat(s1, s2);
  }

  // ---------------------------------------------------------------------------
  // Scores kept as integers

  /** `scores.title`. */
  function TitleScore(t: string): (s: int)
    ensures s == 0 || s == 100
    ensures s == 100 <==> TitleIssues(t) == []
  {
    if TitlePasses(t) then 100 else 0
  }

  /** `scores.introduction`: 100 at the target length, 5 less per character of distance. */
  function IntroScore(t: string): (s: int)
    ensures 0 <= s <= 100
    ensures s == 100 <==> |t| == INTRO_TARGET
    ensures Distance(|t|, INTRO_TARGET) <= INTRO_TOLERANCE ==> s >= 50
  {
    var raw := 100 - Distance(|t|, INTRO_TARGET) * 5;
    if raw < 0 then 0 else raw
  }

  /** The score of one point: 100 less 20, 20, 30, 20 and 30 for the five
      checks it fails, and never below 0. */
  function PointScore(p: Point): (s: int)
    ensures 0 <= s <= 100
    ensures s == 100 <==> PointPasses(p) && Deep(p.content)
  {
    var lost := (if |p.title| > POINT_TITLE_MAX then 20 else 0)
      + (if !HasEmoji(p.title) then 20 else 0)
      + (if |p.content| < CONTENT_MIN then 30 else 0)
      + (if |p.content| > CONTENT_MAX then 20 else 0)
      + (if !Deep(p.content) then 30 else 0);
    if 100 - lost < 0 then 0 else 100 - lost
  }

  /** What `validateCardQuality` returns; the averaged and floating-point scores
      are not kept. */
  datatype Report = Report(
    question: string,
    passed: bool,
    issues: seq<Issue>,
    titleScore: int,
    introScore: int,
    pointScores: seq<int>)

  /** The checks of one point, at 1-based position `number`: the issues it
      pushes, whether it clears `passed`, and its score. */
  method CheckPoint(p: Point, number: nat) returns (found: seq<Issue>, failed: bool, score: int)
    ensures found == PointIssues(p, number)
    ensures failed <==> !PointPasses(p)
    ensures score == PointScore(p)
  {
    found, failed, score := [], false, 100;
    if |p.title| > POINT_TITLE_MAX {
      found := found + [PointTitleTooLong(number, |p.title|)];
      failed := true;
      score := score - 20;
    }
    if !HasEmoji(p.title) {
      found := found + [PointTitleNoEmoji(number)];
      failed := true;
      score := score - 20;
    }
    var contentLength := |p.content|;
    if contentLength < CONTENT_MIN {
      found := found + [ContentTooShort(number, contentLength)];
      failed := true;
      score := score - 30;
    }
    if contentLength > CONTENT_MAX {
      found := found + [ContentTooLong(number, contentLength)];
      failed := true;
      score := score - 20;
    }
    if !Deep(p.content) {
      found := found + [Shallow(number)];
      score := score - 30;
    }
    score := if score < 0 then 0 else score;
  }

  /** The two title checks: the issues they push and whether they clear `passed`. */
  method CheckTitle(t: string) returns (found: seq<Issue>, failed: bool)
    ensures found == TitleIssues(t)
    ensures failed <==> !TitlePasses(t)
  {
    found, failed := [], false;
    if |t| > TITLE_MAX {
      found := found + [TitleTooLong(|t|)];
      failed := true;
    }
    if !HasEmoji(t) {
      found := found + [TitleNoEmoji];
      failed := true;
    }
  }

  /** The per-point checks of the `forEach`, over all points in order. */
  method CheckPoints(ps: seq<Point>) returns (found: seq<Issue>, failed: bool, scores: seq<int>)
    ensures found == PointIssuesUpTo(ps, |ps|)
    ensures failed <==> exists k :: 0 <= k < |ps| && !PointPasses(ps[k])
    ensures |scores| == |ps| && forall k :: 0 <= k < |ps| ==> scores[k] == PointScore(ps[k])
  {
    found, failed, scores := [], false, [];
    for i := 0 to |ps|
      invariant PointsChecked(ps, i, found, failed, scores)
    {
      var issues, pointFailed, score := CheckPoint(ps[i], i + 1);
      PointsCheckedStep(ps, i, found, failed, scores, issues, pointFailed, score);
      if pointFailed {
        failed := true;
      }
      found := found + issues;
      scores := scores + [score];
    }
  }

  /** What checking the first `i` points has gathered: their issues in order,
      whether one of them failed, and their scores. */
  predicate PointsChecked(ps: seq<Point>, i: nat, found: seq<Issue>, failed: bool, scores: seq<int>)
    requires i <= |ps|
  {
    found == PointIssuesUpTo(ps, i)
    && (failed <==> exists k :: 0 <= k < i && !PointPasses(ps[k]))
    && |scores| == i && forall k :: 0 <= k < i ==> scores[k] == PointScore(ps[k])
  }

  /** Checking one more point extends what was gathered by that point's results. */
  lemma PointsCheckedStep(ps: seq<Point>, i: nat, found: seq<Issue>, failed: bool, scores: seq<int>,
                          issues: seq<Issue>, pointFailed: bool, score: int)
    requires i < |ps| && PointsChecked(ps, i, found, failed, scores)
    requires issues == PointIssues(ps[i], i + 1) && (pointFailed <==> !PointPasses(ps[i]))
    requires score == PointScore(ps[i])
    ensures PointsChecked(ps, i + 1, found + issues, failed || pointFailed, scores + [score])
  {
    FailedStep(ps, i, failed, pointFailed);
    ScoresStep(ps, i, scores, score);
  }

  /** One more point fails the check exactly when it or an earlier one fails. */
  lemma FailedStep(ps: seq<Point>, i: nat, failed: bool, pointFailed: bool)
    requires i < |ps| && (failed <==> exists k :: 0 <= k < i && !PointPasses(ps[k]))
    requires pointFailed <==> !PointPasses(ps[i])
    ensures failed || pointFailed <==> exists k :: 0 <= k < i + 1 && !PointPasses(ps[k])
  {
    if !pointFailed {
      assert forall k :: 0 <= k < i + 1 && !PointPasses(ps[k]) ==> k < i;
    }
  }

  /** The scores grow by the score of the point just checked. */
  lemma ScoresStep(ps: seq<Point>, i: nat, scores: seq<int>, score: int)
    requires i < |ps| && |scores| == i && forall k :: 0 <= k < i ==> scores[k] == PointScore(ps[k])
    requires score == PointScore(ps[i])
    ensures |scores + [score]| == i + 1 && forall k :: 0 <= k < i + 1 ==> (scores + [score])[k] == PointScore(ps[k])
  {
    assert (scores + [score])[i] == score;
  }

  /** The two summary checks. */
  method CheckSummary(s: string) returns (found: seq<Issue>, failed: bool)
    ensures found == SummaryIssues(s)
    ensures failed <==> !(Distance(|s|, SUMMARY_TARGET) <= SUMMARY_TOLERANCE && HasEmoji(s))
  {
    found, failed := [], false;
    if Distance(|s|, SUMMARY_TARGET) > SUMMARY_TOLERANCE {
      found := found + [SummaryLength(|s|)];
      failed := true;
    }
    if !HasEmoji(s) {
      found := found + [SummaryNoEmoji];
      failed := true;
    }
  }

  /** `validateCardQuality(card, question)`: the checks in order, pushing issues
      and clearing `passed` as they fire. */
  method ValidateCardQuality(card: Card, question: string) returns (r: Report)
    ensures r.question == question
    ensures r.issues == CardIssues(card)
    ensures r.passed == Passes(card)
    ensures r.titleScore == TitleScore(card.title) && r.introScore == IntroScore(card.introduction)
    ensures |r.pointScores| == |card.points|
    ensures forall k :: 0 <= k < |card.points| ==> r.pointScores[k] == PointScore(card.points[k])
  {
    var issues: seq<Issue> := [];
    var passed := true;

    var found, failed := CheckTitle(card.title);
    issues := issues + found;
    assert issues == found;
    passed := passed && !failed;
    var titleScore := if |card.title| <= TITLE_MAX && HasEmoji(card.title) then 100 else 0;

    var introLength := |card.introduction|;
    if Distance(introLength, INTRO_TARGET) > INTRO_TOLERANCE {
      issues := issues + [IntroLength(introLength)];
      passed := false;
    }
    assert issues == TitleIssues(card.title) + IntroIssues(card.introduction);
    var introScore := IntroScore(card.introduction);

    if |card.points| != TOTAL_POINTS {
      issues := issues + [PointCount(|card.points|)];
      passed := false;
    }
    assert issues == TitleIssues(card.title) + IntroIssues(card.introduction) + CountIssues(card.points);

    var pointFound, pointFailed, pointScores := CheckPoints(card.points);
    issues := issues + pointFound;
    passed := passed && !pointFailed;

    var summaryFound, summaryFailed := CheckSummary(card.summary);
    issues := issues + summaryFound;
    passed := passed && !summaryFailed;
    r := Report(question, passed, issues, titleScore, introScore, pointScores);
  }

  // ---------------------------------------------------------------------------
  // The checker run over the templates (`testMockDataQuality`)

  /** The number of cards in `cards` that pass. */
  function PassingCount(cards: seq<Card>): (n: nat)
    ensures n <= |cards|
  {
    if cards == [] then 0
    else PassingCount(cards[..|cards| - 1]) + (if Passes(cards[|cards| - 1]) then 1 else 0)
  }

  /** Every card passes exactly when the count of passing cards is the count of cards. */
  lemma {:induction false} AllPassIffFullCount(cards: seq<Card>)
    ensures PassingCount(cards) == |cards| <==> forall k :: 0 <= k < |cards| ==> Passes(cards[k])
  {
    if cards != [] {
      var init := cards[..|cards| - 1];
      AllPassIffFullCount(init);
      assert forall k :: 0 <= k < |init| ==> init[k] == cards[k];
    }
  }

  /** `testMockDataQuality()` over keyword/card entries: the counters of tests run
      and passed. The average of the floating-point totals is not modelled. */
  method TestMockDataQuality(templates: seq<(string, Card)>) returns (passedTests: nat, totalTests: nat)
    ensures totalTests == |templates|
    ensures passedTests == PassingCount(CardsOf(templates))
  {
    passedTests, totalTests := 0, 0;
    for i := 0 to |templates|
      invariant totalTests == i
      invariant passedTests == PassingCount(CardsOf(templates)[..i])
    {
      var (keyword, card) := templates[i];
      totalTests := totalTests + 1;
      var result := ValidateCardQuality(card, "关于" + keyword + "的问题");
      assert CardsOf(templates)[..i + 1][..i] == CardsOf(templates)[..i];
      if result.passed {
        passedTests := passedTests + 1;
      }
    }
    assert CardsOf(templates)[..|templates|] == CardsOf(templates);
  }

  function CardsOf(templates: seq<(string, Card)>): (cs: seq<Card>)
    ensures |cs| == |templates| && forall k :: 0 <= k < |templates| ==> cs[k] == templates[k].1
  {
    seq(|templates|, k requires 0 <= k < |templates| => templates[k].1)
  }

  // ---------------------------------------------------------------------------
  // The checker applied to the cards the services produce

  /** The dinosaur card the checker carries as its own sample. */
  const SAMPLE_CARD: Card := Card(
    "🦕 恐龙的神秘世界",
    "小朋友，恐龙是地球历史上最神奇的生物！让我们一起探索这些远古巨兽的科学秘密吧！",
    [ Point("🌍 远古时代", "恐龙生活在中生代，距今约2.3亿到6500万年前。那时地球气候温暖湿润，到处都是茂密的森林。恐龙就像现在的鸟类和哺乳动物一样，是当时地球的主人。想象一下，如果你能穿越时空，会看到巨大的蕨类植物和在其中穿行的各种恐龙！"),
      Point("🦴 多样物种", "恐龙有1000多种，大小差别很大。最小的恐龙只有鸡那么大，最大的长颈龙身长可达35米！有些恐龙吃植物，牙齿像磨盘一样平；有些吃肉，牙齿像锯子一样尖。科学家通过研究恐龙化石的牙齿形状，就能知道它们吃什么食物。"),
      Point("🔍 灭绝之谜", "6500万年前，一颗直径10公里的小行星撞击地球，引发了巨大的爆炸和火灾。大量尘埃遮住了阳光，植物无法进行光合作用，食物链断裂，恐龙因此灭绝。但是，恐龙并没有完全消失，鸟类就是恐龙的后代！") ],
    "💡 恐龙虽然灭绝了，但科学让我们能够重新认识这些远古生物的精彩世界！",
    None)

  /** A text that starts with a code point of the ranges has an emoji. */
  lemma LeadingEmoji(s: string)
    requires s != [] && InEmojiRange(s[0])
    ensures HasEmoji(s)
  {
  }

  /** The sample card meets every standard, so the script's run reports one
      passing test out of one. */
  lemma SampleCardPasses()
    ensures Passes(SAMPLE_CARD)
    ensures PassingCount([SAMPLE_CARD]) == 1
  {
    var c := SAMPLE_CARD;
    LeadingEmoji(c.title);
    LeadingEmoji(c.summary);
    LeadingEmoji(c.points[0].title);
    LeadingEmoji(c.points[1].title);
    LeadingEmoji(c.points[2].title);
    assert forall k :: 0 <= k < |c.points| ==> PointPasses(c.points[k]) by {
      assert PointPasses(c.points[0]) && PointPasses(c.points[1]) && PointPasses(c.points[2]);
    }
    assert [SAMPLE_CARD][..0] == [];
  }

  /** Every card the mock generator can return has a first point shorter than the
      checker's minimum, starting from template position `from`. */
  lemma {:induction false} TemplatesTooShort(question: string, from: nat)
    requires from <= |CardApi.TEMPLATE_KEYWORDS|
    ensures var c := CardApi.FirstTemplate(question, from);
      |c.points| == 3 && |c.points[0].content| < CONTENT_MIN
    decreases |CardApi.TEMPLATE_KEYWORDS| - from
  {
    if from < |CardApi.TEMPLATE_KEYWORDS| {
      TemplatesTooShort(question, from + 1);
    }
  }

  /** No card the mock generator returns passes the checker: its first point is
      shorter than the minimum. */
  lemma MockCardsFail(question: string)
    ensures !Passes(CardApi.MockCard(question))
    ensures |CardApi.MockCard(question).points[0].content| < CONTENT_MIN
  {
    TemplatesTooShort(question, 0);
    var c := CardApi.MockCard(question);
    assert !PointPasses(c.points[0]);
  }

  /** The constant card the GLM client falls back to fails the checker: its
      point contents are shorter than 80 characters. */
  lemma FallbackCardFails()
    ensures !Passes(Glm.FallbackCard())
  {
    var c := Glm.FallbackCard();
    assert |c.points[0].content| < CONTENT_MIN;
    assert !PointPasses(c.points[0]);
  }
}
