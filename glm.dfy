/** The GLM text client: the request outcome checks and the normaliser that
    turns the model's reply into a knowledge card (strict JSON, then line-based
    extraction, then a fixed fallback card). */
module Glm {
  import opened JsText
  import opened Js
  import opened Cards

  // ---------------------------------------------------------------------------
  // Character-level helpers

  /** The six code-point ranges of the client's emoji test. */
  predicate IsEmoji(c: char) {
    ('\U{1F600}' <= c <= '\U{1F64F}') || ('\U{1F300}' <= c <= '\U{1F5FF}')
    || ('\U{1F680}' <= c <= '\U{1F6FF}') || ('\U{1F1E0}' <= c <= '\U{1F1FF}')
    || ('\U{2600}' <= c <= '\U{26FF}') || ('\U{2700}' <= c <= '\U{27BF}')
  }

  /** `hasEmoji(text)`. */
  predicate HasEmoji(s: string) {
    exists i :: 0 <= i < |s| && IsEmoji(s[i])
  }

  /** A joined text has an emoji exactly when one of its parts has. */
  lemma EmojiConcat(a: string, b: string)
    ensures HasEmoji(a + b) <==> HasEmoji(a) || HasEmoji(b)
  {
    var s := a + b;
    if HasEmoji(s) {
      var i :| 0 <= i < |s| && IsEmoji(s[i]);
      if i < |a| {
        assert a[i] == s[i];
      } else {
        assert b[i - |a|] == s[i];
      }
    }
    if HasEmoji(a) {
      var i :| 0 <= i < |a| && IsEmoji(a[i]);
      assert s[i] == a[i];
    }
    if HasEmoji(b) {
      var i :| 0 <= i < |b| && IsEmoji(b[i]);
      assert s[|a| + i] == b[i];
    }
  }

  /** A text that starts with an emoji has one. */
  lemma EmojiPrefix(e: string, s: string)
    requires e != [] && IsEmoji(e[0])
    ensures HasEmoji(e + s)
  {
    assert (e + s)[0] == e[0];
  }

  /** Drops at most `n` leading `#`. */
  function DropHashes(s: string, n: nat): (r: string)
    ensures |r| <= |s| && r == s[|s| - |r|..]
    ensures n > 0 && s != [] && s[0] == '#' ==> |r| < |s|
  {
    if n == 0 || s == [] || s[0] != '#' then s else DropHashes(s[1..], n - 1)
  }

  /** `.replace(/#{1,6}\s*\/g, '')`: each run of one to six `#` is removed with the
      whitespace that follows it. */
  function StripHeadings(s: string): (r: string)
    ensures '#' !in r
    decreases |s|
  {
    if s == [] then []
    else if s[0] == '#' then StripHeadings(TrimStart(DropHashes(s, 6)))
    else [s[0]] + StripHeadings(s[1..])
  }

  /** Text without `#` passes through the heading stripper unchanged. */
  lemma {:induction false} StripHeadingsNoHash(s: string)
    requires '#' !in s
    ensures StripHeadings(s) == s
    decreases |s|
  {
    if s != [] {
      StripHeadingsNoHash(s[1..]);
      assert [s[0]] + s[1..] == s;
    }
  }

  const MAX_CLEAN_LENGTH: nat := 500

  /** `cleanText(text)`: `''` for a non-string; otherwise trimmed, every `**`
      then every `*` removed, heading markers removed, and cut to 500 characters. */
  function CleanText(v: Json): (r: string)
    ensures !v.JStr? ==> r == []
    ensures |r| <= MAX_CLEAN_LENGTH && '*' !in r && '#' !in r
  {
    match v
    case JStr(s) => CleanString(s)
    case _ => []
  }

  /** The string case of `cleanText`. */
  function CleanString(s: string): (r: string)
    ensures |r| <= MAX_CLEAN_LENGTH && '*' !in r && '#' !in r
  {
    var noStars := ReplaceAll(ReplaceAll(Trim(s), "**", ""), "*", "");
    ReplaceCharRemoves(ReplaceAll(Trim(s), "**", ""), '*', "");
    var noHeads := StripHeadings(noStars);
    assert '*' !in noHeads by { StripHeadingsKeepsAbsent(noStars, '*'); }
    Take(noHeads, MAX_CLEAN_LENGTH)
  }

  /** Stripping headings never introduces a character that was absent. */
  lemma {:induction false} StripHeadingsKeepsAbsent(s: string, c: char)
    requires c !in s
    ensures c !in StripHeadings(s)
    decreases |s|
  {
    if s != [] {
      if s[0] == '#' {
        StripHeadingsKeepsAbsent(TrimStart(DropHashes(s, 6)), c);
      } else {
        StripHeadingsKeepsAbsent(s[1..], c);
      }
    }
  }

  /** Text that `cleanText` keeps as it is and that `||` does not replace: not
      empty, no whitespace at either end, no `*`, no `#`, at most 500 characters. */
  predicate Tidy(s: string) {
    s != [] && !IsSpace(s[0]) && !IsSpace(s[|s| - 1])
    && '*' !in s && '#' !in s && |s| <= MAX_CLEAN_LENGTH
  }

  /** Tidy text is returned unchanged by `cleanText`. */
  lemma CleanTextKeepsCleanText(s: string)
    requires Tidy(s)
    ensures CleanText(JStr(s)) == s
  {
    TrimUntouched(s);
    StarsAbsentKept(s);
    StripHeadingsNoHash(s);
    assert StripHeadings(ReplaceAll(ReplaceAll(Trim(s), "**", ""), "*", "")) == s;
  }

  /** Removing `**` and then `*` changes nothing in a text without `*`. */
  lemma StarsAbsentKept(s: string)
    requires '*' !in s
    ensures ReplaceAll(ReplaceAll(s, "**", ""), "*", "") == s
  {
    ContainsChar(s, '*');
    AbsentCharNoOccurrence(s, "**", '*');
    ReplaceAllAbsent(s, "**", "");
    ReplaceAllAbsent(s, "*", "");
  }

  /** A word holding a character that the text lacks does not occur in it. */
  lemma AbsentCharNoOccurrence(s: string, w: string, c: char)
    requires c !in s && c in w
    ensures !Contains(s, w)
  {
    ContainsAt(s, w);
    var m :| 0 <= m < |w| && w[m] == c;
    forall i | 0 <= i <= |s| - |w| ensures !OccursAt(s, w, i) {
      assert s[i..i + |w|][m] == s[i + m];
    }
  }

  /** `ensureLength(text, maxLength)`: text over the cap is cut to `maxLength - 3`
      characters followed by `...`. */
  function EnsureLength(text: string, maxLength: nat): (r: string)
    ensures |text| <= maxLength ==> r == text
    ensures |text| > maxLength && maxLength >= 3 ==>
      |r| == maxLength && r[..maxLength - 3] == text[..maxLength - 3] && r[maxLength - 3..] == "..."
  {
    if |text| > maxLength then Take(text, if maxLength >= 3 then maxLength - 3 else 0) + "..." else text
  }

  /** A marker of at most `maxLength - 3` characters in front of a text stays in
      front after `ensureLength`. */
  lemma MarkerKept(m: string, t: string, maxLength: nat)
    requires |m| + 3 <= maxLength
    ensures StartsWith(EnsureLength(m + t, maxLength), m)
  {
    var s := m + t;
    assert s[..|m|] == m;
    if |s| > maxLength {
      assert EnsureLength(s, maxLength)[..|m|] == s[..maxLength - 3][..|m|];
    }
  }

  /** A text that starts with an emoji marker has an emoji. */
  lemma EmojiMarked(r: string, m: string)
    requires m != [] && IsEmoji(m[0]) && StartsWith(r, m)
    ensures HasEmoji(r)
  {
    assert r[0] == r[..|m|][0];
  }

  /** A text opening with `小朋友，` addresses the child. */
  lemma GreetingAddresses(r: string)
    requires StartsWith(r, "小朋友，")
    ensures Addressed(r)
  {
    assert r[..3] == "小朋友";
  }

  const SUPPLEMENTS: seq<string> := [
    "这个现象背后有着有趣的科学原理。科学家们通过长期观察和研究，发现了其中的奥秘。",
    "在我们的日常生活中，可以观察到很多类似的例子。这些现象都遵循着相同的科学规律。",
    "这个知识不仅有趣，还很实用。了解了这个原理，我们就能更好地理解周围的世界。"
  ]

  /** `validateContentDepth(content, index)`: content under 60 characters gets the
      supplement for its position appended; content over 120 is cut to 117 plus `...`. */
  function ValidateContentDepth(content: string, index: nat): (r: string)
    ensures |r| <= 120
    ensures 60 <= |content| <= 120 ==> r == content
    ensures |content| < 60 ==> r == content + SUPPLEMENTS[index % 3]
    ensures |content| > 120 ==> r == content[..117] + "..."
  {
    var padded := if |content| < 60 then content + SUPPLEMENTS[index % |SUPPLEMENTS|] else content;
    if |padded| > 120 then Take(padded, 117) + "..." else padded
  }

  /** The three kinds of text `expandContent` is asked to expand. */
  datatype Expansion = Basics | Exploring | Applying

  function ExpansionText(kind: Expansion): string {
    match kind
    case Basics => BASICS_EXPANSION
    case Exploring => EXPLORING_EXPANSION
    case Applying => APPLYING_EXPANSION
  }

  const BASICS_EXPANSION: string := "这个概念很重要，它帮助我们理解世界的运作方式。科学家们通过仔细观察和研究，发现了其中的规律。"
  const EXPLORING_EXPANSION: string := "深入了解这个现象，我们会发现更多有趣的细节。就像拼图一样，每个小知识都是完整图画的一部分。"
  const APPLYING_EXPANSION: string := "这些知识在我们的生活中很有用。了解了原理，我们就能更好地解释身边发生的事情。"

  /** `expandContent(originalContent, type)`: text under 80 characters gets the
      expansion for its kind appended; the result is capped at 120 with `...`. */
  function ExpandContent(original: string, kind: Expansion): (r: string)
    ensures |r| <= 120
    ensures 80 <= |original| <= 120 ==> r == original
    ensures |original| > 120 ==> r == original[..117] + "..."
    ensures |original| < 80 ==> StartsWith(r, Take(original, 117))
  {
    var content := if |original| < 80 then original + ExpansionText(kind) else original;
    if |content| > 120 then Take(content, 117) + "..." else content
  }

  // ---------------------------------------------------------------------------
  // The three extraction paths

  /** The card `generateKnowledgeCard` falls back to when the reply cannot be read. */
  const FALLBACK_CARD: Card := Card(
      "🌟 知识探索小课堂",
      "小朋友，虽然AI老师遇到了技术问题，但学习的热情不能停！让我们一起探索知识的奥秘吧！",
      [ Point("📚 学习方法", "遇到不懂的问题时，可以问老师、家长或查阅书籍。每个问题都是学习的好机会，通过多种方式寻找答案，我们会学到更多知识。记住，没有愚蠢的问题，只有不问问题的遗憾！"),
        Point("🔍 探索精神", "保持好奇心是学习最重要的品质。世界上有无数有趣的现象等待我们去发现。就像科学家一样，我们要勇敢地提出问题，仔细观察周围的事物，用心思考其中的原理。"),
        Point("🎯 持续成长", "每天学一点新知识，就像小树苗每天长高一点点。知识会让我们的大脑变得更聪明，帮助我们更好地理解这个美妙的世界。学习是一场永不结束的冒险！") ],
      "💡 虽然这次遇到了小问题，但学习的脚步永远不会停止！保持好奇心，继续探索吧！",
      None)

  /** `createFallbackCard(content)`: a fixed card whatever the content. */
  function FallbackCard(): (c: Card)
    ensures |c.points| == 3 && c.source.None? && Capped(c.points)
  {
    FALLBACK_CARD
  }

  /** `lines.slice(a, b).join(' ') || fallback` for the slices of at most two
      lines the text path takes. */
  function JoinOr(lines: seq<string>, fallback: string): string
    requires |lines| <= 2
  {
    var joined := if lines == [] then [] else if |lines| == 1 then lines[0] else lines[0] + " " + lines[1];
    if joined == [] then fallback else joined
  }

  /** On the short slices it is given, `JoinOr` is `join(' ')` followed by `|| fallback`. */
  lemma JoinOrIsJoin(lines: seq<string>, fallback: string)
    requires |lines| <= 2
    ensures JoinOr(lines, fallback) == if Join(lines, " ") == [] then fallback else Join(lines, " ")
  {
    if |lines| == 2 {
      assert Join(lines[1..], " ") == lines[1];
    }
  }

  /** Every point title fits 12 characters and every content 120. */
  predicate Capped(ps: seq<Point>) {
    forall k :: 0 <= k < |ps| ==> |ps[k].title| <= 12 && |ps[k].content| <= 120
  }

  /** Capped points stay capped with one more capped point in front. */
  lemma CappedCons(p: Point, ps: seq<Point>)
    requires |p.title| <= 12 && |p.content| <= 120 && Capped(ps)
    ensures Capped([p] + ps)
  {
    assert forall k :: 1 <= k < |[p] + ps| ==> ([p] + ps)[k] == ps[k - 1];
  }

  /** The material of a text-path point: its lines joined, or the fallback, expanded. */
  function TextMaterial(material: seq<string>, fallback: string, kind: Expansion): (r: string)
    requires |material| <= 2
    ensures |r| <= 120
  {
    ExpandContent(JoinOr(material, fallback), kind)
  }

  /** The three fixed titles of the text path with contents of at most 120 characters
      are capped. */
  lemma TextPointsCapped(a: string, b: string, c: string)
    requires |a| <= 120 && |b| <= 120 && |c| <= 120
    ensures Capped([Point("📚 基础认知", a), Point("🔍 深入探索", b), Point("🎯 实际应用", c)])
  {
  }

  /** What a text-path point says when its lines are missing. */
  const BASICS_FALLBACK: string := "这是一个很有趣的话题。"
  const EXPLORING_FALLBACK: string := "让我们更深入地了解一下。"
  const APPLYING_FALLBACK: string := "这些知识很有用。"

  /** The three points of the text path, built from the non-blank lines: lines 2-3,
      lines 4-5 and the last two lines. */
  function TextPoints(lines: seq<string>): (ps: seq<Point>)
    ensures |ps| == 3 && Capped(ps)
    ensures ps[0].title == "📚 基础认知" && ps[1].title == "🔍 深入探索" && ps[2].title == "🎯 实际应用"
    ensures ps[0].content == ExpandContent(JoinOr(Slice(lines, 1, 3), BASICS_FALLBACK), Basics)
    ensures ps[1].content == ExpandContent(JoinOr(Slice(lines, 3, 5), EXPLORING_FALLBACK), Exploring)
    ensures ps[2].content == ExpandContent(JoinOr(LastTwo(lines), APPLYING_FALLBACK), Applying)
  {
    var a := TextMaterial(Slice(lines, 1, 3), BASICS_FALLBACK, Basics);
    var b := TextMaterial(Slice(lines, 3, 5), EXPLORING_FALLBACK, Exploring);
    var c := TextMaterial(LastTwo(lines), APPLYING_FALLBACK, Applying);
    TextPointsCapped(a, b, c);
    [Point("📚 基础认知", a), Point("🔍 深入探索", b), Point("🎯 实际应用", c)]
  }

  /** `parseTextContent(content)`: the non-blank lines give the title (first line)
      and the material of the three points. */
  function ParseTextContent(content: string): (c: Card)
    ensures |c.points| == 3 && c.source.None? && Capped(c.points)
    ensures var lines := NonBlank(Split(content, '\n'));
      c.title == "🌟 " + (if lines != [] then lines[0] else "有趣的知识")
      && c.introduction == TEXT_INTRODUCTION && c.summary == TEXT_SUMMARY && c.points == TextPoints(lines)
  {
    var lines := NonBlank(Split(content, '\n'));
    Card("🌟 " + (if lines != [] then lines[0] else "有趣的知识"), TEXT_INTRODUCTION, TextPoints(lines), TEXT_SUMMARY, None)
  }

  /** The fixed introduction and summary of a card read from plain text. */
  const TEXT_INTRODUCTION: string := "小朋友，让我来为你解答这个问题！虽然内容可能不够完整，但我们一起来学习吧！"
  const TEXT_SUMMARY: string := "💡 学习新知识让我们变得更聪明，保持好奇心很重要！"

  /** The card title of the text path is the first non-blank line behind `🌟 `, with
      no length cap, however many blank lines come before it. */
  lemma TextTitleIsFirstLine(content: string, i: nat)
    requires i < |Split(content, '\n')| && !IsBlank(Split(content, '\n')[i])
    requires forall k :: 0 <= k < i ==> IsBlank(Split(content, '\n')[k])
    ensures ParseTextContent(content).title == "🌟 " + Split(content, '\n')[i]
  {
    FirstNonBlankAt(Split(content, '\n'), i);
  }

  /** A reply with no non-blank line is titled `🌟 有趣的知识`. */
  lemma BlankReplyTitle(content: string)
    requires forall k :: 0 <= k < |Split(content, '\n')| ==> IsBlank(Split(content, '\n')[k])
    ensures ParseTextContent(content).title == "🌟 有趣的知识"
  {
    NoneKept(Split(content, '\n'));
  }

  /** `v` is the stretch of `s` from position `i`, its first `{`, to position `j`,
      its last `}`. */
  predicate BracedAt(s: string, i: int, j: int, v: string) {
    0 <= i < j < |s| && v == s[i..j + 1]
    && '{' !in s[..i] && '}' !in s[j + 1..] && s[i] == '{' && s[j] == '}'
  }

  /** The greedy `/\{[\s\S]*\}/` match: from the first `{` to the last `}`, when a
      `}` follows that `{`. */
  function BraceSpan(s: string): (r: Option<string>)
    ensures r.Some? ==> exists i, j :: BracedAt(s, i, j, r.value)
    ensures r.None? <==> ('{' !in s || '}' !in s[IndexOfChar(s, '{')..])
  {
    var i := IndexOfChar(s, '{');
    var j := LastIndexOfChar(s, '}');
    if i == -1 then None
    else if j <= i then
      NoneAfterLast(s, i, '}');
      None
    else
      assert s[j] == s[i..][j - i];
      assert BracedAt(s, i, j, s[i..j + 1]);
      Some(s[i..j + 1])
  }

  /** The four fields the strict path requires, each truthy. */
  predicate HasRequiredFields(obj: map<string, Json>) {
    Defined(Get(JObj(obj), "title")) && Defined(Get(JObj(obj), "introduction"))
    && Defined(Get(JObj(obj), "points")) && Defined(Get(JObj(obj), "summary"))
  }

  /** A card sent as JSON has the required fields exactly when its title,
      introduction and summary are non-empty: the points array is truthy even
      when empty. */
  lemma RequiredFieldsOfCard(c: Card)
    ensures HasRequiredFields(CardToJson(c).fields)
      <==> c.title != [] && c.introduction != [] && c.summary != []
  {
    CardJsonFields(c);
  }

  const POINT_EMOJIS: seq<string> := ["📚", "🔍", "🎯"]

  lemma PointEmojisAreEmoji(k: nat)
    requires k < 3
    ensures |POINT_EMOJIS| == 3 && |POINT_EMOJIS[k]| == 1 && IsEmoji(POINT_EMOJIS[k][0])
  {
  }

  /** The title of a point: cleaned (default `📚 知识点` and its number), given the
      emoji of its position in front when it holds none, and capped at 12. */
  function NormalisePointTitle(v: Option<Json>, index: nat): (r: string)
    ensures |r| <= 12
    ensures var t := CleanText(OrText(v, "📚 知识点" + IntToString(index + 1)));
      (HasEmoji(t) ==> r == EnsureLength(t, 12))
      && (!HasEmoji(t) ==> r == EnsureLength(POINT_EMOJIS[index % 3] + " " + t, 12))
      && (HasEmoji(t) && |t| <= 12 ==> r == t)
      && (!HasEmoji(t) ==> StartsWith(r, POINT_EMOJIS[index % 3] + " ") && HasEmoji(r))
  {
    var t := CleanText(OrText(v, "📚 知识点" + IntToString(index + 1)));
    if HasEmoji(t) then EnsureLength(t, 12)
    else
      PointEmojisAreEmoji(index % 3);
      var m := POINT_EMOJIS[index % |POINT_EMOJIS|] + " ";
      MarkerKept(m, t, 12);
      EmojiMarked(EnsureLength(m + t, 12), m);
      EnsureLength(m + t, 12)
  }

  /** The content of a point: cleaned (default `这是一个有趣的知识点。`) and brought to
      depth. */
  function NormalisePointContent(v: Option<Json>, index: nat): (r: string)
    ensures |r| <= 120
    ensures var t := CleanText(OrText(v, "这是一个有趣的知识点。"));
      r == ValidateContentDepth(t, index) && (60 <= |t| <= 120 ==> r == t)
  {
    ValidateContentDepth(CleanText(OrText(v, "这是一个有趣的知识点。")), index)
  }

  /** One point of `validateAndCleanCard`: reading a field of `null` throws. */
  function CleanPoint(p: Json, index: nat): (r: Outcome<Point>)
    ensures r.Throw? <==> p == JNull
    ensures r.Ok? ==> |r.value.title| <= 12 && |r.value.content| <= 120
  {
    if p == JNull then Throw(TYPE_ERROR)
    else Ok(Point(NormalisePointTitle(Get(p, "title"), index), NormalisePointContent(Get(p, "content"), index)))
  }

  /** What cleaning each item at its own position gives. */
  function PointOutcomes(items: seq<Json>): (outs: seq<Outcome<Point>>)
    ensures |outs| == |items|
    ensures forall k :: 0 <= k < |items| ==> outs[k] == CleanPoint(items[k], k)
  {
    seq(|items|, k requires 0 <= k < |items| => CleanPoint(items[k], k))
  }

  /** `points.map(...)`: the cleaned points in order, or the throw of the first `null`. */
  function CleanPoints(items: seq<Json>): (r: Outcome<seq<Point>>)
    ensures r.Throw? <==> JNull in items
    ensures r.Ok? ==> |r.value| == |items| && Capped(r.value)
    ensures r.Ok? ==> forall k :: 0 <= k < |items| ==> r.value[k] == CleanPoint(items[k], k).value
  {
    CollectedPoints(items);
    Collect(PointOutcomes(items))
  }

  /** The collected outcomes throw exactly at a `null` item and otherwise keep the
      caps of each point. */
  lemma CollectedPoints(items: seq<Json>)
    ensures var r := Collect(PointOutcomes(items));
      (r.Throw? <==> JNull in items) && (r.Ok? ==> Capped(r.value))
  {
    var outs := PointOutcomes(items);
    var r := Collect(outs);
    if JNull in items {
      var k :| 0 <= k < |items| && items[k] == JNull;
      assert outs[k].Throw?;
    }
    if r.Ok? {
      forall k | 0 <= k < |items|
        ensures |r.value[k].title| <= 12 && |r.value[k].content| <= 120
      {
        assert outs[k] == Ok(r.value[k]);
      }
    }
  }

  /** The title of `validateAndCleanCard`: cleaned (default `🌟 有趣的知识`), given
      `🌟 ` in front when it holds no emoji, and capped at 15. */
  function NormaliseTitle(v: Option<Json>): (r: string)
    ensures |r| <= 15
    ensures var t := CleanText(OrText(v, "🌟 有趣的知识"));
      (HasEmoji(t) ==> r == EnsureLength(t, 15))
      && (!HasEmoji(t) ==> r == EnsureLength("🌟 " + t, 15))
      && (HasEmoji(t) && |t| <= 15 ==> r == t)
      && (!HasEmoji(t) ==> StartsWith(r, "🌟 ") && HasEmoji(r))
  {
    var t := CleanText(OrText(v, "🌟 有趣的知识"));
    if HasEmoji(t) then EnsureLength(t, 15)
    else
      MarkerKept("🌟 ", t, 15);
      EmojiMarked(EnsureLength("🌟 " + t, 15), "🌟 ");
      EnsureLength("🌟 " + t, 15)
  }

  /** The introduction speaks to the child: it mentions 小朋友, 让我们 or 一起. */
  predicate Addressed(t: string) {
    Contains(t, "小朋友") || Contains(t, "让我们") || Contains(t, "一起")
  }

  /** The introduction of `validateAndCleanCard`: cleaned (default
      `让我们一起学习新知识吧！`), given `小朋友，` in front when it does not address the
      child, and capped at 40. */
  function NormaliseIntro(v: Option<Json>): (r: string)
    ensures |r| <= 40
    ensures var t := CleanText(OrText(v, "让我们一起学习新知识吧！"));
      (Addressed(t) ==> r == EnsureLength(t, 40))
      && (!Addressed(t) ==> r == EnsureLength("小朋友，" + t, 40))
      && (Addressed(t) && |t| <= 40 ==> r == t)
      && (!Addressed(t) ==> StartsWith(r, "小朋友，") && Addressed(r))
  {
    var t := CleanText(OrText(v, "让我们一起学习新知识吧！"));
    if Addressed(t) then EnsureLength(t, 40)
    else
      MarkerKept("小朋友，", t, 40);
      GreetingAddresses(EnsureLength("小朋友，" + t, 40));
      EnsureLength("小朋友，" + t, 40)
  }

  /** The summary of `validateAndCleanCard`: cleaned (default `学习让我们变得更聪明！`),
      given `💡 ` in front when it holds no emoji, and capped at 30. */
  function NormaliseSummary(v: Option<Json>): (r: string)
    ensures |r| <= 30
    ensures var t := CleanText(OrText(v, "学习让我们变得更聪明！"));
      (HasEmoji(t) ==> r == EnsureLength(t, 30))
      && (!HasEmoji(t) ==> r == EnsureLength("💡 " + t, 30))
      && (HasEmoji(t) && |t| <= 30 ==> r == t)
      && (!HasEmoji(t) ==> StartsWith(r, "💡 ") && HasEmoji(r))
  {
    var t := CleanText(OrText(v, "学习让我们变得更聪明！"));
    if HasEmoji(t) then EnsureLength(t, 30)
    else
      MarkerKept("💡 ", t, 30);
      EmojiMarked(EnsureLength("💡 " + t, 30), "💡 ");
      EnsureLength("💡 " + t, 30)
  }

  /** `(card.points || []).slice(0, 3).map(...)`: a missing or falsy list gives no
      points; anything but an array throws, and so does a `null` among the first three. */
  function NormalisePoints(v: Option<Json>): (r: Outcome<seq<Point>>)
    ensures r.Ok? ==> |r.value| <= 3 && Capped(r.value)
    ensures !Defined(v) ==> r == Ok([])
    ensures Defined(v) && !v.value.JArr? ==> r == Throw(TYPE_ERROR)
    ensures Defined(v) && v.value.JArr? ==> (r.Throw? <==> JNull in Slice(v.value.items, 0, 3))
    ensures Defined(v) && v.value.JArr? && r.Ok? ==>
      |r.value| == (if |v.value.items| < 3 then |v.value.items| else 3)
      && forall k :: 0 <= k < |r.value| ==> r.value[k] == CleanPoint(v.value.items[k], k).value
  {
    if !Defined(v) then Ok([])
    else
      match v.value
      case JArr(items) =>
        CleanPoints(Slice(items, 0, 3))
      case _ => Throw(TYPE_ERROR)
  }

  /** `validateAndCleanCard(card)`: every field cleaned, emoji-prefixed where it has
      none, and capped; at most the first three points; no `source`. It throws
      exactly when the points do. */
  function ValidateAndCleanCard(card: map<string, Json>): (r: Outcome<Card>)
    ensures r.Throw? <==> NormalisePoints(Get(JObj(card), "points")).Throw?
    ensures r.Ok? ==> (|r.value.title| <= 15 && |r.value.introduction| <= 40
      && |r.value.summary| <= 30 && |r.value.points| <= 3 && Capped(r.value.points)
      && r.value.source.None?)
    ensures r.Ok? ==>
      (r.value.title == NormaliseTitle(Get(JObj(card), "title"))
       && r.value.introduction == NormaliseIntro(Get(JObj(card), "introduction"))
       && r.value.points == NormalisePoints(Get(JObj(card), "points")).value
       && r.value.summary == NormaliseSummary(Get(JObj(card), "summary")))
  {
    var obj := JObj(card);
    match NormalisePoints(Get(obj, "points"))
    case Throw(m) => Throw(m)
    case Ok(points) =>
      Ok(Card(NormaliseTitle(Get(obj, "title")), NormaliseIntro(Get(obj, "introduction")),
              points, NormaliseSummary(Get(obj, "summary")), None))
  }

  /** A point the normaliser has nothing to change in. */
  predicate TidyPoint(p: Point) {
    Tidy(p.title) && HasEmoji(p.title) && |p.title| <= 12
    && Tidy(p.content) && 60 <= |p.content| <= 120
  }

  /** A card the normaliser has nothing to change in: every field tidy, emoji in
      the title, summary and point titles, the child addressed, every cap respected. */
  predicate TidyCard(c: Card) {
    Tidy(c.title) && HasEmoji(c.title) && |c.title| <= 15
    && Tidy(c.introduction) && Addressed(c.introduction) && |c.introduction| <= 40
    && Tidy(c.summary) && HasEmoji(c.summary) && |c.summary| <= 30
    && |c.points| <= 3 && (forall k :: 0 <= k < |c.points| ==> TidyPoint(c.points[k]))
    && c.source.None?
  }

  /** A tidy text with an emoji, at most `cap` long, survives the emoji-and-cap rule. */
  lemma TidyTitleKept(s: string, index: nat)
    requires Tidy(s) && HasEmoji(s) && |s| <= 12
    ensures NormalisePointTitle(Some(JStr(s)), index) == s
  {
    CleanTextKeepsCleanText(s);
  }

  lemma TidyContentKept(s: string, index: nat)
    requires Tidy(s) && 60 <= |s| <= 120
    ensures NormalisePointContent(Some(JStr(s)), index) == s
  {
    CleanTextKeepsCleanText(s);
  }

  /** A tidy point read back from its JSON form is kept as it is. */
  lemma TidyPointKept(p: Point, index: nat)
    requires TidyPoint(p)
    ensures CleanPoint(PointToJson(p), index) == Ok(p)
  {
    var v := PointToJson(p);
    assert Get(v, "title") == Some(JStr(p.title));
    assert Get(v, "content") == Some(JStr(p.content));
    TidyTitleKept(p.title, index);
    TidyContentKept(p.content, index);
  }

  /** Tidy points, as a JSON array of at most three, normalise to themselves. */
  lemma TidyPointListKept(ps: seq<Point>)
    requires |ps| <= 3 && forall k :: 0 <= k < |ps| ==> TidyPoint(ps[k])
    ensures NormalisePoints(Some(JArr(PointsToJson(ps)))) == Ok(ps)
  {
    var items := PointsToJson(ps);
    var outs := PointOutcomes(items);
    forall k | 0 <= k < |ps| ensures outs[k] == Ok(ps[k]) {
      TidyPointKept(ps[k], k);
    }
    CollectAllOk(outs, ps);
    assert Slice(items, 0, 3) == items;
    assert Defined(Some(JArr(items)));
  }

  /** The title, introduction and summary of a tidy card survive their rules. */
  lemma TidyCardTitleKept(s: string)
    requires Tidy(s) && HasEmoji(s) && |s| <= 15
    ensures NormaliseTitle(Some(JStr(s))) == s
  {
    CleanTextKeepsCleanText(s);
  }

  lemma TidyIntroKept(s: string)
    requires Tidy(s) && Addressed(s) && |s| <= 40
    ensures NormaliseIntro(Some(JStr(s))) == s
  {
    CleanTextKeepsCleanText(s);
  }

  lemma TidySummaryKept(s: string)
    requires Tidy(s) && HasEmoji(s) && |s| <= 30
    ensures NormaliseSummary(Some(JStr(s))) == s
  {
    CleanTextKeepsCleanText(s);
  }

  /** `validateAndCleanCard` is the identity on a tidy card: sending a card that
      already meets every rule through it as JSON gives the same card back. */
  lemma NormaliserKeepsTidyCard(c: Card)
    requires TidyCard(c)
    ensures ValidateAndCleanCard(CardToJson(c).fields) == Ok(c)
  {
    CardJsonFields(c);
    TidyPointListKept(c.points);
    TidyCardTitleKept(c.title);
    TidyIntroKept(c.introduction);
    TidySummaryKept(c.summary);
  }

  /** `parseCardContent(content)` with `JSON.parse` as the oracle `parse`, which
      answers `None` where it would throw. */
  function ParseCardContent(content: Json, parse: string -> Option<map<string, Json>>): (c: Card)
    ensures |c.points| <= 3 && Capped(c.points) && c.source.None?
    ensures !content.JStr? ==> c == FallbackCard()
    ensures content.JStr? && BraceSpan(content.s).None? ==> c == ParseTextContent(content.s)
    ensures content.JStr? && BraceSpan(content.s).Some? ==>
      var parsed := parse(BraceSpan(content.s).value);
      (parsed.None? ==> c == FallbackCard())
      && (parsed.Some? && !HasRequiredFields(parsed.value) ==> c == ParseTextContent(content.s))
      && ((parsed.Some? && HasRequiredFields(parsed.value) && ValidateAndCleanCard(parsed.value).Throw?)
          ==> c == FallbackCard())
      && ((parsed.Some? && HasRequiredFields(parsed.value) && ValidateAndCleanCard(parsed.value).Ok?)
          ==> c == ValidateAndCleanCard(parsed.value).value)
  {
    match content
    case JStr(s) =>
      (match BraceSpan(s)
       case None => ParseTextContent(s)
       case Some(js) =>
         match parse(js)
         case None => FallbackCard()
         case Some(obj) =>
           if HasRequiredFields(obj) then
             match ValidateAndCleanCard(obj)
             case Ok(c) => c
             case Throw(_) => FallbackCard()
           else ParseTextContent(s))
    case _ => FallbackCard()
  }

  /** A reply whose JSON part is a tidy card with every field present is read back
      as exactly that card, whatever text surrounds the braces. */
  lemma TidyReplyParsed(s: string, parse: string -> Option<map<string, Json>>, c: Card)
    requires TidyCard(c) && BraceSpan(s).Some?
    requires parse(BraceSpan(s).value) == Some(CardToJson(c).fields)
    ensures ParseCardContent(JStr(s), parse) == c
  {
    var obj := CardToJson(c).fields;
    CardJsonFields(c);
    assert HasRequiredFields(obj);
    NormaliserKeepsTidyCard(c);
    StrictPathTaken(s, parse, obj);
  }

  /** The strict path: braces, a parse, every required field and a normaliser that
      does not throw give the normalised card. */
  lemma StrictPathTaken(s: string, parse: string -> Option<map<string, Json>>, obj: map<string, Json>)
    requires BraceSpan(s).Some? && parse(BraceSpan(s).value) == Some(obj)
    requires HasRequiredFields(obj) && ValidateAndCleanCard(obj).Ok?
    ensures ParseCardContent(JStr(s), parse) == ValidateAndCleanCard(obj).value
  {
  }

  // ---------------------------------------------------------------------------
  // Request outcome checks

  /** The error `makeRequest` throws for a status that is not ok. */
  function StatusMessage(status: int): (r: string)
    ensures status == 401 <==> r == "API密钥无效"
    ensures status == 429 <==> r == "API请求频率超限，请稍后再试"
    ensures status >= 500 <==> r == "API服务暂时不可用，请稍后再试"
    ensures status != 401 && status != 429 && status < 500 ==> r == "API请求失败: " + IntToString(status)
  {
    if status == 401 then "API密钥无效"
    else if status == 429 then "API请求频率超限，请稍后再试"
    else if status >= 500 then "API服务暂时不可用，请稍后再试"
    else
      var r := "API请求失败: " + IntToString(status);
      assert r[3] == '请' && r[5] == '失';
      r
  }

  const TIMEOUT_MESSAGE: string := "API请求超时，请稍后再试"

  /** `makeRequest(body)` given how the `fetch` ended. */
  function MakeRequest(f: FetchResult): (r: Outcome<Json>)
    ensures r.Ok? ==> f.Reply? && IsOk(f.status) && f.json == r
    ensures f.Aborted? ==> r == Throw(TIMEOUT_MESSAGE)
    ensures f.Failed? ==> r == Throw(f.message)
    ensures f.Reply? && !IsOk(f.status) ==> r.Throw? && r.message == StatusMessage(f.status)
  {
    match f
    case Aborted => Throw(TIMEOUT_MESSAGE)
    case Failed(m) => Throw(m)
    case Reply(status, _, _, json) => if IsOk(status) then json else Throw(StatusMessage(status))
  }

  /** `response.choices.length === 0`. */
  predicate LengthIsZero(v: Json) {
    match v
    case JArr(xs) => xs == []
    case JStr(s) => s == []
    case JObj(m) => "length" in m && m["length"] == JNum(0)
    case _ => false
  }

  const FAILURE_PREFIX: string := "知识卡片生成失败: "
  const NO_CHOICES: string := "API返回数据格式错误：缺少choices"
  const NO_CONTENT: string := "API返回数据格式错误：缺少content"

  /** `generateKnowledgeCard(question)` given how the request ended: the reply must
      carry `choices[0].message.content`; every error is rethrown behind the prefix. */
  function GenerateKnowledgeCard(f: FetchResult, parse: string -> Option<map<string, Json>>): (r: Outcome<Card>)
    ensures r.Throw? ==> StartsWith(r.message, FAILURE_PREFIX)
    ensures f.Aborted? ==> r == Throw(FAILURE_PREFIX + TIMEOUT_MESSAGE)
    ensures f.Reply? && !IsOk(f.status) ==> r == Throw(FAILURE_PREFIX + StatusMessage(f.status))
    ensures r.Ok? ==> |r.value.points| <= 3 && Capped(r.value.points) && r.value.source.None?
    ensures MakeRequest(f).Throw? ==> r == Throw(FAILURE_PREFIX + MakeRequest(f).message)
    ensures MakeRequest(f) == Ok(JNull) ==> r == Throw(FAILURE_PREFIX + TYPE_ERROR)
    ensures MakeRequest(f).Ok? && MakeRequest(f).value != JNull ==>
      var choices := Get(MakeRequest(f).value, "choices");
      ((!Defined(choices) || LengthIsZero(choices.value)) ==> r == Throw(FAILURE_PREFIX + NO_CHOICES))
      && (Defined(choices) && !LengthIsZero(choices.value) ==>
            var first := Index0(choices.value);
            ((first.None? || first == Some(JNull)) ==> r == Throw(FAILURE_PREFIX + TYPE_ERROR))
            && (first.Some? && first != Some(JNull) ==>
                  var content := OptGet(Get(first.value, "message"), "content");
                  (!Defined(content) ==> r == Throw(FAILURE_PREFIX + NO_CONTENT))
                  && (Defined(content) ==> r == Ok(ParseCardContent(content.value, parse)))))
  {
    match MakeRequest(f)
    case Throw(m) => Throw(FAILURE_PREFIX + m)
    case Ok(response) =>
      match Member(Some(response), "choices")
      case Throw(m) => Throw(FAILURE_PREFIX + m)
      case Ok(choices) =>
        if !Defined(choices) || LengthIsZero(choices.value) then Throw(FAILURE_PREFIX + NO_CHOICES)
        else
          match Member(Index0(choices.value), "message")
          case Throw(m) => Throw(FAILURE_PREFIX + m)
          case Ok(message) =>
            var content := OptGet(message, "content");
            if !Defined(content) then Throw(FAILURE_PREFIX + NO_CONTENT)
            else Ok(ParseCardContent(content.value, parse))
  }

  /** The reply shape the client expects, `{"choices": [{"message": {"content": text}}]}`. */
  function ChatReply(text: string): Json {
    JObj(map["choices" := JArr([JObj(map["message" := JObj(map["content" := JStr(text)])])])])
  }

  /** An ok reply carrying non-empty text is turned into the card the text parses to. */
  lemma ReplyContentParsed(status: int, statusText: string, bodyText: string, text: string,
                           parse: string -> Option<map<string, Json>>)
    requires IsOk(status) && text != []
    ensures GenerateKnowledgeCard(Reply(status, statusText, bodyText, Ok(ChatReply(text))), parse)
      == Ok(ParseCardContent(JStr(text), parse))
  {
    var message := JObj(map["content" := JStr(text)]);
    var choices := JArr([JObj(map["message" := message])]);
    var f := Reply(status, statusText, bodyText, Ok(ChatReply(text)));
    assert MakeRequest(f) == Ok(ChatReply(text));
    assert Member(Some(ChatReply(text)), "choices") == Ok(Some(choices));
    assert Defined(Some(choices)) && !LengthIsZero(choices);
    assert Member(Index0(choices), "message") == Ok(Some(message));
    assert OptGet(Some(message), "content") == Some(JStr(text));
  }

  // ---------------------------------------------------------------------------
  // Client construction

  /** A client holds the key read from the environment. */
  class GlmClient {
    const apiKey: string

    constructor (apiKey: string)
      requires apiKey != []
      ensures this.apiKey == apiKey
    {
      this.apiKey := apiKey;
    }
  }

  const MISSING_KEY: string := "GLM_API_KEY环境变量未设置"

  /** The module-level `glmClientInstance` and `getGLMClient`: the first call that
      finds a key creates the client, and every later call returns that same client. */
  class GlmRegistry {
    var instance: Option<GlmClient>

    constructor ()
      ensures instance.None?
    {
      instance := None;
    }

    method GetClient(envKey: Option<string>) returns (r: Outcome<GlmClient>)
      modifies this
      ensures old(instance).Some? ==> r == Ok(old(instance).value) && instance == old(instance)
      ensures old(instance).None? && (envKey.None? || envKey == Some([])) ==>
        r == Throw(MISSING_KEY) && instance.None?
      ensures old(instance).None? && envKey.Some? && envKey.value != [] ==>
        r.Ok? && fresh(r.value) && r.value.apiKey == envKey.value && instance == Some(r.value)
    {
      if instance.None? {
        if envKey.None? || envKey.value == [] {
          return Throw(MISSING_KEY);
        }
        var c := new GlmClient(envKey.value);
        instance := Some(c);
      }
      r := Ok(instance.value);
    }
  }
}
