/** The Gemini client: repair of the API key read from the environment, text
    cleaning, reading the text and the first image out of a reply, the image prompt
    and the card normaliser. */
module Gemini {
  import opened JsText
  import opened Js
  import opened Cards
  import Glm

  // ---------------------------------------------------------------------------
  // The API key

  const MISSING_KEY: string := "GEMINI_API_KEY 环境变量未设置"

  /** The length of a well-formed key, and the prefix every such key starts with. */
  const KEY_LENGTH: nat := 39
  const KEY_PREFIX: string := "AIza"
  const REPEATED_PREFIX: string := "AIzaAIza"

  /** The text of `s` before the first occurrence of `sep`, or all of `s`. */
  function PieceBefore(s: string, sep: string): (r: string)
    requires sep != []
    ensures |r| <= |s| && r == s[..|r|]
    ensures Contains(s, sep) ==> |r| + |sep| <= |s|
    ensures s != [] && !StartsWith(s, sep) ==> r != []
    ensures !Contains(r, sep)
    ensures |r| == |s| || StartsWith(s[|r|..], sep)
    decreases |s|
  {
    if s == [] || StartsWith(s, sep) then []
    else
      var rest := PieceBefore(s[1..], sep);
      var r := [s[0]] + rest;
      assert r[1..] == rest;
      assert s[|r|..] == s[1..][|rest|..];
      r
  }

  /** `p` is a piece of `s` between occurrences of `sep` that starts at `i`, and
      every piece before it is empty: `s[..i]` is `sep` repeated, `p` follows it and
      runs up to the next `sep` or the end. */
  predicate FirstPieceAt(s: string, sep: string, i: int, p: string)
    requires sep != []
  {
    0 <= i <= |s| && Repeats(s[..i], sep) && StartsWith(s[i..], p) && !Contains(p, sep)
    && (i + |p| == |s| || StartsWith(s[i + |p|..], sep))
  }

  /** `s` is `sep` repeated zero or more times. */
  predicate Repeats(s: string, sep: string)
    requires sep != []
    decreases |s|
  {
    s == [] || (StartsWith(s, sep) && Repeats(s[|sep|..], sep))
  }

  /** `AIza` repeated has a length divisible by four. */
  lemma {:induction false} RepeatedPrefixLength(s: string)
    ensures Repeats(s, KEY_PREFIX) ==> |s| % 4 == 0
    decreases |s|
  {
    if s != [] && StartsWith(s, KEY_PREFIX) {
      RepeatedPrefixLength(s[4..]);
    }
  }

  /** `s.split(sep).filter(part => part.length > 0)[0]`: the first non-empty piece
      between occurrences of `sep`, or `None` when every piece is empty, which
      happens only when `s` is `sep` repeated. */
  function FirstPiece(s: string, sep: string): (r: Option<string>)
    requires sep != []
    ensures r.Some? ==> r.value != [] && |r.value| <= |s|
    ensures r.Some? && Contains(s, sep) ==> |r.value| + |sep| <= |s|
    ensures r.None? <==> Repeats(s, sep)
    ensures r.Some? ==> exists i :: FirstPieceAt(s, sep, i, r.value)
    decreases |s|
  {
    if StartsWith(s, sep) then
      var r := FirstPiece(s[|sep|..], sep);
      FirstPieceShifts(s, sep, r);
      r
    else if s == [] then None
    else
      var p := PieceBefore(s, sep);
      assert s[..0] == [] && s[0..] == s;
      assert FirstPieceAt(s, sep, 0, p);
      Some(p)
  }

  /** A first piece of the text after a leading `sep` is a first piece of the text. */
  lemma FirstPieceShifts(s: string, sep: string, r: Option<string>)
    requires sep != [] && StartsWith(s, sep)
    requires r.Some? ==> exists j :: FirstPieceAt(s[|sep|..], sep, j, r.value)
    ensures r.Some? ==> exists i :: FirstPieceAt(s, sep, i, r.value)
  {
    if r.Some? {
      var j :| FirstPieceAt(s[|sep|..], sep, j, r.value);
      PieceShifts(s, sep, j, r.value);
    }
  }

  /** The piece found at `j` past a leading `sep` sits at `j + |sep|` in the text. */
  lemma PieceShifts(s: string, sep: string, j: int, p: string)
    requires sep != [] && StartsWith(s, sep) && FirstPieceAt(s[|sep|..], sep, j, p)
    ensures FirstPieceAt(s, sep, j + |sep|, p)
  {
    var i := j + |sep|;
    assert s[..i][..|sep|] == sep;
    assert s[..i][|sep|..] == s[|sep|..][..j];
    assert s[i..] == s[|sep|..][j..];
    if i + |p| < |s| {
      assert s[i + |p|..] == s[|sep|..][j + |p|..];
    }
  }

  /** Step 1 of the repair: a key of twice the normal length made of two equal
      halves becomes one half. */
  function Dedup(k: string): string {
    if |k| == 2 * KEY_LENGTH && k[..KEY_LENGTH] == k[KEY_LENGTH..] then k[..KEY_LENGTH] else k
  }

  /** Step 2: a key still longer than normal that starts with `AIza` is cut to the
      normal length. */
  function Cut(k: string): string {
    if |k| > KEY_LENGTH && StartsWith(k, KEY_PREFIX) then k[..KEY_LENGTH] else k
  }

  /** Step 3: a key holding `AIzaAIza` becomes `AIza` followed by its first
      non-empty piece between `AIza`s (`undefined` when there is none). */
  function Unrepeat(k: string): string {
    if Contains(k, REPEATED_PREFIX) then
      match FirstPiece(k, KEY_PREFIX)
      case Some(p) => KEY_PREFIX + p
      case None => KEY_PREFIX + "undefined"
    else k
  }

  /** The key the constructor keeps: trimmed, and repaired in three steps when the
      trimmed key is longer than 50. */
  function RepairKey(raw: string): (r: string)
    ensures |Trim(raw)| <= 50 ==> r == Trim(raw)
    ensures |r| <= |Trim(raw)|
    ensures |Trim(raw)| > 50 && Contains(Cut(Dedup(Trim(raw))), REPEATED_PREFIX) ==>
      exists i, p :: FirstPieceAt(Cut(Dedup(Trim(raw))), KEY_PREFIX, i, p) && p != [] && r == KEY_PREFIX + p
  {
    var k := Trim(raw);
    if |k| <= 50 then k
    else
      RepairNeverUndefined(raw);
      UnrepeatShortens(Cut(Dedup(k)));
      Unrepeat(Cut(Dedup(k)))
  }

  /** Step 3 shortens a key whenever it finds a piece. */
  lemma UnrepeatShortens(k: string)
    requires Contains(k, REPEATED_PREFIX) ==> FirstPiece(k, KEY_PREFIX).Some?
    ensures |Unrepeat(k)| <= |k|
  {
    if Contains(k, REPEATED_PREFIX) {
      ContainsAt(k, REPEATED_PREFIX);
      var i :| OccursAt(k, REPEATED_PREFIX, i);
      assert k[i..i + 4] == k[i..i + 8][..4] == KEY_PREFIX;
      assert OccursAt(k, KEY_PREFIX, i);
      ContainsAt(k, KEY_PREFIX);
    }
  }

  /** The client; only its key is state. */
  class GeminiClient {
    var apiKey: string

    /** `new GeminiClient()` once the environment supplied a non-empty key. */
    constructor(envKey: string)
      requires envKey != []
      ensures apiKey == RepairKey(envKey)
    {
      apiKey := Trim(envKey);
      new;
      if |apiKey| > 50 {
        if |apiKey| == 2 * KEY_LENGTH {
          var firstHalf := apiKey[..KEY_LENGTH];
          var secondHalf := apiKey[KEY_LENGTH..];
          if firstHalf == secondHalf {
            apiKey := firstHalf;
          }
        }
        if |apiKey| > KEY_LENGTH && StartsWith(apiKey, KEY_PREFIX) {
          apiKey := apiKey[..KEY_LENGTH];
        }
        if Contains(apiKey, REPEATED_PREFIX) {
          var piece := FirstPiece(apiKey, KEY_PREFIX);
          apiKey := KEY_PREFIX + (if piece.Some? then piece.value else "undefined");
        }
      }
    }
  }

  /** `getGeminiClient()`: a new client on every call; a missing or empty key throws. */
  method GetGeminiClient(env: Option<string>) returns (r: Outcome<GeminiClient>)
    ensures r.Throw? <==> env.None? || env.value == []
    ensures r.Throw? ==> r.message == MISSING_KEY
    ensures r.Ok? ==> fresh(r.value) && r.value.apiKey == RepairKey(env.value)
  {
    if env.None? || env.value == [] {
      return Throw(MISSING_KEY);
    }
    var client := new GeminiClient(env.value);
    return Ok(client);
  }

  /** A key of normal length is kept as it is once trimmed. */
  lemma ShortKeyOnlyTrimmed(raw: string)
    requires |Trim(raw)| <= 50
    ensures RepairKey(raw) == Trim(raw)
  {
  }

  /** A well-formed key pasted twice is repaired to the key. */
  lemma DoubledKeyRepaired(k: string)
    requires |k| == KEY_LENGTH && !IsSpace(k[0]) && !IsSpace(k[KEY_LENGTH - 1])
    requires !Contains(k, REPEATED_PREFIX)
    ensures RepairKey(k + k) == k
  {
    TrimUntouched(k + k);
    assert (k + k)[..KEY_LENGTH] == k && (k + k)[KEY_LENGTH..] == k;
  }

  /** A long trimmed key starting with `AIza` is cut to its first 39 characters,
      whether or not it was a doubled key, unless those hold `AIzaAIza`. */
  lemma LongKeyCut(k: string)
    requires |k| > 50 && !IsSpace(k[0]) && !IsSpace(k[|k| - 1])
    requires StartsWith(k, KEY_PREFIX) && !Contains(k[..KEY_LENGTH], REPEATED_PREFIX)
    ensures RepairKey(k) == k[..KEY_LENGTH]
  {
    TrimUntouched(k);
    var d := Dedup(k);
    assert d[..4] == k[..4];
    assert d[..KEY_LENGTH] == k[..KEY_LENGTH];
  }

  /** Step 3 always finds a piece: a key that reaches it is either 39 long or does
      not start with `AIza`, so it is never `AIza` repeated, and `AIzaundefined`
      cannot come out of the repair. */
  lemma RepairNeverUndefined(raw: string)
    requires |Trim(raw)| > 50
    ensures var k := Cut(Dedup(Trim(raw)));
      Contains(k, REPEATED_PREFIX) ==> FirstPiece(k, KEY_PREFIX).Some?
  {
    var t := Trim(raw);
    var d := Dedup(t);
    var k := Cut(d);
    RepeatedPrefixLength(k);
    assert |k| == KEY_LENGTH || (k == t && !StartsWith(k, KEY_PREFIX));
  }

  /** A long key starting with `AIza` comes out at most 39 long and still starting
      with `AIza`. */
  lemma RepairedKeyShape(raw: string)
    requires |Trim(raw)| > 50 && StartsWith(Trim(raw), KEY_PREFIX)
    ensures |RepairKey(raw)| <= KEY_LENGTH && StartsWith(RepairKey(raw), KEY_PREFIX)
  {
    var t := Trim(raw);
    var d := Dedup(t);
    assert d[..4] == t[..4];
    var k := Cut(d);
    assert |k| == KEY_LENGTH && k[..4] == KEY_PREFIX;
    assert RepairKey(raw) == Unrepeat(k);
    RepairNeverUndefined(raw);
    UnrepeatShortens(k);
    UnrepeatKeepsPrefix(k);
  }

  /** Step 3 keeps a key starting with `AIza` starting with it. */
  lemma UnrepeatKeepsPrefix(k: string)
    requires StartsWith(k, KEY_PREFIX)
    ensures StartsWith(Unrepeat(k), KEY_PREFIX)
  {
    var u := Unrepeat(k);
    assert u[..4] == KEY_PREFIX;
  }

  // ---------------------------------------------------------------------------
  // Text helpers

  /** `/[\u{1F300}-\u{1FAFF}]/u`: the emoji blocks this client recognises. */
  predicate IsEmoji(c: char) {
    '\U{1F300}' <= c <= '\U{1FAFF}'
  }

  predicate HasEmoji(s: string) {
    exists i :: 0 <= i < |s| && IsEmoji(s[i])
  }

  /** Whitespace in `s` is single plain spaces: no other whitespace character and
      no two whitespace characters in a row. */
  ghost predicate SingleSpaced(s: string) {
    && (forall i :: 0 <= i < |s| && IsSpace(s[i]) ==> s[i] == ' ')
    && (forall i, j :: 0 <= i < j < |s| && j == i + 1 ==> !(s[i] == ' ' && s[j] == ' '))
  }

  /** Neither starting nor ending with whitespace. */
  predicate Trimmed(s: string) {
    s == [] || (!IsSpace(s[0]) && !IsSpace(s[|s| - 1]))
  }

  /** `s.replace(/\s+/g, ' ')`: every run of whitespace becomes one space. */
  function CollapseSpace(s: string): (r: string)
    ensures SingleSpaced(r) && |r| <= |s|
    ensures s != [] && !IsSpace(s[0]) ==> r != [] && r[0] == s[0]
    decreases |s|
  {
    if s == [] then []
    else if IsSpace(s[0]) then
      var t := TrimStart(s);
      assert t != s;
      [' '] + CollapseSpace(t)
    else [s[0]] + CollapseSpace(s[1..])
  }

  /** Every slice of a single-spaced text is single-spaced. */
  lemma SingleSpacedSlice(s: string, a: nat, b: nat)
    requires SingleSpaced(s) && a <= b <= |s|
    ensures SingleSpaced(s[a..b])
  {
    var t := s[a..b];
    forall i | 0 <= i < |t| && IsSpace(t[i])
      ensures t[i] == ' ' && (i + 1 < |t| ==> !IsSpace(t[i + 1]))
    {
      assert t[i] == s[a + i];
      assert i + 1 < |t| ==> t[i + 1] == s[a + i + 1];
    }
  }

  /** Trimming a single-spaced text keeps it single-spaced. */
  lemma TrimKeepsSingleSpaced(c: string)
    requires SingleSpaced(c)
    ensures SingleSpaced(Trim(c))
  {
    var a := LeadingSpace(c);
    SingleSpacedSlice(c, a, a + |Trim(c)|);
  }

  /** `_cleanText` on a string: whitespace runs collapsed, then trimmed. */
  function CleanString(s: string): (r: string)
    ensures SingleSpaced(r) && Trimmed(r) && |r| <= |s|
  {
    var c := CollapseSpace(s);
    TrimKeepsSingleSpaced(c);
    Trim(c)
  }

  /** `_cleanText(s)`: `String(s || '')` cleaned. */
  function CleanText(v: Json): (r: string)
    ensures SingleSpaced(r) && Trimmed(r)
    ensures !Truthy(v) ==> r == []
  {
    CleanString(if Truthy(v) then ToJsString(v) else "")
  }

  /** A single-spaced text is its own collapse. */
  lemma {:induction false} CollapseKeepsSingleSpaced(s: string)
    requires SingleSpaced(s)
    ensures CollapseSpace(s) == s
    decreases |s|
  {
    if s != [] {
      SingleSpacedSlice(s, 1, |s|);
      CollapseKeepsSingleSpaced(s[1..]);
      if IsSpace(s[0]) {
        assert TrimStart(s[1..]) == s[1..];
        assert TrimStart(s) == s[1..];
      }
      assert [s[0]] + s[1..] == s;
    }
  }

  /** Cleaning keeps a text that is already single-spaced and trimmed. */
  lemma CleanStringKeepsClean(s: string)
    requires SingleSpaced(s) && Trimmed(s)
    ensures CleanString(s) == s
  {
    CollapseKeepsSingleSpaced(s);
    if s != [] {
      TrimUntouched(s);
    }
  }

  /** Cleaning twice is cleaning once. */
  lemma CleanStringIdempotent(s: string)
    ensures CleanString(CleanString(s)) == CleanString(s)
  {
    CleanStringKeepsClean(CleanString(s));
  }

  // ---------------------------------------------------------------------------
  // The card normaliser

  const GEMINI_SOURCE: string := "gemini-api"

  /** A text that holds no whitespace but single inner spaces. */
  ghost predicate Neat(s: string) {
    SingleSpaced(s) && Trimmed(s)
  }

  /** A capped prefix of a single-spaced text is single-spaced. */
  lemma TakeSingleSpaced(s: string, n: nat)
    requires SingleSpaced(s)
    ensures SingleSpaced(Take(s, n))
  {
    SingleSpacedSlice(s, 0, |Take(s, n)|);
  }

  /** A single-spaced prefix in front of a neat text keeps it single-spaced. */
  lemma PrefixSingleSpaced(p: string, t: string)
    requires SingleSpaced(p) && Neat(t)
    ensures SingleSpaced(p + t)
  {
    var s := p + t;
    forall i | 0 <= i < |s| && IsSpace(s[i])
      ensures s[i] == ' ' && (i + 1 < |s| ==> !IsSpace(s[i + 1]))
    {
      if i >= |p| {
        assert s[i] == t[i - |p|];
        assert i + 1 < |s| ==> s[i + 1] == t[i + 1 - |p|];
      } else {
        assert s[i] == p[i];
        assert i + 1 < |p| ==> s[i + 1] == p[i + 1];
        assert i + 1 == |p| && i + 1 < |s| ==> s[i + 1] == t[0];
      }
    }
  }

  /** The markers the normaliser puts in front of a text are single-spaced. */
  lemma MarkersSingleSpaced()
    ensures SingleSpaced("🌟 ") && SingleSpaced("💡 ") && SingleSpaced("小朋友，")
  {
    assert !IsSpace('🌟') && !IsSpace('💡');
    assert !IsSpace('小') && !IsSpace('朋') && !IsSpace('友') && !IsSpace('，');
  }

  /** A marker no longer than the cap, put in front of a neat text, still opens the
      capped result, which stays single-spaced. */
  lemma MarkedTake(m: string, t: string, n: nat)
    requires SingleSpaced(m) && Neat(t) && |m| <= n
    ensures StartsWith(Take(m + t, n), m) && SingleSpaced(Take(m + t, n))
  {
    PrefixSingleSpaced(m, t);
    TakeSingleSpaced(m + t, n);
    var r := Take(m + t, n);
    assert r[..|m|] == (m + t)[..|m|] == m;
  }

  /** A text opening with a marker whose first character is an emoji has one. */
  lemma EmojiOpens(r: string, m: string)
    requires m != [] && IsEmoji(m[0]) && StartsWith(r, m)
    ensures HasEmoji(r)
  {
    assert r[0] == r[..|m|][0];
  }

  /** The card title: cleaned (default `🌟 有趣的知识`), given `🌟 ` in front when it
      holds no emoji, and capped at 15. */
  function NormaliseTitle(v: Option<Json>): (r: string)
    ensures |r| <= 15 && SingleSpaced(r)
    ensures var t := CleanText(OrText(v, "🌟 有趣的知识"));
      (HasEmoji(t) ==> r == Take(t, 15))
      && (!HasEmoji(t) ==> r == Take("🌟 " + t, 15))
      && (HasEmoji(t) && |t| <= 15 ==> r == t)
      && (!HasEmoji(t) ==> StartsWith(r, "🌟 ") && HasEmoji(r))
  {
    var t := CleanText(OrText(v, "🌟 有趣的知识"));
    if HasEmoji(t) then
      TakeSingleSpaced(t, 15);
      Take(t, 15)
    else
      MarkersSingleSpaced();
      MarkedTake("🌟 ", t, 15);
      EmojiOpens(Take("🌟 " + t, 15), "🌟 ");
      Take("🌟 " + t, 15)
  }

  /** The introduction: cleaned (default `让我们一起学习新知识吧！`), given `小朋友，`
      in front when it does not address the child, and capped at 60. */
  function NormaliseIntro(v: Option<Json>): (r: string)
    ensures |r| <= 60
    ensures var t := CleanText(OrText(v, "让我们一起学习新知识吧！"));
      (Glm.Addressed(t) ==> r == Take(t, 60))
      && (!Glm.Addressed(t) ==> r == Take("小朋友，" + t, 60))
      && (Glm.Addressed(t) && |t| <= 60 ==> r == t)
      && (!Glm.Addressed(t) ==> StartsWith(r, "小朋友，") && Glm.Addressed(r))
  {
    var t := CleanText(OrText(v, "让我们一起学习新知识吧！"));
    if Glm.Addressed(t) then Take(t, 60)
    else
      MarkersSingleSpaced();
      MarkedTake("小朋友，", t, 60);
      Glm.GreetingAddresses(Take("小朋友，" + t, 60));
      Take("小朋友，" + t, 60)
  }

  /** The introduction is single-spaced, whichever way it was built. */
  lemma IntroSingleSpaced(v: Option<Json>)
    ensures SingleSpaced(NormaliseIntro(v))
  {
    var t := CleanText(OrText(v, "让我们一起学习新知识吧！"));
    var m := if Glm.Addressed(t) then t else "小朋友，" + t;
    MarkersSingleSpaced();
    PrefixSingleSpaced("小朋友，", t);
    TakeSingleSpaced(m, 60);
  }

  /** The summary: cleaned (default `保持好奇心，你会发现更多有趣的秘密！`), given `💡 `
      in front when it holds no emoji, and capped at 40. */
  function NormaliseSummary(v: Option<Json>): (r: string)
    ensures |r| <= 40 && SingleSpaced(r)
    ensures var t := CleanText(OrText(v, "保持好奇心，你会发现更多有趣的秘密！"));
      (HasEmoji(t) ==> r == Take(t, 40))
      && (!HasEmoji(t) ==> r == Take("💡 " + t, 40))
      && (HasEmoji(t) && |t| <= 40 ==> r == t)
      && (!HasEmoji(t) ==> StartsWith(r, "💡 ") && HasEmoji(r))
  {
    var t := CleanText(OrText(v, "保持好奇心，你会发现更多有趣的秘密！"));
    if HasEmoji(t) then
      TakeSingleSpaced(t, 40);
      Take(t, 40)
    else
      MarkersSingleSpaced();
      MarkedTake("💡 ", t, 40);
      EmojiOpens(Take("💡 " + t, 40), "💡 ");
      Take("💡 " + t, 40)
  }

  /** The caps of a normalised point: title at most 12, content at most 140. */
  predicate PointCapped(p: Point) {
    |p.title| <= 12 && |p.content| <= 140
  }

  predicate Capped(ps: seq<Point>) {
    forall k :: 0 <= k < |ps| ==> PointCapped(ps[k])
  }

  /** The title of a point: cleaned (default `📚 知识要点`, no emoji rule), capped at 12. */
  function PointTitle(v: Option<Json>): (r: string)
    ensures |r| <= 12 && SingleSpaced(r)
    ensures r == Take(CleanText(OrText(v, "📚 知识要点")), 12)
  {
    var t := CleanText(OrText(v, "📚 知识要点"));
    TakeSingleSpaced(t, 12);
    Take(t, 12)
  }

  /** The content of a point: cleaned (default empty), capped at 140. */
  function PointContent(v: Option<Json>): (r: string)
    ensures |r| <= 140 && SingleSpaced(r)
    ensures r == Take(CleanText(OrText(v, "")), 140)
  {
    var t := CleanText(OrText(v, ""));
    TakeSingleSpaced(t, 140);
    Take(t, 140)
  }

  /** One point; reading a field of a `null` point throws. */
  function CleanPoint(p: Json): (r: Outcome<Point>)
    ensures r.Throw? <==> p == JNull
    ensures r.Ok? ==> PointCapped(r.value) && SingleSpaced(r.value.title) && SingleSpaced(r.value.content)
  {
    if p == JNull then Throw(TYPE_ERROR)
    else Ok(Point(PointTitle(Get(p, "title")), PointContent(Get(p, "content"))))
  }

  /** `points.map(...)`: the outcome for each point, in order. */
  function PointOutcomes(items: seq<Json>): (outs: seq<Outcome<Point>>)
    ensures |outs| == |items|
    ensures forall k :: 0 <= k < |items| ==>
      (outs[k].Throw? <==> items[k] == JNull) && (outs[k].Ok? ==> PointCapped(outs[k].value))
  {
    seq(|items|, k requires 0 <= k < |items| => CleanPoint(items[k]))
  }

  /** Each outcome is the cleaning of the item at its position. */
  lemma PointOutcomeAt(items: seq<Json>, k: nat)
    requires k < |items|
    ensures PointOutcomes(items)[k] == CleanPoint(items[k])
  {
  }

  /** Some point outcome is a throw exactly when some item is `null`. */
  lemma NullPointThrows(items: seq<Json>)
    ensures (exists k :: 0 <= k < |items| && PointOutcomes(items)[k].Throw?) <==> JNull in items
  {
    var outs := PointOutcomes(items);
    if JNull in items {
      var k :| 0 <= k < |items| && items[k] == JNull;
      assert outs[k].Throw?;
    }
  }

  /** The cleaned points, or the first throw. */
  function CleanPoints(items: seq<Json>): (r: Outcome<seq<Point>>)
    ensures r.Throw? <==> JNull in items
    ensures r.Ok? ==> |r.value| == |items| && Capped(r.value)
    ensures r.Ok? ==> forall k :: 0 <= k < |items| ==> r.value[k] == CleanPoint(items[k]).value
  {
    NullPointThrows(items);
    CollectedPointsCapped(items);
    Collect(PointOutcomes(items))
  }

  /** The points collected from the outcomes keep the caps of each outcome. */
  lemma CollectedPointsCapped(items: seq<Json>)
    ensures var r := Collect(PointOutcomes(items));
      r.Ok? ==> (|r.value| == |items| && Capped(r.value)
                 && forall k :: 0 <= k < |items| ==> r.value[k] == CleanPoint(items[k]).value)
  {
    var outs := PointOutcomes(items);
    var r := Collect(outs);
    if r.Ok? {
      forall k | 0 <= k < |r.value|
        ensures PointCapped(r.value[k]) && r.value[k] == CleanPoint(items[k]).value
      {
        assert outs[k] == Ok(r.value[k]);
        PointOutcomeAt(items, k);
      }
    }
  }

  /** `Array.isArray(card.points) ? card.points.slice(0, 3).map(...) : []`. */
  function NormalisePoints(v: Option<Json>): (r: Outcome<seq<Point>>)
    ensures r.Ok? ==> |r.value| <= 3 && Capped(r.value)
    ensures !(v.Some? && v.value.JArr?) ==> r == Ok([])
    ensures v.Some? && v.value.JArr? ==> (r.Throw? <==> JNull in Slice(v.value.items, 0, 3))
    ensures v.Some? && v.value.JArr? && r.Ok? ==>
      |r.value| == (if |v.value.items| < 3 then |v.value.items| else 3)
      && forall k :: 0 <= k < |r.value| ==> r.value[k] == CleanPoint(v.value.items[k]).value
  {
    match v
    case Some(JArr(items)) => CleanPoints(Slice(items, 0, 3))
    case _ => Ok([])
  }

  /** Every normalised point has single-spaced texts. */
  lemma PointsSingleSpaced(v: Option<Json>)
    requires NormalisePoints(v).Ok?
    ensures var ps := NormalisePoints(v).value;
      forall k :: 0 <= k < |ps| ==> SingleSpaced(ps[k].title) && SingleSpaced(ps[k].content)
  {
    var ps := NormalisePoints(v).value;
    if v.Some? && v.value.JArr? {
      forall k | 0 <= k < |ps| ensures SingleSpaced(ps[k].title) && SingleSpaced(ps[k].content) {
        assert ps[k] == CleanPoint(v.value.items[k]).value;
      }
    }
  }

  /** `_validateAndCleanCard(card)`: reading a field of `null` throws, and so does a
      `null` among the first three points; otherwise every text is cleaned, the
      title and summary get an emoji marker and the introduction a greeting in front
      where they lack one, every text is cut to its cap, and the source is
      `gemini-api`. */
  function ValidateAndCleanCard(card: Json): (r: Outcome<Card>)
    ensures r.Throw? <==> card == JNull || NormalisePoints(Get(card, "points")).Throw?
    ensures r.Throw? ==> r.message == TYPE_ERROR
    ensures r.Ok? ==> (|r.value.title| <= 15 && |r.value.introduction| <= 60
      && |r.value.summary| <= 40 && |r.value.points| <= 3 && Capped(r.value.points)
      && r.value.source == Some(GEMINI_SOURCE))
    ensures r.Ok? ==> (SingleSpaced(r.value.title) && SingleSpaced(r.value.introduction)
      && SingleSpaced(r.value.summary)
      && forall k :: 0 <= k < |r.value.points| ==>
           SingleSpaced(r.value.points[k].title) && SingleSpaced(r.value.points[k].content))
    ensures r.Ok? ==>
      (r.value.title == NormaliseTitle(Get(card, "title"))
       && r.value.introduction == NormaliseIntro(Get(card, "introduction"))
       && r.value.points == NormalisePoints(Get(card, "points")).value
       && r.value.summary == NormaliseSummary(Get(card, "summary")))
  {
    if card == JNull then Throw(TYPE_ERROR)
    else
      match NormalisePoints(Get(card, "points"))
      case Throw(_) => Throw(TYPE_ERROR)
      case Ok(points) =>
        IntroSingleSpaced(Get(card, "introduction"));
        PointsSingleSpaced(Get(card, "points"));
        Ok(Card(NormaliseTitle(Get(card, "title")), NormaliseIntro(Get(card, "introduction")),
                points, NormaliseSummary(Get(card, "summary")), Some(GEMINI_SOURCE)))
  }

  /** A point the normaliser leaves as it is. */
  ghost predicate NeatPoint(p: Point) {
    Neat(p.title) && p.title != [] && |p.title| <= 12 && Neat(p.content) && |p.content| <= 140
  }

  /** A card the normaliser leaves as it is: neat non-empty texts within their caps,
      emoji in the title and summary, the child addressed, source `gemini-api`. */
  ghost predicate NeatCard(c: Card) {
    Neat(c.title) && c.title != [] && HasEmoji(c.title) && |c.title| <= 15
    && Neat(c.introduction) && c.introduction != [] && Glm.Addressed(c.introduction)
    && |c.introduction| <= 60
    && Neat(c.summary) && c.summary != [] && HasEmoji(c.summary) && |c.summary| <= 40
    && |c.points| <= 3 && (forall k :: 0 <= k < |c.points| ==> NeatPoint(c.points[k]))
    && c.source == Some(GEMINI_SOURCE)
  }

  /** A neat non-empty text read back from JSON cleans to itself. */
  lemma NeatTextKept(s: string, d: string)
    requires Neat(s) && (s != [] || d == [])
    ensures CleanText(OrText(Some(JStr(s)), d)) == s
  {
    var v := OrText(Some(JStr(s)), d);
    assert v == JStr(s);
    assert ToJsString(v) == s;
    CleanStringKeepsClean(s);
    if s == [] {
      assert CleanString([]) == [];
    }
  }

  lemma NeatPointTitleKept(s: string)
    requires Neat(s) && s != [] && |s| <= 12
    ensures PointTitle(Some(JStr(s))) == s
  {
    NeatTextKept(s, "📚 知识要点");
  }

  lemma NeatPointContentKept(s: string)
    requires Neat(s) && |s| <= 140
    ensures PointContent(Some(JStr(s))) == s
  {
    NeatTextKept(s, "");
  }

  lemma NeatPointKept(p: Point)
    requires NeatPoint(p)
    ensures CleanPoint(PointToJson(p)) == Ok(p)
  {
    var v := PointToJson(p);
    assert Get(v, "title") == Some(JStr(p.title));
    assert Get(v, "content") == Some(JStr(p.content));
    NeatPointTitleKept(p.title);
    NeatPointContentKept(p.content);
  }

  /** Neat points read back from their JSON form are kept, in order. */
  lemma NeatPointsKept(ps: seq<Point>)
    requires forall k :: 0 <= k < |ps| ==> NeatPoint(ps[k])
    ensures CleanPoints(PointsToJson(ps)) == Ok(ps)
  {
    var items := PointsToJson(ps);
    var outs := PointOutcomes(items);
    forall k | 0 <= k < |ps| ensures outs[k] == Ok(ps[k]) {
      PointOutcomeAt(items, k);
      NeatPointKept(ps[k]);
    }
    CollectAllOk(outs, ps);
  }

  /** The title, introduction and summary of a neat card survive their rules. */
  lemma NeatTitleKept(s: string)
    requires Neat(s) && s != [] && HasEmoji(s) && |s| <= 15
    ensures NormaliseTitle(Some(JStr(s))) == s
  {
    NeatTextKept(s, "🌟 有趣的知识");
  }

  lemma NeatIntroKept(s: string)
    requires Neat(s) && s != [] && Glm.Addressed(s) && |s| <= 60
    ensures NormaliseIntro(Some(JStr(s))) == s
  {
    NeatTextKept(s, "让我们一起学习新知识吧！");
  }

  lemma NeatSummaryKept(s: string)
    requires Neat(s) && s != [] && HasEmoji(s) && |s| <= 40
    ensures NormaliseSummary(Some(JStr(s))) == s
  {
    NeatTextKept(s, "保持好奇心，你会发现更多有趣的秘密！");
  }

  /** Neat points, as a JSON array of at most three, normalise to themselves. */
  lemma NeatPointListKept(ps: seq<Point>)
    requires |ps| <= 3 && forall k :: 0 <= k < |ps| ==> NeatPoint(ps[k])
    ensures NormalisePoints(Some(JArr(PointsToJson(ps)))) == Ok(ps)
  {
    var items := PointsToJson(ps);
    assert Slice(items, 0, 3) == items;
    NeatPointsKept(ps);
  }

  /** `_validateAndCleanCard` is the identity on a neat card. */
  lemma NormaliserKeepsNeatCard(c: Card)
    requires NeatCard(c)
    ensures ValidateAndCleanCard(CardToJson(c)) == Ok(c)
  {
    CardJsonFields(c);
    NeatPointListKept(c.points);
    NeatTitleKept(c.title);
    NeatIntroKept(c.introduction);
    NeatSummaryKept(c.summary);
  }

  // ---------------------------------------------------------------------------
  // Requests and replies

  const ERROR_PREFIX: string := "Gemini API错误: "

  /** `_postJson(url, body)` given how the `fetch` ended: a timeout or network error
      propagates as it is; a status that is not ok throws with the status, the
      status text and the body. */
  function PostJson(f: FetchResult): (r: Outcome<Json>)
    ensures r.Ok? <==> f.Reply? && IsOk(f.status) && f.json.Ok?
    ensures r.Ok? ==> r == f.json
    ensures f.Aborted? ==> r == Throw(ABORT_MESSAGE)
    ensures f.Failed? ==> r == Throw(f.message)
    ensures f.Reply? && !IsOk(f.status) ==>
      r.Throw? && StartsWith(r.message, ERROR_PREFIX + IntToString(f.status) + " ")
      && EndsWith(r.message, " - " + f.bodyText)
    ensures f.Reply? && !IsOk(f.status) ==>
      r == Throw(ERROR_PREFIX + IntToString(f.status) + " " + f.statusText + " - " + f.bodyText)
  {
    match f
    case Aborted => Throw(ABORT_MESSAGE)
    case Failed(m) => Throw(m)
    case Reply(status, statusText, bodyText, json) =>
      if IsOk(status) then json
      else
        var head := ERROR_PREFIX + IntToString(status) + " ";
        var tail := " - " + bodyText;
        var m := head + statusText + " - " + bodyText;
        assert m == head + statusText + tail;
        assert m[..|head|] == head && m[|m| - |tail|..] == tail;
        Throw(m)
  }

  /** `apiResponse?.candidates?.[0]?.content?.parts || []`. */
  function ReplyParts(resp: Json): Json {
    Or(OptGet(OptGet(OptIndex0(OptGet(Some(resp), "candidates")), "content"), "parts"),
       Some(JArr([]))).value
  }

  const TEXT_FAILED: string := "解析Gemini文本响应失败"

  /** `p.text || ''` as `join` writes it. */
  function PartText(p: Json): string {
    var t := Get(p, "text");
    if Defined(t) then ToJsString(t.value) else ""
  }

  /** `parts.map(p => p.text || '')` over parts none of which is `null`. */
  function PartTexts(items: seq<Json>): (texts: seq<string>)
    ensures |texts| == |items| && forall k :: 0 <= k < |items| ==> texts[k] == PartText(items[k])
  {
    seq(|items|, k requires 0 <= k < |items| => PartText(items[k]))
  }

  /** `_extractText(apiResponse)`: the texts of the parts joined by newlines and
      trimmed. Parts that are not an array, or a `null` part, throw inside the `try`,
      which turns every such error into one message. */
  function ExtractText(resp: Json): (r: Outcome<string>)
    ensures var parts := ReplyParts(resp);
      r.Throw? <==> !parts.JArr? || JNull in parts.items
    ensures r.Throw? ==> r.message == TEXT_FAILED
    ensures r.Ok? ==> Trimmed(r.value)
    ensures r.Ok? ==> r.value == Trim(Join(PartTexts(ReplyParts(resp).items), "\n"))
  {
    var parts := ReplyParts(resp);
    if parts.JArr? && JNull !in parts.items then Ok(Trim(Join(PartTexts(parts.items), "\n")))
    else Throw(TEXT_FAILED)
  }

  /** A reply whose first candidate holds the given texts as its parts. */
  function TextReply(texts: seq<string>): Json {
    var parts := seq(|texts|, k requires 0 <= k < |texts| => JObj(map["text" := JStr(texts[k])]));
    JObj(map["candidates" := JArr([JObj(map["content" := JObj(map["parts" := JArr(parts)])])])])
  }

  /** Reading the text of such a reply gives its texts joined by newlines, trimmed. */
  lemma TextReplyRead(texts: seq<string>)
    ensures ExtractText(TextReply(texts)) == Ok(Trim(Join(texts, "\n")))
  {
    var resp := TextReply(texts);
    var parts := seq(|texts|, k requires 0 <= k < |texts| => JObj(map["text" := JStr(texts[k])]));
    assert ReplyParts(resp) == JArr(parts);
    forall k | 0 <= k < |parts| ensures parts[k] != JNull && PartText(parts[k]) == texts[k] {
      assert Get(parts[k], "text") == Some(JStr(texts[k]));
    }
    assert PartTexts(parts) == texts;
  }

  const FENCE: string := "```"

  /** `json` in any mix of letter case. */
  predicate IsJsonWord(w: string) {
    |w| == 4 && (w[0] == 'j' || w[0] == 'J') && (w[1] == 's' || w[1] == 'S')
    && (w[2] == 'o' || w[2] == 'O') && (w[3] == 'n' || w[3] == 'N')
  }

  /** `.replace(/^```(json)?/gi, '')`: one opening fence, with `json` after it when
      present, is removed from the very start. */
  function StripOpeningFence(s: string): string {
    if StartsWith(s, FENCE) then
      if |s| >= 7 && IsJsonWord(s[3..7]) then s[7..] else s[3..]
    else s
  }

  /** `.replace(/```$/g, '')`: one closing fence is removed from the very end. */
  function StripClosingFence(s: string): string {
    if EndsWith(s, FENCE) then s[..|s| - 3] else s
  }

  /** The text `_safeParseJson` hands to `JSON.parse`. */
  function Unfence(text: string): (r: string)
    ensures Trimmed(r) && |r| <= |text|
  {
    Trim(StripClosingFence(StripOpeningFence(text)))
  }

  const INVALID_JSON: string := "Gemini返回的内容不是有效的JSON"

  /** `_safeParseJson(text)` with `JSON.parse` as the oracle `parse`, which answers
      `None` where it would throw. */
  function SafeParseJson(text: string, parse: string -> Option<Json>): (r: Outcome<Json>)
    ensures r.Ok? <==> parse(Unfence(text)).Some?
    ensures r.Ok? ==> r.value == parse(Unfence(text)).value
    ensures r.Throw? ==> r.message == INVALID_JSON
  {
    match parse(Unfence(text))
    case Some(v) => Ok(v)
    case None => Throw(INVALID_JSON)
  }

  /** A reply fenced as a `json` code block is read as the text inside. */
  lemma FencedJsonUnwrapped(w: string, b: string)
    requires IsJsonWord(w)
    ensures Unfence(FENCE + w + b + FENCE) == Trim(b)
  {
    var s := FENCE + w + b + FENCE;
    assert s[..3] == FENCE && s[3..7] == w;
    assert s[7..] == b + FENCE;
    assert (b + FENCE)[..|b|] == b;
  }

  /** A bare fence is removed too, as long as the text inside does not start with
      `json` (which would be taken for the language tag). */
  lemma BareFenceUnwrapped(b: string)
    requires |b| < 4 || !IsJsonWord(b[..4])
    ensures Unfence(FENCE + b + FENCE) == Trim(b)
  {
    var s := FENCE + b + FENCE;
    var rest := b + FENCE;
    assert s == FENCE + rest && s[..3] == FENCE && s[3..] == rest;
    if |s| >= 7 {
      assert s[3..7] == rest[..4];
      if |b| >= 4 {
        assert rest[..4] == b[..4];
      } else {
        assert rest[3] == '`';
      }
    }
    assert StripOpeningFence(s) == rest;
    assert rest[..|b|] == b;
  }

  /** A text without fences is only trimmed. */
  lemma UnfencedTextTrimmed(t: string)
    requires !StartsWith(t, FENCE) && !EndsWith(t, FENCE)
    ensures Unfence(t) == Trim(t)
  {
  }

  /** `_generateKnowledgeCard(question)` given how the request ended; the prompt
      text is not modelled. */
  function GenerateKnowledgeCard(f: FetchResult, parse: string -> Option<Json>): (r: Outcome<Card>)
    ensures PostJson(f).Throw? ==> r == Throw(PostJson(f).message)
    ensures r.Ok? ==> (|r.value.title| <= 15 && |r.value.introduction| <= 60
      && |r.value.summary| <= 40 && |r.value.points| <= 3 && Capped(r.value.points)
      && r.value.source == Some(GEMINI_SOURCE))
  {
    match PostJson(f)
    case Throw(m) => Throw(m)
    case Ok(resp) =>
      match ExtractText(resp)
      case Throw(m) => Throw(m)
      case Ok(text) =>
        match SafeParseJson(text, parse)
        case Throw(m) => Throw(m)
        case Ok(json) => ValidateAndCleanCard(json)
  }

  /** A neat card sent back as a fenced `json` block in a successful reply is
      returned exactly. */
  lemma FencedCardReplyRead(c: Card, body: string, parse: string -> Option<Json>)
    requires NeatCard(c) && parse(Trim(body)) == Some(CardToJson(c))
    ensures GenerateKnowledgeCard(Reply(200, "OK", "", Ok(TextReply([FENCE + "json" + body + FENCE]))), parse) == Ok(c)
  {
    var text := FENCE + "json" + body + FENCE;
    var f := Reply(200, "OK", "", Ok(TextReply([text])));
    assert PostJson(f) == Ok(TextReply([text]));
    FencedReplyText(body);
    assert SafeParseJson(text, parse) == Ok(CardToJson(c));
    NormaliserKeepsNeatCard(c);
  }

  /** The text of a reply holding one fenced `json` block is the block, fences
      included, and unfencing it leaves the body trimmed. */
  lemma FencedReplyText(body: string)
    ensures var text := FENCE + "json" + body + FENCE;
      ExtractText(TextReply([text])) == Ok(text) && Unfence(text) == Trim(body)
  {
    var text := FENCE + "json" + body + FENCE;
    assert text[0] == '`' && text[|text| - 1] == '`';
    OneTextReplyRead(text);
    FencedJsonUnwrapped("json", body);
  }

  /** A reply with one text part that has no whitespace around it reads as that text. */
  lemma OneTextReplyRead(t: string)
    requires t != [] && !IsSpace(t[0]) && !IsSpace(t[|t| - 1])
    ensures ExtractText(TextReply([t])) == Ok(t)
  {
    TextReplyRead([t]);
    assert Join([t], "\n") == t;
    TrimUntouched(t);
  }

  // ---------------------------------------------------------------------------
  // The image

  /** `p.inlineData?.data || p.inline_data?.data`. */
  function InlineData(p: Json): Option<Json> {
    Or(OptGet(Get(p, "inlineData"), "data"), OptGet(Get(p, "inline_data"), "data"))
  }

  /** Part `i` is the one `find` returns: it carries image data and no part before
      it is `null` (reading `null.inlineData` would have thrown first). */
  predicate ImageAt(items: seq<Json>, i: int) {
    0 <= i < |items| && Defined(InlineData(items[i])) && JNull !in items[..i]
  }

  /** Part `i` is the first with image data. */
  predicate FirstImageAt(items: seq<Json>, i: int) {
    ImageAt(items, i) && forall j :: 0 <= j < i ==> !Defined(InlineData(items[j]))
  }

  /** `parts.find(...)` inside the `try`: the first part with image data, or `None`
      when there is none or a `null` part comes first. */
  function FindImage(items: seq<Json>): (r: Option<Json>)
    ensures r.Some? <==> exists i :: ImageAt(items, i)
    ensures r.Some? ==> Defined(InlineData(r.value)) && r.value in items
    ensures r.Some? ==> exists i :: FirstImageAt(items, i) && r.value == items[i]
  {
    if items == [] then None
    else if items[0] == JNull then
      assert forall i :: 0 < i < |items| ==> items[..i][0] == JNull;
      None
    else if Defined(InlineData(items[0])) then
      assert ImageAt(items, 0);
      Some(items[0])
    else
      var r := FindImage(items[1..]);
      assert forall i :: 0 < i < |items| ==> items[..i] == [items[0]] + items[1..][..i - 1];
      assert forall i :: ImageAt(items[1..], i) ==> ImageAt(items, i + 1);
      assert forall i :: ImageAt(items, i) ==> ImageAt(items[1..], i - 1);
      FirstImageShifts(items, r);
      r
  }

  /** The first image of the parts after a part without image data is the first
      image of all the parts. */
  lemma FirstImageShifts(items: seq<Json>, r: Option<Json>)
    requires items != [] && items[0] != JNull && !Defined(InlineData(items[0]))
    requires r.Some? ==> exists i :: FirstImageAt(items[1..], i) && r.value == items[1..][i]
    ensures r.Some? ==> exists i :: FirstImageAt(items, i) && r.value == items[i]
  {
    if r.Some? {
      var i :| FirstImageAt(items[1..], i) && r.value == items[1..][i];
      assert items[..i + 1] == [items[0]] + items[1..][..i];
      forall j | 0 <= j < i + 1 ensures !Defined(InlineData(items[j])) {
        if j > 0 {
          assert items[j] == items[1..][j - 1];
        }
      }
      assert FirstImageAt(items, i + 1);
    }
  }

  /** `_extractFirstImagePart(apiResponse)`: parts that are not an array have no
      `find`, and the resulting error is turned into `null`. */
  function ExtractFirstImagePart(resp: Json): (r: Option<Json>)
    ensures r.Some? ==> Defined(InlineData(r.value))
    ensures !ReplyParts(resp).JArr? ==> r.None?
    ensures ReplyParts(resp).JArr? ==> r == FindImage(ReplyParts(resp).items)
  {
    match ReplyParts(resp)
    case JArr(items) => FindImage(items)
    case _ => None
  }

  /** The image of `generateImageFromCard`: a MIME type and the base64 data. */
  datatype Image = Image(mimeType: Json, base64Data: Json)

  const NO_IMAGE: string := "Gemini 未返回图片数据"
  const NO_IMAGE_DATA: string := "未找到图片base64数据"
  const DEFAULT_MIME: string := "image/png"

  /** `p.inlineData?.mimeType || p.inline_data?.mime_type || 'image/png'`. */
  function InlineMime(p: Json): (r: Json)
    ensures Truthy(r)
    ensures (!Defined(OptGet(Get(p, "inlineData"), "mimeType"))
      && !Defined(OptGet(Get(p, "inline_data"), "mime_type"))) ==> r == JStr(DEFAULT_MIME)
  {
    OrText(Or(OptGet(Get(p, "inlineData"), "mimeType"), OptGet(Get(p, "inline_data"), "mime_type")),
           DEFAULT_MIME)
  }

  /** The emoji `_buildImagePromptFromCard` strips from the title to get the topic. */
  const TOPIC_ICONS: string := "🌟🎓📚🔬🧠💡⭐🌈🦕🪐"

  /** `s.replace(/[icons]/gu, '')`: every one of the icons removed, read as whole
      characters. */
  function RemoveIcons(s: string): (r: string)
    ensures |r| <= |s| && NoIcon(r)
    ensures NoIcon(s) ==> r == s
  {
    if s == [] then []
    else if s[0] in TOPIC_ICONS then RemoveIcons(s[1..])
    else [s[0]] + RemoveIcons(s[1..])
  }

  /** No character of `s` is one of the icons. */
  predicate NoIcon(s: string) {
    forall i :: 0 <= i < |s| ==> s[i] !in TOPIC_ICONS
  }

  lemma NoIconSlice(s: string, a: nat, b: nat)
    requires NoIcon(s) && a <= b <= |s|
    ensures NoIcon(s[a..b])
  {
    assert forall i :: 0 <= i < b - a ==> s[a..b][i] == s[a + i];
  }

  /** The topic of the image prompt: the title without the icons, trimmed. */
  function Topic(title: string): (r: string)
    ensures NoIcon(r) && Trimmed(r)
  {
    var s := RemoveIcons(title);
    var a := LeadingSpace(s);
    var r := Trim(s);
    NoIconSlice(s, a, a + |r|);
    r
  }

  /** The usual card title, an icon, a space and a plain text, gives that text. */
  lemma TopicOfMarkedTitle(icon: char, t: string)
    requires icon in TOPIC_ICONS
    requires t != [] && !IsSpace(t[0]) && !IsSpace(t[|t| - 1])
    requires NoIcon(t)
    ensures Topic([icon, ' '] + t) == t
  {
    var s := [icon, ' '] + t;
    assert s[1..] == [' '] + t && s[2..] == t;
    assert RemoveIcons(s) == [' '] + t;
    TrimPadded(" ", t, "");
    assert " " + t + "" == [' '] + t;
  }

  /** The UTF-16 code units of a text, as JavaScript stores it. */
  function Utf16(s: string): seq<int> {
    if s == [] then [] else CodeUnits(s[0]) + Utf16(s[1..])
  }

  function CodeUnits(c: char): (us: seq<int>)
    ensures us != [] && !IsLowSurrogate(us[0])
  {
    var n := c as int;
    if n < 0x10000 then [n]
    else [0xD800 + (n - 0x10000) / 0x400, 0xDC00 + (n - 0x10000) % 0x400]
  }

  predicate IsLowSurrogate(u: int) {
    0xDC00 <= u <= 0xDFFF
  }

  /** No text's encoding starts with a low surrogate. */
  lemma EncodingStartsWell(s: string)
    requires s != []
    ensures Utf16(s) != [] && !IsLowSurrogate(Utf16(s)[0])
  {
    assert Utf16(s) == CodeUnits(s[0]) + Utf16(s[1..]);
  }

  /** The code units of the regex class `[🌟🎓📚🔬🧠💡⭐🌈🦕🪐]` without the `u` flag:
      each icon contributes its units separately. */
  const ICON_UNITS: seq<int> := [
    0xD83C, 0xDF1F, 0xD83C, 0xDF93, 0xD83D, 0xDCDA, 0xD83D, 0xDD2C, 0xD83E, 0xDDE0,
    0xD83D, 0xDCA1, 0x2B50, 0xD83C, 0xDF08, 0xD83E, 0xDD95, 0xD83E, 0xDE90]

  lemma IconUnitsEncodeIcons()
    ensures Utf16(TOPIC_ICONS) == ICON_UNITS
  {
    var a, b := "🌟🎓📚🔬🧠", "💡⭐🌈🦕🪐";
    IconHalves();
    EarlierIconUnits();
    LaterIconUnits();
    Utf16Concat(a, b);
  }

  lemma IconHalves()
    ensures TOPIC_ICONS == "🌟🎓📚🔬🧠" + "💡⭐🌈🦕🪐"
    ensures ICON_UNITS == [0xD83C, 0xDF1F, 0xD83C, 0xDF93, 0xD83D, 0xDCDA, 0xD83D, 0xDD2C, 0xD83E, 0xDDE0]
      + [0xD83D, 0xDCA1, 0x2B50, 0xD83C, 0xDF08, 0xD83E, 0xDD95, 0xD83E, 0xDE90]
  {
  }

  lemma EarlierIconUnits()
    ensures Utf16("🌟🎓📚🔬🧠") == [0xD83C, 0xDF1F, 0xD83C, 0xDF93, 0xD83D, 0xDCDA, 0xD83D, 0xDD2C, 0xD83E, 0xDDE0]
  {
    var a := "🌟🎓📚🔬🧠";
    assert Utf16(a[4..]) == [0xD83E, 0xDDE0];
    assert Utf16(a[3..]) == [0xD83D, 0xDD2C] + Utf16(a[4..]);
    assert Utf16(a[2..]) == [0xD83D, 0xDCDA] + Utf16(a[3..]);
    assert Utf16(a[1..]) == [0xD83C, 0xDF93] + Utf16(a[2..]);
  }

  lemma LaterIconUnits()
    ensures Utf16("💡⭐🌈🦕🪐") == [0xD83D, 0xDCA1, 0x2B50, 0xD83C, 0xDF08, 0xD83E, 0xDD95, 0xD83E, 0xDE90]
  {
    var b := "💡⭐🌈🦕🪐";
    assert Utf16(b[4..]) == [0xD83E, 0xDE90];
    assert Utf16(b[3..]) == [0xD83E, 0xDD95] + Utf16(b[4..]);
    assert Utf16(b[2..]) == [0xD83C, 0xDF08] + Utf16(b[3..]);
    assert Utf16(b[1..]) == [0x2B50] + Utf16(b[2..]);
  }

  /** Encoding distributes over concatenation. */
  lemma {:induction false} Utf16Concat(a: string, b: string)
    ensures Utf16(a + b) == Utf16(a) + Utf16(b)
    decreases |a|
  {
    if a == [] {
      assert a + b == b;
    } else {
      assert (a + b)[0] == a[0] && (a + b)[1..] == a[1..] + b;
      Utf16Concat(a[1..], b);
      assert Utf16(a + b) == CodeUnits(a[0]) + (Utf16(a[1..]) + Utf16(b));
    }
  }

  /** Deleting every code unit the class matches, one unit at a time. */
  function RemoveIconUnits(us: seq<int>): (r: seq<int>)
    ensures forall i :: 0 <= i < |r| ==> r[i] !in ICON_UNITS
  {
    if us == [] then []
    else if us[0] in ICON_UNITS then RemoveIconUnits(us[1..])
    else [us[0]] + RemoveIconUnits(us[1..])
  }

  /** A code unit that `trim` removes. */
  predicate IsSpaceUnit(u: int) {
    (0 <= u < 0xD800 || 0xE000 <= u < 0x110000) && IsSpace(u as char)
  }

  function TrimUnits(us: seq<int>): seq<int>
    decreases |us|
  {
    if us != [] && IsSpaceUnit(us[0]) then TrimUnits(us[1..])
    else if us != [] && IsSpaceUnit(us[|us| - 1]) then TrimUnits(us[..|us| - 1])
    else us
  }

  /** `card.title.replace(/[🌟🎓📚🔬🧠💡⭐🌈🦕🪐]/g, '').trim()` as written: without the
      `u` flag the class holds code units, so the high surrogates D83C, D83D and D83E
      are deleted wherever they occur, splitting every other emoji of those blocks. */
  function TopicAsWritten(title: string): seq<int> {
    TrimUnits(RemoveIconUnits(Utf16(title)))
  }

  /** A title with an emoji that is not one of the icons: the topic as written keeps
      a lone low surrogate, which encodes no text at all, while the intended topic
      keeps the whole emoji. */
  lemma TopicAsWrittenSplitsEmoji()
    ensures TopicAsWritten("🌍 地球") == [0xDF0D, 0x20, 0x5730, 0x7403]
    ensures Topic("🌍 地球") == "🌍 地球"
    ensures forall s: string :: Utf16(s) != TopicAsWritten("🌍 地球")
  {
    EarthTopicAsWritten();
    EarthTopicKept();
    LoneLowSurrogateEncodesNothing();
  }

  lemma EarthTopicAsWritten()
    ensures TopicAsWritten("🌍 地球") == [0xDF0D, 0x20, 0x5730, 0x7403]
  {
    EarthTitleUnits();
    EarthUnitsFiltered();
    assert !IsSpaceUnit(0xDF0D) && !IsSpaceUnit(0x7403) by {
      assert !IsSpace(0x7403 as char);
    }
  }

  lemma EarthTopicKept()
    ensures Topic("🌍 地球") == "🌍 地球"
  {
    var t := "🌍 地球";
    assert NoIcon(t);
    TrimUntouched(t);
  }

  /** No text is encoded as units that start with a low surrogate. */
  lemma LoneLowSurrogateEncodesNothing()
    ensures forall s: string :: Utf16(s) != [0xDF0D, 0x20, 0x5730, 0x7403]
  {
    forall s: string ensures Utf16(s) != [0xDF0D, 0x20, 0x5730, 0x7403] {
      if s != [] {
        EncodingStartsWell(s);
      }
    }
  }

  lemma EarthTitleUnits()
    ensures Utf16("🌍 地球") == [0xD83C, 0xDF0D, 0x20, 0x5730, 0x7403]
  {
    var t := "🌍 地球";
    assert Utf16(t[3..]) == [0x7403];
    assert Utf16(t[2..]) == [0x5730, 0x7403];
    assert Utf16(t[1..]) == [0x20, 0x5730, 0x7403];
  }

  lemma EarthUnitsFiltered()
    ensures RemoveIconUnits([0xD83C, 0xDF0D, 0x20, 0x5730, 0x7403]) == [0xDF0D, 0x20, 0x5730, 0x7403]
  {
    var us := [0xD83C, 0xDF0D, 0x20, 0x5730, 0x7403];
    assert RemoveIconUnits(us[4..]) == [0x7403];
    assert RemoveIconUnits(us[3..]) == [0x5730, 0x7403];
    assert RemoveIconUnits(us[2..]) == [0x20, 0x5730, 0x7403];
    assert RemoveIconUnits(us[1..]) == [0xDF0D, 0x20, 0x5730, 0x7403];
  }

  /** The slots of the image prompt; its fixed wording is not modelled. */
  datatype ImagePrompt = ImagePrompt(
    topic: string,
    title: string,
    introduction: string,
    pointsText: string,
    summary: string)

  /** `${index + 1}. ${p.title}: ${p.content}`. */
  function PointLine(p: Json, index: nat): string {
    IntToString(index + 1) + ". " + Interpolate(Get(p, "title")) + ": " + Interpolate(Get(p, "content"))
  }

  function PointLines(items: seq<Json>): (lines: seq<string>)
    ensures |lines| == |items| && forall k :: 0 <= k < |items| ==> lines[k] == PointLine(items[k], k)
  {
    seq(|items|, k requires 0 <= k < |items| => PointLine(items[k], k))
  }

  /** `(card.points || []).map(...).join('\n')`: anything truthy but an array has no
      `map`, and a `null` point throws on `p.title`. */
  function PointsText(points: Option<Json>): (r: Outcome<string>)
    ensures r.Throw? ==> r.message == TYPE_ERROR
    ensures r.Throw? <==> Defined(points) && !(points.value.JArr? && JNull !in points.value.items)
  {
    var v := Or(points, Some(JArr([]))).value;
    if v.JArr? && JNull !in v.items then Ok(Join(PointLines(v.items), "\n")) else Throw(TYPE_ERROR)
  }

  /** A title that `replace` can be called on. */
  predicate TextTitle(card: Json) {
    Get(card, "title").Some? && Get(card, "title").value.JStr?
  }

  /** `_buildImagePromptFromCard(card)`: the topic, the title, introduction and
      summary as template literals print them, and the numbered points. */
  function BuildImagePrompt(card: Json): (r: Outcome<ImagePrompt>)
    ensures r.Throw? ==> r.message == TYPE_ERROR
    ensures r.Throw? <==> card == JNull || PointsText(Get(card, "points")).Throw? || !TextTitle(card)
    ensures r.Ok? ==> r.value.topic == Topic(r.value.title) && Get(card, "title") == Some(JStr(r.value.title))
  {
    if card == JNull then Throw(TYPE_ERROR)
    else
      match PointsText(Get(card, "points"))
      case Throw(m) => Throw(m)
      case Ok(pointsText) =>
        match Get(card, "title")
        case Some(JStr(t)) =>
          Ok(ImagePrompt(Topic(t), t, Interpolate(Get(card, "introduction")), pointsText,
                         Interpolate(Get(card, "summary"))))
        case _ => Throw(TYPE_ERROR)
  }

  /** `${index + 1}. title: content` for a point of a card. */
  function CardPointLine(p: Point, index: nat): string {
    IntToString(index + 1) + ". " + p.title + ": " + p.content
  }

  function CardPointLines(ps: seq<Point>): (lines: seq<string>)
    ensures |lines| == |ps| && forall k :: 0 <= k < |ps| ==> lines[k] == CardPointLine(ps[k], k)
  {
    seq(|ps|, k requires 0 <= k < |ps| => CardPointLine(ps[k], k))
  }

  /** The points of a card, sent as JSON, render as its numbered lines. */
  lemma CardPointLinesRendered(ps: seq<Point>)
    ensures JNull !in PointsToJson(ps) && PointLines(PointsToJson(ps)) == CardPointLines(ps)
  {
    var items := PointsToJson(ps);
    forall k | 0 <= k < |items|
      ensures items[k] != JNull && PointLine(items[k], k) == CardPointLine(ps[k], k)
    {
      assert Get(items[k], "title") == Some(JStr(ps[k].title));
      assert Get(items[k], "content") == Some(JStr(ps[k].content));
    }
  }

  /** The prompt for a card the service produced carries its texts verbatim and its
      points as numbered lines. */
  lemma CardPrompt(c: Card)
    ensures var r := BuildImagePrompt(CardToJson(c));
      r.Ok? && r.value.title == c.title && r.value.introduction == c.introduction
      && r.value.summary == c.summary && r.value.topic == Topic(c.title)
      && r.value.pointsText == Join(CardPointLines(c.points), "\n")
  {
    CardJsonFields(c);
    CardPointsText(c.points);
    var v := CardToJson(c);
    assert Interpolate(Get(v, "introduction")) == c.introduction;
    assert Interpolate(Get(v, "summary")) == c.summary;
  }

  /** The points of a card, sent as JSON, give the text of its numbered lines. */
  lemma CardPointsText(ps: seq<Point>)
    ensures PointsText(Some(JArr(PointsToJson(ps)))) == Ok(Join(CardPointLines(ps), "\n"))
  {
    CardPointLinesRendered(ps);
  }

  /** When no point text holds a newline, the points text splits back into one
      numbered line per point. */
  lemma CardPromptLines(c: Card)
    requires c.points != []
    requires forall k :: 0 <= k < |c.points| ==> '\n' !in CardPointLine(c.points[k], k)
    ensures Split(BuildImagePrompt(CardToJson(c)).value.pointsText, '\n') == CardPointLines(c.points)
  {
    CardPrompt(c);
    PointLinesSplit(c.points);
  }

  /** Numbered lines holding no newline, joined by newlines, split back into themselves. */
  lemma PointLinesSplit(ps: seq<Point>)
    requires ps != []
    requires forall k :: 0 <= k < |ps| ==> '\n' !in CardPointLine(ps[k], k)
    ensures Split(Join(CardPointLines(ps), "\n"), '\n') == CardPointLines(ps)
  {
    var lines := CardPointLines(ps);
    assert forall k :: 0 <= k < |lines| ==> '\n' !in lines[k];
    SplitJoin(lines, '\n');
  }

  /** `generateImageFromCard(card)` given how the request ended: the prompt is built
      first, the reply must hold a part with image data, and the MIME type defaults
      to `image/png`. */
  function GenerateImageFromCard(card: Json, f: FetchResult): (r: Outcome<Image>)
    ensures BuildImagePrompt(card).Throw? ==> r == Throw(TYPE_ERROR)
    ensures BuildImagePrompt(card).Ok? && PostJson(f).Throw? ==> r == Throw(PostJson(f).message)
    ensures BuildImagePrompt(card).Ok? && PostJson(f).Ok? ==>
      (r.Throw? <==> ExtractFirstImagePart(PostJson(f).value).None?)
      && (r.Throw? ==> r.message == NO_IMAGE)
    ensures r.Ok? ==> Truthy(r.value.mimeType) && Truthy(r.value.base64Data)
    ensures (BuildImagePrompt(card).Ok? && PostJson(f).Ok? && ExtractFirstImagePart(PostJson(f).value).Some?)
      ==> var part := ExtractFirstImagePart(PostJson(f).value).value;
          r == Ok(Image(InlineMime(part), InlineData(part).value))
    ensures BuildImagePrompt(card).Ok? && PostJson(f).Ok? ==> r != Throw(NO_IMAGE_DATA)
  {
    match BuildImagePrompt(card)
    case Throw(m) => Throw(m)
    case Ok(_) =>
      match PostJson(f)
      case Throw(m) => Throw(m)
      case Ok(resp) =>
        match ExtractFirstImagePart(resp)
        case None => Throw(NO_IMAGE)
        case Some(part) =>
          var data := InlineData(part);
          if !Defined(data) then Throw(NO_IMAGE_DATA)
          else Ok(Image(InlineMime(part), data.value))
  }
}
