/** The JavaScript string operations the knowledge-card code relies on, over
    Dafny strings (sequences of Unicode scalar values). */
module JsText {

  /** The characters JavaScript's `trim` removes and the regex class `\s` matches. */
  predicate IsSpace(c: char) {
    c == '\t' || c == '\n' || c == '\U{B}' || c == '\U{C}' || c == '\r' || c == ' '
    || c == '\U{A0}' || c == '\U{1680}' || ('\U{2000}' <= c <= '\U{200A}')
    || c == '\U{2028}' || c == '\U{2029}' || c == '\U{202F}' || c == '\U{205F}'
    || c == '\U{3000}' || c == '\U{FEFF}'
  }

  predicate AllSpace(s: string) {
    forall i :: 0 <= i < |s| ==> IsSpace(s[i])
  }

  /** `s.trimStart()`: drops the leading whitespace. */
  function TrimStart(s: string): (r: string)
    ensures |r| <= |s| && r == s[|s| - |r|..]
    ensures AllSpace(s[..|s| - |r|])
    ensures r == [] || !IsSpace(r[0])
  {
    if s != [] && IsSpace(s[0]) then
      var r := TrimStart(s[1..]);
      assert s[..|s| - |r|] == [s[0]] + s[1..][..|s| - 1 - |r|];
      AllSpaceConcat([s[0]], s[1..][..|s| - 1 - |r|]);
      r
    else s
  }

  /** `s.trimEnd()`: drops the trailing whitespace. */
  function TrimEnd(s: string): (r: string)
    ensures |r| <= |s| && r == s[..|r|]
    ensures AllSpace(s[|r|..])
    ensures r == [] || !IsSpace(r[|r| - 1])
  {
    if s != [] && IsSpace(s[|s| - 1]) then
      var init := s[..|s| - 1];
      var r := TrimEnd(init);
      assert s[|r|..] == init[|r|..] + [s[|s| - 1]];
      AllSpaceConcat(init[|r|..], [s[|s| - 1]]);
      r
    else s
  }

  /** How many whitespace characters `s.trimStart()` drops. */
  function LeadingSpace(s: string): (n: nat)
    ensures n <= |s|
  {
    |s| - |TrimStart(s)|
  }

  /** Dropping `a` and then `b` elements drops `a + b`. */
  lemma DropOfDrop<T>(s: seq<T>, a: nat, b: nat)
    requires a + b <= |s|
    ensures s[a..][b..] == s[a + b..]
  {
  }

  /** Taking `b` elements after dropping `a` is the slice from `a` to `a + b`. */
  lemma TakeOfDrop<T>(s: seq<T>, a: nat, b: nat)
    requires a + b <= |s|
    ensures s[a..][..b] == s[a..a + b]
  {
  }

  /** `s.trim()`: the result is the slice of `s` after its leading whitespace
      that neither starts nor ends with whitespace; `TrimCutsSpace` adds that only
      whitespace was cut off. */
  function Trim(s: string): (r: string)
    ensures LeadingSpace(s) + |r| <= |s|
    ensures r == s[LeadingSpace(s)..LeadingSpace(s) + |r|]
    ensures r == [] || (!IsSpace(r[0]) && !IsSpace(r[|r| - 1]))
  {
    var t := TrimStart(s);
    var r := TrimEnd(t);
    TakeOfDrop(s, LeadingSpace(s), |r|);
    r
  }

  /** What `trim` cuts off both ends is whitespace. */
  lemma TrimCutsSpace(s: string)
    ensures AllSpace(s[..LeadingSpace(s)]) && AllSpace(s[LeadingSpace(s) + |Trim(s)|..])
  {
    DropOfDrop(s, LeadingSpace(s), |Trim(s)|);
  }

  /** A text that neither starts nor ends with whitespace is its own trim. */
  lemma TrimUntouched(s: string)
    requires s != [] && !IsSpace(s[0]) && !IsSpace(s[|s| - 1])
    ensures Trim(s) == s
  {
    assert TrimStart(s) == s;
  }

  /** Leading whitespace in front of a text that starts with a non-space is
      exactly what `trimStart` drops. */
  lemma {:induction false} TrimStartPadded(pad: string, t: string)
    requires AllSpace(pad) && t != [] && !IsSpace(t[0])
    ensures TrimStart(pad + t) == t
    decreases |pad|
  {
    if pad == [] {
      assert pad + t == t;
    } else {
      assert (pad + t)[0] == pad[0];
      assert (pad + t)[1..] == pad[1..] + t;
      TrimStartPadded(pad[1..], t);
    }
  }

  /** Trailing whitespace behind a text that ends with a non-space is exactly what
      `trimEnd` drops. */
  lemma {:induction false} TrimEndPadded(t: string, pad: string)
    requires AllSpace(pad) && t != [] && !IsSpace(t[|t| - 1])
    ensures TrimEnd(t + pad) == t
    decreases |pad|
  {
    if pad == [] {
      assert t + pad == t;
    } else {
      var s := t + pad;
      assert s[|s| - 1] == pad[|pad| - 1];
      assert s[..|s| - 1] == t + pad[..|pad| - 1];
      TrimEndPadded(t, pad[..|pad| - 1]);
    }
  }

  /** Trimming a text padded with whitespace gives the text back. */
  lemma TrimPadded(before: string, t: string, after: string)
    requires AllSpace(before) && AllSpace(after) && t != [] && !IsSpace(t[0]) && !IsSpace(t[|t| - 1])
    ensures Trim(before + t + after) == t
  {
    assert before + t + after == before + (t + after);
    TrimStartPadded(before, t + after);
    TrimEndPadded(t, after);
  }

  /** True when `s` is empty or all whitespace: exactly when `s.trim()` is empty. */
  predicate IsBlank(s: string) {
    AllSpace(s)
  }

  lemma AllSpaceConcat(a: string, b: string)
    requires AllSpace(a) && AllSpace(b)
    ensures AllSpace(a + b)
  {
  }

  lemma TrimEmptyIffBlank(s: string)
    ensures Trim(s) == [] <==> IsBlank(s)
  {
    var r, i := Trim(s), LeadingSpace(s);
    TrimCutsSpace(s);
    if r == [] {
      var a, b := s[..i], s[i + |r|..];
      AllSpaceConcat(a, b);
      assert a + b == s;
    } else {
      assert r[0] == s[i..i + |r|][0] == s[i];
    }
  }

  /** `s.startsWith(w)`. */
  predicate StartsWith(s: string, w: string) {
    |w| <= |s| && s[..|w|] == w
  }

  /** `s.endsWith(w)`. */
  predicate EndsWith(s: string, w: string) {
    |w| <= |s| && s[|s| - |w|..] == w
  }

  /** `s.includes(w)`: `w` occurs at some position of `s`. */
  predicate Contains(s: string, w: string)
    decreases |s|
  {
    StartsWith(s, w) || (s != [] && Contains(s[1..], w))
  }

  /** `w` occurs in `s` starting at index `i`. */
  predicate OccursAt(s: string, w: string, i: int) {
    0 <= i <= |s| - |w| && s[i..i + |w|] == w
  }

  /** A direct characterisation of `Contains` by the position of the occurrence. */
  lemma {:induction false} ContainsAt(s: string, w: string)
    ensures Contains(s, w) <==> exists i :: OccursAt(s, w, i)
    decreases |s|
  {
    if StartsWith(s, w) {
      assert OccursAt(s, w, 0);
    }
    if s != [] {
      ContainsAt(s[1..], w);
      if Contains(s[1..], w) {
        var i :| OccursAt(s[1..], w, i);
        assert s[i + 1..i + 1 + |w|] == w;
        assert OccursAt(s, w, i + 1);
      }
      if !StartsWith(s, w) && exists i :: OccursAt(s, w, i) {
        var i :| OccursAt(s, w, i);
        assert i != 0;
        assert s[1..][i - 1..i - 1 + |w|] == w;
        assert OccursAt(s[1..], w, i - 1);
      }
    }
  }

  /** An occurrence inside one part of a concatenation is an occurrence in the whole. */
  lemma ContainsInConcat(a: string, b: string, w: string)
    ensures Contains(a, w) || Contains(b, w) ==> Contains(a + b, w)
  {
    ContainsAt(a, w);
    ContainsAt(b, w);
    ContainsAt(a + b, w);
    if Contains(a, w) {
      var i :| OccursAt(a, w, i);
      assert (a + b)[i..i + |w|] == w;
      assert OccursAt(a + b, w, i);
    } else if Contains(b, w) {
      var i :| OccursAt(b, w, i);
      assert (a + b)[|a| + i..|a| + i + |w|] == w;
      assert OccursAt(a + b, w, |a| + i);
    }
  }

  /** Every character of a word that occurs in a text is a character of the text. */
  lemma OccurrenceHasChars(s: string, w: string, c: char)
    requires c in w
    ensures Contains(s, w) ==> c in s
  {
    ContainsAt(s, w);
    if Contains(s, w) {
      var i :| OccursAt(s, w, i);
      var j :| 0 <= j < |w| && w[j] == c;
      assert s[i + j] == s[i..i + |w|][j];
    }
  }

  /** A one-character word occurs exactly when the character does. */
  lemma ContainsChar(s: string, c: char)
    ensures Contains(s, [c]) <==> c in s
  {
    ContainsAt(s, [c]);
    if c in s {
      var i :| 0 <= i < |s| && s[i] == c;
      assert s[i..i + 1] == [c];
      assert OccursAt(s, [c], i);
    }
    if Contains(s, [c]) {
      var i :| OccursAt(s, [c], i);
      assert s[i] == s[i..i + 1][0];
    }
  }

  /** `s.replace(/pat/g, rep)` for a literal pattern: every occurrence of `pat`,
      found left to right without overlap, is replaced by `rep`. */
  function ReplaceAll(s: string, pat: string, rep: string): string
    requires pat != []
    decreases |s|
  {
    if |s| < |pat| then s
    else if s[..|pat|] == pat then rep + ReplaceAll(s[|pat|..], pat, rep)
    else [s[0]] + ReplaceAll(s[1..], pat, rep)
  }

  /** A pattern that does not occur leaves the text unchanged. */
  lemma {:induction false} ReplaceAllAbsent(s: string, pat: string, rep: string)
    requires pat != []
    requires !Contains(s, pat)
    ensures ReplaceAll(s, pat, rep) == s
    decreases |s|
  {
    if |s| >= |pat| {
      ReplaceAllAbsent(s[1..], pat, rep);
      assert [s[0]] + s[1..] == s;
    }
  }

  /** Deleting every occurrence of a character leaves none of it. */
  lemma {:induction false} ReplaceCharRemoves(s: string, c: char, rep: string)
    requires c !in rep
    ensures c !in ReplaceAll(s, [c], rep)
    decreases |s|
  {
    if |s| >= 1 {
      ReplaceCharRemoves(s[1..], c, rep);
    }
  }

  /** A character that is in neither the text nor the replacement stays absent. */
  lemma {:induction false} ReplaceAllKeepsAbsent(s: string, pat: string, rep: string, c: char)
    requires pat != [] && c !in s && c !in rep
    ensures c !in ReplaceAll(s, pat, rep)
    decreases |s|
  {
    if |s| >= |pat| {
      if s[..|pat|] == pat {
        ReplaceAllKeepsAbsent(s[|pat|..], pat, rep, c);
      } else {
        ReplaceAllKeepsAbsent(s[1..], pat, rep, c);
      }
    }
  }

  /** `s.substring(0, n)` / `s.slice(0, n)` for `n >= 0`: the first `n` characters, or all of them. */
  function Take(s: string, n: nat): (r: string)
    ensures |r| <= n && |r| <= |s|
    ensures r == s[..|r|]
    ensures |s| <= n ==> r == s
    ensures n <= |s| ==> |r| == n
  {
    if |s| <= n then s else s[..n]
  }

  /** `s.indexOf(c)`: the first position of `c`, or -1. */
  function IndexOfChar(s: string, c: char): (i: int)
    ensures -1 <= i < |s|
    ensures i == -1 <==> c !in s
    ensures 0 <= i ==> s[i] == c && c !in s[..i]
  {
    if s == [] then -1
    else if s[0] == c then 0
    else
      var j := IndexOfChar(s[1..], c);
      assert s[1..] == s[1..][..|s| - 1];
      if j == -1 then -1 else (assert s[..j + 1] == [s[0]] + s[1..][..j]; j + 1)
  }

  /** `s.lastIndexOf(c)`: the last position of `c`, or -1. */
  function LastIndexOfChar(s: string, c: char): (i: int)
    ensures -1 <= i < |s|
    ensures i == -1 <==> c !in s
    ensures 0 <= i ==> s[i] == c && c !in s[i + 1..]
  {
    if s == [] then -1
    else if s[|s| - 1] == c then |s| - 1
    else
      var init := s[..|s| - 1];
      assert s == init + [s[|s| - 1]];
      var j := LastIndexOfChar(init, c);
      if j == -1 then -1 else (assert s[j + 1..] == init[j + 1..] + [s[|s| - 1]]; j)
  }

  /** A position holding another character at or after the last `c` has no `c`
      from there on. */
  lemma NoneAfterLast(s: string, i: nat, c: char)
    requires i < |s| && s[i] != c && LastIndexOfChar(s, c) <= i
    ensures c !in s[i..]
  {
    var j := LastIndexOfChar(s, c);
    forall k | i <= k < |s| ensures s[k] != c {
      if k > j && j >= 0 { assert s[k] == s[j + 1..][k - j - 1]; }
    }
    assert forall m :: 0 <= m < |s[i..]| ==> s[i..][m] == s[i + m];
  }

  /** `s.split(sep)` for a one-character separator. */
  function Split(s: string, sep: char): (parts: seq<string>)
    ensures |parts| >= 1
    ensures forall k :: 0 <= k < |parts| ==> sep !in parts[k]
    decreases |s|
  {
    if s == [] then [[]]
    else
      var rest := Split(s[1..], sep);
      if s[0] == sep then [[]] + rest
      else [[s[0]] + rest[0]] + rest[1..]
  }

  /** `parts.join(sep)`. */
  function Join(parts: seq<string>, sep: string): string {
    if parts == [] then []
    else if |parts| == 1 then parts[0]
    else parts[0] + sep + Join(parts[1..], sep)
  }

  /** Splitting on a separator and joining with it gives back the text. */
  lemma {:induction false} JoinSplit(s: string, sep: char)
    ensures Join(Split(s, sep), [sep]) == s
    decreases |s|
  {
    if s != [] {
      JoinSplit(s[1..], sep);
      var rest := Split(s[1..], sep);
      if s[0] != sep {
        if |rest| == 1 {
          assert Split(s, sep) == [[s[0]] + rest[0]];
        } else {
          var parts := Split(s, sep);
          assert parts[1..] == rest[1..];
          assert Join(parts, [sep]) == [s[0]] + rest[0] + [sep] + Join(rest[1..], [sep]);
        }
      }
    }
  }

  /** Splitting `line + sep + rest` puts `line` first. */
  lemma {:induction false} SplitAtFirst(line: string, rest: string, sep: char)
    requires sep !in line
    ensures Split(line + [sep] + rest, sep) == [line] + Split(rest, sep)
    decreases |line|
  {
    if line == [] {
      assert [] + [sep] + rest == [sep] + rest;
      assert ([sep] + rest)[1..] == rest;
    } else {
      SplitAtFirst(line[1..], rest, sep);
      assert (line + [sep] + rest)[1..] == line[1..] + [sep] + rest;
      assert [line[0]] + line[1..] == line;
    }
  }

  /** Joining pieces that hold no separator and splitting again gives the pieces back. */
  lemma {:induction false} SplitJoin(parts: seq<string>, sep: char)
    requires |parts| >= 1
    requires forall k :: 0 <= k < |parts| ==> sep !in parts[k]
    ensures Split(Join(parts, [sep]), sep) == parts
    decreases |parts|
  {
    if |parts| == 1 {
      SplitNoSeparator(parts[0], sep);
    } else {
      SplitJoin(parts[1..], sep);
      SplitAtFirst(parts[0], Join(parts[1..], [sep]), sep);
      assert [parts[0]] + parts[1..] == parts;
    }
  }

  /** A text without the separator splits into itself alone. */
  lemma {:induction false} SplitNoSeparator(s: string, sep: char)
    requires sep !in s
    ensures Split(s, sep) == [s]
    decreases |s|
  {
    if s != [] {
      SplitNoSeparator(s[1..], sep);
      assert [s[0]] + s[1..] == s;
    }
  }

  /** The keeping filter `xs.filter(p)` for the "not blank" test. */
  function NonBlank(xs: seq<string>): (ys: seq<string>)
    ensures |ys| <= |xs|
    ensures forall k :: 0 <= k < |ys| ==> !IsBlank(ys[k]) && ys[k] in xs
    ensures forall k :: 0 <= k < |xs| && !IsBlank(xs[k]) ==> xs[k] in ys
  {
    if xs == [] then []
    else if IsBlank(xs[0]) then NonBlank(xs[1..])
    else [xs[0]] + NonBlank(xs[1..])
  }

  /** The filter keeps order: filtering a concatenation filters each part in turn. */
  lemma {:induction false} NonBlankConcat(xs: seq<string>, zs: seq<string>)
    ensures NonBlank(xs + zs) == NonBlank(xs) + NonBlank(zs)
    decreases |xs|
  {
    if xs == [] {
      assert xs + zs == zs;
    } else {
      var both := xs + zs;
      assert both[0] == xs[0] && both[1..] == xs[1..] + zs;
      NonBlankConcat(xs[1..], zs);
      if IsBlank(xs[0]) {
        assert NonBlank(both) == NonBlank(both[1..]);
      } else {
        assert NonBlank(both) == [xs[0]] + NonBlank(both[1..]);
      }
    }
  }

  /** The first non-blank line is the first line kept. */
  lemma {:induction false} FirstNonBlankAt(lines: seq<string>, i: nat)
    requires i < |lines| && !IsBlank(lines[i])
    requires forall k :: 0 <= k < i ==> IsBlank(lines[k])
    ensures NonBlank(lines) != [] && NonBlank(lines)[0] == lines[i]
    decreases i
  {
    if i > 0 {
      var tail := lines[1..];
      assert IsBlank(lines[0]);
      assert NonBlank(lines) == NonBlank(tail);
      forall k | 0 <= k < i - 1 ensures IsBlank(tail[k]) {
        assert tail[k] == lines[k + 1];
      }
      assert tail[i - 1] == lines[i];
      FirstNonBlankAt(tail, i - 1);
    }
  }

  /** Blank lines in front of the first non-blank one are dropped: it comes first. */
  lemma BlankPrefixDropped(blanks: seq<string>, line: string, rest: seq<string>)
    requires forall k :: 0 <= k < |blanks| ==> IsBlank(blanks[k])
    requires !IsBlank(line)
    ensures NonBlank(blanks + [line] + rest) == [line] + NonBlank(rest)
  {
    var tail := [line] + rest;
    assert blanks + [line] + rest == blanks + tail;
    NonBlankConcat(blanks, tail);
    NoneKept(blanks);
    assert tail[0] == line && tail[1..] == rest;
    assert NonBlank(tail) == [line] + NonBlank(rest);
  }

  /** A list of blank strings filters to nothing. */
  lemma {:induction false} NoneKept(blanks: seq<string>)
    requires forall k :: 0 <= k < |blanks| ==> IsBlank(blanks[k])
    ensures NonBlank(blanks) == []
    decreases |blanks|
  {
    if blanks != [] {
      NoneKept(blanks[1..]);
    }
  }

  /** `xs.slice(a, b)` for `0 <= a` and `0 <= b`, clamped to the length. */
  function Slice<T>(xs: seq<T>, a: nat, b: nat): (ys: seq<T>)
    ensures |ys| <= |xs|
    ensures a <= b <= |xs| ==> ys == xs[a..b]
    ensures a <= |xs| <= b ==> ys == xs[a..]
    ensures a <= b ==> |ys| <= b - a
  {
    var hi := if b <= |xs| then b else |xs|;
    if a <= hi then xs[a..hi] else []
  }

  /** A suffix is its first element followed by the next suffix. */
  lemma SuffixCons<T>(xs: seq<T>, i: nat)
    requires i < |xs|
    ensures xs[i..] == [xs[i]] + xs[i + 1..]
  {
  }

  /** `xs.slice(-2)`: the last two elements, or all of them. */
  function LastTwo<T>(xs: seq<T>): (ys: seq<T>)
    ensures |ys| == if |xs| < 2 then |xs| else 2
    ensures ys == xs[|xs| - |ys|..]
  {
    if |xs| <= 2 then xs else xs[|xs| - 2..]
  }

  function DigitChar(d: nat): char
    requires d < 10
  {
    "0123456789"[d]
  }

  /** `String(n)` for a natural number: its decimal digits. */
  function NatToString(n: nat): (r: string)
    ensures |r| >= 1
    ensures forall k :: 0 <= k < |r| ==> '0' <= r[k] <= '9'
    decreases n
  {
    if n < 10 then [DigitChar(n)] else NatToString(n / 10) + [DigitChar(n % 10)]
  }

  /** The number a string of decimal digits reads as, most significant first. */
  function DigitsValue(r: string): nat
    decreases |r|
  {
    if r == [] then 0
    else
      var d := r[|r| - 1] as int - '0' as int;
      DigitsValue(r[..|r| - 1]) * 10 + (if 0 <= d then d else 0)
  }

  /** Reading the digits back gives the number: `String(n)` is the decimal numeral of `n`. */
  lemma {:induction false} NatToStringValue(n: nat)
    ensures DigitsValue(NatToString(n)) == n
    decreases n
  {
    var r := NatToString(n);
    assert DigitChar(n % 10) as int - '0' as int == n % 10;
    if n >= 10 {
      NatToStringValue(n / 10);
      assert r[..|r| - 1] == NatToString(n / 10);
    }
  }

  /** `String(n)` for an integer: its decimal digits, with a `-` when negative. */
  function IntToString(n: int): (r: string)
    ensures r != []
  {
    if n < 0 then "-" + NatToString(-n) else NatToString(n)
  }

  /** A three-digit number is written with exactly its three digits. */
  lemma ThreeDigits(n: nat)
    requires 100 <= n < 1000
    ensures NatToString(n) == [DigitChar(n / 100), DigitChar(n / 10 % 10), DigitChar(n % 10)]
  {
    assert NatToString(n / 10) == NatToString(n / 100) + [DigitChar(n / 10 % 10)];
  }
}
