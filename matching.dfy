/** The four regular expressions the servers apply to generated text, as
    explicit leftmost searches (section 22.2 of ECMA-262: no flags, so `.`
    stops at a line terminator and `$` is the end of the input):
    `prefix(.+?)\?` for a question, `Answer: (\d+)`, `Answer: \s*(.+)` and
    `(.+?)$`. */
module Matching {
  import opened Results
  import opened JsStrings
  import opened JsNumbers

  /** No line terminator in `text[i..j]`, so `.` can cross it. */
  predicate OnOneLine(text: string, i: nat, j: nat)
    requires i <= j <= |text|
  {
    forall k :: i <= k < j ==> !IsLineTerminator(text[k])
  }

  /** No line terminator in `s`: `.` can cross all of it. */
  predicate SingleLine(s: string) {
    forall k :: 0 <= k < |s| ==> !IsLineTerminator(s[k])
  }

  lemma SingleLineConcat(a: string, b: string)
    requires SingleLine(a) && SingleLine(b)
    ensures SingleLine(a + b)
  {
    forall k | 0 <= k < |a + b|
      ensures !IsLineTerminator((a + b)[k])
    {
      if k >= |a| {
        assert (a + b)[k] == b[k - |a|];
      }
    }
  }

  // ---- prefix(.+?)\?

  /** `prefix(.+?)\?` matches at `p` and ends with the `?` at `q`: the group
      is at least one character on the same line, and `q` is the first `?`
      after its first character (the group is as short as it can be). */
  predicate LazyMatch(text: string, prefix: string, p: nat, q: nat) {
    && OccursAt(text, prefix, p)
    && p + |prefix| < q < |text|
    && text[q] == '?'
    && OnOneLine(text, p + |prefix|, q)
    && (forall k :: p + |prefix| < k < q ==> text[k] != '?')
  }

  /** The first `?` at or after `j` that no line terminator precedes. */
  function CloseFrom(text: string, j: nat): (r: Option<nat>)
    ensures r.Some? ==> j <= r.value < |text| && text[r.value] == '?' && OnOneLine(text, j, r.value)
    ensures r.Some? ==> forall k :: j <= k < r.value ==> text[k] != '?'
    ensures r.None? ==> forall q :: j <= q < |text| && text[q] == '?' ==> !OnOneLine(text, j, q)
    decreases |text| - j
  {
    if j >= |text| then None
    else if text[j] == '?' then Some(j)
    else if IsLineTerminator(text[j]) then None
    else CloseFrom(text, j + 1)
  }

  /** The match of `prefix(.+?)\?` that starts at `p`, if any. */
  function LazyMatchAt(text: string, prefix: string, p: nat): (r: Option<nat>)
    ensures r.Some? ==> LazyMatch(text, prefix, p, r.value)
    ensures r.None? ==> forall q :: !LazyMatch(text, prefix, p, q)
  {
    var b := p + |prefix|;
    if OccursAt(text, prefix, p) && b < |text| && !IsLineTerminator(text[b]) then
      assert forall q :: LazyMatch(text, prefix, p, q) ==> OnOneLine(text, b + 1, q);
      CloseFrom(text, b + 1)
    else
      None
  }

  /** A match that starts at `p` has one end: the lazy group stops at the
      first `?`. */
  lemma LazyMatchUnique(text: string, prefix: string, p: nat, q: nat)
    requires LazyMatch(text, prefix, p, q)
    ensures LazyMatchAt(text, prefix, p) == Some(q)
  {
  }

  /** `text.match(/prefix(.+?)\?/)`: the leftmost start at or after `from`
      and its end. */
  function FirstLazyMatch(text: string, prefix: string, from: nat): (r: Option<(nat, nat)>)
    ensures r.Some? ==> from <= r.value.0 && LazyMatch(text, prefix, r.value.0, r.value.1)
    ensures r.Some? ==> forall p, q :: from <= p < r.value.0 ==> !LazyMatch(text, prefix, p, q)
    ensures r.None? ==> forall p, q :: from <= p ==> !LazyMatch(text, prefix, p, q)
    decreases |text| - from
  {
    if from >= |text| then None
    else
      match LazyMatchAt(text, prefix, from)
      case Some(q) => Some((from, q))
      case None => FirstLazyMatch(text, prefix, from + 1)
  }

  /** A match at the very start is the one `match` returns. */
  lemma FirstLazyMatchAtStart(text: string, prefix: string, q: nat)
    requires LazyMatch(text, prefix, 0, q)
    ensures FirstLazyMatch(text, prefix, 0) == Some((0, q))
  {
    LazyMatchUnique(text, prefix, 0, q);
  }

  /** Text made of a prefix, a one-line body with no `?`, and a `?`
      matches at its start, ending with that `?`. */
  lemma LazyMatchOfQuestion(text: string, prefix: string, body: string)
    requires |prefix| + |body| + 1 <= |text| && body != []
    requires text[..|prefix| + |body| + 1] == prefix + body + "?"
    requires forall k :: 0 <= k < |body| ==> body[k] != '?' && !IsLineTerminator(body[k])
    ensures LazyMatch(text, prefix, 0, |prefix| + |body|)
  {
    var q := |prefix| + |body|;
    var head := prefix + body + "?";
    assert text[..|prefix|] == head[..|prefix|] == prefix;
    forall k | |prefix| <= k < q
      ensures text[k] == body[k - |prefix|]
    {
      assert text[k] == head[k];
    }
    assert text[q] == head[q];
  }

  /** The whole match of `prefix(.+?)\?` starts with the prefix and ends
      with the `?`. */
  lemma MatchedQuestion(text: string, prefix: string, p: nat, q: nat)
    requires LazyMatch(text, prefix, p, q)
    ensures var m := text[p..q + 1];
      |m| >= |prefix| + 2 && m[..|prefix|] == prefix && m[|m| - 1] == '?'
  {
    assert text[p..q + 1][..|prefix|] == text[p..p + |prefix|];
  }

  /** A whole match of `prefix(.+?)\?`: the prefix, at least one
      character, and the `?`. */
  predicate QuestionShaped(m: string, prefix: string) {
    |m| >= |prefix| + 2 && m[..|prefix|] == prefix && m[|m| - 1] == '?'
  }

  /** `text.match(/prefix(.+?)\?/)[0]`, or `None` when there is no
      match. */
  function LazyMatchText(text: string, prefix: string): (r: Option<string>)
    ensures r.Some? <==> FirstLazyMatch(text, prefix, 0).Some?
    ensures r.Some? ==> QuestionShaped(r.value, prefix)
    ensures r.Some? ==>
      var (p, q) := FirstLazyMatch(text, prefix, 0).value;
      p <= q < |text| && r.value == text[p..q + 1]
  {
    match FirstLazyMatch(text, prefix, 0)
    case None => None
    case Some((p, q)) =>
      MatchedQuestion(text, prefix, p, q);
      Some(text[p..q + 1])
  }

  /** A question prefix, a one-line body with no `?`, a `?` and anything
      after: the question match is the text up to that `?`. */
  lemma QuestionOfText(text: string, questionPrefix: string, body: string, tail: string)
    requires body != [] && SingleLine(body) && '?' !in body
    requires text == questionPrefix + body + "?" + tail
    ensures LazyMatchText(text, questionPrefix) == Some(questionPrefix + body + "?")
  {
    var q := |questionPrefix| + |body|;
    assert text[..q + 1] == questionPrefix + body + "?";
    LazyMatchOfQuestion(text, questionPrefix, body);
    FirstLazyMatchAtStart(text, questionPrefix, q);
    assert text[0..q + 1] == questionPrefix + body + "?";
  }

  /** Where the answer prefix first occurs in `head + answerPrefix + after`. */
  lemma AnswerPrefixAt(head: string, answerPrefix: string, after: string)
    requires answerPrefix != [] && answerPrefix[0] !in head
    ensures var text := head + answerPrefix + after;
      && OccursAt(text, answerPrefix, |head|)
      && text[|head| + |answerPrefix|..] == after
      && forall p :: 0 <= p < |head| ==> text[p] != answerPrefix[0]
  {
    var text := head + answerPrefix + after;
    var m := |head|;
    var b := m + |answerPrefix|;
    assert text == head + (answerPrefix + after);
    assert text[m..] == answerPrefix + after;
    assert text[m..b] == answerPrefix;
    forall p | 0 <= p < m
      ensures text[p] != answerPrefix[0]
    {
      assert text[p] == head[p];
    }
  }

  /** A prefix cannot occur where its first character is absent. */
  lemma NotStartingHere(text: string, prefix: string, p: nat)
    requires prefix != [] && p < |text| && text[p] != prefix[0]
    ensures !OccursAt(text, prefix, p)
  {
    if p + |prefix| <= |text| {
      assert text[p..p + |prefix|][0] == text[p];
    }
  }

  // ---- Answer: (\d+)

  /** `prefix(\d+)` matches at `p`: a digit follows the prefix. */
  predicate DigitsMatch(text: string, prefix: string, p: nat) {
    OccursAt(text, prefix, p) && p + |prefix| < |text| && IsDecimalDigit(text[p + |prefix|])
  }

  /** The leftmost `p >= from` where `prefix(\d+)` matches. */
  function FirstDigitsMatch(text: string, prefix: string, from: nat): (r: Option<nat>)
    ensures r.Some? ==> from <= r.value && DigitsMatch(text, prefix, r.value)
    ensures r.Some? ==> forall p :: from <= p < r.value ==> !DigitsMatch(text, prefix, p)
    ensures r.None? ==> forall p :: from <= p ==> !DigitsMatch(text, prefix, p)
    decreases |text| - from
  {
    if from >= |text| then None
    else if DigitsMatch(text, prefix, from) then Some(from)
    else FirstDigitsMatch(text, prefix, from + 1)
  }

  /** The group `(\d+)` of the match at `p`: the whole digit run, `+` being
      greedy. */
  function DigitsGroup(text: string, prefix: string, p: nat): (g: string)
    requires DigitsMatch(text, prefix, p)
    ensures g != [] && forall i :: 0 <= i < |g| ==> IsDecimalDigit(g[i])
  {
    var b := p + |prefix|;
    var n := DigitRun(text[b..], 10);
    text[b..b + n]
  }

  /** When nothing before `m` can start the prefix, the first digit match is
      the one at `m`. */
  lemma {:induction false} FirstDigitsMatchAt(text: string, prefix: string, from: nat, m: nat)
    requires prefix != [] && from <= m && DigitsMatch(text, prefix, m)
    requires forall p :: from <= p < m ==> text[p] != prefix[0]
    ensures FirstDigitsMatch(text, prefix, from) == Some(m)
    decreases m - from
  {
    if from < m {
      NotStartingHere(text, prefix, from);
      FirstDigitsMatchAt(text, prefix, from + 1, m);
    }
  }

  // ---- Answer: \s*(.+)

  /** The number of whitespace characters from `b` on (`\s*`, greedy). */
  function BlankRun(text: string, b: nat): (w: nat)
    ensures b + w <= |text| || (b >= |text| && w == 0)
    ensures forall k :: b <= k < b + w ==> IsWhitespace(text[k])
    ensures b + w < |text| ==> !IsWhitespace(text[b + w])
    decreases |text| - b
  {
    if b < |text| && IsWhitespace(text[b]) then 1 + BlankRun(text, b + 1) else 0
  }

  /** Where the line that holds `s` ends: the first line terminator at or
      after `s`, or the end of the text. */
  function LineEnd(text: string, s: nat): (e: nat)
    requires s <= |text|
    ensures s <= e <= |text| && OnOneLine(text, s, e)
    ensures e < |text| ==> IsLineTerminator(text[e])
    decreases |text| - s
  {
    if s == |text| || IsLineTerminator(text[s]) then s else LineEnd(text, s + 1)
  }

  /** The last index in `[b, s)` that is not a line terminator. */
  function LastOnLine(text: string, b: nat, s: nat): (r: Option<nat>)
    requires b <= s <= |text|
    ensures r.Some? ==> b <= r.value < s && !IsLineTerminator(text[r.value])
    ensures r.Some? ==> forall k :: r.value < k < s ==> IsLineTerminator(text[k])
    ensures r.None? ==> forall k :: b <= k < s ==> IsLineTerminator(text[k])
    decreases s - b
  {
    if s == b then None
    else if !IsLineTerminator(text[s - 1]) then Some(s - 1)
    else LastOnLine(text, b, s - 1)
  }

  /** The group `(.+)` of `prefix\s*(.+)` matched at `p`. `\s*` takes every
      blank; `.+` then takes the rest of the line. When only blanks are
      left, `\s*` gives back blanks until `.+` can take one that is not a
      line terminator, which is then the whole group. */
  function AnswerLineAt(text: string, prefix: string, p: nat): (r: Option<string>)
    ensures r.Some? ==> r.value != [] && OccursAt(text, prefix, p)
    ensures r.None? && OccursAt(text, prefix, p) ==>
      forall k :: p + |prefix| <= k < |text| ==> IsWhitespace(text[k]) && IsLineTerminator(text[k])
  {
    if !OccursAt(text, prefix, p) then None
    else
      var b := p + |prefix|;
      var s := b + BlankRun(text, b);
      if s < |text| then
        LineTerminatorIsWhitespace(text[s]);
        Some(text[s..LineEnd(text, s)])
      else
        match LastOnLine(text, b, s)
        case Some(k) => Some(text[k..k + 1])
        case None => None
  }

  /** The leftmost `p >= from` where `prefix\s*(.+)` matches, and its group. */
  function FirstAnswerLine(text: string, prefix: string, from: nat): (r: Option<string>)
    ensures r.Some? ==> exists p :: from <= p && AnswerLineAt(text, prefix, p) == r
    ensures r.None? ==> forall p :: from <= p ==> AnswerLineAt(text, prefix, p).None?
    decreases |text| - from
  {
    if from > |text| then None
    else
      match AnswerLineAt(text, prefix, from)
      case Some(g) => Some(g)
      case None => FirstAnswerLine(text, prefix, from + 1)
  }

  /** When nothing before `m` can start the prefix, the first answer line is
      the one at `m`. */
  lemma {:induction false} FirstAnswerLineAt(text: string, prefix: string, from: nat, m: nat)
    requires prefix != [] && from <= m && AnswerLineAt(text, prefix, m).Some?
    requires forall p :: from <= p < m ==> text[p] != prefix[0]
    ensures FirstAnswerLine(text, prefix, from) == AnswerLineAt(text, prefix, m)
    decreases m - from
  {
    if from < m {
      NotStartingHere(text, prefix, from);
      FirstAnswerLineAt(text, prefix, from + 1, m);
    }
  }

  /** A prefix at `m` followed by one line that starts with no blank
      yields that line. */
  lemma AnswerLineOfText(text: string, prefix: string, m: nat, line: string)
    requires m <= |text| && text[m..] == prefix + line && line != []
    requires !IsWhitespace(line[0])
    requires forall k :: 0 <= k < |line| ==> !IsLineTerminator(line[k])
    ensures AnswerLineAt(text, prefix, m) == Some(line)
  {
    var b := m + |prefix|;
    assert text[m..b] == (prefix + line)[..|prefix|] == prefix;
    assert OccursAt(text, prefix, m);
    assert forall k :: b <= k < |text| ==> text[k] == line[k - b] by {
      forall k | b <= k < |text|
        ensures text[k] == line[k - b]
      {
        assert text[k] == text[m..][k - m] == (prefix + line)[k - m];
      }
    }
    assert BlankRun(text, b) == 0;
    var e := LineEnd(text, b);
    assert text[b..|text|] == line;
  }

  // ---- (.+?)$

  /** Where the last line of `text[..j]` starts. */
  function LineStart(text: string, j: nat): (k: nat)
    requires j <= |text|
    ensures k <= j && OnOneLine(text, k, j)
    ensures k > 0 ==> IsLineTerminator(text[k - 1])
    decreases j
  {
    if j == 0 then 0
    else if IsLineTerminator(text[j - 1]) then j
    else LineStart(text, j - 1)
  }

  /** `text.match(/(.+?)$/)[0]`: the last line, which must not be empty. No
      earlier start can match, since `.` cannot cross the terminator before
      that line. */
  function FinalLine(text: string): (r: Option<string>)
    ensures r.Some? ==> r.value != [] && |r.value| <= |text| && r.value == text[|text| - |r.value|..]
    ensures r.Some? ==> OnOneLine(text, |text| - |r.value|, |text|)
    ensures r.Some? && |r.value| < |text| ==> IsLineTerminator(text[|text| - |r.value| - 1])
    ensures r.None? <==> text == [] || IsLineTerminator(text[|text| - 1])
  {
    var k := LineStart(text, |text|);
    if k == |text| then None else Some(text[k..])
  }

  /** A text on one line is its own last line. */
  lemma FinalLineOfLine(text: string)
    requires text != [] && forall k :: 0 <= k < |text| ==> !IsLineTerminator(text[k])
    ensures FinalLine(text) == Some(text)
  {
  }
}
