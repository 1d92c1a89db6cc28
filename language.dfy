/** `language/language.js`: the word-game server. Its answer checker, the
    reading of the generated question, and the handlers' effect on the
    module-level score counters. */
module Language {
  import opened Results
  import opened JsStrings
  import opened JsValues
  import opened Matching
  import opened Scoring
  import opened Cookies
  import opened Audio
  import opened Http
  import opened JsNumbers
  import opened Session

  // ---- sanitize

  predicate IsAsciiLetter(c: char) {
    'a' <= c <= 'z' || 'A' <= c <= 'Z'
  }

  predicate IsLowerLetter(c: char) {
    'a' <= c <= 'z'
  }

  predicate AllLowerLetters(s: string) {
    forall i :: 0 <= i < |s| ==> IsLowerLetter(s[i])
  }

  /** `input.replace(/[^a-zA-Z]/g, '')`. */
  function StripNonLetters(s: string): (r: string)
    ensures |r| <= |s|
    ensures forall i :: 0 <= i < |r| ==> IsAsciiLetter(r[i])
    decreases |s|
  {
    if s == [] then []
    else (if IsAsciiLetter(s[0]) then [s[0]] else []) + StripNonLetters(s[1..])
  }

  /** The lower-case form of an ASCII letter; other characters unchanged. */
  function LowerAscii(c: char): char {
    if 'A' <= c <= 'Z' then (c as int + 32) as char else c
  }

  /** `toLowerCase` on a string of ASCII letters. */
  function ToLowerCase(s: string): (r: string)
    ensures |r| == |s| && forall i :: 0 <= i < |s| ==> r[i] == LowerAscii(s[i])
  {
    seq(|s|, i requires 0 <= i < |s| => LowerAscii(s[i]))
  }

  /** `sanitize`: the ASCII letters of the input, lower-cased. */
  function Sanitize(s: string): (r: string)
    ensures AllLowerLetters(r)
  {
    ToLowerCase(StripNonLetters(s))
  }

  /** Sanitizing works character by character: a letter becomes its
      lower-case form, anything else vanishes. */
  lemma SanitizeChar(c: char)
    ensures Sanitize([c]) == if IsAsciiLetter(c) then [LowerAscii(c)] else []
  {
    assert [c][1..] == [];
  }

  lemma {:induction false} StripConcat(a: string, b: string)
    ensures StripNonLetters(a + b) == StripNonLetters(a) + StripNonLetters(b)
    decreases |a|
  {
    if a != [] {
      var head := if IsAsciiLetter(a[0]) then [a[0]] else [];
      assert (a + b)[0] == a[0];
      assert (a + b)[1..] == a[1..] + b;
      StripConcat(a[1..], b);
      assert StripNonLetters(a + b) == head + StripNonLetters(a[1..] + b);
      assert StripNonLetters(a) == head + StripNonLetters(a[1..]);
      assert head + (StripNonLetters(a[1..]) + StripNonLetters(b)) == (head + StripNonLetters(a[1..])) + StripNonLetters(b);
    } else {
      assert a + b == b;
    }
  }

  /** ... and keeps the order of the letters: sanitizing a concatenation
      concatenates the sanitized parts. */
  lemma SanitizeConcat(a: string, b: string)
    ensures Sanitize(a + b) == Sanitize(a) + Sanitize(b)
  {
    StripConcat(a, b);
  }

  lemma {:induction false} StripLetters(s: string)
    requires forall i :: 0 <= i < |s| ==> IsAsciiLetter(s[i])
    ensures StripNonLetters(s) == s
    decreases |s|
  {
    if s != [] {
      StripLetters(s[1..]);
    }
  }

  /** A string of lower-case letters is already sanitized. */
  lemma SanitizeLowerLetters(s: string)
    requires AllLowerLetters(s)
    ensures Sanitize(s) == s
  {
    StripLetters(s);
  }

  /** Sanitizing twice is sanitizing once. */
  lemma SanitizeIdempotent(s: string)
    ensures Sanitize(Sanitize(s)) == Sanitize(s)
  {
    SanitizeLowerLetters(Sanitize(s));
  }

  // ---- checkAnswer

  /** The four game modes of this server. */
  predicate IsLanguageMode(m: string) {
    m == "spelling" || m == "odd_one_out" || m == "story_builder" || m == "vocabulary"
  }

  /** The outcome `checkAnswer` returns: `{ result, message }`, the message
      being undefined except for the two spelling refusals. */
  datatype Verdict = Verdict(result: bool, message: Option<string>)

  const SayItMessage: string := "You should spell the word, not say it out loud."
  const SpellingMessage: string := "Incorrect spelling."

  /** The TypeError `input.replace(...)` raises for a value that is not a
      string. */
  function ReplaceTypeError(v: JsValue): Error {
    match v
    case Undefined => TypeError("Cannot read properties of undefined (reading 'replace')")
    case Null => TypeError("Cannot read properties of null (reading 'replace')")
    case _ => TypeError("input.replace is not a function")
  }

  /** `checkAnswer(userAnswer, correctAnswer, gameMode)`; `userAnswer` has
      already been trimmed, the other two come from the request body. Both
      answers are sanitized before the mode is looked at. */
  function CheckAnswer(userAnswer: string, correctAnswer: JsValue, gameMode: JsValue): (r: Result<Verdict>)
    ensures r.Ok? <==> correctAnswer.Str? && gameMode.Str? && IsLanguageMode(gameMode.s)
    ensures !correctAnswer.Str? ==> r.Err? && r.error.TypeError?
    ensures r.Ok? && r.value.message.Some? ==> gameMode == Str("spelling") && !r.value.result
  {
    if !correctAnswer.Str? then Err(ReplaceTypeError(correctAnswer))
    else
      var user := Sanitize(userAnswer);
      var expected := Sanitize(correctAnswer.s);
      if gameMode == Str("spelling") then
        if !Includes(userAnswer, " ") then Ok(Verdict(false, Some(SayItMessage)))
        else if user == expected then Ok(Verdict(true, None))
        else Ok(Verdict(false, Some(SpellingMessage)))
      else if gameMode == Str("odd_one_out") || gameMode == Str("vocabulary") then
        Ok(Verdict(user == expected, None))
      else if gameMode == Str("story_builder") then
        Ok(Verdict(Includes(user, expected), None))
      else
        Err(InvalidGameMode)
  }

  lemma IncludesSpace(s: string)
    ensures Includes(s, " ") <==> ' ' in s
  {
    if ' ' in s {
      var k :| 0 <= k < |s| && s[k] == ' ';
      assert s[k..k + 1] == " ";
      IncludesAt(s, " ", k);
    }
    if Includes(s, " ") {
      var k := IndexOf(s, " ", 0).value;
      assert s[k..k + 1][0] == s[k];
    }
  }

  /** A spelling answer without a space is refused whatever its letters. */
  lemma SpellingNeedsSpaces(userAnswer: string, correct: string)
    requires ' ' !in userAnswer
    ensures CheckAnswer(userAnswer, Str(correct), Str("spelling")) == Ok(Verdict(false, Some(SayItMessage)))
  {
    IncludesSpace(userAnswer);
  }

  /** With a space, a spelling answer is right exactly when its letters are
      the word's letters, whatever the case and the separators. */
  lemma SpellingComparesLetters(userAnswer: string, correct: string)
    requires ' ' in userAnswer
    ensures var r := CheckAnswer(userAnswer, Str(correct), Str("spelling"));
      r.Ok? && (r.value.result <==> Sanitize(userAnswer) == Sanitize(correct))
      && (r.value.message == if r.value.result then None else Some(SpellingMessage))
  {
    IncludesSpace(userAnswer);
  }

  /** Odd-one-out and vocabulary compare the sanitized answers. */
  lemma EqualityModes(userAnswer: string, correct: string, mode: string)
    requires mode == "odd_one_out" || mode == "vocabulary"
    ensures CheckAnswer(userAnswer, Str(correct), Str(mode)) == Ok(Verdict(Sanitize(userAnswer) == Sanitize(correct), None))
  {
  }

  /** Story-builder accepts any answer that contains the expected letters;
      in particular an equal answer, and any answer at all when the
      expected answer has no letters. */
  lemma StoryBuilderContains(userAnswer: string, correct: string)
    ensures var r := CheckAnswer(userAnswer, Str(correct), Str("story_builder"));
      r == Ok(Verdict(Includes(Sanitize(userAnswer), Sanitize(correct)), None))
    ensures Sanitize(userAnswer) == Sanitize(correct) ==> CheckAnswer(userAnswer, Str(correct), Str("story_builder")).value.result
    ensures Sanitize(correct) == [] ==> CheckAnswer(userAnswer, Str(correct), Str("story_builder")).value.result
  {
    var u := Sanitize(userAnswer);
    assert u[0..|u|] == u;
    var c := Sanitize(correct);
    if c == [] {
      assert OccursAt(u, c, 0);
      IncludesAt(u, c, 0);
    }
    if u == c {
      assert OccursAt(u, c, 0);
      IncludesAt(u, c, 0);
    }
  }

  /** Any other mode is an error, never a wrong answer. */
  lemma UnknownModeThrows(userAnswer: string, correct: string, mode: JsValue)
    requires !(mode.Str? && IsLanguageMode(mode.s))
    ensures CheckAnswer(userAnswer, Str(correct), mode) == Err(InvalidGameMode)
  {
  }

  /** Spelling a word out letter by letter is a right answer. */
  lemma SpelledOut()
    ensures CheckAnswer("C a t", Str("cat"), Str("spelling")) == Ok(Verdict(true, None))
  {
    var u := "C a t";
    assert Sanitize(u) == "cat" by {
      assert u[1..] == " a t" && u[2..] == "a t" && u[3..] == " t" && u[4..] == "t" && u[5..] == [];
      assert StripNonLetters(u) == "Cat";
    }
    assert Sanitize("cat") == "cat" by {
      SanitizeLowerLetters("cat");
    }
    assert u[1] == ' ';
    SpellingComparesLetters(u, "cat");
  }

  // ---- the tail of generateGamePrompt

  const OddPrefix: string := "Which one is the odd one out:"
  const AnswerPrefix: string := "Answer: "

  /** The TypeError of indexing the null that a failed `match` returns. */
  function NullIndexError(index: string): Error {
    TypeError("Cannot read properties of null (reading '" + index + "')")
  }

  /** `question.split(" ")[3]`: the fourth space-separated word, undefined
      when there are fewer than four. */
  function FourthWord(question: string): (a: JsValue)
    ensures a.Str? ==> ' ' !in a.s
    ensures a.Str? || a.Undefined?
  {
    var words := Split(question, ' ');
    if |words| > 3 then Str(words[3]) else Undefined
  }

  /** The odd-one-out reading of a trimmed completion, for the two
      patterns `questionPrefix(.+?)\?` and `answerPrefix\s*(.+)`: the first
      match of the one and the trimmed group of the other. A failed match
      is indexed anyway and throws. */
  function OddOneOutQuestion(text: string, questionPrefix: string, answerPrefix: string): (r: Result<(string, JsValue)>)
    ensures r.Ok? <==> LazyMatchText(text, questionPrefix).Some? && FirstAnswerLine(text, answerPrefix, 0).Some?
    ensures r.Err? ==> r.error.TypeError?
    ensures r.Ok? ==> QuestionShaped(r.value.0, questionPrefix) && r.value.1.Str? && Unpadded(r.value.1.s)
  {
    match LazyMatchText(text, questionPrefix)
    case None => Err(NullIndexError("0"))
    case Some(question) =>
      match FirstAnswerLine(text, answerPrefix, 0)
      case None => Err(NullIndexError("1"))
      case Some(g) => Ok((question, Str(Trim(g))))
  }

  /** The reading of a trimmed completion in the other modes: the match of
      `(.+?)$`, which is the last line, and its fourth word. */
  function LastLineQuestion(text: string): (r: Result<(string, JsValue)>)
    requires Unpadded(text)
    ensures r.Ok? <==> text != []
    ensures r.Err? ==> r.error.TypeError?
    ensures r.Ok? ==>
      var q := r.value.0;
      && q != [] && |q| <= |text| && q == text[|text| - |q|..]
      && (forall k :: 0 <= k < |q| ==> !IsLineTerminator(q[k]))
      && r.value.1 == FourthWord(q)
  {
    match FinalLine(text)
    case None => Err(NullIndexError("0"))
    case Some(line) =>
      assert forall k :: 0 <= k < |line| ==> line[k] == text[|text| - |line| + k];
      Ok((line, FourthWord(line)))
  }

  /** The question and answer `generateGamePrompt` reads out of the
      completion text, which it trims first. */
  function ExtractGameQuestion(gameMode: string, generated: string): (r: Result<(string, JsValue)>)
    ensures r.Err? ==> r.error.TypeError?
    ensures gameMode != "odd_one_out" ==> (r.Ok? <==> Trim(generated) != [])
  {
    var text := Trim(generated);
    if gameMode == "odd_one_out" then OddOneOutQuestion(text, OddPrefix, AnswerPrefix) else LastLineQuestion(text)
  }

  /** Four words joined by single spaces split back into those words. */
  lemma {:induction false} SplitFourWords(a: string, b: string, c: string, d: string)
    requires ' ' !in a && ' ' !in b && ' ' !in c && ' ' !in d
    ensures Split(a + " " + b + " " + c + " " + d, ' ') == [a, b, c, d]
  {
    var tail := c + [' '] + d;
    var middle := b + [' '] + tail;
    assert a + " " + b + " " + c + " " + d == a + [' '] + middle;
    SplitWithoutSeparator(d, ' ');
    SplitAfterFirst(c, ' ', d);
    SplitAfterFirst(b, ' ', tail);
    SplitAfterFirst(a, ' ', middle);
  }

  lemma SpellingLead()
    ensures "Spell the word " == "Spell" + " " + "the" + " " + "word" + " "
    ensures ' ' !in "Spell" && ' ' !in "the" && ' ' !in "word"
  {
  }

  /** The words of "Spell the word <word>." */
  lemma SpellingWords(w: string)
    requires ' ' !in w
    ensures Split("Spell the word " + w + ".", ' ') == ["Spell", "the", "word", w + "."]
  {
    var last := w + ".";
    SpellingLead();
    assert "Spell the word " + w + "." == "Spell" + " " + "the" + " " + "word" + " " + last;
    SplitFourWords("Spell", "the", "word", last);
  }

  /** "Spell the word <word>." is one line ... */
  lemma SpellingLine(w: string)
    requires SingleLine(w)
    ensures SingleLine("Spell the word " + w + ".")
  {
    var lead := "Spell the word ";
    assert SingleLine(lead);
    assert SingleLine(".");
    SingleLineConcat(lead, w);
    SingleLineConcat(lead + w, ".");
  }

  /** ... that `trim` leaves as it is. */
  lemma SpellingTrimmed(w: string)
    ensures Trim("Spell the word " + w + ".") == "Spell the word " + w + "."
  {
    TrimUnpadded("Spell the word " + w + ".");
  }

  /** The spelling format the prompt asks for, "Spell the word <word>.",
      is read as the whole line, the answer being the word with its
      period, which sanitizing then drops. */
  lemma SpellingQuestion(w: string)
    requires ' ' !in w && SingleLine(w)
    ensures var text := "Spell the word " + w + ".";
      ExtractGameQuestion("spelling", text) == Ok((text, Str(w + ".")))
    ensures Sanitize(w + ".") == Sanitize(w)
  {
    var text := "Spell the word " + w + ".";
    SpellingWords(w);
    SpellingLine(w);
    SpellingTrimmed(w);
    FinalLineOfLine(text);
    SanitizeConcat(w, ".");
    SanitizeChar('.');
  }

  /** A completion in the odd-one-out format, question prefix, body, `? `,
      answer prefix, answer, is read as the question up to its `?` and
      the answer. */
  lemma OddOneOutOfText(questionPrefix: string, answerPrefix: string, body: string, odd: string)
    requires answerPrefix != [] && answerPrefix[0] != '?' && answerPrefix[0] != ' '
    requires answerPrefix[0] !in questionPrefix && answerPrefix[0] !in body
    requires body != [] && SingleLine(body) && '?' !in body
    requires odd != [] && Unpadded(odd) && SingleLine(odd)
    ensures var text := questionPrefix + body + "? " + answerPrefix + odd;
      OddOneOutQuestion(text, questionPrefix, answerPrefix) == Ok((questionPrefix + body + "?", Str(odd)))
  {
    OddQuestionOfFormat(questionPrefix, answerPrefix, body, odd);
    OddAnswerOfFormat(questionPrefix, answerPrefix, body, odd);
    TrimUnpadded(odd);
    OddOneOutOfParts(questionPrefix + body + "? " + answerPrefix + odd, questionPrefix, answerPrefix,
                     questionPrefix + body + "?", odd);
  }

  lemma OddQuestionOfFormat(questionPrefix: string, answerPrefix: string, body: string, odd: string)
    requires body != [] && SingleLine(body) && '?' !in body
    ensures var text := questionPrefix + body + "? " + answerPrefix + odd;
      LazyMatchText(text, questionPrefix) == Some(questionPrefix + body + "?")
  {
    var text := questionPrefix + body + "? " + answerPrefix + odd;
    var tail := " " + answerPrefix + odd;
    assert text == questionPrefix + body + "?" + tail;
    QuestionOfText(text, questionPrefix, body, tail);
  }

  lemma OddAnswerOfFormat(questionPrefix: string, answerPrefix: string, body: string, odd: string)
    requires answerPrefix != [] && answerPrefix[0] != '?' && answerPrefix[0] != ' '
    requires answerPrefix[0] !in questionPrefix && answerPrefix[0] !in body
    requires odd != [] && Unpadded(odd) && SingleLine(odd)
    ensures var text := questionPrefix + body + "? " + answerPrefix + odd;
      FirstAnswerLine(text, answerPrefix, 0) == Some(odd)
  {
    OddHead(questionPrefix, answerPrefix, body, odd);
    AnswerLineAfterHead(questionPrefix + body + "? " + answerPrefix + odd, questionPrefix + body + "? ", answerPrefix, odd);
  }

  /** The prefix's first occurrence, after a head without its first
      character, followed by one unpadded line, yields that line. */
  lemma AnswerLineAfterHead(text: string, head: string, answerPrefix: string, line: string)
    requires answerPrefix != [] && answerPrefix[0] !in head
    requires line != [] && Unpadded(line) && SingleLine(line)
    requires text == head + answerPrefix + line
    ensures FirstAnswerLine(text, answerPrefix, 0) == Some(line)
  {
    AnswerPrefixAt(head, answerPrefix, line);
    var m := |head|;
    assert text[m..] == answerPrefix + line by {
      assert text == head + (answerPrefix + line);
    }
    AnswerLineOfText(text, answerPrefix, m, line);
    FirstAnswerLineAt(text, answerPrefix, 0, m);
  }

  lemma OddHead(questionPrefix: string, answerPrefix: string, body: string, odd: string)
    requires answerPrefix != [] && answerPrefix[0] != '?' && answerPrefix[0] != ' '
    requires answerPrefix[0] !in questionPrefix && answerPrefix[0] !in body
    ensures var head := questionPrefix + body + "? ";
      && questionPrefix + body + "? " + answerPrefix + odd == head + answerPrefix + odd
      && answerPrefix[0] !in head
  {
  }

  lemma OddOneOutOfParts(text: string, questionPrefix: string, answerPrefix: string, question: string, odd: string)
    requires LazyMatchText(text, questionPrefix) == Some(question)
    requires FirstAnswerLine(text, answerPrefix, 0) == Some(odd) && Trim(odd) == odd
    ensures OddOneOutQuestion(text, questionPrefix, answerPrefix) == Ok((question, Str(odd)))
  {
  }

  lemma OddPrefixHasNoA()
    ensures 'A' !in OddPrefix
  {
  }

  lemma OddTextTrimmed(words: string, odd: string)
    requires odd != [] && Unpadded(odd)
    ensures var text := OddPrefix + words + "? " + AnswerPrefix + odd;
      Trim(text) == text
  {
    var text := OddPrefix + words + "? " + AnswerPrefix + odd;
    assert text[0] == 'W' && text[|text| - 1] == odd[|odd| - 1];
    TrimUnpadded(text);
  }

  /** The format the odd-one-out prompt asks for,
      "Which one is the odd one out: <words>? Answer: <odd word>", gives
      the question with its `?` and the odd word. */
  lemma OddOneOutRound(words: string, odd: string)
    requires words != [] && SingleLine(words) && '?' !in words && 'A' !in words
    requires odd != [] && Unpadded(odd) && SingleLine(odd)
    ensures var text := OddPrefix + words + "? " + AnswerPrefix + odd;
      ExtractGameQuestion("odd_one_out", text) == Ok((OddPrefix + words + "?", Str(odd)))
  {
    OddPrefixHasNoA();
    OddOneOutOfText(OddPrefix, AnswerPrefix, words, odd);
    OddTextTrimmed(words, odd);
  }

  // ---- the handlers

  /** The question the start handler obtains: the completion, when the
      service gave one, read by `ExtractGameQuestion`. */
  function GameQuestion(gameMode: string, generated: Result<string>): (r: Result<(string, JsValue)>)
    ensures generated.Err? ==> r == Err(generated.error)
    ensures generated.Ok? ==> r == ExtractGameQuestion(gameMode, generated.value)
  {
    var text :- generated;
    ExtractGameQuestion(gameMode, text)
  }

  /** What the submit handler works out before it touches the counters. */
  datatype Judgement = Judgement(verdict: Verdict, counted: bool)

  /** Cookies first, then the answer, then the check: the first of them
      that throws decides the error. The round has been counted when its
      cookie is the string "true". */
  function Judge(audioBytes: JsValue, correctAnswer: JsValue, gameMode: JsValue, cookies: Result<Jar>): (r: Result<Judgement>)
    ensures cookies.Err? ==> r == Err(cookies.error)
    ensures cookies.Ok? && UserAnswer(audioBytes).Err? ==> r == Err(UserAnswer(audioBytes).error)
    ensures r.Ok? ==> CheckAnswer(UserAnswer(audioBytes).value, correctAnswer, gameMode) == Ok(r.value.verdict)
    ensures r.Ok? ==> (r.value.counted <==> Lookup(cookies.value, "currentRoundCounted") == Some("true"))
  {
    var jar :- cookies;
    var userAnswer :- UserAnswer(audioBytes);
    var verdict :- CheckAnswer(userAnswer, correctAnswer, gameMode);
    Ok(Judgement(verdict, Lookup(jar, "currentRoundCounted") == Some("true")))
  }

  /** `result ? "That's correct!" : message || "That's incorrect!"`. */
  function FeedbackText(v: Verdict): (r: string)
    ensures r != []
    ensures v.result ==> r == "That's correct!"
    ensures !v.result && v.message.Some? && v.message.value != [] ==> r == v.message.value
  {
    if v.result then "That's correct!"
    else match v.message
      case Some(m) => if m != [] then m else "That's incorrect!"
      case None => "That's incorrect!"
  }

  /** The state of `language/language.js`: the module-level counters and
      the remembered audio files. `root` is the application directory. */
  class LanguageServer {
    const root: string
    var totalGamesPlayed: int
    var correctAnswers: int
    var lastQuestionAudioFile: string
    var lastFeedbackAudioFile: string

    constructor(root: string)
      ensures this.root == root
      ensures totalGamesPlayed == 0 && correctAnswers == 0
      ensures lastQuestionAudioFile == "" && lastFeedbackAudioFile == ""
    {
      this.root := root;
      totalGamesPlayed := 0;
      correctAnswers := 0;
      lastQuestionAudioFile := "";
      lastFeedbackAudioFile := "";
    }

    /** `GET /start-game/:gameMode`. `generated` is what the completion
        service returns for the prompt of the mode and of the difficulty
        handed back in `asked`; `listing` is the output directory;
        `synthesized` the clock reading at which the speech file was
        written, or the error of the speech service. `deleted` are the
        files the cleanup unlinks. */
    method StartGame(gameMode: string, cookieHeader: Option<string>, generated: Result<string>,
                     listing: seq<string>, synthesized: Result<nat>)
      returns (reply: Reply, asked: Option<Difficulty>, deleted: seq<string>)
      modifies this
      ensures lastFeedbackAudioFile == old(lastFeedbackAudioFile)
      ensures CookieJar(cookieHeader).Err? ==>
        && reply == Unhandled(UriMalformed) && asked == None && deleted == []
        && totalGamesPlayed == old(totalGamesPlayed) && correctAnswers == old(correctAnswers)
        && lastQuestionAudioFile == old(lastQuestionAudioFile)
      ensures CookieJar(cookieHeader).Ok? && !IsLanguageMode(gameMode) ==>
        && reply == Failure(400, InvalidGameMode) && asked == None && deleted == []
        && totalGamesPlayed == old(totalGamesPlayed) && correctAnswers == old(correctAnswers)
        && lastQuestionAudioFile == old(lastQuestionAudioFile)
      ensures CookieJar(cookieHeader).Ok? && IsLanguageMode(gameMode) ==>
        var jar := CookieJar(cookieHeader).value;
        && totalGamesPlayed == Restore(Lookup(jar, gameMode + "_totalGames"), old(totalGamesPlayed))
        && correctAnswers == Restore(Lookup(jar, gameMode + "_correctAnswers"), old(correctAnswers))
        && asked == Some(DetermineDifficulty(StartAccuracy(correctAnswers, totalGamesPlayed)))
        && RoundPlayed(root, GameQuestion(gameMode, generated), listing, synthesized,
                       old(lastQuestionAudioFile), old(lastFeedbackAudioFile), reply, deleted, lastQuestionAudioFile)
    {
      asked := None;
      deleted := [];
      var cookies := GetCookies(cookieHeader);
      if cookies.Err? {
        return Unhandled(cookies.error), asked, deleted;
      }
      if !IsLanguageMode(gameMode) {
        return Failure(400, InvalidGameMode), asked, deleted;
      }
      RestoreCounters(cookies.value, gameMode);
      var difficulty := DetermineDifficulty(StartAccuracy(correctAnswers, totalGamesPlayed));
      asked := Some(difficulty);
      reply, deleted := PlayRound(GameQuestion(gameMode, generated), listing, synthesized);
    }

    /** `parseInt(cookies[...]) || counter` for the two counters of a
        mode. */
    method RestoreCounters(jar: Jar, gameMode: string)
      modifies this
      ensures totalGamesPlayed == Restore(Lookup(jar, gameMode + "_totalGames"), old(totalGamesPlayed))
      ensures correctAnswers == Restore(Lookup(jar, gameMode + "_correctAnswers"), old(correctAnswers))
      ensures lastQuestionAudioFile == old(lastQuestionAudioFile) && lastFeedbackAudioFile == old(lastFeedbackAudioFile)
    {
      totalGamesPlayed := Restore(Lookup(jar, gameMode + "_totalGames"), totalGamesPlayed);
      correctAnswers := Restore(Lookup(jar, gameMode + "_correctAnswers"), correctAnswers);
    }

    method PlayRound(question: Result<(string, JsValue)>, listing: seq<string>, synthesized: Result<nat>)
      returns (reply: Reply, deleted: seq<string>)
      modifies this
      ensures totalGamesPlayed == old(totalGamesPlayed) && correctAnswers == old(correctAnswers)
      ensures lastFeedbackAudioFile == old(lastFeedbackAudioFile)
      ensures RoundPlayed(root, question, listing, synthesized, old(lastQuestionAudioFile), old(lastFeedbackAudioFile),
                          reply, deleted, lastQuestionAudioFile)
    {
      deleted := [];
      if question.Err? {
        return Failure(500, question.error), deleted;
      }
      deleted := SelectStale(SamePath, root, lastQuestionAudioFile, lastFeedbackAudioFile, listing);
      if synthesized.Err? {
        return Failure(500, synthesized.error), deleted;
      }
      var audioFilePath := SynthesizedPath(synthesized.value);
      QuestionFileOfSynthesized(root, synthesized.value);
      lastQuestionAudioFile := QuestionFile(root, audioFilePath);
      reply := Ok200(Question(question.value.0, question.value.1, audioFilePath),
                     [SetCookie("currentRoundCounted", "false", RoundCookieAge)]);
    }

    /** `POST /submit-answer`: the round is counted once, however many
        answers are sent for it; a right answer is counted every time. */
    method SubmitAnswer(audioBytes: JsValue, correctAnswer: JsValue, gameMode: JsValue, cookieHeader: Option<string>)
      returns (reply: Reply)
      modifies this
      ensures lastQuestionAudioFile == old(lastQuestionAudioFile) && lastFeedbackAudioFile == old(lastFeedbackAudioFile)
      ensures match Judge(audioBytes, correctAnswer, gameMode, CookieJar(cookieHeader))
        case Err(e) =>
          reply == Failure(500, e) && totalGamesPlayed == old(totalGamesPlayed) && correctAnswers == old(correctAnswers)
        case Ok(j) =>
          && totalGamesPlayed == old(totalGamesPlayed) + (if j.counted then 0 else 1)
          && correctAnswers == old(correctAnswers) + (if j.verdict.result then 1 else 0)
          && reply == Ok200(
               Feedback(FeedbackText(j.verdict), "/audio/util/" + FeedbackKind(j.verdict.result) + ".mp3",
                        SubmitAccuracy(correctAnswers, totalGamesPlayed), totalGamesPlayed, correctAnswers),
               if j.counted then [] else [SetCookie("currentRoundCounted", "true", RoundCookieAge)])
    {
      var cookies := GetCookies(cookieHeader);
      var judged := Judge(audioBytes, correctAnswer, gameMode, cookies);
      if judged.Err? {
        return Failure(500, judged.error);
      }
      reply := Record(judged.value);
    }

    /** The part of the submit handler after the check: the counters move
        and the feedback is sent. */
    method Record(j: Judgement) returns (reply: Reply)
      modifies this
      ensures lastQuestionAudioFile == old(lastQuestionAudioFile) && lastFeedbackAudioFile == old(lastFeedbackAudioFile)
      ensures totalGamesPlayed == old(totalGamesPlayed) + (if j.counted then 0 else 1)
      ensures correctAnswers == old(correctAnswers) + (if j.verdict.result then 1 else 0)
      ensures reply == Ok200(
        Feedback(FeedbackText(j.verdict), "/audio/util/" + FeedbackKind(j.verdict.result) + ".mp3",
                 SubmitAccuracy(correctAnswers, totalGamesPlayed), totalGamesPlayed, correctAnswers),
        if j.counted then [] else [SetCookie("currentRoundCounted", "true", RoundCookieAge)])
    {
      var result := j.verdict.result;
      var clip := PreRecordedAudio(root, FeedbackKind(result));
      FeedbackUrlOfClip(root, FeedbackKind(result));
      var toSet: seq<SetCookie> := [];
      if !j.counted {
        totalGamesPlayed := totalGamesPlayed + 1;
        toSet := [SetCookie("currentRoundCounted", "true", RoundCookieAge)];
      }
      if result {
        correctAnswers := correctAnswers + 1;
      }
      var accuracy := SubmitAccuracy(correctAnswers, totalGamesPlayed);
      reply := Ok200(Feedback(FeedbackText(j.verdict), FeedbackUrl(clip.value), accuracy,
                              totalGamesPlayed, correctAnswers), toSet);
    }

    /** `GET /end-game?gameMode=...`: the totals and the unguarded
        accuracy; the scores are kept in cookies only for a known mode. */
    method EndGame(gameMode: JsValue) returns (reply: Reply)
      ensures reply.Reply? && reply.status == 200
      ensures reply.body == Totals(totalGamesPlayed, correctAnswers, Percentage(correctAnswers, totalGamesPlayed))
      ensures reply.cookies == if gameMode.Str? && IsLanguageMode(gameMode.s)
        then ScoreCookies(gameMode.s, totalGamesPlayed, correctAnswers) else []
    {
      var accuracy := Percentage(correctAnswers, totalGamesPlayed);
      var toSet: seq<SetCookie> := [];
      if !Falsy(gameMode) && gameMode.Str? && IsLanguageMode(gameMode.s) {
        toSet := ScoreCookies(gameMode.s, totalGamesPlayed, correctAnswers);
      }
      reply := Ok200(Totals(totalGamesPlayed, correctAnswers, accuracy), toSet);
    }
  }

  // ---- scores kept in cookies

  /** The names of the modes are plain, so their score cookies read back. */
  lemma LanguageModePlain(mode: string)
    requires IsLanguageMode(mode)
    ensures PlainText(mode) && mode != []
  {
  }

  /** A right answer is judged right whether or not its round has been
      counted; only the flag tells the two apart. */
  lemma RightAnswerJudged(jar: Jar)
    ensures Judge(Str("cat"), Str("cat"), Str("vocabulary"), Ok(jar))
      == Ok(Judgement(Verdict(true, None), Lookup(jar, "currentRoundCounted") == Some("true")))
  {
    UserAnswerUnpadded("cat");
    SanitizeLowerLetters("cat");
    EqualityModes("cat", "cat", "vocabulary");
  }

  /** A right vocabulary answer, with cookies that read as `jar`: one more
      right answer, and one more round unless the flag says "true". */
  method SendRightAnswer(server: LanguageServer, header: Option<string>, jar: Jar) returns (reply: Reply)
    requires CookieJar(header) == Ok(jar)
    modifies server
    ensures server.correctAnswers == old(server.correctAnswers) + 1
    ensures server.totalGamesPlayed
      == old(server.totalGamesPlayed) + (if Lookup(jar, "currentRoundCounted") == Some("true") then 0 else 1)
  {
    RightAnswerJudged(jar);
    reply := server.SubmitAnswer(Str("cat"), Str("cat"), Str("vocabulary"), header);
  }

  /** The counters need not satisfy `correctAnswers <= totalGamesPlayed`:
      a right answer sent twice in one round is counted twice, the round
      once. */
  method RepeatedAnswerCountedTwice(root: string) returns (server: LanguageServer)
    ensures server.totalGamesPlayed == 1 && server.correctAnswers == 2
  {
    server := new LanguageServer(root);
    var flag, yes := "currentRoundCounted", "true";
    var empty: Jar := map[];
    assert CookieJar(None) == Ok(empty) && Lookup(empty, flag) == None;
    var first := SendRightAnswer(server, None, empty);
    RoundFlagSentBack();
    var flagged: Jar := map[flag := yes];
    assert Lookup(flagged, flag) == Some(yes);
    var second := SendRightAnswer(server, Some(flag + "=" + yes), flagged);
  }
}
