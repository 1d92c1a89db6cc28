/** `math/server.js`: the arithmetic game. A completion service writes a
    problem for the mode and the player's difficulty; the answer arrives as
    transcribed speech and is read as a number, in digits or in words. */
module MathServer {
  import opened Results
  import opened JsStrings
  import opened JsValues
  import opened JsNumbers
  import opened Matching
  import opened Scoring
  import opened Cookies
  import opened Audio
  import opened Http
  import opened Session
  import opened MathGame

  /** The four modes the start and end handlers accept. */
  predicate IsMathMode(mode: string) {
    mode == "addition" || mode == "subtraction" || mode == "multiplication" || mode == "division"
  }

  lemma MathModePlain(mode: string)
    requires IsMathMode(mode)
    ensures PlainText(mode) && mode != []
  {
  }

  // ---- checkAnswer

  /** `parseInt(userAnswer, 10)`, or, when that is NaN, what the
      words-to-numbers library makes of the text; the library is the
      parameter `wordsToNumbers`. */
  function ParsedAnswer(userAnswer: string, wordsToNumbers: string -> JsValue): JsValue {
    match ParseInt(userAnswer, Ten)
    case Int(i) => Num(i as real)
    case NaN => wordsToNumbers(userAnswer)
  }

  /** `checkAnswer(userAnswer, correctAnswer)`: the parsed answer strictly
      equals the expected one. */
  function CheckMathAnswer(userAnswer: string, correctAnswer: JsValue, wordsToNumbers: string -> JsValue): (r: bool)
    ensures match ParseInt(userAnswer, Ten)
      case Int(i) => r <==> correctAnswer == Num(i as real)
      case NaN => r <==> StrictEquals(wordsToNumbers(userAnswer), correctAnswer)
  {
    StrictEquals(ParsedAnswer(userAnswer, wordsToNumbers), correctAnswer)
  }

  /** An answer that starts with digits is decided by them: the words
      library is not consulted. */
  lemma DigitsBeforeWords(userAnswer: string, correctAnswer: JsValue, w1: string -> JsValue, w2: string -> JsValue)
    requires ParseInt(userAnswer, Ten).Int?
    ensures CheckMathAnswer(userAnswer, correctAnswer, w1) == CheckMathAnswer(userAnswer, correctAnswer, w2)
  {
  }

  /** A number said in digits, followed by anything that does not extend
      it ("12 apples", "12."), is right exactly when it is the expected
      number. */
  lemma SpokenNumber(n: int, rest: string, answer: int, wordsToNumbers: string -> JsValue)
    requires rest == [] || !IsDecimalDigit(rest[0])
    ensures CheckMathAnswer(Show(n) + rest, Num(answer as real), wordsToNumbers) <==> n == answer
  {
    ParseShow(n, rest, Ten);
  }

  /** An expected answer sent as a string never matches an answer given
      in digits: strict equality does not convert. */
  lemma StringAnswerNeverMatches(userAnswer: string, expected: string, wordsToNumbers: string -> JsValue)
    requires ParseInt(userAnswer, Ten).Int?
    ensures !CheckMathAnswer(userAnswer, Str(expected), wordsToNumbers)
  {
  }

  // ---- generateMathProblem

  /** What a prompt asks for: how many operands, of how many digits. */
  datatype Tier = Tier(operands: nat, digits: nat)

  /** The three prompts of `generateMathProblem`: "easy" asks for two
      single-digit numbers, "medium" for two two-digit numbers, anything
      else for three two-digit numbers. */
  function PromptTier(difficulty: string): (r: Tier)
    ensures r == Tier(2, 1) <==> difficulty == "easy"
    ensures r == Tier(2, 2) <==> difficulty == "medium"
  {
    if difficulty == "easy" then Tier(2, 1)
    else if difficulty == "medium" then Tier(2, 2)
    else Tier(3, 2)
  }

  /** The tier a player with `c` right answers out of `t` rounds is asked
      for. */
  lemma TierOfScore(c: nat, t: nat)
    requires t > 0
    ensures PromptTier(DetermineDifficulty(StartAccuracy(c, t)).Name())
      == if 20000 * c >= 16001 * t then Tier(3, 2)
         else if 20000 * c >= 10001 * t then Tier(2, 2)
         else Tier(2, 1)
  {
    TierBounds(c, t);
  }

  /** A player with no rounds gets two single-digit numbers. */
  lemma FreshPlayerTier(c: int)
    ensures PromptTier(DetermineDifficulty(StartAccuracy(c, 0)).Name()) == Tier(2, 1)
  {
    FreshPlayerEasy(c);
  }

  const QuestionPrefix: string := "What is "
  const AnswerPrefix: string := "Answer: "

  /** `parseInt(group, 10)` of the digits that `(\d+)` captured. */
  function GroupValue(group: string): (v: nat)
    requires group != [] && forall i :: 0 <= i < |group| ==> IsDecimalDigit(group[i])
    ensures ParseInt(group, Ten) == Int(v)
  {
    ParseDigitString(group);
    DigitsValue(group, 10)
  }

  /** `text.match(/answerPrefix(\d+)/)[1]` read with `parseInt(group, 10)`,
      or `None` when there is no match. */
  function AnswerGroup(text: string, answerPrefix: string): (r: Option<nat>)
    ensures r.Some? <==> FirstDigitsMatch(text, answerPrefix, 0).Some?
    ensures r.Some? ==>
      ParseInt(DigitsGroup(text, answerPrefix, FirstDigitsMatch(text, answerPrefix, 0).value), Ten) == Int(r.value)
  {
    match FirstDigitsMatch(text, answerPrefix, 0)
    case None => None
    case Some(m) => Some(GroupValue(DigitsGroup(text, answerPrefix, m)))
  }

  /** The reading of a trimmed completion for the two patterns
      `questionPrefix(.+?)\?` and `answerPrefix(\d+)`: the whole first
      match of the one, and the group of the other read as a number.
      Either match missing is a malformed response. */
  function MathProblemOf(text: string, questionPrefix: string, answerPrefix: string): (r: Result<(string, nat)>)
    ensures r.Ok? <==> LazyMatchText(text, questionPrefix).Some? && AnswerGroup(text, answerPrefix).Some?
    ensures r.Err? ==> r.error == InvalidResponseFormat
    ensures r.Ok? ==> r.value == (LazyMatchText(text, questionPrefix).value, AnswerGroup(text, answerPrefix).value)
  {
    match LazyMatchText(text, questionPrefix)
    case None => Err(InvalidResponseFormat)
    case Some(question) =>
      match AnswerGroup(text, answerPrefix)
      case None => Err(InvalidResponseFormat)
      case Some(answer) => Ok((question, answer))
  }

  /** `generateMathProblem` once the completion `generated` is in. */
  function ExtractMathProblem(generated: string): (r: Result<(string, nat)>)
    ensures r.Err? ==> r.error == InvalidResponseFormat
    ensures r.Ok? ==> QuestionShaped(r.value.0, QuestionPrefix)
  {
    MathProblemOf(Trim(generated), QuestionPrefix, AnswerPrefix)
  }

  /** Digits right after the first occurrence of the answer prefix, not
      continued by what follows them, are the answer. */
  lemma AnswerOfText(text: string, head: string, answerPrefix: string, digits: string, rest: string)
    requires answerPrefix != [] && answerPrefix[0] !in head
    requires digits != [] && forall i :: 0 <= i < |digits| ==> IsDecimalDigit(digits[i])
    requires rest == [] || !IsDecimalDigit(rest[0])
    requires text == head + answerPrefix + (digits + rest)
    ensures AnswerGroup(text, answerPrefix) == Some(DigitsValue(digits, 10))
  {
    var after := digits + rest;
    var m := |head|;
    AnswerPrefixAt(head, answerPrefix, after);
    assert text[m + |answerPrefix|] == digits[0];
    FirstDigitsMatchAt(text, answerPrefix, 0, m);
    GroupOfDigits(text, answerPrefix, m, digits, rest);
  }

  /** The group `(\d+)` is the whole run of digits after the prefix. */
  lemma GroupOfDigits(text: string, answerPrefix: string, m: nat, digits: string, rest: string)
    requires DigitsMatch(text, answerPrefix, m) && text[m + |answerPrefix|..] == digits + rest
    requires forall i :: 0 <= i < |digits| ==> IsDecimalDigit(digits[i])
    requires rest == [] || !IsDecimalDigit(rest[0])
    ensures DigitsGroup(text, answerPrefix, m) == digits
  {
    DigitRunOfDigits(digits, rest, 10);
    assert (digits + rest)[..|digits|] == digits;
  }

  /** A completion in the requested format, question prefix, body, `? `,
      answer prefix, digits and whatever does not continue them, is read
      as the question up to its `?` and the value of the digits. */
  lemma MathProblemOfText(questionPrefix: string, answerPrefix: string, body: string, digits: string, rest: string)
    requires answerPrefix != [] && answerPrefix[0] != '?' && answerPrefix[0] != ' '
    requires answerPrefix[0] !in questionPrefix && answerPrefix[0] !in body
    requires body != [] && SingleLine(body) && '?' !in body
    requires digits != [] && forall i :: 0 <= i < |digits| ==> IsDecimalDigit(digits[i])
    requires rest == [] || !IsDecimalDigit(rest[0])
    ensures var text := questionPrefix + body + "? " + answerPrefix + digits + rest;
      MathProblemOf(text, questionPrefix, answerPrefix) == Ok((questionPrefix + body + "?", DigitsValue(digits, 10)))
  {
    QuestionOfFormat(questionPrefix, answerPrefix, body, digits, rest);
    AnswerOfFormat(questionPrefix, answerPrefix, body, digits, rest);
    MathProblemOfParts(questionPrefix + body + "? " + answerPrefix + digits + rest, questionPrefix, answerPrefix,
                       questionPrefix + body + "?", DigitsValue(digits, 10));
  }

  lemma QuestionOfFormat(questionPrefix: string, answerPrefix: string, body: string, digits: string, rest: string)
    requires body != [] && SingleLine(body) && '?' !in body
    ensures var text := questionPrefix + body + "? " + answerPrefix + digits + rest;
      LazyMatchText(text, questionPrefix) == Some(questionPrefix + body + "?")
  {
    var text := questionPrefix + body + "? " + answerPrefix + digits + rest;
    var tail := " " + answerPrefix + digits + rest;
    assert text == questionPrefix + body + "?" + tail;
    QuestionOfText(text, questionPrefix, body, tail);
  }

  lemma AnswerOfFormat(questionPrefix: string, answerPrefix: string, body: string, digits: string, rest: string)
    requires answerPrefix != [] && answerPrefix[0] != '?' && answerPrefix[0] != ' '
    requires answerPrefix[0] !in questionPrefix && answerPrefix[0] !in body
    requires digits != [] && forall i :: 0 <= i < |digits| ==> IsDecimalDigit(digits[i])
    requires rest == [] || !IsDecimalDigit(rest[0])
    ensures var text := questionPrefix + body + "? " + answerPrefix + digits + rest;
      AnswerGroup(text, answerPrefix) == Some(DigitsValue(digits, 10))
  {
    AnswerAfterHead(questionPrefix, answerPrefix, body, digits, rest);
    AnswerOfText(questionPrefix + body + "? " + answerPrefix + digits + rest, questionPrefix + body + "? ",
                 answerPrefix, digits, rest);
  }

  lemma AnswerAfterHead(questionPrefix: string, answerPrefix: string, body: string, digits: string, rest: string)
    requires answerPrefix != [] && answerPrefix[0] != '?' && answerPrefix[0] != ' '
    requires answerPrefix[0] !in questionPrefix && answerPrefix[0] !in body
    ensures var head := questionPrefix + body + "? ";
      && questionPrefix + body + "? " + answerPrefix + digits + rest == head + answerPrefix + (digits + rest)
      && answerPrefix[0] !in head
  {
  }

  lemma MathProblemOfParts(text: string, questionPrefix: string, answerPrefix: string, question: string, answer: nat)
    requires LazyMatchText(text, questionPrefix) == Some(question)
    requires AnswerGroup(text, answerPrefix) == Some(answer)
    ensures MathProblemOf(text, questionPrefix, answerPrefix) == Ok((question, answer))
  {
  }

  /** The middle of a question written by `MathGame.QuestionText`. */
  lemma ProblemBodyPlain(n1: nat, n2: nat)
    ensures var body := Show(n1) + " plus " + Show(n2);
      body != [] && SingleLine(body) && '?' !in body && 'A' !in body
  {
    var a, b, plus := ShowNat(n1), ShowNat(n2), " plus ";
    var body := a + plus + b;
    assert Show(n1) + " plus " + Show(n2) == body;
    forall k | 0 <= k < |body|
      ensures body[k] != '?' && body[k] != 'A' && !IsLineTerminator(body[k])
    {
      if k < |a| {
        assert body[k] == a[k];
      } else if k < |a| + |plus| {
        assert body[k] == plus[k - |a|];
      } else {
        assert body[k] == b[k - |a| - |plus|];
      }
    }
  }

  /** The problem of `MathGame`, written in the requested format with its
      answer, reads back as that question and that answer. */
  lemma ProblemReadBack(n1: nat, n2: nat, answer: nat)
    ensures ExtractMathProblem(QuestionText(n1, n2) + " Answer: " + ShowNat(answer) + ".")
      == Ok((QuestionText(n1, n2), answer))
  {
    var body := Show(n1) + " plus " + Show(n2);
    var digits := ShowNat(answer);
    PrefixesApart();
    FormatUnpadded(n1, n2, answer);
    ExtractUnpadded(QuestionText(n1, n2) + " Answer: " + ShowNat(answer) + ".");
    FormatParts(n1, n2, answer);
    ProblemBodyPlain(n1, n2);
    MathProblemOfText(QuestionPrefix, AnswerPrefix, body, digits, ".");
    ShowNatValue(answer);
  }

  lemma PrefixesApart()
    ensures AnswerPrefix != [] && AnswerPrefix[0] == 'A' && 'A' !in QuestionPrefix
  {
  }

  lemma FormatUnpadded(n1: nat, n2: nat, answer: nat)
    ensures Unpadded(QuestionText(n1, n2) + " Answer: " + ShowNat(answer) + ".")
  {
    var text := QuestionText(n1, n2) + " Answer: " + ShowNat(answer) + ".";
    assert text[0] == 'W' by {
      QuestionStartsWithW(n1, n2);
    }
  }

  /** A completion without surrounding blanks is read as it is. */
  lemma ExtractUnpadded(text: string)
    requires Unpadded(text)
    ensures ExtractMathProblem(text) == MathProblemOf(text, QuestionPrefix, AnswerPrefix)
  {
    TrimUnpadded(text);
  }

  lemma QuestionStartsWithW(n1: nat, n2: nat)
    ensures (QuestionText(n1, n2) + " Answer: ")[0] == 'W'
  {
  }

  lemma FormatParts(n1: nat, n2: nat, answer: nat)
    ensures var body := Show(n1) + " plus " + Show(n2);
      && QuestionText(n1, n2) == QuestionPrefix + body + "?"
      && QuestionText(n1, n2) + " Answer: " + ShowNat(answer) + "."
         == QuestionPrefix + body + "? " + AnswerPrefix + ShowNat(answer) + "."
  {
    var a, b := Show(n1), Show(n2);
    var body := a + " plus " + b;
    assert QuestionText(n1, n2) == QuestionPrefix + body + "?";
    ReplyJoint();
    Regroup(QuestionPrefix + body, "?", " Answer: ", "? ", AnswerPrefix, ShowNat(answer), ".");
  }

  lemma ReplyJoint()
    ensures "?" + " Answer: " == "? " + AnswerPrefix
  {
  }

  lemma Regroup(x: string, a: string, b: string, c: string, d: string, y: string, z: string)
    requires a + b == c + d
    ensures x + a + b + y + z == x + c + d + y + z
  {
    assert x + a + b == x + (a + b);
    assert x + c + d == x + (c + d);
  }

  /** The question the start handler obtains, with the answer as the
      number `parseInt` returned. */
  function MathQuestion(generated: Result<string>): (r: Result<(string, JsValue)>)
    ensures generated.Err? ==> r == Err(generated.error)
    ensures generated.Ok? ==> (r.Ok? <==> ExtractMathProblem(generated.value).Ok?)
    ensures generated.Ok? && r.Err? ==> r.error == InvalidResponseFormat
    ensures r.Ok? ==>
      var p := ExtractMathProblem(generated.value).value;
      r.value == (p.0, Num(p.1 as real))
  {
    var text :- generated;
    var problem :- ExtractMathProblem(text);
    Ok((problem.0, Num(problem.1 as real)))
  }

  // ---- the handlers

  /** What the submit handler works out before it touches the counters. */
  datatype Judgement = Judgement(correct: bool, counted: bool)

  /** Cookies first, then the answer, then the check: the first of them
      that throws decides the error. */
  function Judge(audioBytes: JsValue, correctAnswer: JsValue, wordsToNumbers: string -> JsValue,
                 cookies: Result<Jar>): (r: Result<Judgement>)
    ensures cookies.Err? ==> r == Err(cookies.error)
    ensures cookies.Ok? ==> (r.Ok? <==> UserAnswer(audioBytes).Ok?)
    ensures cookies.Ok? && UserAnswer(audioBytes).Err? ==> r == Err(UserAnswer(audioBytes).error)
    ensures r.Ok? ==> r.value.correct == CheckMathAnswer(UserAnswer(audioBytes).value, correctAnswer, wordsToNumbers)
    ensures r.Ok? ==> (r.value.counted <==> Lookup(cookies.value, "currentRoundCounted") == Some("true"))
  {
    var jar :- cookies;
    var userAnswer :- UserAnswer(audioBytes);
    Ok(Judgement(CheckMathAnswer(userAnswer, correctAnswer, wordsToNumbers),
                 Lookup(jar, "currentRoundCounted") == Some("true")))
  }

  /** The state of `math/server.js`: the module-level counters and the
      remembered audio files. `root` is the application directory. */
  class MathServer {
    const root: string
    var totalGamesPlayed: int
    var correctAnswers: int
    var lastQuestionAudioFile: string
    var lastFeedbackAudioFile: string

    constructor(root: string)
      ensures this.root == root
      ensures totalGamesPlayed == 0 && correctAnswers == 0
      ensures lastQuestionAudioFile == "" && lastFeedbackAudioFile == ""
    {
      this.root := root;
      totalGamesPlayed := 0;
      correctAnswers := 0;
      lastQuestionAudioFile := "";
      lastFeedbackAudioFile := "";
    }

    /** `GET /start-game/:gameMode`. `generated` is what the completion
        service returns for the prompt of the tier handed back in `asked`;
        `listing` is the output directory; `synthesized` the clock reading
        at which the speech file was written, or the error of the speech
        service. `deleted` are the files the cleanup unlinks. */
    method StartGame(gameMode: string, cookieHeader: Option<string>, generated: Result<string>,
                     listing: seq<string>, synthesized: Result<nat>)
      returns (reply: Reply, asked: Option<Tier>, deleted: seq<string>)
      modifies this
      ensures lastFeedbackAudioFile == old(lastFeedbackAudioFile)
      ensures CookieJar(cookieHeader).Err? ==>
        && reply == Unhandled(UriMalformed) && asked == None && deleted == []
        && totalGamesPlayed == old(totalGamesPlayed) && correctAnswers == old(correctAnswers)
        && lastQuestionAudioFile == old(lastQuestionAudioFile)
      ensures CookieJar(cookieHeader).Ok? && !IsMathMode(gameMode) ==>
        && reply == Failure(400, InvalidGameMode) && asked == None && deleted == []
        && totalGamesPlayed == old(totalGamesPlayed) && correctAnswers == old(correctAnswers)
        && lastQuestionAudioFile == old(lastQuestionAudioFile)
      ensures CookieJar(cookieHeader).Ok? && IsMathMode(gameMode) ==>
        var jar := CookieJar(cookieHeader).value;
        && totalGamesPlayed == Restore(Lookup(jar, gameMode + "_totalGames"), old(totalGamesPlayed))
        && correctAnswers == Restore(Lookup(jar, gameMode + "_correctAnswers"), old(correctAnswers))
        && asked == Some(PromptTier(DetermineDifficulty(StartAccuracy(correctAnswers, totalGamesPlayed)).Name()))
        && RoundPlayed(root, MathQuestion(generated), listing, synthesized,
                       old(lastQuestionAudioFile), old(lastFeedbackAudioFile), reply, deleted, lastQuestionAudioFile)
    {
      asked := None;
      deleted := [];
      var cookies := GetCookies(cookieHeader);
      if cookies.Err? {
        return Unhandled(cookies.error), asked, deleted;
      }
      if !IsMathMode(gameMode) {
        return Failure(400, InvalidGameMode), asked, deleted;
      }
      RestoreCounters(cookies.value, gameMode);
      var difficulty := DetermineDifficulty(StartAccuracy(correctAnswers, totalGamesPlayed));
      asked := Some(PromptTier(difficulty.Name()));
      reply, deleted := PlayRound(MathQuestion(generated), listing, synthesized);
    }

    /** `parseInt(cookies[...]) || counter` for the two counters of a
        mode. */
    method RestoreCounters(jar: Jar, gameMode: string)
      modifies this
      ensures totalGamesPlayed == Restore(Lookup(jar, gameMode + "_totalGames"), old(totalGamesPlayed))
      ensures correctAnswers == Restore(Lookup(jar, gameMode + "_correctAnswers"), old(correctAnswers))
      ensures lastQuestionAudioFile == old(lastQuestionAudioFile) && lastFeedbackAudioFile == old(lastFeedbackAudioFile)
    {
      totalGamesPlayed := Restore(Lookup(jar, gameMode + "_totalGames"), totalGamesPlayed);
      correctAnswers := Restore(Lookup(jar, gameMode + "_correctAnswers"), correctAnswers);
    }

    /** The problem is obtained, the old files are cleaned up, the
        question is spoken and its file becomes the one to keep. */
    method PlayRound(question: Result<(string, JsValue)>, listing: seq<string>, synthesized: Result<nat>)
      returns (reply: Reply, deleted: seq<string>)
      modifies this
      ensures totalGamesPlayed == old(totalGamesPlayed) && correctAnswers == old(correctAnswers)
      ensures lastFeedbackAudioFile == old(lastFeedbackAudioFile)
      ensures RoundPlayed(root, question, listing, synthesized, old(lastQuestionAudioFile), old(lastFeedbackAudioFile),
                          reply, deleted, lastQuestionAudioFile)
    {
      deleted := [];
      if question.Err? {
        return Failure(500, question.error), deleted;
      }
      deleted := SelectStale(SamePath, root, lastQuestionAudioFile, lastFeedbackAudioFile, listing);
      if synthesized.Err? {
        return Failure(500, synthesized.error), deleted;
      }
      var audioFilePath := SynthesizedPath(synthesized.value);
      QuestionFileOfSynthesized(root, synthesized.value);
      lastQuestionAudioFile := QuestionFile(root, audioFilePath);
      reply := Ok200(Question(question.value.0, question.value.1, audioFilePath),
                     [SetCookie("currentRoundCounted", "false", RoundCookieAge)]);
    }

    /** `POST /submit-answer`: the round is counted once, however many
        answers are sent for it; a right answer is counted every time. */
    method SubmitAnswer(audioBytes: JsValue, correctAnswer: JsValue, cookieHeader: Option<string>,
                        wordsToNumbers: string -> JsValue)
      returns (reply: Reply)
      modifies this
      ensures lastQuestionAudioFile == old(lastQuestionAudioFile) && lastFeedbackAudioFile == old(lastFeedbackAudioFile)
      ensures match Judge(audioBytes, correctAnswer, wordsToNumbers, CookieJar(cookieHeader))
        case Err(e) =>
          reply == Failure(500, e) && totalGamesPlayed == old(totalGamesPlayed) && correctAnswers == old(correctAnswers)
        case Ok(j) =>
          && totalGamesPlayed == old(totalGamesPlayed) + (if j.counted then 0 else 1)
          && correctAnswers == old(correctAnswers) + (if j.correct then 1 else 0)
          && reply == Ok200(
               Feedback(VerdictText(j.correct), "/audio/util/" + FeedbackKind(j.correct) + ".mp3",
                        SubmitAccuracy(correctAnswers, totalGamesPlayed), totalGamesPlayed, correctAnswers),
               if j.counted then [] else [SetCookie("currentRoundCounted", "true", RoundCookieAge)])
    {
      var cookies := GetCookies(cookieHeader);
      var judged := Judge(audioBytes, correctAnswer, wordsToNumbers, cookies);
      if judged.Err? {
        return Failure(500, judged.error);
      }
      reply := Record(judged.value);
    }

    /** The part of the submit handler after the check: the counters move
        and the feedback is sent. */
    method Record(j: Judgement) returns (reply: Reply)
      modifies this
      ensures lastQuestionAudioFile == old(lastQuestionAudioFile) && lastFeedbackAudioFile == old(lastFeedbackAudioFile)
      ensures totalGamesPlayed == old(totalGamesPlayed) + (if j.counted then 0 else 1)
      ensures correctAnswers == old(correctAnswers) + (if j.correct then 1 else 0)
      ensures reply == Ok200(
        Feedback(VerdictText(j.correct), "/audio/util/" + FeedbackKind(j.correct) + ".mp3",
                 SubmitAccuracy(correctAnswers, totalGamesPlayed), totalGamesPlayed, correctAnswers),
        if j.counted then [] else [SetCookie("currentRoundCounted", "true", RoundCookieAge)])
    {
      var clip := PreRecordedAudio(root, FeedbackKind(j.correct));
      FeedbackUrlOfClip(root, FeedbackKind(j.correct));
      var toSet: seq<SetCookie> := [];
      if !j.counted {
        totalGamesPlayed := totalGamesPlayed + 1;
        toSet := [SetCookie("currentRoundCounted", "true", RoundCookieAge)];
      }
      if j.correct {
        correctAnswers := correctAnswers + 1;
      }
      var accuracy := SubmitAccuracy(correctAnswers, totalGamesPlayed);
      reply := Ok200(Feedback(VerdictText(j.correct), FeedbackUrl(clip.value), accuracy,
                              totalGamesPlayed, correctAnswers), toSet);
    }

    /** `POST /cleanup-audio-output`: "OK" at once; the files of the
        listing (`None` when it cannot be read) whose names occur in
        neither remembered path are unlinked. */
    method Cleanup(listing: Option<seq<string>>) returns (reply: Reply, deleted: seq<string>)
      ensures reply == Ok200(StatusText("OK"), [])
      ensures listing.None? ==> deleted == []
      ensures listing.Some? ==>
        deleted == StaleFiles(NameInPath, root, lastQuestionAudioFile, lastFeedbackAudioFile, listing.value)
    {
      deleted := [];
      if listing.Some? {
        deleted := SelectStale(NameInPath, root, lastQuestionAudioFile, lastFeedbackAudioFile, listing.value);
      }
      reply := Ok200(StatusText("OK"), []);
    }

    /** `GET /no-input-audio`: the browser path of the clip. */
    method NoInputAudio() returns (reply: Reply)
      ensures reply == Ok200(NoInputAudioPath("/audio/util/no_input.mp3"), [])
    {
      var kind := "no_input";
      var clip := PreRecordedAudio(root, kind);
      BrowserPathOfClip(root, kind);
      assert "/audio/util/" + kind + ".mp3" == "/audio/util/no_input.mp3";
      reply := Ok200(NoInputAudioPath(BrowserPath(root, clip.value)), []);
    }

    /** `GET /repeat-audio`: 404 when no question has been spoken yet;
        the question file, served under `/audio/output`, otherwise. */
    method RepeatAudio() returns (reply: Reply)
      ensures lastQuestionAudioFile == "" <==> reply.Reply? && reply.status == 404
      ensures lastQuestionAudioFile == "" ==> reply == Reply(404, ErrorBody("No audio available to repeat"), [])
      ensures forall name :: lastQuestionAudioFile == JoinPath(OutputDir(root), name) ==>
        reply == Ok200(AudioPath("/audio/output/" + name), [])
    {
      if lastQuestionAudioFile == "" {
        return Reply(404, ErrorBody("No audio available to repeat"), []);
      }
      reply := Ok200(AudioPath(BrowserPath(root, lastQuestionAudioFile)), []);
      forall name | lastQuestionAudioFile == JoinPath(OutputDir(root), name)
        ensures reply == Ok200(AudioPath("/audio/output/" + name), [])
      {
        BrowserPathOfQuestion(root, name);
      }
    }

    /** `GET /end-game?gameMode=...`: the totals and the unguarded
        accuracy; the scores are kept in cookies only for a known mode. */
    method EndGame(gameMode: JsValue) returns (reply: Reply)
      ensures reply.Reply? && reply.status == 200
      ensures reply.body == Totals(totalGamesPlayed, correctAnswers, Percentage(correctAnswers, totalGamesPlayed))
      ensures reply.cookies == if gameMode.Str? && IsMathMode(gameMode.s)
        then ScoreCookies(gameMode.s, totalGamesPlayed, correctAnswers) else []
    {
      var accuracy := Percentage(correctAnswers, totalGamesPlayed);
      var toSet: seq<SetCookie> := [];
      if !Falsy(gameMode) && gameMode.Str? && IsMathMode(gameMode.s) {
        toSet := ScoreCookies(gameMode.s, totalGamesPlayed, correctAnswers);
      }
      reply := Ok200(Totals(totalGamesPlayed, correctAnswers, accuracy), toSet);
    }
  }

  /** After a question has been spoken, the repeat handler sends the very
      path the start handler sent. */
  method RepeatReplaysQuestion(server: MathServer, gameMode: string, cookieHeader: Option<string>,
                               generated: Result<string>, listing: seq<string>, ts: nat)
    returns (start: Reply, repeat: Reply)
    modifies server
    requires CookieJar(cookieHeader).Ok? && IsMathMode(gameMode) && MathQuestion(generated).Ok?
    ensures start.Reply? && start.body.Question?
    ensures repeat == Ok200(AudioPath(start.body.audioPath), [])
  {
    var asked, deleted;
    start, asked, deleted := server.StartGame(gameMode, cookieHeader, generated, listing, Ok(ts));
    repeat := server.RepeatAudio();
  }
}
