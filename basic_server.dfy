/** `server.js`: the plain addition game. Its counters live only in the
    server, it sets no cookies, and an answer is read with `parseInt`
    guessing the radix. */
module BasicServer {
  import opened Results
  import opened JsStrings
  import opened JsValues
  import opened JsNumbers
  import opened Scoring
  import opened Audio
  import opened Http
  import opened MathGame

  /** `parseInt(userAnswer) === correctAnswer`: an answer without leading
      digits is never right, since NaN equals nothing. */
  function CheckBasicAnswer(userAnswer: string, correctAnswer: JsValue): (r: bool)
    ensures match ParseInt(userAnswer, Auto)
      case Int(i) => r <==> correctAnswer == Num(i as real)
      case NaN => !r
  {
    match ParseInt(userAnswer, Auto)
    case Int(i) =>
      StrictlyEqualNumber(i as real, correctAnswer);
      StrictEquals(Num(i as real), correctAnswer)
    case NaN =>
      NaNEqualsNothing(correctAnswer);
      StrictEquals(JsValues.NaN, correctAnswer)
  }

  /** A number said in digits, followed by anything that does not extend
      it, is right exactly when it is the expected number. */
  lemma SpokenNumberAuto(n: int, rest: string, answer: int)
    requires rest == [] || !IsDecimalDigit(rest[0])
    requires n == 0 ==> rest == [] || (rest[0] != 'x' && rest[0] != 'X')
    ensures CheckBasicAnswer(Show(n) + rest, Num(answer as real)) <==> n == answer
  {
    ParseShow(n, rest, Auto);
  }

  /** The radix is guessed: "0x1A" is the answer 26. */
  lemma HexAnswerAccepted()
    ensures CheckBasicAnswer("0x1A", Num(26.0))
  {
    ParseHexLiteral();
  }

  /** Read in base ten, as the math game does, a hexadecimal literal is
      the answer 0. */
  lemma DecimalReadsHexAsZero(rest: string)
    ensures ParseInt("0x" + rest, Ten) == Int(0)
  {
    var u := "0x" + rest;
    ParseUnsignedText(u, Ten);
    assert DigitRun(u, 10) == 1 by {
      assert u[1..] == ['x'] + rest;
    }
    assert u[..1] == ['0'];
    assert DigitsValue(['0'], 10) == 0 by {
      assert ['0'][..0] == [];
    }
  }

  /** The state of `server.js`: the module-level counters and the
      remembered audio files. `root` is the application directory. */
  class BasicServer {
    const root: string
    var totalGamesPlayed: int
    var correctAnswers: int
    var lastQuestionAudioFile: string
    var lastFeedbackAudioFile: string

    constructor(root: string)
      ensures this.root == root
      ensures totalGamesPlayed == 0 && correctAnswers == 0
      ensures lastQuestionAudioFile == "" && lastFeedbackAudioFile == ""
    {
      this.root := root;
      totalGamesPlayed := 0;
      correctAnswers := 0;
      lastQuestionAudioFile := "";
      lastFeedbackAudioFile := "";
    }

    /** `GET /start-game`: the problem of the draws `d1` and `d2`; the
        files of `listing` that are neither remembered file are unlinked;
        `synthesized` is the clock reading at which the speech file was
        written, or the error of the speech service. A round is counted
        once its question has been spoken. */
    method StartGame(d1: real, d2: real, listing: seq<string>, synthesized: Result<nat>)
      returns (reply: Reply, deleted: seq<string>)
      requires 0.0 <= d1 < 1.0 && 0.0 <= d2 < 1.0
      modifies this
      ensures correctAnswers == old(correctAnswers) && lastFeedbackAudioFile == old(lastFeedbackAudioFile)
      ensures deleted == StaleFiles(SamePath, root, old(lastQuestionAudioFile), old(lastFeedbackAudioFile), listing)
      ensures synthesized.Err? ==>
        && reply == Failure(500, synthesized.error)
        && totalGamesPlayed == old(totalGamesPlayed) && lastQuestionAudioFile == old(lastQuestionAudioFile)
      ensures synthesized.Ok? ==>
        var problem := GenerateMathProblem(d1, d2);
        && totalGamesPlayed == old(totalGamesPlayed) + 1
        && lastQuestionAudioFile == JoinPath(OutputDir(root), AudioFileName(synthesized.value))
        && reply == Ok200(Question(problem.question, Num(problem.answer as real), SynthesizedPath(synthesized.value)), [])
    {
      var game := GenerateMathProblem(d1, d2);
      deleted := SelectStale(SamePath, root, lastQuestionAudioFile, lastFeedbackAudioFile, listing);
      if synthesized.Err? {
        return Failure(500, synthesized.error), deleted;
      }
      var audioFilePath := SynthesizedPath(synthesized.value);
      QuestionFileOfSynthesized(root, synthesized.value);
      lastQuestionAudioFile := QuestionFile(root, audioFilePath);
      totalGamesPlayed := totalGamesPlayed + 1;
      reply := Ok200(Question(game.question, Num(game.answer as real), audioFilePath), []);
    }

    /** `POST /submit-answer`: a right answer is counted, the feedback clip
        becomes the one to keep, and the accuracy is computed without a
        guard against a zero total. The rounds are counted by the start
        handler only. */
    method SubmitAnswer(audioBytes: JsValue, correctAnswer: JsValue) returns (reply: Reply)
      modifies this
      ensures totalGamesPlayed == old(totalGamesPlayed) && lastQuestionAudioFile == old(lastQuestionAudioFile)
      ensures match UserAnswer(audioBytes)
        case Err(e) =>
          && reply == Failure(500, e)
          && correctAnswers == old(correctAnswers) && lastFeedbackAudioFile == old(lastFeedbackAudioFile)
        case Ok(userAnswer) =>
          var right := CheckBasicAnswer(userAnswer, correctAnswer);
          && correctAnswers == old(correctAnswers) + (if right then 1 else 0)
          && lastFeedbackAudioFile == JoinPath(UtilDir(root), FeedbackKind(right) + ".mp3")
          && reply == Ok200(
               Feedback(VerdictText(right), "/audio/util/" + FeedbackKind(right) + ".mp3",
                        Percentage(correctAnswers, totalGamesPlayed), totalGamesPlayed, correctAnswers),
               [])
    {
      var userAnswer := UserAnswer(audioBytes);
      if userAnswer.Err? {
        return Failure(500, userAnswer.error);
      }
      var isCorrect := CheckBasicAnswer(userAnswer.value, correctAnswer);
      reply := Record(isCorrect);
    }

    /** The part of the submit handler after the check: the count of right
        answers moves, the feedback clip is remembered and sent. */
    method Record(right: bool) returns (reply: Reply)
      modifies this
      ensures totalGamesPlayed == old(totalGamesPlayed) && lastQuestionAudioFile == old(lastQuestionAudioFile)
      ensures correctAnswers == old(correctAnswers) + (if right then 1 else 0)
      ensures lastFeedbackAudioFile == JoinPath(UtilDir(root), FeedbackKind(right) + ".mp3")
      ensures reply == Ok200(
        Feedback(VerdictText(right), "/audio/util/" + FeedbackKind(right) + ".mp3",
                 Percentage(correctAnswers, totalGamesPlayed), totalGamesPlayed, correctAnswers),
        [])
    {
      var clip := PreRecordedAudio(root, FeedbackKind(right));
      FeedbackUrlOfClip(root, FeedbackKind(right));
      if right {
        correctAnswers := correctAnswers + 1;
      }
      lastFeedbackAudioFile := clip.value;
      var accuracy := Percentage(correctAnswers, totalGamesPlayed);
      reply := Ok200(Feedback(VerdictText(right), FeedbackUrl(clip.value), accuracy,
                              totalGamesPlayed, correctAnswers), []);
    }

    /** `GET /repeat-audio`: 404 when no question has been spoken yet;
        the question file, served under `/audio/output`, otherwise. */
    method RepeatAudio() returns (reply: Reply)
      ensures lastQuestionAudioFile == "" <==> reply.Reply? && reply.status == 404
      ensures lastQuestionAudioFile == "" ==> reply == Reply(404, ErrorBody("No audio available to repeat"), [])
      ensures forall name :: lastQuestionAudioFile == JoinPath(OutputDir(root), name) ==>
        reply == Ok200(AudioPath("/audio/output/" + name), [])
    {
      if lastQuestionAudioFile == "" {
        return Reply(404, ErrorBody("No audio available to repeat"), []);
      }
      reply := Ok200(AudioPath(BrowserPath(root, lastQuestionAudioFile)), []);
      forall name | lastQuestionAudioFile == JoinPath(OutputDir(root), name)
        ensures reply == Ok200(AudioPath("/audio/output/" + name), [])
      {
        BrowserPathOfQuestion(root, name);
      }
    }

    /** `POST /cleanup-audio-output`: status 200 at once; the files of the
        listing (`None` when it cannot be read) whose names occur in
        neither remembered path are unlinked. */
    method Cleanup(listing: Option<seq<string>>) returns (reply: Reply, deleted: seq<string>)
      ensures reply == Ok200(StatusText("OK"), [])
      ensures listing.None? ==> deleted == []
      ensures listing.Some? ==>
        deleted == StaleFiles(NameInPath, root, lastQuestionAudioFile, lastFeedbackAudioFile, listing.value)
    {
      deleted := [];
      if listing.Some? {
        deleted := SelectStale(NameInPath, root, lastQuestionAudioFile, lastFeedbackAudioFile, listing.value);
      }
      reply := Ok200(StatusText("OK"), []);
    }

    /** `GET /no-input-audio`: the browser path of the clip. */
    method NoInputAudio() returns (reply: Reply)
      ensures reply == Ok200(NoInputAudioPath("/audio/util/no_input.mp3"), [])
    {
      var kind := "no_input";
      var clip := PreRecordedAudio(root, kind);
      BrowserPathOfClip(root, kind);
      assert "/audio/util/" + kind + ".mp3" == "/audio/util/no_input.mp3";
      reply := Ok200(NoInputAudioPath(BrowserPath(root, clip.value)), []);
    }

    /** `GET /end-game`: the totals and the unguarded accuracy are sent,
        then both counters start again from zero. */
    method EndGame() returns (reply: Reply)
      modifies this
      ensures reply == Ok200(Totals(old(totalGamesPlayed), old(correctAnswers),
                                    Percentage(old(correctAnswers), old(totalGamesPlayed))), [])
      ensures totalGamesPlayed == 0 && correctAnswers == 0
      ensures lastQuestionAudioFile == old(lastQuestionAudioFile) && lastFeedbackAudioFile == old(lastFeedbackAudioFile)
    {
      var accuracy := Percentage(correctAnswers, totalGamesPlayed);
      reply := Ok200(Totals(totalGamesPlayed, correctAnswers, accuracy), []);
      totalGamesPlayed := 0;
      correctAnswers := 0;
    }
  }

  /** A number written with `String` has no blank at either end. */
  lemma ShownUnpadded(n: nat)
    ensures Show(n) != [] && Unpadded(Show(n))
  {
    var s := ShowNat(n);
    assert IsDecimalDigit(s[0]) && IsDecimalDigit(s[|s| - 1]);
  }

  /** A round played to the end: the player says the answer the start
      handler sent, is judged right, and the end handler reports one more
      round and one more right answer than before, then resets. */
  method RightAnswerRound(server: BasicServer, d1: real, d2: real, listing: seq<string>, ts: nat)
    returns (start: Reply, submit: Reply, end: Reply)
    requires 0.0 <= d1 < 1.0 && 0.0 <= d2 < 1.0
    modifies server
    ensures start.Reply? && start.body.Question? && start.body.answer == Num(GenerateMathProblem(d1, d2).answer as real)
    ensures submit.Reply? && submit.body.Feedback? && submit.body.feedback == "That's correct!"
    ensures end == Ok200(Totals(old(server.totalGamesPlayed) + 1, old(server.correctAnswers) + 1,
                                Percentage(old(server.correctAnswers) + 1, old(server.totalGamesPlayed) + 1)), [])
    ensures server.totalGamesPlayed == 0 && server.correctAnswers == 0
  {
    var deleted;
    start, deleted := server.StartGame(d1, d2, listing, Ok(ts));
    var answer := GenerateMathProblem(d1, d2).answer;
    ShownUnpadded(answer);
    UserAnswerUnpadded(Show(answer));
    SpokenNumberAuto(answer, [], answer);
    assert Show(answer) + [] == Show(answer);
    submit := server.SubmitAnswer(Str(Show(answer)), start.body.answer);
    end := server.EndGame();
  }

  /** An answer sent before any round has started is judged against a
      zero total: the accuracy of a right answer is an infinity. */
  method SubmitBeforeStart(root: string) returns (reply: Reply)
    ensures reply == Ok200(Feedback("That's correct!", "/audio/util/correct.mp3", PlusInfinity, 0, 1), [])
  {
    var server := new BasicServer(root);
    var n, kind := 7, "correct";
    ShownUnpadded(n);
    UserAnswerUnpadded(Show(n));
    SpokenNumberAuto(n, [], n);
    assert Show(n) + [] == Show(n);
    reply := server.SubmitAnswer(Str(Show(n)), Num(n as real));
    assert "/audio/util/" + kind + ".mp3" == "/audio/util/correct.mp3";
  }
}
