/** What the two multi-mode servers keep in cookies: the per-mode scores
    that the end handlers set and the start handlers read back, and the
    flag that marks a round as counted. */
module Session {
  import opened Results
  import opened JsStrings
  import opened JsNumbers
  import opened Scoring
  import opened Cookies
  import opened Http
  import opened JsValues
  import opened Audio

  /** The three cookies the end handler sets for a known mode: the two
      counters written with `String` and the accuracy string. */
  function ScoreCookies(mode: string, total: int, correct: int): (cs: seq<SetCookie>)
    ensures |cs| == 3 && forall i :: 0 <= i < 3 ==> cs[i].maxAge == ScoreCookieAge
  {
    [ SetCookie(mode + "_totalGames", Show(total), ScoreCookieAge),
      SetCookie(mode + "_correctAnswers", Show(correct), ScoreCookieAge),
      SetCookie(mode + "_accuracy", FormatAccuracy(Percentage(correct, total)), ScoreCookieAge) ]
  }

  /** The `name=value` pairs a browser sends back for cookies it was set. */
  function SentBack(cs: seq<SetCookie>): (pairs: seq<(string, string)>)
    ensures |pairs| == |cs| && forall i :: 0 <= i < |cs| ==> pairs[i] == (cs[i].name, cs[i].value)
  {
    seq(|cs|, i requires 0 <= i < |cs| => (cs[i].name, cs[i].value))
  }

  /** Characters that no cookie step alters: letters, digits, `-`, `.`
      and `_`. */
  predicate PlainChar(c: char) {
    'a' <= c <= 'z' || 'A' <= c <= 'Z' || IsDecimalDigit(c) || c == '-' || c == '.' || c == '_'
  }

  predicate PlainText(s: string) {
    forall k :: 0 <= k < |s| ==> PlainChar(s[k])
  }

  lemma PlainTextConcat(a: string, b: string)
    requires PlainText(a) && PlainText(b)
    ensures PlainText(a + b)
  {
    forall k | 0 <= k < |a + b|
      ensures PlainChar((a + b)[k])
    {
      if k >= |a| {
        assert (a + b)[k] == b[k - |a|];
      }
    }
  }

  lemma ShowPlain(n: int)
    ensures PlainText(Show(n))
  {
    if n < 0 {
      PlainTextConcat("-", ShowNat(-n));
    }
  }

  lemma AccuracyPlain(a: Accuracy)
    ensures PlainText(FormatAccuracy(a))
  {
    if a.Fixed? {
      var sign := if a.negative then "-" else "";
      var h := Hundredths(a.hundredths);
      assert PlainText(sign) && PlainText(".") && PlainText(h);
      PlainTextConcat(sign, ShowNat(a.hundredths / 100));
      PlainTextConcat(sign + ShowNat(a.hundredths / 100), ".");
      PlainTextConcat(sign + ShowNat(a.hundredths / 100) + ".", h);
    }
  }

  /** A long enough plain name with a plain value reads back as itself. */
  lemma PlainPairOf(name: string, value: string)
    requires PlainText(name) && PlainText(value) && |name| > 9
    ensures PlainPair((name, value))
  {
    assert name != "__proto__";
  }

  lemma ScoreNamesPlain(mode: string)
    requires PlainText(mode) && mode != []
    ensures PlainText(mode + "_totalGames") && PlainText(mode + "_correctAnswers") && PlainText(mode + "_accuracy")
  {
    assert PlainText("_totalGames") && PlainText("_correctAnswers") && PlainText("_accuracy");
    PlainTextConcat(mode, "_totalGames");
    PlainTextConcat(mode, "_correctAnswers");
    PlainTextConcat(mode, "_accuracy");
  }

  lemma ScorePairsPlain(mode: string, total: int, correct: int)
    requires PlainText(mode) && mode != []
    ensures forall i :: 0 <= i < 3 ==> PlainPair(SentBack(ScoreCookies(mode, total, correct))[i])
  {
    ScoreNamesPlain(mode);
    ShowPlain(total);
    ShowPlain(correct);
    AccuracyPlain(Percentage(correct, total));
    PlainPairOf(mode + "_totalGames", Show(total));
    PlainPairOf(mode + "_correctAnswers", Show(correct));
    PlainPairOf(mode + "_accuracy", FormatAccuracy(Percentage(correct, total)));
  }

  lemma AssignThree(a: (string, string), b: (string, string), c: (string, string))
    ensures Assign(map[], [a, b, c]) == map[a.0 := a.1][b.0 := b.1][c.0 := c.1]
  {
    var m1 := map[][a.0 := a.1];
    var m2 := m1[b.0 := b.1];
    assert [a, b, c][1..] == [b, c];
    assert [b, c][1..] == [c];
    assert [c][1..] == [];
    assert Assign(m2, [c]) == m2[c.0 := c.1];
    assert Assign(m1, [b, c]) == Assign(m2, [c]);
  }

  /** The score cookies, sent back, are read as the three scores. */
  lemma ScoreJar(mode: string, total: int, correct: int)
    requires PlainText(mode) && mode != []
    ensures CookieJar(Some(CookieHeader(SentBack(ScoreCookies(mode, total, correct)))))
      == Ok(map[mode + "_totalGames" := Show(total), mode + "_correctAnswers" := Show(correct),
                mode + "_accuracy" := FormatAccuracy(Percentage(correct, total))])
  {
    var pairs := SentBack(ScoreCookies(mode, total, correct));
    var a := (mode + "_totalGames", Show(total));
    var b := (mode + "_correctAnswers", Show(correct));
    var c := (mode + "_accuracy", FormatAccuracy(Percentage(correct, total)));
    assert pairs == [a, b, c];
    ScorePairsPlain(mode, total, correct);
    CookieJarOfHeader(pairs);
    AssignThree(a, b, c);
  }

  /** The two counters are found under their names. */
  lemma ScoreLookups(mode: string, total: int, correct: int)
    requires PlainText(mode) && mode != []
    ensures var jar := CookieJar(Some(CookieHeader(SentBack(ScoreCookies(mode, total, correct)))));
      && jar.Ok?
      && Lookup(jar.value, mode + "_totalGames") == Some(Show(total))
      && Lookup(jar.value, mode + "_correctAnswers") == Some(Show(correct))
  {
    var t := mode + "_totalGames";
    var c := mode + "_correctAnswers";
    var a := mode + "_accuracy";
    assert |t| != |c| && |a| != |c| && |a| != |t|;
    LookupFirstTwo(t, c, a, Show(total), Show(correct), FormatAccuracy(Percentage(correct, total)));
    ScoreJar(mode, total, correct);
  }

  lemma LookupFirstTwo(t: string, c: string, a: string, vt: string, vc: string, va: string)
    requires t != c && a != c && a != t
    ensures Lookup(map[t := vt, c := vc, a := va], t) == Some(vt)
    ensures Lookup(map[t := vt, c := vc, a := va], c) == Some(vc)
  {
  }

  /** Scores survive a server restart: the cookies the end handler sets,
      sent back to the start handler of the same mode, restore both
      counters, except that a zero keeps whatever the server holds. */
  lemma ScoresPersist(mode: string, total: int, correct: int, total0: int, correct0: int)
    requires PlainText(mode) && mode != []
    ensures var jar := CookieJar(Some(CookieHeader(SentBack(ScoreCookies(mode, total, correct)))));
      && jar.Ok?
      && Restore(Lookup(jar.value, mode + "_totalGames"), total0) == (if total == 0 then total0 else total)
      && Restore(Lookup(jar.value, mode + "_correctAnswers"), correct0) == (if correct == 0 then correct0 else correct)
  {
    ScoreLookups(mode, total, correct);
    RestoreShown(total, total0);
    RestoreShown(correct, correct0);
  }

  /** The header a browser sends once the round flag is set. */
  lemma RoundFlagSentBack()
    ensures CookieJar(Some("currentRoundCounted" + "=" + "true")) == Ok(map["currentRoundCounted" := "true"])
  {
    var name, value := "currentRoundCounted", "true";
    var pair: (string, string) := (name, value);
    assert PlainPair(pair);
    CookieJarOfHeader([pair]);
    assert CookieHeader([pair]) == name + "=" + value;
    assert Assign(map[], [pair]) == map[name := value] by {
      assert [pair][1..] == [];
    }
  }

  // ---- a round

  /** How a start handler ends once the counters are restored, from
      the question it obtained: the old files are cleaned up, the
      question is spoken, and its file becomes the one to keep. */
  ghost predicate RoundPlayed(root: string, question: Result<(string, JsValue)>, listing: seq<string>, synthesized: Result<nat>,
                              lastQuestion: string, lastFeedback: string,
                              reply: Reply, deleted: seq<string>, newLastQuestion: string)
    ensures RoundPlayed(root, question, listing, synthesized, lastQuestion, lastFeedback, reply, deleted, newLastQuestion) ==>
      (reply.Reply? && reply.status == 200 <==> question.Ok? && synthesized.Ok?)
    ensures RoundPlayed(root, question, listing, synthesized, lastQuestion, lastFeedback, reply, deleted, newLastQuestion) ==>
      forall f :: f in deleted ==> f in listing
  {
    StaleFilesMembers(SamePath, root, lastQuestion, lastFeedback, listing);
    match question
    case Err(e) =>
      reply == Failure(500, e) && deleted == [] && newLastQuestion == lastQuestion
    case Ok((text, answer)) =>
      && deleted == StaleFiles(SamePath, root, lastQuestion, lastFeedback, listing)
      && match synthesized
         case Err(e) => reply == Failure(500, e) && newLastQuestion == lastQuestion
         case Ok(ts) =>
           && newLastQuestion == JoinPath(OutputDir(root), AudioFileName(ts))
           && reply == Ok200(Question(text, answer, SynthesizedPath(ts)),
                             [SetCookie("currentRoundCounted", "false", RoundCookieAge)])
  }

}
