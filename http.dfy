/** What a handler sends back, and the answer text every submit handler
    reads from the JSON body. Express itself is not modelled: a reply is
    its status, its JSON body and the cookies it sets. */
module Http {
  import opened Results
  import opened JsStrings
  import opened JsValues
  import opened Scoring

  /** `res.cookie(name, value, { maxAge, path: '/' })`; `value` is the
      string form of what the handler passed, `maxAge` the milliseconds
      given to Express. */
  datatype SetCookie = SetCookie(name: string, value: string, maxAge: nat)

  /** The lifetime of the round flag. */
  const RoundCookieAge: nat := 3600000

  /** The lifetime of the per-mode score cookies (Express reads
      `maxAge` in milliseconds). */
  const ScoreCookieAge: nat := 31536000

  datatype Body =
    | Question(question: string, answer: JsValue, audioPath: string)
    | Feedback(feedback: string, feedbackAudioPath: string, accuracy: Accuracy, totalGamesPlayed: int, correctAnswers: int)
    | Totals(totalGamesPlayed: int, correctAnswers: int, accuracy: Accuracy)
    | AudioPath(audioPath: string)
    | NoInputAudioPath(noInputAudioPath: string)
    | ErrorBody(error: string)
    | StatusText(text: string)

  /** `Unhandled` is a rejection nobody catches: the request gets no
      answer. */
  datatype Reply =
    | Reply(status: nat, body: Body, cookies: seq<SetCookie>)
    | Unhandled(error: Error)

  /** `res.status(status).json({ error: e.message })`. */
  function Failure(status: nat, e: Error): Reply {
    Reply(status, ErrorBody(e.Message()), [])
  }

  function Ok200(body: Body, cookies: seq<SetCookie>): Reply {
    Reply(200, body, cookies)
  }

  /** The feedback sentence of the two number games. */
  function VerdictText(correct: bool): string {
    if correct then "That's correct!" else "That's incorrect!"
  }

  /** `if (!audioBytes || audioBytes.trim() === '') throw ...; audioBytes.trim()`:
      a falsy or blank answer is refused, and a truthy value that is not a
      string has no `trim` to call. */
  function UserAnswer(audioBytes: JsValue): (r: Result<string>)
    ensures r.Ok? <==> audioBytes.Str? && Trim(audioBytes.s) != []
    ensures r.Ok? ==> r.value == Trim(audioBytes.s) && Unpadded(r.value)
    ensures r == Err(EmptyAnswer) <==> Falsy(audioBytes) || (audioBytes.Str? && Trim(audioBytes.s) == [])
    ensures r.Err? && r.error.TypeError? <==> !Falsy(audioBytes) && !audioBytes.Str?
  {
    if Falsy(audioBytes) then Err(EmptyAnswer)
    else if !audioBytes.Str? then Err(TypeError("audioBytes.trim is not a function"))
    else
      var t := Trim(audioBytes.s);
      if t == [] then Err(EmptyAnswer) else Ok(t)
  }

  /** An answer that is already trimmed is taken as it is. */
  lemma UserAnswerUnpadded(s: string)
    requires s != [] && Unpadded(s)
    ensures UserAnswer(Str(s)) == Ok(s)
  {
    TrimUnpadded(s);
  }
}
