# AudemyAi game servers, modelled in Dafny

AudemyAi is a set of spoken-quiz game servers. A question is generated, turned into
speech, the player answers, and the server judges the answer and keeps score. This
project models the deterministic part of three Express servers and the problem
generator they use:

- `language/language.js`: the spelling, odd-one-out, story-builder and vocabulary
  games. It covers answer sanitising and checking, question extraction from generated
  text, the cookie-backed score counters, and the per-mode score cookies.
- `math/server.js`: the arithmetic games. It covers answer parsing with the
  words-to-numbers fallback, the prompt tier chosen from the player's accuracy,
  extraction of `What is …?` and `Answer: <digits>`, the cookie-backed counters, and
  the cleanup, repeat and no-input handlers.
- `server.js`: the plain addition game. Its counters live only in the server; it
  counts a round when the question is spoken and resets at end-game.
- `games/mathGame.js`: the addition problem built from two random draws.

The modules are:

- **`Results`, `JsValues`, `JsStrings`, `JsNumbers`, `Uri`**: the pieces of
  JavaScript the handlers rely on:
  - strict equality and falsy values;
  - `trim`, `split`, `indexOf`/`includes`, the first-match `replace`;
  - `parseInt` with a guessed radix or radix ten, and `String(n)`;
  - `decodeURIComponent`, with its UTF-8 checks.
- **`Matching`**: the regular expressions as explicit leftmost searches:
  - `/What is (.+?)\?/` and `/Which one is the odd one out:(.+?)\?/`;
  - `/Answer: (\d+)/` and `/Answer: \s*(.+)/`;
  - `/(.+?)$/`.
- **`Cookies`**: `getCookies`. This is a loop over the `;`-separated pieces that fills
  a map. A piece whose value cannot be decoded throws.
- **`Scoring`**: accuracy as `((c / t) * 100).toFixed(2)` on exact rationals, the
  fifty-percent defaults, `determineDifficulty`, and the counter restore.
- **`Audio`**: the clip catalogue, the file names the speech step writes, the
  browser paths, and the two file-deletion rules. The rules are the exact-path test
  of `deleteOldAudioFiles` and the substring test of the cleanup handler.
- **`Http`**: what a handler sends back, and the answer text every submit handler
  reads.
- **`Session`**: the score cookies sent at end-game, read back at the next start.
  It also holds the shape shared by the language and math start handlers.
- **`Language`, `MathServer`, `BasicServer`**: one module per server. Each has a
  class whose fields are the module-level counters and remembered audio files, and
  one method per handler.
- **`MathGame`**: `generateMathProblem`.

A handler's inputs from services outside the program are parameters:

- the request's cookie header and JSON body;
- the text returned by the completion service;
- the directory listing;
- the clock reading at which the speech file was written, or the error the speech
  service raised;
- the random draws;
- the words-to-numbers function.

The files a handler would unlink are returned as a list.

In `math/server.js` and `language/language.js` the cookie header is parsed before
the game mode is validated (math/server.js:148-150, language/language.js:189-191).
That parse sits outside the `try`. A malformed escape in any cookie therefore leaves
the request unanswered, even for an invalid mode. The model follows the code here:
`StartGame` yields `Unhandled` first and the 400 reply only for a readable header.

## Model

| member | source | states |
|---|---|---|
| JsStrings.TrimStart | language/language.js:226 | drops exactly a run of leading whitespace: the result is a suffix that starts with a non-blank, and every dropped character is whitespace |
| JsStrings.TrimEnd | language/language.js:226 | drops exactly a run of trailing whitespace: the result is a prefix that ends with a non-blank, and every dropped character is whitespace |
| JsStrings.Trim | math/server.js:187 | `trim()` leaves no whitespace at either end |
| JsStrings.TrimIsSlice | math/server.js:187 | the trimmed text is a contiguous slice of the input, and everything cut from either side is whitespace |
| JsStrings.TrimUnpadded | math/server.js:187 | text with no blank at either end is its own trim |
| JsStrings.TrimLeadingSpace | math/server.js:140 | a leading space does not change the trim, so `" a=b"` and `"a=b"` are read alike |
| JsStrings.LineTerminatorIsWhitespace | language/language.js:143 | every line terminator that stops a regular-expression `.` is also whitespace to `trim` |
| JsStrings.Split | math/server.js:139 | `split(sep)` gives at least one piece, and no piece contains the separator |
| JsStrings.SplitWithoutSeparator | math/server.js:140 | text without the separator splits into itself alone |
| JsStrings.SplitAfterFirst | math/server.js:140 | the text before the first separator is the first piece, and the rest splits on its own |
| JsStrings.SplitJoin | math/server.js:139 | splitting pieces joined by the separator gives the pieces back, when none contains the separator |
| JsStrings.JoinSplit | math/server.js:139 | joining the pieces of a split with the separator gives the original text |
| JsStrings.LastSegment | server.js:81 | `split('/').pop()` contains no `/` |
| JsStrings.LastSegmentAfterSeparator | server.js:81 | the last segment of `a + "/" + b` is `b` when `b` has no `/` |
| JsStrings.LastSegmentAfter | server.js:81 | the last segment is unaffected by anything before a separator |
| JsStrings.IndexOf | language/language.js:50 | the first occurrence at or after the start: it occurs there, nowhere earlier, and `None` means no occurrence at all |
| JsStrings.IncludesAt | language/language.js:65 | an occurrence at any position makes `includes` true |
| JsStrings.ReplacePrefix | math/server.js:267 | `replace` on text that starts with the pattern swaps exactly that prefix |
| JsNumbers.DigitRun | math/server.js:42 | the digit run is a prefix of the text made of digits of the base, stopped by a non-digit or the end |
| JsNumbers.ShowNat | math/server.js:256 | `String(n)` for `n >= 0` is all decimal digits, with no leading zero |
| JsNumbers.ShowNatValue | math/server.js:256 | the digits `String` writes have the value `n` |
| JsNumbers.DigitRunOfDigits | math/server.js:42 | the digit run of `digits + rest` is exactly `digits` when `rest` does not continue it |
| JsNumbers.ParseShow | math/server.js:155 | `parseInt(String(n) + rest)` is `n`, in either radix mode, for any `rest` that does not extend the number |
| JsNumbers.ParseInt | math/server.js:42 | the definition of `parseInt`: leading blanks, an optional sign, then the magnitude; its meaning is stated by the lemmas around it |
| JsNumbers.ParseIntSign | math/server.js:42 | blank text is NaN, and a negative result needs a `-` after the blanks |
| JsNumbers.ParseUnsignedText | math/server.js:42 | text starting with neither a blank nor a sign is parsed by its magnitude alone |
| JsNumbers.ParseNoDigits | math/server.js:44 | `parseInt` is NaN when the first character is not a blank, a sign or a digit |
| JsNumbers.ParseDigitString | math/server.js:108 | `parseInt(g, 10)` of a run of decimal digits is its decimal value |
| Uri.DecodeURIComponent | math/server.js:141 | `decodeURIComponent` never yields more characters than its input; `None` is the URIError it throws |
| Uri.DecodeWithoutEscapes | math/server.js:141 | text without `%` decodes to itself |
| Uri.TruncatedEscapeThrows | math/server.js:141 | a `%` not followed by two hexadecimal digits throws |
| Uri.TwoByteEscape | math/server.js:141 | the UTF-8 escape `%C3%A9` decodes to `é` |
| Uri.OverlongEscapeThrows | math/server.js:141 | the overlong UTF-8 form `%C0%AF` throws |
| Cookies.ParsePiece | math/server.js:140-141 | the definition of one piece's name and decoded value; its meaning is stated by the three lemmas below |
| Cookies.ParsePieceWithoutValue | math/server.js:140-141 | a piece without `=` has its trimmed text as name and the string "undefined" as value |
| Cookies.ParsePieceOneSeparator | math/server.js:140-141 | `a=b` has the name `trim(a)` and the value `decodeURIComponent(trim(b))` |
| Cookies.ParsePieceTwoSeparators | math/server.js:140-141 | in `a=b=c` the text after the second `=` is dropped: the piece reads as `a=b` |
| Cookies.Store | math/server.js:141 | one assignment of the `forEach`: it throws exactly when the value cannot be decoded. Otherwise the name gets the decoded value and no other key changes, except that `__proto__` adds no key |
| Cookies.ParseAll | math/server.js:139-140 | one parsed piece per `;`-separated piece |
| Cookies.ParseAllAt | math/server.js:139-140 | the i-th parsed piece is the parse of the i-th text piece |
| Cookies.StoreAll | math/server.js:141 | storing the pieces only fails with the URIError of `decodeURIComponent` |
| Cookies.CookieJar | math/server.js:137-144 | `getCookies` yields a map or the URIError; a request without a Cookie header gives the empty map |
| Cookies.GetCookies | math/server.js:137-144 | the header-splitting loop computes `CookieJar` |
| Cookies.StorePieces | math/server.js:139-142 | the `forEach` loop that assigns each piece in turn equals storing the parsed pieces in order |
| Cookies.StoreAllCons | math/server.js:141 | a failing piece stops the loop with the URIError; a good one is stored before the rest |
| Cookies.FailsIffUndecodable | math/server.js:141 | `getCookies` throws exactly when some piece's value cannot be decoded |
| Cookies.OtherNamesUntouched | math/server.js:141 | a name no piece carries keeps its earlier value |
| Cookies.LastPieceWins | math/server.js:141 | the last piece with a given name decides that name's value, unless the name is `__proto__` |
| Cookies.StoredNamesComeFromPieces | math/server.js:141 | every name in the result comes from some piece; `__proto__` never becomes an entry |
| Cookies.SplitEntry | math/server.js:140 | `name=value` splits on `=` into exactly its two parts, for plain names and values |
| Cookies.ParseEntry | math/server.js:140 | a plain `name=value` piece has that name and that raw value |
| Cookies.DecodeEntry | math/server.js:141 | a plain value decodes to itself |
| Cookies.LeadingSpaceIgnored | math/server.js:140 | the space after `;` does not change a piece |
| Cookies.HeaderPieces | math/server.js:139 | a header of entries has one piece per entry |
| Cookies.SplitHeader | math/server.js:139 | splitting an `a=1; b=2` header on `;` gives one piece per entry |
| Cookies.ParseHeaderPieces | math/server.js:140 | the pieces of such a header parse to the entries' names and values |
| Cookies.StorePairs | math/server.js:141 | storing the entries' pieces performs their assignments in order |
| Cookies.CookieJarOfHeader | math/server.js:137-144 | a header made of plain `name=value` entries parses to the map that assigns them in order |
| Scoring.Percentage | math/server.js:247 | the unguarded `((c / t) * 100).toFixed(2)`: not a finite value exactly when the total is zero; negative exactly when `c * t < 0` |
| Scoring.PercentageRounds | math/server.js:247 | the two decimals are `10000 * c / t` rounded to the nearest hundredth, a tie going up |
| Scoring.StartAccuracy | math/server.js:158 | the start handler's accuracy is 50 for a zero total, and the rounded percentage otherwise |
| Scoring.SubmitAccuracy | math/server.js:200 | the submit handler's accuracy is 50 unless the total is positive, and the rounded percentage otherwise |
| Scoring.DetermineDifficulty | math/server.js:131-135 | hard iff the accuracy exceeds 80, medium iff it exceeds 50 but not 80, easy iff it does not exceed 50 |
| Scoring.FreshPlayerEasy | math/server.js:158-159 | with no round played the accuracy is 50, which gives easy, not medium |
| Scoring.TierBounds | math/server.js:158-159 | for `t > 0` the difficulty follows the rounded percentage. Hard iff `20000c >= 16001t`, medium iff `10001t <= 20000c < 16001t`, easy otherwise |
| Scoring.RoundingBelowExact | math/server.js:158-159 | 40001 right out of 50000 is above 80% exactly but reads "80.00", so it is medium |
| Scoring.Restore | math/server.js:155-156 | the cookie's `parseInt`, or the current value when that is NaN or 0: the restored counter is 0 only when the current value already was |
| Scoring.RestoreShown | math/server.js:155 | a counter cookie written by `String(n)` restores `n`, except that `0` keeps the current value |
| Scoring.RestoreMissing | math/server.js:155 | a missing counter cookie keeps the current value |
| Scoring.RestoreHex | math/server.js:155 | the radix is guessed: the cookie `0x1A` restores 26 |
| Scoring.RestoreNegative | math/server.js:156 | nothing rejects a negative cookie: `-3` restores -3 |
| Scoring.FormatAccuracy | math/server.js:258 | a finite accuracy is written with two decimals after a point, with a leading `-` exactly when negative |
| Session.ScoreCookies | math/server.js:256-258 | end-game sets three cookies, the totals, right answers and accuracy of the mode, each with `maxAge` 31536000 |
| Session.SentBack | math/server.js:256-258 | the browser sends each set cookie back as its name and string value |
| Session.ShowPlain | math/server.js:256 | `String(n)` needs no escaping in a cookie |
| Session.AccuracyPlain | math/server.js:258 | the accuracy string needs no escaping in a cookie |
| Session.ScoreJar | math/server.js:256-258 | reading back the score cookies with `getCookies` gives exactly the three values written |
| Session.ScoreLookups | math/server.js:256-257 | the read-back totals and right answers are `String` of the counters |
| Session.ScoresPersist | math/server.js:155-156 | the counters saved at end-game are restored at the next start, except that a zero counter keeps the server's current value |
| Session.RoundPlayed | math/server.js:161-169 | the shared end of both start handlers: status 200 exactly when the question was obtained and spoken, and only listed files are deleted |
| Session.RoundFlagSentBack | math/server.js:191 | the round flag set to `true` reads back as the string "true" |
| Audio.PreRecordedAudio | server.js:27-36 | one of the four clip kinds gives `<kind>.mp3` in the util directory; any other kind throws "Invalid audio type" |
| Audio.FeedbackKind | server.js:98 | the verdict always names a known clip |
| Audio.AudioFileNamePlain | server.js:48 | `output_<ms>.mp3` contains no `/` |
| Audio.QuestionFileOfSynthesized | server.js:81 | the remembered question file is the file the speech step wrote |
| Audio.FeedbackUrlOfClip | server.js:110 | the feedback URL is `/audio/util/<kind>.mp3` |
| Audio.BrowserPathUnderAudio | server.js:123 | a file under the audio directory is served under `/audio` |
| Audio.BrowserPathOfQuestion | server.js:123 | the question file is served as `/audio/output/<name>` |
| Audio.BrowserPathOfUtil | server.js:153 | a util file is served as `/audio/util/<name>` |
| Audio.BrowserPathOfClip | server.js:153 | a clip is served as `/audio/util/<kind>.mp3` |
| Audio.StaleFiles | server.js:63-70 | a cleanup deletes at most as many files as are listed |
| Audio.StaleFilesMembers | server.js:63-70 | a listed file is deleted exactly when the rule marks it stale, and nothing unlisted is deleted |
| Audio.SelectStale | server.js:63-70 | the `forEach` over the listing collects exactly `StaleFiles` |
| Audio.CurrentQuestionKept | server.js:65 | under either rule, the file of the current question is never deleted |
| Audio.NameInPathSparesMore | server.js:140 | the cleanup handler deletes only files that `deleteOldAudioFiles` would delete too |
| Audio.NameInPathSparesTail | server.js:140 | `2.mp3` is spared by cleanup while `output_12.mp3` is current, since that path contains its name, though `deleteOldAudioFiles` deletes it |
| Http.UserAnswer | server.js:92-96 | the answer is taken only from a string with non-blank content, and then as its trim. A falsy or blank value is "Invalid or empty user answer"; a truthy non-string throws a TypeError |
| Http.UserAnswerUnpadded | server.js:96 | an answer already without blank ends is taken as it is |
| Matching.SingleLineConcat | language/language.js:143 | two pieces without line terminators make one without |
| Matching.CloseFrom | math/server.js:101 | the lazy `(.+?)\?` stops at the first `?` on the same line, and there is none when the line has no `?` |
| Matching.LazyMatchAt | math/server.js:101 | a lazy match at a position ends at the closing `?` when there is one, and there is no match there otherwise |
| Matching.LazyMatchUnique | math/server.js:101 | a lazy match at a position has only one end |
| Matching.FirstLazyMatch | math/server.js:101 | the leftmost match: it matches, no earlier position matches, and `None` means no position matches |
| Matching.FirstLazyMatchAtStart | math/server.js:101 | a match at the very start is the leftmost one |
| Matching.LazyMatchOfQuestion | math/server.js:101 | `prefix + body + "?"` with a one-line body without `?` matches up to that `?` |
| Matching.MatchedQuestion | math/server.js:108 | the matched text starts with the literal prefix, has at least one character after it, and ends with `?` |
| Matching.LazyMatchText | math/server.js:101 | `match(...)[0]` exists exactly when the leftmost match does. It is that slice of the text, starting with the prefix and ending with `?` |
| Matching.NotStartingHere | math/server.js:102 | the pattern cannot occur where its first character is absent |
| Matching.FirstDigitsMatch | math/server.js:102 | the leftmost `Answer: (\d+)`: it matches, nothing earlier does, and `None` means no position does |
| Matching.DigitsGroup | math/server.js:108 | the captured group is a nonempty run of decimal digits |
| Matching.FirstDigitsMatchAt | math/server.js:102 | a match with no earlier occurrence of the prefix's first character is the leftmost one |
| Matching.BlankRun | language/language.js:141 | `\s*` takes the whole run of whitespace |
| Matching.LineEnd | language/language.js:141 | `.+` runs to the line terminator or to the end |
| Matching.LastOnLine | language/language.js:141 | backtracking finds the last character before the line end that `.` accepts |
| Matching.AnswerLineAt | language/language.js:141 | `Answer: \s*(.+)` at a position captures a nonempty line. It fails only when everything after the prefix is line terminators |
| Matching.FirstAnswerLine | language/language.js:141 | the capture of the leftmost position that matches; `None` means no position does |
| Matching.FirstAnswerLineAt | language/language.js:141 | a match with no earlier occurrence of the prefix's first character gives the leftmost capture |
| Matching.AnswerLineOfText | language/language.js:141 | `Answer: <word>` at the end of a one-line text captures the word |
| Matching.LineStart | language/language.js:143 | the start of the line holding a position |
| Matching.FinalLine | language/language.js:143 | `/(.+?)$/` matches the last line of the text. It fails exactly when the text is empty or ends with a line terminator |
| Matching.FinalLineOfLine | language/language.js:143 | one-line text is itself the match |
| MathGame.Operand | games/mathGame.js:5 | `Math.floor(draw * 100)` is the integer in 0..99 just below `draw * 100` |
| MathGame.GenerateMathProblem | games/mathGame.js:4-11 | the answer is the sum of the two operands, so it is in 0..198, and the question is `What is <num1> plus <num2>?` |
| MathGame.EveryOperandDrawn | games/mathGame.js:5-6 | every operand 0..99 comes from some draw |
| MathServer.MathModePlain | math/server.js:150 | a math mode is nonempty and needs no escaping in a cookie name |
| MathServer.CheckMathAnswer | math/server.js:41-49 | a parsed integer is right exactly when it equals the expected number. Otherwise the words-to-numbers value decides, by strict equality |
| MathServer.DigitsBeforeWords | math/server.js:42-46 | when the answer starts with digits the words-to-numbers function is never consulted |
| MathServer.SpokenNumber | math/server.js:41-49 | "12", "12 apples" or "12." is right exactly when 12 is expected |
| MathServer.StringAnswerNeverMatches | math/server.js:48 | an expected answer sent as a string never equals a parsed number |
| MathServer.PromptTier | math/server.js:71-90 | "easy" and only "easy" asks for two one-digit numbers, "medium" and only "medium" for two two-digit numbers |
| MathServer.TierOfScore | math/server.js:71-90 | the prompt tier from the score with `t > 0`. Three two-digit numbers iff `20000c >= 16001t`; two two-digit numbers iff `10001t <= 20000c < 16001t`; two one-digit numbers otherwise |
| MathServer.FreshPlayerTier | math/server.js:71-76 | a player with no rounds is asked for two single-digit numbers |
| MathServer.GroupValue | math/server.js:108 | `parseInt(group, 10)` of the captured digits is their value |
| MathServer.AnswerGroup | math/server.js:102 | an answer exists exactly when `Answer: (\d+)` matches, and it is the value of the captured digits |
| MathServer.MathProblemOf | math/server.js:101-108 | a problem exists exactly when both patterns match: the question is the `What is …?` match and the answer is the captured number. Otherwise "Invalid GPT response format" |
| MathServer.ExtractMathProblem | math/server.js:99-108 | the only error is "Invalid GPT response format". The question starts with `What is `, has something before the `?` and ends with it |
| Matching.QuestionOfText | math/server.js:101 | `What is <body>?` followed by anything is matched up to the first `?` |
| MathServer.AnswerOfText | math/server.js:102 | the first `Answer: <digits>` gives the value of the whole digit run |
| MathServer.MathProblemOfText | math/server.js:101-108 | a response `What is <body>? Answer: <digits>…` gives that question and number |
| MathServer.ProblemBodyPlain | games/mathGame.js:8 | the body of an addition question is one line without `?` or `A` |
| MathServer.ProblemReadBack | math/server.js:99-108 | the response `What is a plus b? Answer: n.` reads back the question and `n` |
| MathServer.ExtractUnpadded | math/server.js:99 | a response without blank ends is searched as it is |
| MathServer.MathQuestion | math/server.js:161 | a completion error propagates; otherwise the result is the extracted question with the answer as a number |
| MathServer.Judge | math/server.js:180-191 | the first failure propagates: cookies, then answer text. Otherwise the verdict is `checkAnswer`, and the round counts as counted exactly when its cookie is "true" |
| MathServer.MathServer.StartGame | math/server.js:146-174 | cookies first. An unreadable header is unhandled and an invalid mode gets 400, both with nothing changed. Otherwise the counters are restored, the tier follows their accuracy, and the round is played as in `Session.RoundPlayed` |
| MathServer.MathServer.RestoreCounters | math/server.js:155-156 | each counter is replaced by its cookie when that parses to a nonzero integer |
| MathServer.MathServer.PlayRound | math/server.js:161-169 | extraction errors give 500 with nothing deleted. Otherwise the stale files are deleted and a speech error gives 500. Otherwise the question file is remembered and the question is sent with the round flag `false` |
| MathServer.MathServer.SubmitAnswer | math/server.js:178-213 | any error gives 500 with counters unchanged. Otherwise the total rises iff the round flag is not "true", the right answers rise iff correct, and the feedback carries the guarded accuracy |
| MathServer.MathServer.Record | math/server.js:189-208 | the counter updates and feedback of an accepted answer; the flag is set only when the round was not yet counted |
| MathServer.MathServer.Cleanup | math/server.js:217-236 | "OK" at once. The deleted files are the listed ones whose names occur in neither remembered path; nothing is deleted when the listing fails |
| MathServer.MathServer.NoInputAudio | math/server.js:238-242 | the path `/audio/util/no_input.mp3` |
| MathServer.MathServer.RepeatAudio | math/server.js:265-272 | 404 exactly when no question has been spoken. Otherwise the question file under `/audio/output` |
| MathServer.MathServer.EndGame | math/server.js:244-262 | the totals with the unguarded accuracy. The score cookies are set only for a math mode |
| MathServer.RepeatReplaysQuestion | math/server.js:265-272 | after a question is spoken, repeat sends the very path start sent |
| Language.StripNonLetters | language/language.js:41 | `replace(/[^a-zA-Z]/g, '')` keeps only ASCII letters |
| Language.ToLowerCase | language/language.js:41 | each character is lowercased in place |
| Language.Sanitize | language/language.js:41 | the result is all lowercase ASCII letters |
| Language.SanitizeChar | language/language.js:41 | a letter is kept lowercased and anything else dropped |
| Language.StripConcat | language/language.js:41 | stripping distributes over concatenation |
| Language.SanitizeConcat | language/language.js:41 | sanitising distributes over concatenation, so the letters keep their order |
| Language.StripLetters | language/language.js:41 | letters alone are kept whole |
| Language.SanitizeLowerLetters | language/language.js:41 | lowercase letters are their own sanitised form |
| Language.SanitizeIdempotent | language/language.js:41 | sanitising twice is sanitising once |
| Language.CheckAnswer | language/language.js:40-69 | a verdict exists exactly for a string correct answer and a known mode. A non-string correct answer is a TypeError; only spelling produces a message, and only on a wrong answer |
| Language.IncludesSpace | language/language.js:50 | `includes(' ')` is membership of a space |
| Language.SpellingNeedsSpaces | language/language.js:49-53 | spelling without a space is wrong with the "spell the word" message, whatever the letters |
| Language.SpellingComparesLetters | language/language.js:55-59 | spelling with a space is right exactly when the sanitised strings agree; wrong gives "Incorrect spelling." |
| Language.EqualityModes | language/language.js:62-63 | odd-one-out and vocabulary are sanitised equality, with no message |
| Language.StoryBuilderContains | language/language.js:64-65 | story builder is sanitised containment, so equal sanitised strings always pass, and so does any answer when the sanitised correct answer is empty |
| Language.UnknownModeThrows | language/language.js:68 | any other mode throws "Invalid game mode" rather than returning false |
| Language.SpelledOut | language/language.js:49-56 | "C a t" spells "cat" |
| Language.FourthWord | language/language.js:144 | `split(" ")[3]` is a word without spaces, or undefined |
| Language.OddOneOutQuestion | language/language.js:140-141 | odd-one-out extraction succeeds exactly when both patterns match, and every failure is a TypeError. The question starts with the prefix and ends with `?`; the answer is a trimmed string |
| Language.LastLineQuestion | language/language.js:143-144 | for the other modes the question is the last line of nonempty text, and its answer is the fourth word; empty text is a TypeError |
| Language.ExtractGameQuestion | language/language.js:135-147 | failures are TypeErrors. Outside odd-one-out, extraction fails exactly when the trimmed text is empty |
| Language.SpellingWords | language/language.js:144 | "Spell the word w." splits into four words, the last being `w.` |
| Language.SpellingLine | language/language.js:143 | a one-line word gives a one-line question |
| Language.SpellingTrimmed | language/language.js:135 | the spelling response is its own trim |
| Language.SpellingQuestion | language/language.js:135-147 | "Spell the word w." asks that question with answer `w.`, which sanitises like `w` |
| Language.OddOneOutOfText | language/language.js:140-141 | `<prefix><words>? <answer prefix><odd>` gives that question and `odd` |
| Language.OddPrefixHasNoA | language/language.js:140 | the odd-one-out prefix has no `A`, so the answer search cannot start inside it |
| Language.OddTextTrimmed | language/language.js:135 | the odd-one-out response is its own trim |
| Language.OddOneOutRound | language/language.js:135-147 | a response in the prompted odd-one-out format reads back its question and odd word |
| Language.GameQuestion | language/language.js:202 | a completion error propagates; otherwise the result is the extraction |
| Language.FeedbackText | language/language.js:245 | the feedback is never empty: "That's correct!" for a right answer, the checker's message when it is a nonempty string, and "That's incorrect!" otherwise |
| Language.Judge | language/language.js:219-233 | the first failure propagates: cookies, then answer text, then the check. The round counts as counted exactly when its cookie is "true" |
| Language.LanguageServer.StartGame | language/language.js:187-215 | cookies first. An unreadable header is unhandled and an invalid mode gets 400, both with nothing changed. Otherwise the counters are restored, the difficulty follows their accuracy, and the round is played |
| Language.LanguageServer.RestoreCounters | language/language.js:196-197 | each counter is replaced by its cookie when that parses to a nonzero integer |
| Language.LanguageServer.PlayRound | language/language.js:202-210 | extraction errors give 500. Otherwise stale files are deleted, a speech error gives 500, and otherwise the question is sent with the round flag `false` |
| Language.LanguageServer.SubmitAnswer | language/language.js:217-255 | any error gives 500 with counters unchanged. Otherwise the total rises iff the flag is not "true", the right answers rise iff the verdict is true, and the feedback is the message or the default |
| Language.LanguageServer.Record | language/language.js:232-250 | the counter updates and feedback of an accepted answer |
| Language.LanguageServer.EndGame | language/language.js:260-278 | the totals with the unguarded accuracy. Score cookies are set only for a language mode |
| Language.LanguageModePlain | language/language.js:191 | a language mode is nonempty and needs no escaping in a cookie name |
| Language.RightAnswerJudged | language/language.js:230-233 | "cat" for "cat" in vocabulary is right with no message |
| Language.RepeatedAnswerCountedTwice | language/language.js:233-240 | sending the right answer twice for one round gives one round and two right answers, so right answers can exceed rounds |
| BasicServer.CheckBasicAnswer | server.js:97 | an answer with an integer prefix is right exactly when that integer is expected; otherwise, being NaN, it is never right |
| BasicServer.SpokenNumberAuto | server.js:97 | "12" or "12 apples" is right exactly when 12 is expected |
| BasicServer.HexAnswerAccepted | server.js:97 | the radix is guessed: "0x1A" is the answer 26 |
| BasicServer.DecimalReadsHexAsZero | math/server.js:42 | read in base ten, a hexadecimal literal is 0 |
| BasicServer.BasicServer.StartGame | server.js:75-87 | the stale files are deleted by exact path. A speech error gives 500 with the total unchanged. Otherwise the question file is remembered, the total rises by one, and the problem is sent without cookies |
| BasicServer.BasicServer.SubmitAnswer | server.js:89-119 | an unusable answer gives 500 with nothing changed. Otherwise the right answers rise iff correct, the feedback clip becomes the kept file, the total never changes, and the accuracy is unguarded |
| BasicServer.BasicServer.Record | server.js:97-113 | after the check: the right answers rise iff correct, the total and the question file stay, the feedback clip becomes the kept file, and the reply carries the verdict, the clip's URL and the unguarded accuracy |
| BasicServer.BasicServer.RepeatAudio | server.js:121-128 | 404 exactly when no question has been spoken. Otherwise the question file under `/audio/output` |
| BasicServer.BasicServer.Cleanup | server.js:130-149 | status 200 at once. The deleted files are the listed ones whose names occur in neither remembered path |
| BasicServer.BasicServer.NoInputAudio | server.js:151-155 | the path `/audio/util/no_input.mp3` |
| BasicServer.BasicServer.EndGame | server.js:157-166 | the totals before the reset, then both counters are 0 |
| BasicServer.ShownUnpadded | server.js:96 | a number written as digits has no blank ends |
| BasicServer.RightAnswerRound | server.js:75-166 | a player who says the answer start sent is right, and end-game reports one more round and one more right answer, then resets |
| BasicServer.SubmitBeforeStart | server.js:107 | a right answer before any start has accuracy `Infinity` |

## Left out

- Express routing, static serving, `app.listen` and the emission of headers are left out. A reply is its status, JSON body and the cookies set, taken as a value.
- The cookie options `path` and `httpOnly` and the cookie value encoding are left out. A set cookie carries its name, its `String` value and `maxAge`.
- The completion service, the speech services, `Date.now()`, `Math.random()`, `readdir`, `unlink`, `writeFile` and `mkdir` are outside the program. Their results are parameters and the deleted names are a returned list.
- The prompt templates' wording is left out; only which template (tier or difficulty) is chosen is modelled.
- The `words-to-numbers` library is a foreign call, taken as a function parameter.
- Floating point is left out. Accuracies are exact rationals rounded to hundredths, so the binary64 rounding of `c / t * 100` in borderline cases is not modelled. Neither is the exponent form `toFixed` uses from 1e21 upward.
- Counters, `parseInt` results and answers are unbounded integers. Precision loss above 2^53 is not modelled.
- Strings are sequences of Unicode scalar values, while JavaScript uses UTF-16 code units. Characters outside the basic plane are therefore one character here and two in the source.
- `toLowerCase` is modelled on ASCII letters only. It is applied after every non-ASCII-letter has been removed, so nothing else reaches it.
- `path.join` normalisation is left out. `__dirname` is the parameter `root` and is joined with `/`. Paths are taken to be already normal, as `__dirname` is absolute.
- Timing of the asynchronous deletion is left out. `deleteOldAudioFiles` is not awaited in effect: its `readdir` callback runs later. The model compares against the remembered files as they were when the handler started.
- A failing `readdir` in `deleteOldAudioFiles` only logs; it is modelled as an empty listing.
- In the cleanup handlers a failing `readdir` calls `res.status(500).send(...)` after `res.sendStatus(200)` has already sent the headers (server.js:135 and 148, math/server.js:222 and 235). Express's `send` then sets a header, which throws; the throw happens in an `fs` callback, nothing catches it, and the source installs no process-level handler, so Node exits and every counter and remembered file is lost.
- BasicServer.BasicServer.Cleanup: does not model that crash; for a failing listing it returns 200, deletes nothing and keeps the state.
- MathServer.MathServer.Cleanup: does not model that crash; for a failing listing it returns 200, deletes nothing and keeps the state.
- Concurrency, and requests interleaving on the shared counters, are left out.
- The message of a V8 TypeError is approximated by a fixed wording per cause.
- An unhandled rejection (`Unhandled`) models a request that is never answered. Node's process-level handling of it is left out.
- `public/script.js` (the browser client) is not part of this model.
