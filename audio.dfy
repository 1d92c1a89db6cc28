/** The audio files the servers name: the pre-recorded clips under
    `audio/util`, the synthesized questions under `audio/output`, the paths
    the browser is given for them, and which output files a cleanup
    deletes. The application directory (`__dirname`) is the parameter
    `root`, an absolute path without a trailing `/`. */
module Audio {
  import opened Results
  import opened JsStrings
  import opened JsNumbers

  /** `path.join(dir, name)` for a normalised directory and a plain file
      name. */
  function JoinPath(dir: string, name: string): string {
    dir + "/" + name
  }

  function OutputDir(root: string): string {
    root + "/audio/output"
  }

  function UtilDir(root: string): string {
    root + "/audio/util"
  }

  /** The four clip kinds that `getPreRecordedAudio` knows. */
  predicate IsClipKind(kind: string) {
    kind == "correct" || kind == "incorrect" || kind == "instructions" || kind == "no_input"
  }

  /** `getPreRecordedAudio(kind)`: `<kind>.mp3` in the util directory, or
      "Invalid audio type" for any other kind. */
  function PreRecordedAudio(root: string, kind: string): (r: Result<string>)
    ensures r.Ok? <==> IsClipKind(kind)
    ensures r.Ok? ==> r.value == JoinPath(UtilDir(root), kind + ".mp3")
    ensures r.Err? ==> r.error == InvalidAudioType
  {
    match kind
    case "correct" => Ok(JoinPath(UtilDir(root), "correct.mp3"))
    case "incorrect" => Ok(JoinPath(UtilDir(root), "incorrect.mp3"))
    case "instructions" => Ok(JoinPath(UtilDir(root), "instructions.mp3"))
    case "no_input" => Ok(JoinPath(UtilDir(root), "no_input.mp3"))
    case _ => Err(InvalidAudioType)
  }

  /** The clip that answers a verdict. */
  function FeedbackKind(correct: bool): (kind: string)
    ensures IsClipKind(kind)
  {
    if correct then "correct" else "incorrect"
  }

  /** The file name `synthesizeSpeech` writes for clock reading `ts`. */
  function AudioFileName(ts: nat): string {
    "output_" + ShowNat(ts) + ".mp3"
  }

  /** What `synthesizeSpeech` returns: the URL of the written file. */
  function SynthesizedPath(ts: nat): string {
    "/audio/output/" + AudioFileName(ts)
  }

  lemma AudioFileNamePlain(ts: nat)
    ensures '/' !in AudioFileName(ts)
  {
    var digits := ShowNat(ts);
    assert forall i :: 0 <= i < |digits| ==> digits[i] != '/';
  }

  /** The file the handlers remember as the current question:
      the output directory joined with the last segment of the URL. */
  function QuestionFile(root: string, audioFilePath: string): string {
    JoinPath(OutputDir(root), LastSegment(audioFilePath, '/'))
  }

  /** The remembered question file is the file `synthesizeSpeech` wrote. */
  lemma QuestionFileOfSynthesized(root: string, ts: nat)
    ensures QuestionFile(root, SynthesizedPath(ts)) == JoinPath(OutputDir(root), AudioFileName(ts))
  {
    AudioFileNamePlain(ts);
    assert SynthesizedPath(ts) == "/audio/output" + ['/'] + AudioFileName(ts);
    LastSegmentAfterSeparator("/audio/output", '/', AudioFileName(ts));
  }

  /** The URL the browser is sent for a feedback clip:
      `/audio/util/` and the clip's base name. */
  function FeedbackUrl(clipPath: string): string {
    "/audio/util/" + LastSegment(clipPath, '/')
  }

  lemma FeedbackUrlOfClip(root: string, kind: string)
    requires IsClipKind(kind)
    ensures FeedbackUrl(PreRecordedAudio(root, kind).value) == "/audio/util/" + kind + ".mp3"
  {
    var name := kind + ".mp3";
    assert '/' !in name;
    assert JoinPath(UtilDir(root), name) == UtilDir(root) + ['/'] + name;
    LastSegmentAfterSeparator(UtilDir(root), '/', name);
  }

  /** `p.replace(path.join(__dirname, 'audio'), '/audio')`. */
  function BrowserPath(root: string, p: string): string {
    ReplaceFirst(p, root + "/audio", "/audio")
  }

  /** A file under the application's audio directory is served under
      `/audio`. */
  lemma BrowserPathUnderAudio(root: string, rest: string)
    ensures BrowserPath(root, root + "/audio" + rest) == "/audio" + rest
  {
    ReplacePrefix(root + "/audio", rest, "/audio");
  }

  lemma BrowserPathOfQuestion(root: string, name: string)
    ensures BrowserPath(root, JoinPath(OutputDir(root), name)) == "/audio/output/" + name
  {
    assert JoinPath(OutputDir(root), name) == root + "/audio" + ("/output/" + name);
    BrowserPathUnderAudio(root, "/output/" + name);
  }

  lemma BrowserPathOfUtil(root: string, name: string)
    ensures BrowserPath(root, JoinPath(UtilDir(root), name)) == "/audio/util/" + name
  {
    assert JoinPath(UtilDir(root), name) == root + "/audio" + ("/util/" + name);
    BrowserPathUnderAudio(root, "/util/" + name);
  }

  lemma BrowserPathOfClip(root: string, kind: string)
    requires IsClipKind(kind)
    ensures BrowserPath(root, PreRecordedAudio(root, kind).value) == "/audio/util/" + kind + ".mp3"
  {
    BrowserPathOfUtil(root, kind + ".mp3");
  }

  // ---- Cleanup

  /** The two tests the cleanup routines use to spare a file:
      `deleteOldAudioFiles` compares full paths, the cleanup endpoints of
      the math server and the basic server look for the bare name inside
      the remembered paths. */
  datatype KeepRule = SamePath | NameInPath

  /** Whether `file` from the output directory is deleted. */
  predicate Stale(rule: KeepRule, root: string, lastQuestion: string, lastFeedback: string, file: string) {
    match rule
    case SamePath =>
      var p := JoinPath(OutputDir(root), file);
      lastQuestion != p && lastFeedback != p
    case NameInPath => !Includes(lastQuestion, file) && !Includes(lastFeedback, file)
  }

  /** The files of a listing that a cleanup deletes, in listing order. */
  function StaleFiles(rule: KeepRule, root: string, lastQuestion: string, lastFeedback: string, files: seq<string>): (r: seq<string>)
    ensures |r| <= |files|
    decreases |files|
  {
    if files == [] then []
    else
      var rest := StaleFiles(rule, root, lastQuestion, lastFeedback, files[1..]);
      if Stale(rule, root, lastQuestion, lastFeedback, files[0]) then [files[0]] + rest else rest
  }

  /** A listed file is deleted exactly when the rule marks it stale, and
      nothing unlisted is deleted. */
  lemma {:induction false} StaleFilesMembers(rule: KeepRule, root: string, lastQuestion: string, lastFeedback: string, files: seq<string>)
    ensures forall f :: f in StaleFiles(rule, root, lastQuestion, lastFeedback, files) <==>
      f in files && Stale(rule, root, lastQuestion, lastFeedback, f)
    decreases |files|
  {
    if files != [] {
      StaleFilesMembers(rule, root, lastQuestion, lastFeedback, files[1..]);
      assert forall f :: f in files <==> f == files[0] || f in files[1..];
    }
  }

  /** The `forEach` over the listing, collecting the files to unlink. */
  method SelectStale(rule: KeepRule, root: string, lastQuestion: string, lastFeedback: string, files: seq<string>)
    returns (doomed: seq<string>)
    ensures doomed == StaleFiles(rule, root, lastQuestion, lastFeedback, files)
  {
    doomed := [];
    var i := 0;
    assert files[0..] == files;
    while i < |files|
      invariant 0 <= i <= |files|
      invariant doomed + StaleFiles(rule, root, lastQuestion, lastFeedback, files[i..])
        == StaleFiles(rule, root, lastQuestion, lastFeedback, files)
    {
      StaleFilesFrom(rule, root, lastQuestion, lastFeedback, files, i);
      if Stale(rule, root, lastQuestion, lastFeedback, files[i]) {
        doomed := doomed + [files[i]];
      }
      i := i + 1;
    }
  }

  lemma StaleFilesFrom(rule: KeepRule, root: string, lastQuestion: string, lastFeedback: string, files: seq<string>, i: nat)
    requires i < |files|
    ensures StaleFiles(rule, root, lastQuestion, lastFeedback, files[i..])
      == (if Stale(rule, root, lastQuestion, lastFeedback, files[i]) then [files[i]] else [])
         + StaleFiles(rule, root, lastQuestion, lastFeedback, files[i + 1..])
  {
    assert files[i..][1..] == files[i + 1..];
  }

  /** The file of the current question is never deleted, under either
      rule. */
  lemma CurrentQuestionKept(rule: KeepRule, root: string, name: string, lastFeedback: string)
    ensures !Stale(rule, root, JoinPath(OutputDir(root), name), lastFeedback, name)
  {
    if rule == NameInPath {
      var q := JoinPath(OutputDir(root), name);
      assert q == (OutputDir(root) + "/") + name;
      assert OccursAt(q, name, |q| - |name|) by {
        assert q[|q| - |name|..|q|] == name;
      }
      IncludesAt(q, name, |q| - |name|);
    }
  }

  /** Looking for the name inside the remembered paths spares every file
      that comparing full paths spares, and possibly more. */
  lemma NameInPathSparesMore(root: string, lastQuestion: string, lastFeedback: string, file: string)
    ensures Stale(NameInPath, root, lastQuestion, lastFeedback, file) ==> Stale(SamePath, root, lastQuestion, lastFeedback, file)
  {
    var p := JoinPath(OutputDir(root), file);
    assert p == (OutputDir(root) + "/") + file;
    assert OccursAt(p, file, |p| - |file|) by {
      assert p[|p| - |file|..|p|] == file;
    }
    if lastQuestion == p {
      IncludesAt(lastQuestion, file, |p| - |file|);
    }
    if lastFeedback == p {
      IncludesAt(lastFeedback, file, |p| - |file|);
    }
  }

  /** A file whose name is a tail of the current question's name, such as
      `2.mp3` beside `output_12.mp3`, survives a name-in-path cleanup
      although it is not the question file. */
  lemma NameInPathSparesTail(root: string, lastFeedback: string)
    requires lastFeedback == ""
    ensures Stale(SamePath, root, JoinPath(OutputDir(root), "output_12.mp3"), lastFeedback, "2.mp3")
    ensures !Stale(NameInPath, root, JoinPath(OutputDir(root), "output_12.mp3"), lastFeedback, "2.mp3")
  {
    var q := JoinPath(OutputDir(root), "output_12.mp3");
    var p := JoinPath(OutputDir(root), "2.mp3");
    assert q != p by {
      assert |q| != |p|;
    }
    assert p != "";
    assert q == (OutputDir(root) + "/output_1") + "2.mp3";
    assert OccursAt(q, "2.mp3", |q| - 5) by {
      assert q[|q| - 5..|q|] == "2.mp3";
    }
    IncludesAt(q, "2.mp3", |q| - 5);
  }
}
