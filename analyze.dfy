/** The `/analyze` request handler (app.py, `analyze_resume`): validate the
    form, save the upload, pick the extractor by file-name suffix, score the
    resume against each posting, rank the postings and remove the upload
    again. HTTP and JSON plumbing are not modelled: a response is its
    outcome, the ranked postings or an error message with its status. */
module Analyze {
  import opened Wrappers
  import opened Extract
  import opened Normalize
  import opened Jobs
  import opened Ranking

  /** A byte of an uploaded file. */
  newtype Byte = x: int | 0 <= x < 256

  /** The `resume` part of the form: its client-side file name (absent or
      empty when no file was chosen) and its bytes. */
  datatype Upload = Upload(filename: Option<string>, content: seq<Byte>)

  /** The multipart form: the `resume` file and the `job_role` and
      `job_type` fields, each of which may be missing. */
  datatype Request = Request(
    resume: Option<Upload>,
    jobRole: Option<string>,
    jobType: Option<string>)

  /** The library calls the handler makes. A call that raises is an `Err`
      carrying the exception's message. */
  datatype Env = Env(
    pdfPages: seq<Byte> -> Result<seq<string>, string>,      // PyPDF2: each page's extract_text()
    docxParagraphs: seq<Byte> -> Result<seq<string>, string>, // python-docx: each paragraph's text
    nlp: Nlp,                                                 // NLTK, for preprocess_text
    secureFilename: string -> string,                         // werkzeug's secure_filename
    atsScore: (string, string) -> Result<real, string>)       // calculate_ats_score

  /** The handler's outcome: status 200 with the ranked postings, or an
      error message with its status. */
  datatype Response = Success(jobs: seq<ScoredJob>) | Failure(error: string, status: nat)

  const NO_RESUME := "No resume file provided"
  const NO_FILE := "No file selected"
  const FIELDS_REQUIRED := "Job role and type are required"
  const UNSUPPORTED := "Unsupported file format"

  function Status(r: Response): nat
  {
    if r.Success? then 200 else r.status
  }

  /** Python truthiness of an optional form value: present and non-empty. */
  predicate Given(field: Option<string>)
  {
    field.Some? && field.value != ""
  }

  /** The request passes all three checks that precede the save. */
  predicate Validated(req: Request)
  {
    req.resume.Some? && Given(req.resume.value.filename) &&
    Given(req.jobRole) && Given(req.jobType)
  }

  /** The name the upload is saved under in the upload folder. */
  function SavedName(env: Env, req: Request): string
    requires Validated(req)
  {
    env.secureFilename(req.resume.value.filename.value)
  }

  predicate EndsWith(s: string, suffix: string)
  {
    |suffix| <= |s| && s[|s| - |suffix|..] == suffix
  }

  datatype Format = Pdf | Docx | Unsupported

  /** Case-sensitive dispatch on the saved name's suffix. No name ends in
      both ".pdf" and ".docx", so the order of the two tests is immaterial. */
  function FormatOf(name: string): (f: Format)
    ensures f == Pdf <==> EndsWith(name, ".pdf")
    ensures f == Docx <==> EndsWith(name, ".docx")
  {
    SuffixesExclusive(name);
    if EndsWith(name, ".pdf") then Pdf
    else if EndsWith(name, ".docx") then Docx
    else Unsupported
  }

  lemma SuffixesExclusive(name: string)
    ensures !(EndsWith(name, ".pdf") && EndsWith(name, ".docx"))
  {
    if EndsWith(name, ".pdf") {
      assert name[|name| - 1] == 'f';
    }
  }

  /** The raw resume text, from the extractor the format selects. */
  function ResumeText(env: Env, format: Format, content: seq<Byte>): Result<string, string>
    requires format != Unsupported
  {
    if format == Pdf then
      match env.pdfPages(content)
      case Err(e) => Err(e)
      case Ok(pages) => Ok(Flatten(pages))
    else
      match env.docxParagraphs(content)
      case Err(e) => Err(e)
      case Ok(paragraphs) => Ok(Flatten(Terminated(paragraphs)))
  }

  /** One iteration of the scoring loop (app.py:133-136): both texts are
      normalised, then compared. The score sees each text only through the
      tokens that survive the filter; `ScoreOfCongruent` and
      `ScoreOfIgnoresCase` draw the consequences. */
  function ScoreOf(env: Env, resumeText: string, job: Job): Result<real, string>
  {
    env.atsScore(Preprocess(env.nlp, resumeText), Preprocess(env.nlp, job.description))
  }

  /** Resume texts keeping the same tokens, scored against descriptions
      keeping the same tokens, get the same score. */
  lemma ScoreOfCongruent(env: Env, a: string, b: string, job: Job, other: Job)
    requires KeptTokens(env.nlp, a) == KeptTokens(env.nlp, b)
    requires KeptTokens(env.nlp, job.description) == KeptTokens(env.nlp, other.description)
    ensures ScoreOf(env, a, job) == ScoreOf(env, b, other)
  {
  }

  /** Texts that differ only in letter case get the same score, both on the
      resume side and on the description side. */
  lemma ScoreOfIgnoresCase(env: Env, a: string, b: string, job: Job, other: Job)
    requires Lower(a) == Lower(b)
    requires Lower(job.description) == Lower(other.description)
    ensures ScoreOf(env, a, job) == ScoreOf(env, b, other)
  {
    ScoreOfCongruent(env, a, b, job, other);
  }

  /** A first scoring failure among the first `n` postings is a first
      failure of the whole list. */
  lemma FailureExtends(env: Env, text: string, jobs: seq<Job>, n: nat, e: string)
    requires n <= |jobs|
    requires exists k :: 0 <= k < n && ScoreOf(env, text, jobs[..n][k]) == Err(e) &&
               forall j :: 0 <= j < k ==> ScoreOf(env, text, jobs[..n][j]).Ok?
    ensures exists k :: 0 <= k < |jobs| && ScoreOf(env, text, jobs[k]) == Err(e) &&
              forall j :: 0 <= j < k ==> ScoreOf(env, text, jobs[j]).Ok?
  {
    var k :| 0 <= k < n && ScoreOf(env, text, jobs[..n][k]) == Err(e) &&
               forall j :: 0 <= j < k ==> ScoreOf(env, text, jobs[..n][j]).Ok?;
    assert jobs[..n][k] == jobs[k];
    assert forall j :: 0 <= j < k ==> jobs[..n][j] == jobs[j];
  }

  /** The scoring loop: every posting gets its score, in order, and the
      first scoring failure aborts the whole loop with its message. */
  function ScoreJobs(env: Env, resumeText: string, jobs: seq<Job>): (r: Result<seq<ScoredJob>, string>)
    ensures r.Ok? <==> forall k :: 0 <= k < |jobs| ==> ScoreOf(env, resumeText, jobs[k]).Ok?
    ensures r.Ok? ==>
              |r.value| == |jobs| &&
              forall k :: 0 <= k < |jobs| ==>
                r.value[k] == ScoredJob(jobs[k], ScoreOf(env, resumeText, jobs[k]).value)
    ensures r.Err? ==>
              exists k :: 0 <= k < |jobs| && ScoreOf(env, resumeText, jobs[k]) == Err(r.error) &&
                forall j :: 0 <= j < k ==> ScoreOf(env, resumeText, jobs[j]).Ok?
  {
    if jobs == [] then Ok([])
    else
      var n := |jobs| - 1;
      assert forall k :: 0 <= k < n ==> jobs[..n][k] == jobs[k];
      match ScoreJobs(env, resumeText, jobs[..n])
      case Err(e) => FailureExtends(env, resumeText, jobs, n, e); Err(e)
      case Ok(scored) =>
        match ScoreOf(env, resumeText, jobs[n])
        case Err(e) => Err(e)
        case Ok(v) => Ok(scored + [ScoredJob(jobs[n], v)])
  }

  /** What the `try` block of the handler returns for a saved upload. Its
      only 400 is "Unsupported file format", given exactly for an unsupported
      suffix; every other failure is a 500. */
  function Processed(env: Env, filename: string, content: seq<Byte>, role: string, jobType: string): (r: Response)
    ensures r == Failure(UNSUPPORTED, 400) <==> FormatOf(filename) == Unsupported
    ensures r.Failure? ==> r.status == 400 || r.status == 500
    ensures r.Failure? && r.status == 400 ==> r.error == UNSUPPORTED
  {
    var format := FormatOf(filename);
    if format == Unsupported then Failure(UNSUPPORTED, 400)
    else
      match ResumeText(env, format, content)
      case Err(e) => Failure(e, 500)
      case Ok(text) =>
        match ScoreJobs(env, text, FetchJobs(role, jobType))
        case Err(e) => Failure(e, 500)
        case Ok(scored) => Success(SortByScore(scored))
  }

  /** The handler's outcome. A request failing validation gets a 400; a
      failure is a 400 or a 500, and a 400 carries one of the four fixed
      messages. */
  function Analyze(env: Env, req: Request): (r: Response)
    ensures !Validated(req) ==> r.Failure? && r.status == 400
    ensures r.Failure? ==> r.status == 400 || r.status == 500
    ensures r.Failure? && r.status == 400 ==>
              r.error == NO_RESUME || r.error == NO_FILE ||
              r.error == FIELDS_REQUIRED || r.error == UNSUPPORTED
  {
    if req.resume.None? then Failure(NO_RESUME, 400)
    else if !Given(req.resume.value.filename) then Failure(NO_FILE, 400)
    else if !Given(req.jobRole) || !Given(req.jobType) then Failure(FIELDS_REQUIRED, 400)
    else Processed(env, SavedName(env, req), req.resume.value.content,
                   req.jobRole.value, req.jobType.value)
  }

  // ---- the handler, step by step --------------------------------------------

  datatype FileOp = Saved(name: string) | Removed(name: string)

  /** The upload folder. Only which names it holds, and the saves and
      removals done to it, are modelled. */
  class UploadFolder {
    ghost var files: set<string>
    ghost var log: seq<FileOp>

    constructor (existing: set<string>)
      ensures files == existing && log == []
    {
      files := existing;
      log := [];
    }

    /** Saves the upload under `name` (app.py:117), replacing any file
        already stored under that name. */
    method Save(name: string)
      modifies this
      ensures files == old(files) + {name}
      ensures log == old(log) + [Saved(name)]
    {
      files := files + {name};
      log := log + [Saved(name)];
    }

    /** The cleanup in `finally` (app.py:153-154): removes `name` if the
        folder holds it, and otherwise does nothing. */
    method RemoveIfExists(name: string)
      modifies this
      ensures files == old(files) - {name}
      ensures log == old(log) + if name in old(files) then [Removed(name)] else []
    {
      if name in files {
        files := files - {name};
        log := log + [Removed(name)];
      }
    }
  }

  /** If every posting before `i` is scored and posting `i` is not, the scoring
      fails with posting `i`'s message. */
  lemma FirstFailure(env: Env, text: string, jobs: seq<Job>, i: nat)
    requires i < |jobs|
    requires forall j :: 0 <= j < i ==> ScoreOf(env, text, jobs[j]).Ok?
    requires ScoreOf(env, text, jobs[i]).Err?
    ensures ScoreJobs(env, text, jobs) == Err(ScoreOf(env, text, jobs[i]).error)
  {
  }

  /** Reads the resume with the extractor the format selects. */
  method ReadResume(env: Env, format: Format, content: seq<Byte>) returns (r: Result<string, string>)
    requires format != Unsupported
    ensures r == ResumeText(env, format, content)
  {
    if format == Pdf {
      var pages := env.pdfPages(content);
      if pages.Err? {
        return Err(pages.error);
      }
      var text := ExtractTextFromPdf(pages.value);
      r := Ok(text);
    } else {
      var paragraphs := env.docxParagraphs(content);
      if paragraphs.Err? {
        return Err(paragraphs.error);
      }
      var text := ExtractTextFromDocx(paragraphs.value);
      r := Ok(text);
    }
  }

  /** The scoring loop: attaches a score to each posting, appending the
      scored posting to the result, and stops at the first failure. */
  method ScoreAll(env: Env, text: string, jobs: seq<Job>) returns (r: Result<seq<ScoredJob>, string>)
    ensures r == ScoreJobs(env, text, jobs)
  {
    var analyzed: seq<ScoredJob> := [];
    for i := 0 to |jobs|
      invariant |analyzed| == i
      invariant forall k :: 0 <= k < i ==> ScoreOf(env, text, jobs[k]).Ok?
      invariant forall k :: 0 <= k < i ==>
                  analyzed[k] == ScoredJob(jobs[k], ScoreOf(env, text, jobs[k]).value)
    {
      var score := env.atsScore(Preprocess(env.nlp, text), Preprocess(env.nlp, jobs[i].description));
      if score.Err? {
        FirstFailure(env, text, jobs, i);
        return Err(score.error);
      }
      analyzed := analyzed + [ScoredJob(jobs[i], score.value)];
    }
    var expected := ScoreJobs(env, text, jobs);
    assert expected.Ok?;
    assert expected.value == analyzed;
    r := Ok(analyzed);
  }

  /** The body of the `try` block: dispatch on the suffix, extract, score
      every posting and sort the scored postings. */
  method ProcessUpload(env: Env, filename: string, content: seq<Byte>, role: string, jobType: string)
    returns (resp: Response)
    ensures resp == Processed(env, filename, content, role, jobType)
  {
    var format := FormatOf(filename);
    if format == Unsupported {
      return Failure(UNSUPPORTED, 400);
    }
    var text := ReadResume(env, format, content);
    if text.Err? {
      return Failure(text.error, 500);
    }
    var jobs := FetchJobs(role, jobType);
    var scored := ScoreAll(env, text.value, jobs);
    if scored.Err? {
      return Failure(scored.error, 500);
    }
    var analyzed := SortByScore(scored.value);
    resp := Success(analyzed);
  }

  /** `analyze_resume`: three checks in order, each answering 400 before
      anything is saved; then the upload is saved and, on every way out of
      the `try` block, removed again. */
  method AnalyzeResume(env: Env, req: Request, folder: UploadFolder) returns (resp: Response)
    modifies folder
    ensures resp == Analyze(env, req)
    ensures !Validated(req) ==> folder.files == old(folder.files) && folder.log == old(folder.log)
    ensures Validated(req) ==>
              var name := SavedName(env, req);
              folder.files == old(folder.files) - {name} &&
              folder.log == old(folder.log) + [Saved(name), Removed(name)]
  {
    if req.resume.None? {
      return Failure(NO_RESUME, 400);
    }
    var file := req.resume.value;
    if !Given(file.filename) {
      return Failure(NO_FILE, 400);
    }
    if !Given(req.jobRole) || !Given(req.jobType) {
      return Failure(FIELDS_REQUIRED, 400);
    }
    var filename := env.secureFilename(file.filename.value);
    folder.Save(filename);
    resp := ProcessUpload(env, filename, file.content, req.jobRole.value, req.jobType.value);
    folder.RemoveIfExists(filename);
  }

  // ---- properties of the handler --------------------------------------------

  /** The three checks run in order, and each message is answered, with
      status 400, exactly when its check is the first to fail. */
  lemma ValidationPrecedence(env: Env, req: Request)
    ensures Analyze(env, req) == Failure(NO_RESUME, 400) <==> req.resume.None?
    ensures Analyze(env, req) == Failure(NO_FILE, 400) <==>
              req.resume.Some? && !Given(req.resume.value.filename)
    ensures Analyze(env, req) == Failure(FIELDS_REQUIRED, 400) <==>
              req.resume.Some? && Given(req.resume.value.filename) &&
              (!Given(req.jobRole) || !Given(req.jobType))
  {
  }

  /** Once the request is valid, "Unsupported file format" is answered
      exactly when the saved name ends in neither ".pdf" nor ".docx";
      the test is case-sensitive. */
  lemma UnsupportedSuffix(env: Env, req: Request)
    requires Validated(req)
    ensures Analyze(env, req) == Failure(UNSUPPORTED, 400) <==>
              !EndsWith(SavedName(env, req), ".pdf") && !EndsWith(SavedName(env, req), ".docx")
    ensures Analyze(env, req).Failure? && Analyze(env, req).status == 400 ==>
              Analyze(env, req).error == UNSUPPORTED
  {
  }

  /** Suffixes are compared case-sensitively. */
  lemma SuffixCaseSensitive()
    ensures FormatOf("resume.pdf") == Pdf && FormatOf("resume.PDF") == Unsupported
    ensures FormatOf("resume.docx") == Docx && FormatOf("resume.DOCX") == Unsupported
    ensures FormatOf("resume.doc") == Unsupported && FormatOf("resume.txt") == Unsupported
  {
  }

  /** A 500 answer is raised by a library call after a valid request with a
      supported suffix: by the extractor, or by scoring some posting, all
      earlier postings having been scored. */
  lemma ServerErrors(env: Env, req: Request, e: string)
    requires Analyze(env, req) == Failure(e, 500)
    ensures Validated(req)
    ensures var format := FormatOf(SavedName(env, req));
            format != Unsupported &&
            var text := ResumeText(env, format, req.resume.value.content);
            text == Err(e) ||
            (text.Ok? &&
             var jobs := FetchJobs(req.jobRole.value, req.jobType.value);
             exists k :: 0 <= k < |jobs| && ScoreOf(env, text.value, jobs[k]) == Err(e) &&
               forall j :: 0 <= j < k ==> ScoreOf(env, text.value, jobs[j]).Ok?)
  {
  }

  /** A successful answer holds the three fetched postings, each with the
      score of the resume text (from the extractor its suffix selects)
      against that posting, ranked by descending score with ties in fetch
      order. */
  lemma SuccessIsRanking(env: Env, req: Request)
    requires Analyze(env, req).Success?
    ensures Validated(req)
    ensures var name := SavedName(env, req);
            var content := req.resume.value.content;
            var format := FormatOf(name);
            var text := ResumeText(env, format, content);
            var fetched := FetchJobs(req.jobRole.value, req.jobType.value);
            var ranked := Analyze(env, req).jobs;
            format != Unsupported && text.Ok? &&
            (format == Pdf ==>
               env.pdfPages(content).Ok? &&
               text.value == Flatten(env.pdfPages(content).value)) &&
            (format == Docx ==>
               env.docxParagraphs(content).Ok? &&
               text.value == Flatten(Terminated(env.docxParagraphs(content).value))) &&
            var scored := seq(3, k requires 0 <= k < 3 =>
                              ScoredJob(fetched[k], ScoreOf(env, text.value, fetched[k]).value));
            (forall k :: 0 <= k < 3 ==> ScoreOf(env, text.value, fetched[k]).Ok?) &&
            |ranked| == 3 &&
            multiset(ranked) == multiset(scored) &&
            SortedDesc(ranked) &&
            forall v :: WithScore(ranked, v) == WithScore(scored, v)
  {
    var name := SavedName(env, req);
    var format := FormatOf(name);
    var text := ResumeText(env, format, req.resume.value.content);
    var fetched := FetchJobs(req.jobRole.value, req.jobType.value);
    var scored := ScoreJobs(env, text.value, fetched).value;
    assert scored == seq(3, k requires 0 <= k < 3 =>
                         ScoredJob(fetched[k], ScoreOf(env, text.value, fetched[k]).value));
    SortPermutes(scored);
    forall v ensures WithScore(SortByScore(scored), v) == WithScore(scored, v) {
      SortStable(scored, v);
    }
  }

  /** Conversely, a valid request with a supported suffix succeeds whenever
      extraction and every scoring call succeed. */
  lemma SuccessWhenLibrariesSucceed(env: Env, req: Request)
    requires Validated(req)
    requires FormatOf(SavedName(env, req)) != Unsupported
    requires ResumeText(env, FormatOf(SavedName(env, req)), req.resume.value.content).Ok?
    requires var text := ResumeText(env, FormatOf(SavedName(env, req)), req.resume.value.content).value;
             var jobs := FetchJobs(req.jobRole.value, req.jobType.value);
             forall k :: 0 <= k < |jobs| ==> ScoreOf(env, text, jobs[k]).Ok?
    ensures Analyze(env, req).Success? && Status(Analyze(env, req)) == 200
  {
  }
}
