# Resume/job matcher: a Dafny model of the request handler's logic

The service takes one uploaded resume (`.pdf` or `.docx`), a job role and a
job type. It returns three sample job postings, each with an ATS score (the
similarity of the resume to the posting's description), ranked by score. This
project models the service's own glue code in `app.py`:

- text extraction by accumulation (`extract_text_from_pdf`, `extract_text_from_docx`), as loops over the page or paragraph texts (module `Extract`);
- token normalisation (`preprocess_text`), as pure functions over an abstract tokenizer, stopword set and lemmatizer (module `Normalize`);
- the stub job source (`fetch_jobs`) (module `Jobs`);
- the ranking (`list.sort(key=..., reverse=True)`), as a reference stable insertion sort (module `Ranking`);
- the decision logic of `analyze_resume` (module `Analyze`): validation, saving the upload, suffix dispatch, the scoring loop, the sort, turning failures into 500, and removing the upload.

The libraries the code calls are parameters of type `Analyze.Env`:

- the PDF and DOCX parsers, giving the page and paragraph texts;
- NLTK's tokenizer, stopword list and lemmatizer;
- werkzeug's `secure_filename`;
- `calculate_ats_score`.

A call to a parser or to the scorer that raises is modelled as an `Err`
that carries the exception's message. The NLTK calls are assumed not to
raise (see "Left out"). `Analyze.Analyze` is the handler's outcome as a
function. `Analyze.AnalyzeResume` is the handler as a method, proved to
return that outcome. The upload folder is a class whose ghost fields hold
the names present in the folder and a log of saves and removals.

Python's `list.sort` is Timsort. The model uses `Ranking.SortByScore`, a
stable insertion sort. `Ranking.SortedUnique` proves that any stable sort
in descending order gives the same result, so the choice of algorithm does
not matter.

## Model

| member | source | states |
|---|---|---|
| Extract.ExtractTextFromPdf | app.py:29-35 | The loop builds the in-order concatenation of the page texts, with no separator. Its length is the sum of the page lengths. |
| Extract.FlattenLength | app.py:30-35 | The PDF text is exactly as long as all the pages together. |
| Extract.PageAt | app.py:33-34 | Page `i` appears unchanged in the text, starting right after the total length of the earlier pages. |
| Extract.ExtractTextFromDocx | app.py:37-42 | The loop builds the concatenation of each paragraph followed by one "\n". Its length is the sum of the paragraph lengths plus the paragraph count. |
| Extract.DocxLength | app.py:39-42 | The DOCX text length is the sum of the paragraph lengths plus one per paragraph. |
| Extract.ParagraphAt | app.py:40-41 | Paragraph `i` starts right after the earlier paragraphs and their newlines, and is followed by exactly one '\n'. An empty paragraph therefore adds just "\n". |
| Normalize.Lower | app.py:46 | Lower-casing keeps the length, leaves no upper-case letter, and keeps each character alphanumeric exactly when it was. |
| Normalize.LowerProperties | app.py:46 | ASCII lower-casing keeps the length. Each upper-case letter becomes the matching lower-case letter, and every other character is unchanged. Applying it twice changes nothing more. |
| Normalize.IsAlnum | app.py:55 | A token passing `isalnum` is a word: non-empty and free of spaces. |
| Normalize.Keep | app.py:52-56 | Every kept token is a token of the input that is alphanumeric (so non-empty) and not a stopword. No more tokens are kept than were given. |
| Normalize.KeepComplete | app.py:55 | Every input token that is alphanumeric and not a stopword is kept. |
| Normalize.KeepAppend | app.py:52-56 | Filtering commutes with concatenation, so kept tokens keep their relative order. |
| Normalize.KeepIdempotent | app.py:52-56 | Filtering the kept tokens again removes nothing. |
| Normalize.LemmatizerInput | app.py:46-56 | A token of the lower-cased text reaches the lemmatizer if and only if it is non-empty, alphanumeric and not a stopword. |
| Normalize.Join | app.py:58 | `" ".join` gives "" exactly for no words or a single empty word. Every character of the result is a space or a character of one of the words. |
| Normalize.JoinWords | app.py:58 | Round trip: splitting a single-space join of non-empty, space-free words gives the words back. |
| Normalize.Preprocess | app.py:44-58 | The output is "" when no token survives the filter. When the lemmatizer never returns "", the output is "" only in that case. |
| Normalize.PreprocessWords | app.py:44-58 | When every lemma is a proper word, the output's words are, in order, the lemmas of the kept tokens, one per token. |
| Jobs.FetchJobs | app.py:72-98 | Exactly three postings. Each has type `job_type`. The titles are "Senior "+role, role+" Lead" and "Staff "+role. Every description contains the role. |
| Ranking.SortByScore | app.py:141 | The ranked list has the input's length and is non-increasing by `ats_score`. |
| Ranking.SortPermutes | app.py:141 | The ranked list is a permutation of the scored postings. |
| Ranking.SortStable | app.py:141 | Stability: for every score value, the postings with that score appear in their original relative order. |
| Ranking.SortedUnique | app.py:141 | Two non-increasing lists with the same postings, in the same order, for every score value are equal. |
| Ranking.SortByScoreIsTheStableSort | app.py:141 | Any non-increasing list whose postings per score value match the input's, in order, equals `SortByScore` of the input. Hence any stable descending sort gives this result. |
| Analyze.FormatOf | app.py:121-126 | The PDF extractor is chosen exactly for names ending ".pdf", and the DOCX extractor exactly for names ending ".docx". The comparison is case-sensitive. |
| Analyze.ScoreOfCongruent | app.py:133-136 | A posting's score depends on the resume text and on the description only through the tokens of each that survive the filter: texts keeping the same tokens get the same score. |
| Analyze.ScoreOfIgnoresCase | app.py:133-136 | Resume texts, and descriptions, that differ only in letter case get the same score, because both are lower-cased before tokenizing (app.py:46). |
| Analyze.ScoreJobs | app.py:132-138 | The scoring succeeds exactly when every posting's score succeeds. It then gives each posting, in order, paired with its score. Otherwise it fails with the message of the first posting whose scoring fails. |
| Analyze.FirstFailure | app.py:132-149 | If postings before `i` score and posting `i` fails, the scoring fails with posting `i`'s message. |
| Analyze.ReadResume | app.py:121-124 | Reads the resume with the extractor for its format. A parser failure becomes an error carrying its message. |
| Analyze.ScoreAll | app.py:129-138 | The loop appends each posting with its score attached. It stops at the first scoring failure and returns the outcome `ScoreJobs` specifies. |
| Analyze.ProcessUpload | app.py:119-149 | The `try` body: suffix dispatch, extraction, fetching the postings, the scoring loop and the sort. It gives the outcome `Processed` specifies, including 400 for an unsupported suffix and 500 for a raised exception. |
| Analyze.UploadFolder.Save | app.py:115-117 | Saving adds the name to the folder (overwriting any file of that name) and logs the save. |
| Analyze.UploadFolder.RemoveIfExists | app.py:151-154 | A name that exists is removed and the removal is logged. Otherwise nothing changes. |
| Analyze.AnalyzeResume | app.py:101-154 | Returns the outcome `Analyze` specifies. A request that fails validation leaves the folder and its log unchanged. A valid request saves the upload and removes it on every exit path (400 for the suffix, 500, success). |
| Analyze.Processed | app.py:119-149 | The `try` block's outcome: "Unsupported file format" with 400 exactly for an unsupported suffix. Every other failure is a 500, and no other 400 arises there. |
| Analyze.Analyze | app.py:101-154 | The handler's outcome: a request failing validation gets a 400. Every failure is a 400 or a 500, and a 400 carries one of the four fixed messages. |
| Analyze.ValidationPrecedence | app.py:102-113 | Each message is returned, with 400, exactly when its check is the first to fail. The order is: "No resume file provided" (no `resume`), "No file selected" (empty file name), "Job role and type are required" (missing or empty role or type). |
| Analyze.UnsupportedSuffix | app.py:115-126 | For a valid request, "Unsupported file format" is returned exactly when the saved name ends in neither ".pdf" nor ".docx". It is then the only possible 400. |
| Analyze.SuffixCaseSensitive | app.py:121-126 | ".pdf" and ".docx" are dispatched. ".PDF", ".DOCX", ".doc" and ".txt" are unsupported. |
| Analyze.ServerErrors | app.py:119-149 | A 500 happens only after a valid request with a supported suffix. Its message is the extractor's error, or the error of the first posting whose scoring failed. |
| Analyze.SuccessIsRanking | app.py:119-146 | A success follows a valid request with a supported suffix. The text comes from the PDF or DOCX extractor as the suffix selects. The result is a permutation of the three fetched postings, each carrying its score. It is non-increasing by score, with ties in fetch order. |
| Analyze.SuccessWhenLibrariesSucceed | app.py:119-146 | A valid request with a supported suffix succeeds (status 200) whenever extraction and every scoring call succeed. |

## Left out

- Flask routing, the JSON bodies and `MAX_CONTENT_LENGTH` (app.py:16-18, 100, 143-146, 156-157) are framework glue. A response is modelled only as its outcome (ranked postings, or message and status).
- Creating the upload directory and the NLTK downloads at start-up (app.py:20-27) are process initialisation.
- The PDF and DOCX parsers (PyPDF2, python-docx) are not modelled. Each is a parameter that gives the page or paragraph texts, or an error.
- NLTK's `word_tokenize`, English stopword list and `WordNetLemmatizer` are parameters with no properties assumed.
- Normalize.Preprocess: the tokenizer, stopword lookup and lemmatizer are total functions, assumed not to raise. In `app.py` they run inside the `try` (lines 133-135), so an exception there (for example NLTK's `LookupError` for missing data) would give a 500 with its message (lines 148-149). The model shows a 500 from scoring only as an `Err` of the scorer.
- Normalize.Lower, Normalize.IsAlnum, Normalize.LowerProperties, Normalize.Keep: `str.lower` and `str.isalnum` are modelled over ASCII only. Python also lower-cases non-ASCII letters and accepts non-ASCII letters and digits as alphanumeric.
- `calculate_ats_score` (TF-IDF, cosine similarity, rounding; app.py:60-70) is an uninterpreted scorer. It returns a real or an error, such as scikit-learn's empty-vocabulary error. No 0-100 bound, symmetry or self-similarity property is claimed.
- `secure_filename`, `os.path.join`, `file.save` and `os.remove` are not modelled as real calls. `secure_filename` is a parameter. The folder is a set of names plus a log.
- Analyze.AnalyzeResume: `file.save` is assumed to succeed. In the source it runs before the `try`, so a failing save (for example when `secure_filename` returns "") escapes the handler. The model does not capture that escape.
- Analyze.AnalyzeResume: the in-place update of each job dict (`job['ats_score'] = ...`) is modelled as building a new `ScoredJob` value. Aliasing between `jobs` and `analyzed_jobs` is not modelled.
- Analyze.AnalyzeResume: requests are modelled one at a time, and the extractor reads the uploaded bytes directly. In `app.py` the extractor reads the file back from the upload folder under its secured name (lines 115-117, 122, 124), and Flask's development server (line 157) serves requests on threads. Two concurrent uploads with the same secured name can therefore collide. One can overwrite the other's file, so a request extracts the other's bytes. One request's `finally` (lines 153-154) can also delete the file before the other reads it, so the other gets a 500. The model does not capture this interleaving.
- Ranking.SortByScore: the sort is modelled on values, not as Timsort running in place. `SortedUnique` shows that the result does not depend on the algorithm.
- Idempotence of normalisation cannot be stated without assumptions about the tokenizer and lemmatizer, so it is not stated. No property of the score's value is claimed either. The only claim about the score is which inputs it depends on (`ScoreOfCongruent`, `ScoreOfIgnoresCase`). Punctuation does matter: a token containing a punctuation mark fails `isalnum` and is dropped whole (app.py:55). Whether added stopwords change the score depends on the tokenizer, so nothing is claimed about them.
- The unused imports `requests`, `BeautifulSoup` and `json` (app.py:12-14) play no part in the behaviour.
- Order of steps: `app.py` saves the upload first (line 117), checks the suffix inside the `try` (lines 121-126) and removes the file in `finally` (lines 151-154). The model keeps this order.
