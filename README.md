# PDF Quiz Generator: a verified model of its core

The PDF Quiz Generator turns a PDF of numbered multiple-choice questions into quizzes. The backend extracts the PDF's text and parses it into question records. Each record has an id, a question text and four options A–D. The backend keeps the parsed list in memory under a fresh pdf id. On request it draws a random quiz of `count` questions whose ids lie in `[start, end]`. The React frontend has a form that checks the requested range and a quiz screen that moves through the drawn questions and records answers.

This project models that core in Dafny and proves what it promises.

- `Wrappers.dfy`: `Option` and `Result`.
- `Text.dfy`: the string operations the parser relies on.
  - `str.strip` and `str.split('\n')`, with the round trip between split and join.
  - Decimal digits and `int()` of a digit run, with the round trip from number to digits.
  - The rendering of integers in messages.
- `Sequences.dfy`: the subsequence relation, used for "in source order".
- `QuestionParser.dfy`: `PDFQuestionParser`.
  - The two line patterns, written as character predicates.
  - `Step`, `Run` and `Parse`: one iteration of the loop, the loop as a fold over lines, and the whole pass. Together they are the reference definition.
  - `ParseQuestions`: the imperative loop, proved equal to `Parse`.
  - `filter_by_range`.
- `ParserProperties.dfy`: what one pass guarantees.
  - Lines that never matter.
  - Header reset.
  - Emission only with four letters.
  - Source order.
  - The exact result for any text made of well-formed question blocks, with the API test's sample as an instance.
  - The filter laws.
- `QuizService.dfy`: the `parsed_questions` cache as a class.
  - `upload_pdf`, with saving and text extraction handed in as outcomes.
  - `generate_quiz`: the ordered check chain (404, then 400), the draw of `count` distinct positions, and the response copy.
- `QuizConfig.dfy`: the quiz-range form.
  - Its initial state.
  - The `handleConfigure` check chain as a pure function, plus the handler as a method proved against it.
- `QuizNavigation.dfy`: the quiz screen as a class.
  - `currentIndex` and an `answers` map keyed by question id.
  - The select, next and previous handlers, proved against a pure transition function.
  - A lemma that no sequence of moves leaves the question list or drops an answer.

A wrong content type meets the raise at main.py:59, which asks for status 400. That raise sits inside the `try` of `upload_pdf`, and the `except Exception` at main.py:79-83 turns it into status 500. The model follows the code and answers 500 (`QuizService.QuizServer.UploadPdf`).

## Model

| member | source | states |
|---|---|---|
| Text.Strip | backend/app/parser.py:42 | the stripped line is the slice `s[a..b]` of the line with only whitespace before `a` and after `b`; it has no whitespace at either end and is empty exactly when the line is all whitespace |
| Text.StripStripped | backend/app/parser.py:59 | stripping a text with no outer whitespace changes nothing (so the `.strip()` on a captured group is the group itself) |
| Text.Split | backend/app/parser.py:36 | splitting gives at least one part and no part contains the separator |
| Text.JoinSplit | backend/app/parser.py:36 | joining the split parts with the separator gives back the text: no character is lost |
| Text.SplitJoin | backend/app/parser.py:36 | lines without the separator, joined and split again, are the same lines |
| Text.DigitsRoundTrip | backend/app/parser.py:58 | `int()` of the decimal digits of n is n |
| Text.IntToString | backend/app/main.py:113-114 | an integer in a message starts with '-' exactly when it is negative, and the rest is the decimal numeral of its magnitude: all digits, reading back as that magnitude |
| QuizService.Detail | backend/app/main.py:102-115 | the refusal detail is "PDF not found" exactly for a missing id; a range refusal's detail is "Not enough questions in range " with the start and end joined by "-", followed by ". Found " with the filtered count and ", requested " with the requested count |
| QuestionParser.MatchQuestionSpec | backend/app/parser.py:47-59 | the question pattern accepts a stripped line exactly when it is a digit run, '.', whitespace and a non-empty rest; then the id is the digit run's value and the text is the rest after the whitespace |
| QuestionParser.MatchOptionSpec | backend/app/parser.py:65-69 | the option pattern accepts a stripped line exactly when it is one of A–D, ')' and at least one more character; then the text is the rest after optional whitespace |
| QuestionParser.Record | backend/app/parser.py:50-55 | the record keeps the header's id and text and has four options, position k holding the text recorded for the k-th letter of "ABCD" |
| QuestionParser.FourOptionsAreAllLetters | backend/app/parser.py:50 | an option map over A–D has four entries exactly when all four letters are present |
| QuestionParser.Flush | backend/app/parser.py:72-77 | saving the question in progress keeps every record at four options |
| QuestionParser.Step | backend/app/parser.py:41-69 | one loop iteration keeps the state well formed: options only under a header and only for A–D, every record with four options |
| QuestionParser.Run | backend/app/parser.py:41-69 | the loop over any lines keeps the state well formed |
| QuestionParser.Parse | backend/app/parser.py:36-79 | every record of a pass has exactly four options |
| QuestionParser.ParseQuestions | backend/app/parser.py:22-79 | the imperative loop returns exactly the records of the reference pass `Parse` |
| QuestionParser.FilterByRange | backend/app/parser.py:81-84 | the filtered list is never longer than the input |
| QuestionParser.FilterSubsequence | backend/app/parser.py:84 | the filtered list is a subsequence of the input: records keep their original order |
| QuestionParser.FilterCounts | backend/app/parser.py:84 | each in-range record occurs in the result as often as in the input, and no other record occurs |
| QuestionParser.FilterByRangeSpec | backend/app/parser.py:84 | the filter keeps exactly the records with start <= id <= end, each as often as it occurs, as a subsequence of the input; an empty range (start > end) gives nothing |
| ParserProperties.RunAppend | backend/app/parser.py:41-69 | running over a + b is running over a, then over b from the state reached |
| ParserProperties.InertLineIgnored | backend/app/parser.py:42-69 | deleting a blank line, or a line neither pattern accepts, anywhere in the text leaves the parser's state unchanged |
| ParserProperties.NoHeaderNoState | backend/app/parser.py:64 | lines without a header leave the initial state as it is: options before the first header are dropped |
| ParserProperties.TextBeforeFirstHeaderIgnored | backend/app/parser.py:64-69 | the lines before the first header have no effect on the result |
| ParserProperties.HeaderResets | backend/app/parser.py:47-61 | a header line always saves the question in progress (if complete), starts the new question and empties the option map, whatever the state |
| ParserProperties.FlushEmitsOnlyComplete | backend/app/parser.py:50-55 | the question in progress is emitted exactly when all of A–D were recorded for it, and then as the next record |
| ParserProperties.RepeatedLetterOverwrites | backend/app/parser.py:67-69 | a repeated letter replaces its earlier text, leaves the other letters and the set of recorded letters as they were |
| ParserProperties.RunFollowsHeaders | backend/app/parser.py:41-61 | the records emitted and the question in progress follow the order of the header lines |
| ParserProperties.ParseFollowsHeaders | backend/app/parser.py:36-79 | the records' (id, text) pairs are a subsequence of the header lines, so there are at most as many records as header lines |
| ParserProperties.HeaderLineMatches | backend/app/parser.py:47-60 | a rendered header `id. text` is read back as that id and text |
| ParserProperties.OptionLineMatches | backend/app/parser.py:63-69 | a rendered option `L) text` is not a header and is read back as that letter and text |
| ParserProperties.RunOptionLines | backend/app/parser.py:63-69 | under a header, option lines only update the option map, the last text for each letter winning |
| ParserProperties.BlockRun | backend/app/parser.py:41-69 | a block moves the parser to its header with the option map its lines write, after saving the previous question |
| ParserProperties.BlocksRun | backend/app/parser.py:41-69 | after a list of blocks the parser holds the expected records of all but the last block and is inside the last one |
| ParserProperties.BlocksParse | backend/app/parser.py:36-79 | a text of well-formed blocks gives one record per block naming all four letters, in block order, with options ordered A–D whatever order they came in; incomplete blocks are dropped and do not leak into the next one |
| ParserProperties.TwoQuestionSample | backend/test_api.py:37-62 | two blocks `101. Question 1?` and `102. Question 2?`, each with options "Option A".."Option D", give exactly those two records |
| ParserProperties.FilterKeepsAllInRange | backend/app/parser.py:84 | a list whose ids all lie in the range passes the filter unchanged |
| ParserProperties.FilterIdempotent | backend/app/parser.py:84 | filtering twice by the same range is filtering once |
| ParserProperties.FilterConsecutive | backend/app/parser.py:84 | on consecutively numbered records the filter keeps exactly the slice whose ids lie in the range |
| ParserProperties.FilterTenConsecutive | backend/test_api.py:65-81 | records 100..109 filtered to 102..105 give the four records 102..105 |
| QuizService.CheckRequest | backend/app/main.py:100-115 | an unknown pdf id is refused with not-found, before any filtering; otherwise fewer in-range records than requested is refused with the range, the number found and the number requested; otherwise the filtered list is drawn from |
| QuizService.QuizServer.constructor | backend/app/main.py:38 | the cache starts empty and no file is stored |
| QuizService.QuizServer.UploadPdf | backend/app/main.py:56-83 | every failure is status 500 and leaves the cache alone; a wrong content type saves nothing; a failed save leaves the files alone; a failed extraction removes the saved file; success stores the parsed list under the new id and reports its length |
| QuizService.QuizServer.GenerateQuiz | backend/app/main.py:100-130 | the result fails exactly when the check chain fails, with its status (404 or 400) and its detail text; on success it holds `count` responses copied from distinct positions of the filtered list; the cache is not written |
| QuizService.Respond | backend/app/main.py:121-128 | one response per selected record |
| QuizService.SampleIsSubMultiset | backend/app/main.py:118 | records drawn from distinct positions never occur more often than in the list drawn from |
| QuizService.SampleProperties | backend/app/main.py:107-118 | every drawn record lies in the requested id range; when `count` equals the filtered length, the quiz is a permutation of the filtered list |
| QuizService.QuizIdsInRange | backend/app/main.py:118-128 | every response copies the id, question and options of a cached record whose id lies in [start, end] |
| QuizConfig.Message | frontend/src/components/QuizConfig.js:14-31 | each refusal's `setError` text: the two start refusals are their fixed texts and no other refusal shows them; the end refusal shows the total in parentheses; the count refusal ends with "Available: " and the range size, then ", Requested: " and the count |
| QuizConfig.MessagesDistinct | frontend/src/components/QuizConfig.js:14-31 | two refusals that show the same text are the same check, so the message tells which check failed |
| QuizConfig.Validate | frontend/src/components/QuizConfig.js:14-34 | a passing configuration is exactly the form's (start, end, count); the count refusal reports available = end - start + 1 and the requested count, which exceeds it |
| QuizConfig.ValidateAccepts | frontend/src/components/QuizConfig.js:14-34 | the configuration is submitted exactly when 1 <= start <= end <= total and count <= end - start + 1 |
| QuizConfig.ValidateFirstFailure | frontend/src/components/QuizConfig.js:14-32 | each refusal is reported exactly when the earlier checks passed and its own failed: start < 1, then end > total, then start > end, then count > available |
| QuizConfig.NonPositiveCountAccepted | frontend/src/components/QuizConfig.js:14-34 | a zero or negative count passes when the range is valid |
| QuizConfig.QuizConfigForm.constructor | frontend/src/components/QuizConfig.js:4-7 | the form opens with start 1, end min(100, total), count 10 and no error |
| QuizConfig.QuizConfigForm.SetStart | frontend/src/components/QuizConfig.js:49 | the start input sets start |
| QuizConfig.QuizConfigForm.SetEnd | frontend/src/components/QuizConfig.js:62 | the end input sets end |
| QuizConfig.QuizConfigForm.SetCount | frontend/src/components/QuizConfig.js:75 | the count input sets count |
| QuizConfig.QuizConfigForm.HandleConfigure | frontend/src/components/QuizConfig.js:9-35 | the error is cleared, then the first failing check's message is set and nothing is submitted, or the configuration is submitted with the error empty |
| QuizNavigation.NextIndex | frontend/src/components/Quiz.js:18-25 | an index in range stays in range, stays put exactly on the last question, and otherwise moves to the next one |
| QuizNavigation.PreviousIndex | frontend/src/components/Quiz.js:27-31 | the index never goes below 0, stays put exactly at the first question, and otherwise moves to the one before |
| QuizNavigation.Apply | frontend/src/components/Quiz.js:11-31 | every handler keeps the index within the question list and removes no answer |
| QuizNavigation.ReplayKeepsBoundsAndAnswers | frontend/src/components/Quiz.js:5-31 | under any sequence of Previous, Next and option selections the index stays within the question list and no answer is removed |
| QuizNavigation.SelectOverwrites | frontend/src/components/Quiz.js:11-16 | selecting twice on the same question keeps only the second choice |
| QuizNavigation.QuizSession.constructor | frontend/src/components/Quiz.js:4-6 | the quiz opens on the first question with no answers |
| QuizNavigation.QuizSession.HandleOptionSelect | frontend/src/components/Quiz.js:11-16 | the current question's id maps to the chosen option and every other answer is unchanged |
| QuizNavigation.QuizSession.HandleNext | frontend/src/components/Quiz.js:18-25 | on the last question it reports completion and stays; otherwise it moves on by one; answers are untouched |
| QuizNavigation.QuizSession.HandlePrevious | frontend/src/components/Quiz.js:27-31 | it moves back by one unless on the first question; answers are untouched |

## Left out

- `backend/app/pdf_handler.py` is not part of this model. It covers file writes, `uuid.uuid4`, `pdfplumber` text extraction and `os.remove`. `UploadPdf` takes the save outcome (new id or error) and the extraction outcome (text or error) as parameters. The stored files are an abstract set of ids.
- FastAPI and React plumbing is not modelled. This covers app construction, CORS, `await file.read()`, the `uvicorn` entry point, JSX rendering, the progress bar's floating-point width, `App.js` and `PDFUpload.js`.
- The patterns' `\s` and `\d`, and `str.strip`, are ASCII only. Whitespace is the six ASCII spaces plus `\x1c`–`\x1f`, and digits are `0`–`9`. Python's Unicode whitespace and Unicode digits are not modelled.
- The parser takes `int()` of the digit run to be its decimal value. Python's limit on the number of digits `int()` converts is not modelled. Past that limit the conversion raises, and the upload fails with status 500.
- The upload model has no exceptions beyond those of saving and extraction.
- QuizService.QuizServer.UploadPdf: models error details as the failure's cause (`NotAPdf`, `SaveFailed`, `ExtractFailed`), not the `str(e)` text of the response.
- The content-type rejection: the raise at main.py:59 asks for status 400, but the `except Exception` at main.py:79-83 turns it into 500, and the model follows the code.
- QuizService.QuizServer.UploadPdf: saving is taken as atomic and cleanup as always succeeding. In `pdf_handler.py` the file is opened before it is written (line 30), so a failed write can leave a partial file behind, and `cleanup_pdf` swallows a failing `os.remove` (lines 76-81). The model's failed save leaves the stored files unchanged, and its cleanup always removes the file.
- QuizService.QuizServer.GenerateQuiz: requires `count >= 0`. A negative count passes the length check and makes `random.sample` raise. That case is left to the library and not modelled.
- QuizService.QuizServer.GenerateQuiz: the choice of positions is free apart from its size and distinctness. The uniform distribution of `random.sample` is not modelled.
- QuizConfig.QuizConfigForm.HandleConfigure: the inputs are integers. JavaScript's `Number(...)` of a form field can also give fractions or NaN, and those are not modelled. The form treats the new state as immediate, whereas React applies `setError` and the setters on the next render.
- QuizNavigation.QuizSession.constructor: requires a non-empty question list. With no questions the component reads `questions[0].id` while rendering and fails. `onComplete` is modelled as the `completed` result of `HandleNext`.
- ParserProperties.TwoQuestionSample: is about the API test's blocks, without the test text's blank lines. Blank lines have no effect on the result (`InertLineIgnored`).
