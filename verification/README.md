# CV parser core, modelled in Dafny

The application is a Streamlit page. A user uploads CVs as PDFs. For each
file the page builds a prompt from the PDF's text and embedded links, asks a
Gemini model for JSON, and keeps one table row per reply it can use. The
rows are shown and offered as an Excel download. This project models the
pure logic inside that loop and proves its properties:

- **Prompt assembly** (`CvText`). Each page gives its text line, or `""`
  when no text was extracted. Then each hyperlink whose `uri` is present and
  non-empty gives one `Embedded Link: <uri>` line. The lines are joined with
  `"\n"`. The fixed instructions and `"\n\nCV Content:\n"` come first.
- **The acceptance gate and the row** (`Gate`, `Rows`). The reply parsed by
  `json.loads` yields a row only if the lookups of `Candidate` and `Skills`
  and the join of the skill names all run without raising. The row is the
  dict `{"File": name}` updated with every top-level entry of the reply. Each
  value goes through `json.dumps`.
- **The batch loop** (`Batch`). This is a state machine over the uploads. It
  carries the prompts sent, `results`, the last bound `flat` row and the
  error reports. A rejected reply is reported along with `flat`. When no
  reply has been accepted yet, `flat` is unbound, so the report raises and
  the run ends.

Supporting modules: `Options` (optional values, and "raised" for operations
that can raise), `Seqs` (`sep.join`), `Dicts` (Python dicts as pair lists in
insertion order) and `JsonValues` (what `json.loads` returns).

JSON objects keep the raw pairs of their text, repeated keys included.
`Dicts.DictOf` builds the dict Python makes of them: each key sits at its
first position and holds its last value. Every lookup uses that rule, and
the row is built by iterating `DictOf` of the reply, as `parsed.items()` does.
`json.dumps` is the parameter `serialize`, left uninterpreted.

A rejected reply can also end the whole run (see Findings).

## Model

| member | source | states |
|---|---|---|
| CvText.TextLine | app.py:61 | `page.extract_text() or ""`; stated by `PageBlock`, where it heads each page's block |
| CvText.LinkLines | app.py:63-66 | the lines one page's links add; what they are, in which order and how many is stated by `LinkLinesSingle`, `LinkLinesAppend`, `LinkLinesMembers` and `LinkLinesCount` |
| CvText.LinkLine | app.py:64-66 | the line one link adds, if any; stated by `LinkLinesSingle` |
| CvText.LinkLinesSingle | app.py:63-66 | one hyperlink adds exactly the line `Embedded Link: <uri>` when its uri is present and non-empty, and nothing otherwise |
| CvText.LinkLinesAppend | app.py:63-66 | the link lines of a concatenation of link lists are the lines of each part in order, so link order is kept |
| CvText.LinkLinesStep | app.py:63-66 | (definition) taking one more link of the page adds that link's line, if any, at the end |
| CvText.LinkLinesMembers | app.py:63-66 | a line is a link line if and only if some link with a present, non-empty uri produces it as `Embedded Link: ` + uri |
| CvText.LinkLinesCount | app.py:63-66 | the number of link lines equals the number of links with a non-empty uri |
| CvText.TextLines | app.py:59-66 | `text_lines` after the page loop; its layout is stated by `TextLinesAppend`, `TextLinesCount`, `PageBlock` and `AssembleTextLines` |
| CvText.TextLinesAppend | app.py:60-66 | the lines of a concatenation of page lists are the lines of each part, pages in order |
| CvText.TextLinesCount | app.py:59-66 | the total line count is the number of pages plus the number of non-empty uris over all pages |
| CvText.TextLinesAround | app.py:60-66 | the lines are those of the pages before page i, then page i's own block, then those of the pages after it |
| CvText.PageBlockAt | app.py:60-66 | page i's block, its text line followed immediately by its link lines, starts right after the lines of the earlier pages |
| CvText.PageBlock | app.py:60-66 | page i's block starts at i plus the number of non-empty uris on earlier pages; its first line is the page text (`""` when none), its link lines follow immediately in link order, and the next page starts right after |
| CvText.AppendPage | app.py:61-66 | the inner loop over one page's hyperlinks appends the page's text line and then exactly its link lines |
| CvText.AssembleTextLines | app.py:59-66 | the nested page/link loop as written produces the same lines as the functional definition, and one per page plus one per non-empty uri |
| CvText.CvTextOf | app.py:68 | `text`; stated by `CvTextLines` and `CvTextEmpty` |
| CvText.CvTextLines | app.py:68 | the CV text plus one newline equals every line followed by a newline: lines are separated by one newline and no separator trails |
| CvText.CvTextEmpty | app.py:61-68 | the CV text is empty exactly when there are no pages, or a single page with no text and no written links |
| CvText.Prompt | app.py:71 | a prompt for any instructions text; stated by `PromptShape` |
| CvText.FullPrompt | app.py:71 | `full_prompt`; stated by `FullPromptStartsWithInstructions` and, for a whole run, `Batch.AppPromptsStartWithInstructions` |
| CvText.PromptShape | app.py:71 | (definition) a prompt begins with the instructions, then `"\n\nCV Content:\n"`, then the CV text |
| CvText.FullPromptStartsWithInstructions | app.py:71 | the prompt sent for any CV begins with the fixed instructions |
| Seqs.DedupMembers | app.py:86 | the first-occurrence order of a key list holds each key exactly once, and no other |
| Seqs.Join | app.py:68 | `sep.join(parts)`; stated by `JoinThenSeparator`, `JoinLength`, `JoinAppend`, `JoinEndsWithLast` and `JoinEmpty` |
| Seqs.JoinLength | app.py:68 | the joined text is as long as the parts plus one separator between each pair of neighbours, and starts with the first part |
| Seqs.JoinThenSeparator | app.py:68 | `sep.join(parts) + sep` equals every part followed by `sep` |
| Seqs.JoinAppend | app.py:68 | joining a concatenation equals joining each half with one separator between them |
| Seqs.JoinEndsWithLast | app.py:68 | the joined text ends with the last part |
| Seqs.JoinEmpty | app.py:68 | with a non-empty separator the result is empty exactly for no parts or one empty part |
| Dicts.GetLast | app.py:86-87 | `d.get(k)` on a pair list returns the value of the last pair with key k: the last value wins |
| Dicts.Get | app.py:87 | `d.get(k)` is absent exactly when k is not a key, and otherwise returns a value paired with k |
| Dicts.Set | app.py:94 | `d[k] = v` keeps the keys distinct, keeps an existing key in place, appends a new key at the end, makes k map to v and changes no other key |
| Dicts.SetAll | app.py:93-94 | the assignments `d[k] = v` made in order; keeps the keys distinct, and its lookups and key order are stated by `SetAllGet`, `SetAllKeys`, `SetAllFreshKeys` and `SetAllOntoOne` |
| Dicts.SetAllGet | app.py:93-94 | after the assignments each key reads its last assigned value, or its old value when it was not assigned |
| Dicts.SetAllKeys | app.py:93-94 | after the assignments the old keys are still first and in place, and the key set is the union of the old and the assigned keys |
| Dicts.SetAllFreshKeys | app.py:93-94 | when the assigned keys are distinct and new, the keys are the old keys followed by the assigned keys in order |
| Dicts.ReplayFromEmpty | app.py:86 | the dict built from a pair list has the same keys and the same lookups (last value wins) |
| Dicts.ReplayDistinct | app.py:86 | a pair list whose keys are already distinct is rebuilt unchanged |
| Dicts.ReplayKeyOrder | app.py:86 | replaying a pair list onto an empty dict leaves each key at its first occurrence, later repeats dropped |
| Dicts.SetAllOntoOne | app.py:91-94 | assigning the pairs of a dict to a dict holding only key k keeps k first, followed by the other keys in order |
| Dicts.DictOf | app.py:86 | the dict built from a pair list has distinct keys, the same key set and lookups (last value wins), its keys in first-occurrence order, is empty exactly when the pairs are, and equals the pairs when their keys are already distinct |
| Gate.EvalGate | app.py:86-88 | what lines 86-88 compute, None when a step raises; stated by `GateAcceptsExactly` against `Accepted` |
| Gate.Accepted | app.py:86-88 | the declarative rule for a reply that passes; `GateAcceptsExactly` proves it equal to running the lines |
| Gate.PyGet | app.py:87 | `obj.get(key, default)` raises exactly when obj is not a dict, gives the default for a missing key and otherwise the stored value |
| Gate.PyIter | app.py:88 | `for s in v` raises for null, booleans and numbers; it visits a list's items, a dict's keys as strings, one per key in dict order, and a string's characters |
| Gate.SkillName | app.py:88 | `s.get("SkillName", "")` with the join's check that the name is a string; stated by `SkillNameOk` |
| Gate.SkillNames | app.py:88 | the skill-name join raises exactly when some skill is not a dict or has a non-string SkillName, and otherwise gives one name per skill |
| Gate.SkillNameOk | app.py:88 | one skill passes exactly when it is a dict whose SkillName is absent or a string |
| Gate.IterationOk | app.py:88 | the Skills value passes exactly when it is a list of passing skills, an empty object or an empty string |
| Gate.GateAcceptsExactly | app.py:86-88 | lines 86-88 run without raising if and only if the reply parsed, is an object, and its Skills entry is absent or passes |
| Gate.GateRejectsExamples | app.py:86-88 | a failed parse, a top-level list or string, and Skills that is null, a number, a non-empty string, a list holding a string, or a skill with a numeric SkillName are all rejected |
| Gate.GateAcceptsExamples | app.py:86-88 | a reply whose Skills is a list holding a skill with a string name and a skill with no name is accepted |
| Gate.GateAcceptsEmptyObjects | app.py:86-88 | the empty reply `{}` and a reply whose Skills is `{}` are accepted |
| Rows.Serialized | app.py:93-94 | serialising keeps the keys in order and maps each key to `serialize` of its value |
| Rows.UpdateFileRow | app.py:91-94 | updating `{"File": name}` with the serialised entries gives "File" first and then the entries' keys other than "File", in order; an entry named "File" overwrites the name in place, and every other entry keeps its value |
| Rows.BuildRow | app.py:91-94 | the row has distinct keys; its columns are "File" and then the reply's keys other than "File", each at its first occurrence, in order; "File" holds the file name unless the reply has its own "File" key, whose serialised value overwrites it in place; each other key holds `serialize` of the reply's (last) value |
| Rows.RowColumns | app.py:91-94 | for a reply with distinct keys and no "File" key, the columns are exactly "File" followed by the reply's keys in order |
| Rows.RowFor | app.py:85-96 | a reply yields a row if and only if the gate accepts it, and that row is the one built from the reply's entries |
| Batch.RunPromptsStartWithInstructions | app.py:57-81 | every prompt a run sends, whether or not it completes, begins with the configured instructions |
| Batch.AppPromptsStartWithInstructions | app.py:57-81 | every prompt the script sends, whether or not the run completes, begins with the fixed `system_prompt` |
| Batch.Process | app.py:57-96 | one file's outcome carries its name and reply, the prompt built from its pages, and a row exactly when the reply is accepted, that row being the one built from the reply |
| Batch.ProcessAll | app.py:57-96 | (definition) the outcomes are one per upload, in upload order |
| Batch.Step | app.py:85-109 | one iteration's bookkeeping; stated by `StepKeepsCrash` and `ReportShowsLatestRow` |
| Batch.Fold | app.py:57-109 | the loop over the outcomes; stated by `FoldCrash`, `FoldTracksLastRow` and `FoldCompleted` |
| Batch.StepKeepsCrash | app.py:108-109 | (definition) after the error handler raises, no later file is processed |
| Batch.FoldCrash | app.py:55-109 | the loop ends in the unbound-`flat` error if and only if the first file has no row; it has then sent one prompt and kept no rows and no reports |
| Batch.FoldTracksLastRow | app.py:91-96 | while the loop is active, `flat` is the latest row built, and unbound when there is none |
| Batch.LastRowOfRowFirst | app.py:91-96 | once the first file yields a row, `flat` stays bound for every later file |
| Batch.LastRowIsARow | app.py:91-96 | the row `flat` shows is one of the rows appended to `results` |
| Batch.ReportShowsLatestRow | app.py:108-109 | a file without a row that the loop survives adds one report to the earlier ones, naming it and showing the row of the latest earlier file that had one |
| Batch.FoldSentAndRows | app.py:55-109 | a completed loop sent every prompt and kept every row, in order, with one row or report per file |
| Batch.FoldReports | app.py:108-109 | the reports of a completed loop are exactly the expected ones: one per file without a row, showing the latest row before it |
| Batch.ExpectedReportFiles | app.py:108-109 | the expected reports name the files without a row, in order |
| Batch.FoldReportsShowResults | app.py:108-109 | in a completed loop every report shows a row that is among the results |
| Batch.FoldCompleted | app.py:55-109 | a completed loop sent every prompt in order and kept every row in order; its reports are exactly one per file without a row, in order, each showing the latest row before that file, which is among the results |
| Batch.OutcomesMatchUploads | app.py:85-109 | the rows, the failed names, the latest row and the expected reports of the outcomes equal the reference definitions over the uploads: accepted rows, rejected names, latest accepted row, one report per rejection |
| Batch.Run | app.py:55-109 | the loop over the uploads; stated by `CrashesExactlyOnFirstRejection` and `CompletedRunResults` |
| Batch.CrashesExactlyOnFirstRejection | app.py:55-109 | a run ends in the unbound-`flat` error if and only if the first upload is rejected; it then has sent that upload's prompt only, kept no rows and made no reports |
| Batch.CompletedRunResults | app.py:55-109 | a completed run sent one prompt per upload, built from its pages, in order; its `results` are the rows of the accepted uploads in upload order; its reports are one per rejected upload, in order, each showing the row of the latest accepted upload before it, which is among the results |
| Batch.FirstReplyUnparsedStopsRun | app.py:108-109 | a single upload whose reply does not parse ends the run on its own report, with no rows |
| Batch.FixedFold | app.py:108-109 | the loop under the corrected handler; stated by `FixedFoldHandlesAll`, including that each issue carries the failed file's name and reply |
| Batch.FixedRun | app.py:108-109 | the run under the corrected handler; stated by `FixedRunIsolatesFailures`, `FixedRunIssues` and `AgreesWhenNotCrashed` |
| Batch.FixedFoldHandlesAll | app.py:108-109 | with a handler that does not read `flat`, the loop sends every prompt, keeps every row in order, and records one issue per file without a row, in order, equal to `FailedIssues`: that file's name with the reply it got |
| Batch.OutcomeIssuesMatchUploads | app.py:108-109 | the issues the outcomes call for are the rejected uploads, each with its name and its reply, in upload order |
| Batch.FixedRunIssues | app.py:108-109 | with the corrected handler the issues are exactly the rejected uploads, each reported with the reply it got, in upload order, and every reported reply is one the gate rejects |
| Batch.RejectedIssuesRejected | app.py:108-109 | every issue in the reference list holds a reply the gate rejects |
| Batch.FixedRunIsolatesFailures | app.py:108-109 | with a handler that does not read `flat`, every upload is processed: one prompt per upload, the accepted rows in order, and one issue per rejected file in order, carrying that file's name and the reply it got |
| Batch.AgreesWhenNotCrashed | app.py:55-109 | when the run as written does not crash, its results equal those of the corrected run |

## Left out

- PDF opening and text/hyperlink extraction (app.py:58, 61, 63) come from a library whose code is not part of this model. Its output is the input here: optional text and link uris per page.
- The call to the Gemini model (app.py:73-83) is network I/O with a non-deterministic answer. Each upload carries the `json.loads` result of its reply, and the state records the prompt sent.
- The global `system_prompt` (app.py:14-49) is the constant `CvText.SystemPrompt`. The batch loop reads it, with `json.dumps`, from a `Batch.Config` value, and `Batch.AppConfig` is the script's own configuration. The prompt lemmas hold for any instructions text.
- `json.loads` is not modelled as a grammar. A reply that fails to parse, or a missing response text, is `None`. Numbers keep Python's int/float distinction (`Int`, `Float`), so `serialize` may write `1` and `1.0` differently. `NaN`, `Infinity` and `-Infinity`, which `json.loads` also accepts, have no value in the model, so replies containing them are not modelled. A real has no negative zero, so `-0.0` and `0.0` are the same `Float` and get identical rows, although `json.dumps` writes them differently. A Dafny `char` cannot be a lone surrogate, so strings holding one (which `json.loads` returns for `"\ud800"`) are not modelled either.
- The model assumes that nothing outside the `try` raises. Opening and reading the PDF (app.py:58-68) and the model call (app.py:74-83) run before it, and an exception there (an unreadable PDF, a quota or network error) ends the run whatever `flat` holds. The `print` calls at app.py:92 and 97 are assumed not to raise either. The "if and only if" of `Batch.CrashesExactlyOnFirstRejection` and the completed-run facts hold under that assumption.
- `json.dumps` is the uninterpreted parameter `serialize`.
- The Streamlit widgets, `print`, the pandas DataFrame, the Excel buffer and the download button (app.py:51-54, 92, 97, 111-123) are UI and I/O. A crashed run shows no table. The model records this as the `Crashed` state and does not model the rendering.
- The text of the caught exception `{e}` in the error message (app.py:109) is not modelled. A report keeps only the file name and the `flat` row shown.
- The values of `candidate` and the joined skills string (app.py:87-88) are never used. They are computed in `Gate.EvalGate` only because computing them can raise.

## Findings

| source | as written | input that shows it | evidently intended | confidence | as-written member | corrected member |
|---|---|---|---|---|---|---|
| app.py:108-109 | the error handler formats `flat`, which is bound only after some earlier reply was accepted, so the handler raises NameError and the whole run ends | a batch whose first uploaded file gets a reply that is not valid JSON, or whose Skills entry the gate rejects (for example `null`, a number, or a list holding a string) | report the failed file (with its reply) and go on to the next file | high (not executed) | Batch.CrashesExactlyOnFirstRejection | Batch.FixedRunIsolatesFailures |
