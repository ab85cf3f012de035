# ATS resume evaluator: a verified model of the batch pipeline

This project is a Dafny model of the batch pipeline of a resume screening tool (`main.py`,
class `ResumeEvaluator`). The tool reads a job description and a folder of resumes. It asks a
language model once for the job's requirements, then once per resume for an evaluation. It
collects one row per resume for a spreadsheet.

The model covers four parts:

- **`extract_text`** (module `Extraction`). The extension, compared in lower case, picks the
  format. A PDF's text is its pages' texts in order; a page without text adds `""`. A Word
  file's text is each paragraph's text followed by `"\n"`. Any other extension gives `""`.
  An exception is swallowed, and the text built before it is returned.
  - The parsing libraries are abstract: a file is what each library yields for it, that is,
    a sequence of pages or paragraphs, each of which may raise, behind an open step that may
    raise.
  - The two loops are methods (`GatherPages`, `GatherParagraphs`). They are proved against
    the function `Gathered`, the concatenation of the pieces up to the first exception.
- **Resume file selection** (`Pipeline.SelectResumeFiles`). This is the loop over the
  directory listing that keeps the names ending in `.pdf`, `.doc` or `.docx`, ignoring case,
  in listing order.
- **`process_folder`** (`Pipeline.ProcessFolder`, `ProcessResumes`, `ProcessResume`).
  - It raises `ValueError` if the job-description text is empty.
  - It extracts the requirements once.
  - It appends exactly one row per selected file: the no-text row for blank text, the
    evaluation's row on success, or the error row when the evaluation raises.
  - The method also returns the log of its external calls (each `extract_text` call, the
    job-analysis chain, the evaluation chain). This makes "not invoked" and "invoked once" statable.
- **The records and the row mapping** (modules `Schema` and `Pipeline`).
  - `ResumeEvaluation` has two scores bounded to [0, 10] and a four-label recommendation.
    The structured-output validation rejects an answer out of bounds; it never clamps one.
  - `model_dump()` turns a record into a dictionary.
  - The row copies each key of that dictionary, or uses a default when the key is missing.
  - The key skills go into the prompt joined with `", "`.

The two model chains are the function-typed fields of `Backend`. Each returns a value or the
message of the exception it raises. The directory listing is an input sequence. The files
are a function from file name to `StoredFile`.

Where the design description of the tool and the code differ, the model follows the code:

- After an extraction exception, the text built before it is returned, which is not
  necessarily empty. The failure is only printed, never reported to the caller.
- `key_skills` carries no non-emptiness constraint.
- No code computes the recommendation tier from the scores. The tier ranges appear only in
  the prompt text, so any of the four labels is accepted with any scores.
- The job-description check is `not text` without `strip()`. A Word job file of blank
  paragraphs passes it (`BlankJobDescriptionIsAnalyzed`), whereas a resume of the same text is
  not evaluated (`BlankResumeTextIsNotEvaluated`).

## Model

| member | source | states |
|---|---|---|
| `Text.StripEmptyIffBlank` | main.py:155 | `not s.strip()` holds exactly when `s` is empty or consists only of Python whitespace |
| `Text.Strip` | main.py:155 | what `strip()` leaves is no longer than the input and neither starts nor ends with whitespace |
| `Text.StripRemovesOnlyOuterWhitespace` | main.py:155 | `strip()` removes exactly a whitespace prefix and a whitespace suffix |
| `Text.SplitJoin` | main.py:119 | splitting `sep.join(parts)` on `sep` returns the parts, when there is at least one part and no part contains the separator's first character |
| `Text.SplitKeepsPlainPrefix` | main.py:119 | text free of the separator's first character stays glued to the first piece of a split |
| `Text.Join` | main.py:119 | `", ".join(skills)` starts with the first skill |
| `Schema.ParseRecommendation` | main.py:29 | a string is accepted as a recommendation exactly when it is one of the four labels, and it maps back to that label |
| `Schema.Validate` | main.py:27-29 | an answer is accepted exactly when both scores are in [0, 10] and the recommendation is one of the four labels; an accepted answer keeps every field unchanged, and any other answer is rejected, never clamped |
| `Schema.ValidateAcceptsEveryEvaluation` | main.py:20-29 | every value of the record type passes validation unchanged |
| `Schema.Dump` | main.py:125 | `model_dump()` gives a dictionary with exactly the six field names as keys, each holding a value of its field's type and range |
| `Extraction.KindOf` | main.py:99-103 | the PDF branch is taken exactly for a lower-cased `.pdf` ending, which wins over the others; no branch is taken exactly when the lower-cased name ends in none of `.pdf`, `.doc`, `.docx` |
| `Extraction.PdfText` | main.py:99-102 | a PDF's text starts with its first page's text (`""` for `None`) |
| `Extraction.WordText` | main.py:103-106 | a Word file's text starts with its first paragraph's text and a newline, and is empty or ends with a newline |
| `Extraction.DocumentText` | main.py:95-109 | a name of no known format gives `""`; a Word file gives text that is empty or ends with a newline |
| `Extraction.GatherPages` | main.py:101-102 | the page loop returns the pages' texts (`None` as `""`) concatenated in order up to the first page that raises |
| `Extraction.GatherParagraphs` | main.py:105-106 | the paragraph loop returns each paragraph's text plus `"\n"`, in order, up to the first paragraph that raises |
| `Extraction.ExtractText` | main.py:95-109 | `extract_text` returns the PDF text for a `.pdf` name, the Word text for a `.docx`/`.doc` name (both in any case), and `""` for any other name or when opening raises |
| `Extraction.GatheredAppend` | main.py:101-106 | steps that do not raise contribute their text, followed by the text of the rest |
| `Extraction.GatheredStopsAtRaise` | main.py:98-109 | an exception ends accumulation: what came before is kept and what comes after is lost |
| `Extraction.GatheredSkipsEmptyPiece` | main.py:102 | an iteration that appends `""` changes nothing, wherever it stands |
| `Extraction.PdfPagesInOrder` | main.py:99-102 | a PDF's text is the text of its first pages followed by the text of the rest, when none of the first pages raises |
| `Extraction.PdfTextlessPageContributesNothing` | main.py:102 | a page whose extraction gives `None` contributes `""` |
| `Extraction.PdfFailureKeepsEarlierPages` | main.py:98-109 | a page that raises is swallowed, and the text of the pages before it is returned |
| `Extraction.PageStepsAppend` | main.py:101-102 | the page loop over a concatenation of pages runs the iterations of each part in turn |
| `Extraction.WordParagraphsInOrder` | main.py:103-106 | a paragraph adds its text and a newline after the text of the paragraphs before it, and before the text of those after it |
| `Extraction.ParagraphStepsAppend` | main.py:105-106 | the paragraph loop over a concatenation of paragraphs runs the iterations of each part in turn |
| `Extraction.WordFailureKeepsEarlierParagraphs` | main.py:103-109 | a paragraph that raises is swallowed, and the text of the paragraphs before it is returned |
| `Extraction.OpenFailureGivesEmptyText` | main.py:98-109 | a file that neither library can open gives `""`, whatever its name |
| `Extraction.BlankWordFileIsNotEmpty` | main.py:103-106 | a Word file with one empty paragraph yields `"\n"`, which is non-empty and blank |
| `Pipeline.IsResumeName` | main.py:144 | a name is a resume name exactly when `extract_text` takes its PDF or Word branch for it |
| `Pipeline.Selected` | main.py:143-145 | the selection is no longer than the listing and holds only resume names |
| `Pipeline.SelectResumeFiles` | main.py:143-145 | the selection loop returns exactly the listed names with a resume extension, in listing order |
| `Pipeline.SelectedAppend` | main.py:143-145 | selection preserves order: selecting from a concatenated listing concatenates the selections |
| `Pipeline.SelectedMembers` | main.py:143-145 | a name is selected exactly when it is listed and its lower-cased form ends in `.pdf`, `.doc` or `.docx` |
| `Pipeline.ResumeNamesIgnoreCase` | main.py:144 | the extension test ignores case: `CV.PDF`, `cv.Docx` and `cv.doc` are resume files |
| `Pipeline.NonResumeNames` | main.py:144 | the extension test needs the dot and the suffix at the very end: `cv.txt`, `pdf` and `cv.pdf.bak` are not resume files |
| `Pipeline.EvaluateResume` | main.py:116-125 | `evaluate_resume` succeeds exactly when the evaluation chain answers and the answer validates; then its dictionary has exactly the six field keys, each well typed; otherwise it fails with the chain's message or the validation error |
| `Pipeline.EvaluationRow` | main.py:171-178 | the row built with `.get` and defaults has no Error key, and is well formed exactly when every key the dictionary has holds a well-typed value (the defaults are well formed) |
| `Pipeline.FailureRow` | main.py:180-190 | the row of a file whose evaluation raised (and, with the fixed message, the no-text row of lines 157-165) is well formed, is named after the file, carries the message, and its last column is Error |
| `Pipeline.EvaluationRowFromDump` | main.py:171-178 | a dumped evaluation uses no default: the row carries the evaluation's values and has no Error key |
| `Pipeline.SkillsRecoverableFromPrompt` | main.py:119 | the prompt's key-skills variable is the skills joined with `", "`; when no skill contains a comma, splitting it gives the skills back |
| `Pipeline.FileOutcome` | main.py:153-190 | blank text gives the no-text row without invoking the evaluator; otherwise the evaluator is invoked once, and its exception or a rejected answer gives the error row while an accepted answer gives the evaluation's row |
| `Pipeline.FileRowWellFormed` | main.py:157-190 | every row has text in the text columns, scores in [0, 10] and one of the four labels |
| `Pipeline.ProcessResume` | main.py:150-190 | one iteration appends that file's row and makes that file's calls |
| `Pipeline.ProcessResumes` | main.py:149-190 | the loop returns one row per file, in order, each row determined by that file alone, and never stops early; its calls are the files' calls in order |
| `Pipeline.ProcessFolder` | main.py:127-191 | `process_folder` returns or raises as `Batch` says, and makes the calls `Batch` lists, in that order |
| `Pipeline.ResumeCallsInvokeOnlyTheEvaluator` | main.py:118-124 | the per-file loop never calls the job analysis, and every evaluator call gets the extracted requirements, the skills joined with `", "`, and text that is not blank |
| `Pipeline.FailsFastWithoutJobText` | main.py:130-132 | empty job text raises `ValueError("Could not extract text from job description file")` right after the job file's text is extracted and before any other call, even when the job path names no known format |
| `Pipeline.RequirementsFailureIsFatal` | main.py:136 | an exception from the job analysis escapes `process_folder`, and no resume is evaluated |
| `Pipeline.RequirementsExtractedOnce` | main.py:130-136 | the job analysis is called exactly once, right after the job file's text is extracted and before any resume; every evaluator call gets its result |
| `Pipeline.OneWellFormedRowPerResumeFile` | main.py:149-190 | a successful batch has exactly one well-formed row per selected file, in listing order, and an error row is that file's whole failure row |
| `Pipeline.EachRowExplained` | main.py:149-190 | in a successful batch, a file with blank text has the no-text row; otherwise its row is the failure row with `evaluate_resume`'s message when that raised, and otherwise the row of the evaluation dictionary, with no error |
| `Pipeline.OneFileCannotDisturbOthers` | main.py:149-190 | changing one file, even into a corrupt one, leaves every other file's row unchanged |
| `Pipeline.BlankJobDescriptionIsAnalyzed` | main.py:130-136 | a Word job file of one empty paragraph passes the empty-text check and goes to the job analysis as `"\n"` |
| `Pipeline.BlankResumeTextIsNotEvaluated` | main.py:153-165 | the same `"\n"` as a resume's text gives the no-text row, and the evaluator is not invoked, whatever the backend and the requirements |

## Left out

- The language-model calls are left out: the Azure client, its configuration and the API key (main.py:32-39), the prompt templates (main.py:41-87) and the chains (main.py:89-93). They are network calls into a foreign library. The two chains are the abstract functions of `Backend`, and prompt filling is modelled only as the variables it receives (`EvaluationInputs`).
- The PDF and Word parsing libraries are foreign code. A file is modelled by what each library yields for it.
- An answer with a missing field or a field of the wrong type is not modelled separately. It is a failure of the evaluation chain, as any other exception from it is.
- `OpenFailureGivesEmptyText`: it is stated for a file that neither library can open. `DocumentText` consults only the library that the name selects, so the text is `""` whenever that one fails to open.
- Schema.Validate: the failure message is a fixed string, not pydantic's full error text, which is library output.
- `Lower`: only ASCII letters are folded. Python's `str.lower()` is Unicode-wide, but no other character lower-cases to `.`, `p`, `d`, `f`, `o`, `c` or `x`. So the tests for `.pdf`, `.doc` and `.docx` give the same answer.
- `os.listdir` and `os.path.join` are I/O. The listing is an input sequence; a missing folder's exception is not modelled. A file is looked up, and logged, by its name. The joined path ends in that name, so the extension test is unchanged.
- `print` calls are logging, including the first five key skills at main.py:137. An exception raised inside the extraction's exception handler is not modelled.
- Building the pandas `DataFrame` and `to_excel` (main.py:193-194) are serialisation. The model returns the row list. The union of columns across rows, which decides whether an Error column appears at all, is not modelled.
- The recommendation tier ranges (main.py:78-82) are prompt text, enforced by no code, so the model does not enforce them.
- interface.py is not part of this model: it is a Streamlit UI with temporary-file I/O. It also calls `process_directory`, which main.py does not define.
- create_template.py is not part of this model: it writes a constant column list to a spreadsheet. No code implements the fixed-rubric evaluation mode it implies.
