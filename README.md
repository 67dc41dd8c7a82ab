# Weekly Summarizer, modelled in Dafny

A Dafny model of the deterministic core of the Weekly Summarizer note-taking plugin (`main.ts`).
On command, the plugin works out the current ISO week and renders an output path from a template.
It stops if a file already exists at that path. Otherwise it reads every markdown document, asks a
local language-model service for a one- or two-sentence summary of each, and asks once more for a
two-paragraph review of the linked bullet list of those summaries. It then creates the output file
with that review.

Modules (one file each):

- `Wrappers` (`wrappers.dfy`): `Option`, for fields or results that may be missing.
- `JsString` (`js_string.dfy`): the JavaScript string built-ins the plugin calls.
  These are `trim`, `indexOf`, `replace` with a string pattern, and `join('\n')` together with
  its inverse, splitting at `'\n'`.
- `Decimal` (`decimal.dfy`): the numeral that `${n}` prints for an integer, and the parse back.
- `Settings` (`settings.dfy`): the settings record, `DEFAULT_SETTINGS`, and `loadSettings` as a
  field-by-field override.
- `Output` (`output_path.dfy`): rendering the file name from the template, and prefixing the folder.
- `Replies` (`replies.dfy`): the chat request and reply, and how a reply becomes text with its
  two fallback strings.
- `Summary` (`summary.dfy`): the prompts, the bullet list, the per-document fold and the run
  itself, as the method `GenerateWeeklySummary`.

The run is an imperative method over a sequence. It takes as inputs the vault, the model service
and the outcome of the final `create`. The vault is the set of paths holding a file, plus the
markdown files in enumeration order, each with the outcome of reading it. The model service is a
function from request to reply. The method returns a record of what the run did: the path, the
documents read, the summaries kept, every chat request in order, and the one `create` call.
Its contract ties each of these to specification functions. Lemmas then prove the source's
promises about those functions.

The model follows the code where it differs from what one might expect of the plugin:

- A per-document model-call failure never drops a document. `generateShortSummary` catches the
  error and returns `'Error summarizing content.'`, and the entry is kept. Only a read failure
  drops a document.
- A failed call gives the error text, not `'No summary generated.'`. A reply whose message has no
  content also gives the error text, because `.trim()` then throws inside the `try`.
- The configured endpoint URL and token budget never reach a call. The client is built as
  `new Ollama()` with no host, and neither value is passed to `chat`. So a `ChatRequest` carries
  only the model name and the prompt.
- Only the two-pass variant exists in `main.ts`. There is no single-pass variant to model.
- The two replacements are not independent operations. The year replacement runs on the string
  the week replacement produced. When the two placeholders do not overlap in the template,
  `Output.RenderWeekThenYear` and `Output.RenderYearThenWeek` prove that the result is still what
  replacing each placeholder in the template would give, because a numeral holds no character of
  either placeholder. When they share a `%`, they interfere. `%WEEK_NUMBER%YEAR%` renders as
  `7YEAR%` in week 7, because the week numeral takes the `%` that opens `%YEAR%`. Likewise
  `%YEAR%WEEK_NUMBER%` renders as `%YEAR7`.

## Model

| member | source | states |
|---|---|---|
| `JsString.Trim` | main.ts:106 | `trim` gives the empty string exactly when the input is all whitespace; otherwise the result neither starts nor ends with whitespace |
| `JsString.TrimCharacterisation` | main.ts:106 | for whitespace + `mid` + whitespace, where `mid` has no whitespace at either end, `trim` returns exactly `mid` |
| `JsString.TrimIdempotent` | main.ts:131 | trimming an already trimmed string changes nothing |
| `JsString.IndexOf` | main.ts:53 | `indexOf` returns a position where the pattern occurs, with no earlier occurrence; it returns nothing only if the pattern occurs nowhere |
| `JsString.ReplaceFirstAbsent` | main.ts:52-54 | `replace` leaves a string without the pattern unchanged |
| `JsString.ReplaceFirstAtFirst` | main.ts:52-54 | `replace` rewrites only the first occurrence: `a + pat + b` becomes `a + rep + b` when `a` starts no occurrence, whatever occurrences `b` holds |
| `JsString.ReplaceFirstKeepsAbsent` | main.ts:52-54 | a replacement none of whose characters appear in `q` cannot create an occurrence of `q` |
| `JsString.ReplaceFirst` | main.ts:52-54 | `replace` with a string pattern; `JsString.ReplaceFirstAbsent`, `JsString.ReplaceFirstAtFirst` and `JsString.ReplaceFirstKeepsAbsent` state its behaviour |
| `JsString.JoinLines` | main.ts:117 | `join('\n')`; `JsString.SplitJoinLines` and `JsString.JoinSplitLines` state that it is undone by splitting at `'\n'` |
| `JsString.SplitJoinLines` | main.ts:117 | splitting the `'\n'`-join of newline-free lines gives back exactly those lines |
| `JsString.JoinSplitLines` | main.ts:117 | joining the pieces of any split at `'\n'` gives back the string |
| `Decimal.NatToString` | main.ts:53 | the printed week number is a non-empty string of digits with no leading zero |
| `Decimal.ValueOfNatToString` | main.ts:53 | the printed numeral denotes the number it was printed from |
| `Decimal.NatToStringOfValue` | main.ts:53 | every canonical numeral is the printed form of its value |
| `Decimal.IntToString` | main.ts:54 | `${year}`: a non-empty string of digits and a minus sign; `Decimal.IntToStringDenotes` states the value it denotes |
| `Decimal.IntToStringDenotes` | main.ts:54 | the printed year denotes the year: a non-negative year prints as digits whose value is the year; a negative one prints as `-` followed by digits whose value is its magnitude |
| `Settings.LoadSettings` | main.ts:138-140 | no stored data gives exactly `DEFAULT_SETTINGS`; otherwise each field comes from the stored record when present and from the defaults when absent |
| `Settings.LoadSaved` | main.ts:138-144 | loading the full record that `saveSettings` stores gives back those settings |
| `Settings.LoadEmptyRecord` | main.ts:17-23 | a stored record with none of the fields loads as the defaults |
| `Output.RenderFileName` | main.ts:52-54 | the template with the first `%WEEK_NUMBER%` and then the first `%YEAR%` of the result replaced; the `Output.Render*` lemmas below state its value case by case |
| `Output.OutputPath` | main.ts:56 | the folder, a `/`, then the file name, with no normalisation; `Output.DefaultOutputPathExample` shows the doubled slash of the default folder |
| `Output.RenderWithoutPlaceholders` | main.ts:52-54 | a template with neither placeholder is the file name unchanged |
| `Output.RenderWeekOnly` | main.ts:52-54 | without `%YEAR%`, only the first `%WEEK_NUMBER%` becomes the week's numeral; later ones stay |
| `Output.RenderYearOnly` | main.ts:52-54 | without `%WEEK_NUMBER%`, only the first `%YEAR%` becomes the year's numeral; later ones stay |
| `Output.RenderWeekThenYear` | main.ts:52-54 | when the first `%YEAR%` begins after the first `%WEEK_NUMBER%` ends, both become numerals and all else, later placeholders included, is kept |
| `Output.RenderYearThenWeek` | main.ts:52-54 | when the first `%WEEK_NUMBER%` begins after the first `%YEAR%` ends, both become numerals and all else is kept |
| `Output.RenderSharedPercentWeekFirst` | main.ts:52-54 | `%WEEK_NUMBER%YEAR%` renders as the week's numeral followed by `YEAR%`: the year never appears |
| `Output.RenderSharedPercentYearFirst` | main.ts:52-54 | `%YEAR%WEEK_NUMBER%` renders as `%YEAR` followed by the week's numeral: the year never appears |
| `Output.DefaultFileNameExample` | main.ts:18 | the default template renders as `Summary of Week 7.md` in week 7, whatever the year |
| `Output.DefaultOutputPathExample` | main.ts:56 | with the default folder `/` the path is `//Summary of Week 7.md`: the slash is doubled, not normalised |
| `Replies.SelectText` | main.ts:100-110 | a failed call or a message without content gives the error text; a missing message or all-whitespace content gives the empty-reply text; otherwise the result is the trimmed content, which is non-empty |
| `Replies.SelectTextIsTrimmed` | main.ts:106 | with trimmed fallback texts, the selected text is never empty and is its own trim |
| `Replies.ShortSummaryIsTrimmed` | main.ts:106-109 | a short summary is never blank and never padded |
| `Replies.FinalReviewIsTrimmed` | main.ts:131-134 | a final review is never blank and never padded |
| `Summary.ShortPrompt` | main.ts:98 | the fixed request followed by the document's text; `Summary.ShortPromptDetermines` states what it preserves |
| `Summary.ShortPromptDetermines` | main.ts:98 | equal short prompts carry the same document text |
| `Summary.FinalPrompt` | main.ts:119-123 | the review request for a week and a bullet list; `Summary.FinalPromptParts` and `Summary.FinalPromptDetermines` state its shape |
| `Summary.FinalPromptParts` | main.ts:119-123 | the final prompt is the opening, the week's numeral (whose value is the week number), the fixed instructions, and then exactly the bullet list, which it ends with |
| `Summary.FinalPromptDetermines` | main.ts:119-123 | equal final prompts have the same week number and the same bullet list |
| `Summary.ShortSummary` | main.ts:96-111 | the text selected from the reply to the short request; `Replies.ShortSummaryIsTrimmed` states it is never blank or padded |
| `Summary.FinalReview` | main.ts:113-136 | the text selected from the reply to the final request; `Replies.FinalReviewIsTrimmed` states it is never blank or padded |
| `Summary.Bullet` | main.ts:116 | one `- {content} ([Link to document]({filePath}))` line; `Summary.BulletHasNoNewline` states it is one line when the content and the path are |
| `Summary.BulletList` | main.ts:115-117 | the bullets joined by `'\n'`; `Summary.BulletListOfNone`, `Summary.BulletListLines` and `Summary.BulletListEndsWithLastLink` state its shape |
| `Summary.BulletListOfNone` | main.ts:115-117 | no summaries give the empty string |
| `Summary.BulletListLines` | main.ts:115-117 | with newline-free texts and paths, the list is exactly one `- {content} ([Link to document]({filePath}))` line per summary, in order |
| `Summary.BulletListEndsWithLastLink` | main.ts:115-117 | a non-empty list ends with the last summary's bullet, whose last character is `)`: there is no trailing newline |
| `Summary.Readable` | main.ts:70-80 | the kept files are no more than the enumerated ones, and each was read successfully |
| `Summary.PerDocSummaries` | main.ts:68-80 | one summary per readable file, in order, under its path; `Summary.SummariesComeFromReadFiles` and `Summary.SummariesAnswerCalls` state its content |
| `Summary.ShortCalls` | main.ts:72-75 | one short request per readable file, in order; `Summary.SummariesAnswerCalls` ties each to its summary |
| `Summary.ReadableMembers` | main.ts:70-80 | a file is kept exactly when it is enumerated and its read succeeds |
| `Summary.ReadableIsSubsequence` | main.ts:70 | the kept files are in enumeration order |
| `Summary.ReadableWhenAllRead` | main.ts:70-80 | when every read succeeds, every file is kept |
| `Summary.SummariesComeFromReadFiles` | main.ts:72-76 | each kept summary is the short summary of an enumerated, successfully read file, under that file's path |
| `Summary.SummariesAnswerCalls` | main.ts:75-76 | there are as many summaries as per-document requests and readable files; the k-th summary is the text of the reply to the k-th request, and every request names the configured model |
| `Summary.TwoDocumentRun` | main.ts:58-90 | a run over two readable documents `A` and `B`, with no existing summary, reads `A` then `B`, keeps summaries pointing at `A` then `B`, makes three chat calls in all and creates the note |
| `Summary.GenerateWeeklySummary` | main.ts:47-94 | the path is folder + `/` + rendered name. An existing file at that path means nothing is read, no call is made and nothing is created. Otherwise every file is read in order, one request is made per readable file and then one final request, the summaries are those of the readable files in order, and `create` is called once with the reply text of the final request |

## Left out

- ISO week and year (`main.ts:48-50`) come from a date library and the clock, so `weekNumber` and
  `year` are parameters. `year` there is the Monday's calendar year, not the ISO week-year, and the
  source does nothing to reconcile them. For example, Monday 30 December 2024 is in ISO week 1 of
  2025 but renders year 2024. Dates are not part of this model.
- The Ollama HTTP calls are modelled as a function from request to reply. A service that answers
  identical requests differently is not modelled. Neither are timeouts, because there are none.
- Vault I/O is modelled by inputs. `getAbstractFileByPath ... instanceof TFile` becomes membership
  in the set of file paths, so a folder at the output path does not stop the run. Each file's read
  outcome is fixed. Whether `create` succeeds is a boolean. The vault's contents after `create` are
  not modelled.
- `Notice` and `console` output: `Outcome` names which notice the run ends with, and nothing more.
- The settings tab (`main.ts:147-228`) is left out: its field mutations, `saveData`, and the
  `parseInt` of the token budget. `Settings.Saved` is only the record `saveSettings` would store.
- `Settings.LoadSettings`: persisted keys outside the settings record are not modelled. Neither
  are values of the wrong type, or a key present with value `undefined` (which `Object.assign`
  would copy). A stored field is either present with a value of its type or absent.
- Async/await: a run is one sequential method.
- `Decimal.NatToString`: JavaScript's exponential notation for numbers of 10^21 and above is not
  modelled. Week numbers and years are far smaller.
- `JsString.ReplaceFirst`: the `$` patterns of a replacement string are not modelled. Both
  replacements are numerals, which contain no `$`.
- Strings are sequences of Unicode code points here, whereas JavaScript strings are UTF-16 code
  units. Positions would differ for characters outside the Basic Multilingual Plane; the strings
  produced are the same.
- `JsString.IsWhitespace` lists the ECMAScript white-space and line-terminator code points,
  including the space separators of current Unicode; later Unicode additions are not tracked.
- `Summary.BulletListLines`: it holds only when no summary text or path contains a newline. A
  model reply can contain newlines, and then one summary spans several lines.
- `eslint.config.js` and `rollup.config.js` are build configuration with no logic.
