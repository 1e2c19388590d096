# AI literacy self-assessment survey: questionnaire and submission model

The survey page (`app.py`) asks an employee for a name and a position. For
any selected position it shows nine common questions on a five-point
agreement scale. Staff, leaders and executives each get a further block of
role questions. Everyone then gets two free-text questions. On a press of the
submit button with a non-empty name, the page adds the name, the position and
the submission time to the answers. It then appends them as one line of
`survey_data.csv`, with a header line only if the file did not exist yet.

The model has two modules:

- `Questionnaire` (`questionnaire.dfy`) holds the positions, the scale
  `Options` and its default label, and the answer keys of each block.
  `Compose` gives the ordered keys shown for a position. `Collect` gives the
  answer dictionary the page builds from what the respondent did with each
  slider and text area. `Score` reads the leading digit of a scale label.
- `Storage` (`storage.dfy`) holds the record enrichment (`Record`) and the
  column order of the written table (`Columns`). It models the CSV file as a
  sequence of `Header` and `Row` lines. `Apply` gives the effect of one run
  of the page on the file, and `Replay` the effect of a sequence of runs. The
  class `Store` keeps the file's existence flag and its lines, and its method
  `Run` performs one run of the page in place.

Widget results are inputs to the model. A slider is given as an index 0..4
into `Options`; a slider that is not in the map holds the default
`"3.보통이다"`. A text area that is not in the map holds the empty string.
The clock reading is passed in as a string.

The page asks only for a name and a position. It has no employee
identifier, department, completeness check, duplicate check, date window or
dashboard. The Staff block has 5 questions. A position string that is
neither the sentinel nor one of the three role strings gets the common and
free-text questions. It is not treated as unselected (`ComposeUnknown`).

The header line is written only once, from the first saved record. A later
record for a position with a different question set is therefore appended
under a header whose column names differ. Its width also differs unless both
positions are 16-question roles. `MixedPositionsMisalign` states this for a
member's record followed by a staff member's record: 14 header columns and
19 cells. `StaffThenLeaderRenamed` states it for a staff member's record
followed by a leader's record: 19 header columns and 19 cells, but under the
staff column names.

## Model

| member | source | states |
|---|---|---|
| Questionnaire.Addendum | app.py:57-82 | The role block is non-empty exactly for the three role strings and has at most 5 keys. |
| Questionnaire.Compose | app.py:35-88 | The sentinel, and only the sentinel, gives no keys. Any other position gives the 9 common keys first, its role block next and the two free-text keys last. |
| Questionnaire.ComposeDistinct | app.py:42-88 | No answer key appears twice for any position. |
| Questionnaire.ComposeMember | app.py:42-54 | The member position gets the 9 common keys and the 2 free-text keys: 11 keys. |
| Questionnaire.ComposeStaff | app.py:57-64 | The Staff position gets exactly Staff_D1..D3, Staff_E1, Staff_E2 between the common and free-text keys: 16 keys. |
| Questionnaire.ComposeLeader | app.py:67-74 | The leader position gets exactly 리더_F1..F3, 리더_G1, 리더_G2 between the common and free-text keys: 16 keys. |
| Questionnaire.ComposeExecutive | app.py:77-82 | The executive position gets exactly 임원_H1..H3 between the common and free-text keys: 14 keys. |
| Questionnaire.ComposeUnknown | app.py:37 | An unrecognised non-sentinel position is asked exactly what a member is asked (11 keys). |
| Questionnaire.EssaysLast | app.py:84-88 | For every selected position, the last two keys are the free-text keys and every earlier key is a scale key. |
| Questionnaire.SliderLabel | app.py:42 | A slider's answer is always one of the five labels: the picked one, or "3.보통이다" when untouched. |
| Questionnaire.Collect | app.py:35-88 | The answer keys are exactly the composed keys. Every scale answer is one of the five labels: the picked one, or the default when untouched. Each free-text answer is the typed text, or empty when untouched. The sentinel gives an empty map. |
| Questionnaire.Score | app.py:32 | A label has a score exactly when it starts with a digit and a dot. The score is that digit. |
| Questionnaire.ScoreOfOptions | app.py:32 | The labels score 1 to 5 in order, and the default label scores 3. |
| Questionnaire.ScoreOfSlider | app.py:42-82 | A slider's label scores one more than the picked index, or 3 when untouched. |
| Questionnaire.ScoreOfCollected | app.py:42-82 | Every collected scale answer scores the picked index plus one, or 3 when untouched. |
| Storage.Record | app.py:97-101 | The enriched record has the answer keys plus 이름, 직책 and 제출시간, holding the name, the position and the time. Every other answer is unchanged. |
| Storage.MetaKeysDisjoint | app.py:42-101 | The three metadata keys are never question keys, for any position. |
| Storage.MetaKeysAreNotQuestions | app.py:97-101 | Enrichment keeps every collected answer unchanged. |
| Storage.Columns | app.py:97-102 | The table's columns are the composed keys in asked order followed by 이름, 직책, 제출시간 in that order, all distinct. |
| Storage.ColumnsDistinct | app.py:42-102 | No column name of the written table appears twice. |
| Storage.ColumnsMembers | app.py:97-102 | A name is a column exactly when it is a question key of the position or a metadata key. |
| Storage.Cells | app.py:102-105 | A data line has one cell per column, holding the record's value under that column, or an empty cell where the record has none. |
| Storage.ReadBackCells | app.py:102-105 | A data line read back under its own header gives back the record it was written from. |
| Storage.OutcomeOf | app.py:37-110 | A run shows only the prompt exactly when the position is the sentinel. It does nothing exactly when a position is selected and the button is not pressed. It shows the name error exactly when the button is pressed with an empty name. It saves exactly when a position is selected, the button is pressed and the name is non-empty. |
| Storage.Apply | app.py:92-105 | A run that does not save leaves the file unchanged. A save keeps every earlier line, adds a header only if the file did not exist, ends with the record's data line, and leaves the file existing. |
| Storage.ApplyCounts | app.py:105 | One run adds one data line exactly when it saves, and one header exactly when it saves into a file that did not exist. A missing file never holds lines. |
| Storage.SaveGuard | app.py:92-95 | The file changes if and only if a position is selected, the button is pressed and the name is non-empty. An empty name or the sentinel position writes nothing. |
| Storage.SubmittedRecord | app.py:97-101 | The submitted record holds the collected answers, unchanged, plus 이름 = name, 직책 = position and 제출시간 = time, and nothing else. |
| Storage.SubmittedReadsBack | app.py:102-105 | The submitted record's data line, read back under its own columns, gives back the record. |
| Storage.ColumnsOfSubmitted | app.py:97-102 | The submitted record has a value under every column of its table, and under no other name. |
| Storage.SavedRow | app.py:97-105 | The line a save appends is a data line that reads back, under its own columns, as exactly the submitted record. |
| Storage.ReplayCounts | app.py:105 | Over any sequence of runs, the data lines grow by the number of saves. A header is added once, and only when the file did not exist and something was saved. The file exists afterwards exactly when it existed before or something was saved. |
| Storage.ReplayAppendsOnly | app.py:105 | Over any sequence of runs, earlier lines are never rewritten. |
| Storage.HeaderWrittenOnce | app.py:105 | Starting without a file, the header is written at most once. It is written exactly when something was saved, and it is the file's first line. |
| Storage.FirstLineIsHeader | app.py:105 | Starting without a file, after any save the first line of the file is a header. |
| Storage.TwoSaves | app.py:105 | Two saves in a row into a missing file give exactly the first record's header, then the two data lines, each under its own record's columns. |
| Storage.MixedPositionsMisalign | app.py:57-105 | A member's save followed by a staff member's save gives a 14-column header and a 19-cell second data line. |
| Storage.StaffLeaderColumns | app.py:57-102 | The Staff and leader tables both have 19 columns, but their column names differ. |
| Storage.StaffThenLeaderRenamed | app.py:57-105 | A staff member's save followed by a leader's save gives the staff header of 19 names, then a 19-cell leader row. The header is not the leader's column list. |
| Storage.Store.constructor | app.py:105 | The store starts from the given existence flag and lines, and a missing file holds no lines. |
| Storage.Store.Run | app.py:35-110 | One run of the page has the outcome and the effect on the file given by `Apply`. The name guard leaves the file untouched. A save adds exactly one data line, and a header only if the file did not exist. |

## Left out

- Rendering is not modelled: titles, info boxes, columns, sliders, text areas, the button, balloons, and the success, error and warning messages. Widget results are inputs, and the four outcomes of a run stand for the messages.
- DataFrame construction and CSV serialisation are not modelled: quoting, escaping, the `utf-8-sig` byte-order mark, and the file name `survey_data.csv`. A line is a sequence of cell strings, and a record is a `map<string, string>`.
- The file system is not modelled. `os.path.exists` is the existence flag of the file state, and write failures are not modelled.
- The clock is not modelled. `datetime.now().strftime(...)` is the `time` string of a run, and its format is not checked.
- The page's reruns are not modelled as such. Each interaction reruns the whole script, and the model treats each rerun as one `Visit`.
- Two runs that append to the file at once are not modelled.
