# Quiz submission and manual grading server, modelled in Dafny

The server (`server.js`) receives one quiz submission per participant. It
refuses a second submission from the same email or the same IP address,
auto-grades the answers against the answer key of the question bank, and
stores one row per participant in a `responses` table. Anyone who knows an
email can read that email's results. An administrator holding the shared
password can list every submission as text, override the grade of single
questions and reset the table.

The model drops SQLite, the filesystem and HTTP. What is left is a state
machine over an in-memory table of records:

- `quiz.dfy` (module `Quiz`): the question bank and the table rows. JavaScript
  truthiness of a string field becomes "present and not empty" (`Given`).
  A record's `answers` object becomes an ordered sequence of entries, because
  the listing walks its keys in insertion order.
- `grading.dfy` (module `Grading`): the two grading loops of `/submit`, as the
  method `Grade`. `Grade` is proved against the functions `Score` and
  `Details`. Lemmas state what the score counts and what each evaluation
  message means.
- `render.dfy` (module `Render`): the text `/view-responses` builds. It prints
  one block per record, or the sentence "No hay respuestas disponibles." when
  the table is empty.
- `store.dfy` (module `Store`): the class `QuizStore`. Its `records` field is
  the table. The methods `Submit`, `UpdateFeedback` and `Reset` change it in
  place. The lookups `CheckResults` and `ViewResponses` are functions of the
  table. The invariant `WellFormed` says that no two rows share an email or a
  present IP. A closing module `Scenario` walks through one student's
  session, whose outcomes the verifier proves from the contracts alone.

Behaviour kept as the code has it:

- The stored `correct` flag is "answer equals the key and a justification is
  given". The score also requires the answer itself to be non-empty. So a
  question whose key is the empty string can be flagged without being
  counted (`FlagVersusCount`).
- An override moves the total by comparing with the auto-grade flag. No
  override rewrites that flag. Sending the same override again therefore
  moves the total again, and the total can leave the range 0..total
  (`RepeatedOverrideShiftsAgain`, and the session in `Scenario`). One might
  expect a repeated override not to count twice; the code counts it again,
  and the model follows the code.
- An absent IP is SQL NULL and matches no row, so the duplicate check then
  looks at the email alone (`ConflictWithoutIp`).
- The password check is a strict equality between two possibly absent
  values. With no password configured, a request that sends no password
  passes (`UnsetSecretAdmitsMissingPassword`).
- Two JavaScript run-time failures answer with status 500 and write nothing.
  The first is reading the text of an option that does not exist: a wrong
  answer to a question whose key is not among its options. The model reports
  it as `SubmitFailed`. The second is overriding a question id that is not a
  key of the record's `answers` object; the model reports it as
  `UpdateFailed`. Question ids that name an inherited `Object` property are
  the exception, and they are not modelled (see below).

## Model

| member | source | states |
|---|---|---|
| `Quiz.IndexOf` | server.js:103 | the position of the first occurrence of a value, or none exactly when the value does not occur (the search behind `find`, `replace` and a single-row `SELECT`) |
| `Quiz.EntryIndex` | server.js:264-267 | the position of the first key equal to the question id, or none exactly when no key is |
| `Grading.Score` | server.js:90-95 | the running score never exceeds the number of questions |
| `Grading.ChoiceIndex` | server.js:103 | the first option whose value is the key, or none exactly when no option has it |
| `Grading.Details` | server.js:97-106 | the `answers` object has one entry per question, in bank order, with that question's id and detail; it fails exactly when some question's detail fails |
| `Grading.Grade` | server.js:84-106 | the two loops compute the score and the entries of `Score` and `Details`; they fail exactly when some detail fails; the score is at most the number of questions |
| `Grading.ScoreCountsCorrectQuestions` | server.js:90-95 | the score is the number of questions with a given answer equal to the key and a given justification |
| `Grading.MessageMeaning` | server.js:102-104 | "Correcta" exactly for counted questions; the not-evaluated message exactly when answer or justification is missing; otherwise "Incorrecta, la respuesta correcta es " and the text of the first option whose value is the key |
| `Grading.DetailValue` | server.js:99-101 | the shown value is the answer when given, else "No respondida"; the stored flag is the auto-grade flag; no manual score or comment yet |
| `Grading.FlagVersusCount` | server.js:93-94 | a question counts exactly when it is flagged and its key is not empty |
| `Grading.ScoreMatchesCorrectMessages` | server.js:92-105 | the score equals the number of stored entries whose message is "Correcta" |
| `Render.NatToString` | server.js:223 | a score prints as one or more decimal digits, with no leading zero |
| `Render.NatToStringRoundTrip` | server.js:223 | reading the printed digits back gives the number |
| `Render.IntToString` | server.js:223 | a printed total starts with a minus sign exactly when it is negative |
| `Render.StripFirstQRemovesFirstQ` | server.js:225-227 | `replace('q', '')` removes exactly the first `q`, and leaves an id without one unchanged |
| `Render.JustificationShown` | server.js:226 | a given justification is shown as is, and a missing or empty one as "No proporcionada"; the shown text is never blank |
| `Render.CommentShown` | server.js:227 | a given comment is shown as is, and a missing or empty one as "Sin comentario"; the shown text is never blank |
| `Render.MapJoinAppend` | server.js:224-228 | mapping and joining two runs of items gives the two joined texts one after the other |
| `Render.BlocksAppend` | server.js:212-232 | the blocks of two tables joined are the blocks of the first table followed by those of the second |
| `Render.BlocksSnoc` | server.js:212-232 | appending a row to the table appends its block at the end of the listing |
| `Render.BlockAt` | server.js:212-232 | the listing holds every record's block at its place in table order |
| `Render.BlockStart` | server.js:215-216 | every block opens with a line break and the rule of dashes |
| `Render.ListingIsSentinelIffEmpty` | server.js:212-232 | the listing is "No hay respuestas disponibles." exactly when the table is empty |
| `Render.BlockShowsCorrected` | server.js:229-230 | every block ends with its footer, "Corregido: Sí" or "Corregido: No" and the rule; the "Sí" footer exactly when the record is corrected |
| `Store.UnsetSecretAdmitsMissingPassword` | server.js:201 | with no configured password, a request without one passes the gate, and any sent password fails it |
| `Store.ConflictWithoutIp` | server.js:74 | without an IP, a submission is refused exactly when some row has its email |
| `Store.FirstWithEmail` | server.js:170 | the position of the first row with the email, or none exactly when no row has it |
| `Store.CheckResults` | server.js:169-190 | "not found" exactly when no row has the email; otherwise the corrected flag, score, total, answers and justifications of a row with that email |
| `Store.CheckResultsFindsOwnRecord` | server.js:170-190 | in a well-formed table, looking up a row's email returns that row's results |
| `Store.CheckResultsEmptyEmail` | server.js:45-47 | no row can be found by the empty email, because submission refuses it |
| `Store.ViewResponses` | server.js:199-237 | refused exactly when the password does not match; otherwise the sentinel exactly for an empty table, and else the blocks of all rows in table order |
| `Store.OverrideScore` | server.js:263-265 | for an override of 0 or 1 the total moves by the override minus the stored flag's credit; for any other value it stays |
| `Store.OverrideFrame` | server.js:262-271 | only the overridden question's manual score and comment change; every flag, id, value and message and all other fields stay; the row becomes corrected |
| `Store.Reapplied` | server.js:262-271 | repeating an override keeps the number of questions and every auto-grade flag |
| `Store.RepeatedOverrideShiftsAgain` | server.js:263-266 | sending the same override n times moves the total n times; the question's fields end as after one override |
| `Store.DetailsHaveDistinctKeys` | server.js:97-106 | a bank with distinct ids gives an `answers` object with distinct keys |
| `Store.AppendKeepsWellFormed` | server.js:73-82 | a row that passed the duplicate check keeps emails and present IPs unique when appended |
| `Store.QuizStore.constructor` | server.js:14-28 | the table starts empty and well formed |
| `Store.QuizStore.Submit` | server.js:42-139 | 400 exactly for a missing field; 400 exactly for a clash on email or present IP; 500 exactly when grading fails; otherwise the table grows by one row at the end, with the graded score, the key-order answers, the "Manual"/"Automático" label, the justifications or an empty map, and corrected false; on refusal the table is unchanged; the new row is found by its email and its block ends the listing |
| `Store.QuizStore.UpdateFeedback` | server.js:244-283 | 401 exactly on a wrong password; "not found" exactly for an unknown email; 500 exactly for a question id that is not a key of the row's `answers` (ids naming inherited `Object` properties aside); these change nothing; otherwise the one row with that email becomes `Overridden` and reads back as corrected |
| `Store.QuizStore.Reset` | server.js:286-339 | 401 exactly on a wrong password, with the table unchanged; otherwise the table is empty and the listing is the sentinel sentence |

## Left out

- SQLite access is not modelled. This covers opening the database, the repeated `CREATE TABLE IF NOT EXISTS`, `VACUUM` and storage failures. Storage failures are not modelled. In the code, a failed duplicate query is logged and treated as "no clash", so the submission goes ahead. A failed `/check-results` lookup answers "not found". A failed `/update-feedback` lookup is not logged and also answers "not found". A failed `db.all` in `/view-responses` is not logged; reading `rows.length` then throws and the reply is 500. Provisioning and compaction change no record.
- The `id INTEGER PRIMARY KEY AUTOINCREMENT` column is not modelled: no handler returns or prints it. Rows come back in insertion order, which is what the unordered `SELECT`s give for this table.
- `GET /questions` and the reading and parsing of `questions.json` are not modelled; the question bank is a parameter of `Submit`. The question prompt is dropped because no handler reads it.
- JSON encoding of the `answers` and `justifications` columns is not modelled; the model keeps them as values. The `feedback` column, written once and never read, is dropped.
- The submission time is an opaque string parameter (`now`), because `toLocaleString('es-ES')` depends on the clock and the locale.
- The administrator password is a parameter (`secret`), because it comes from the process environment.
- HTTP routing, cache-control headers, `/admin` serving a static page, `app.listen` and console logging are not modelled. Each reply is an outcome datatype carrying its status code.
- Concurrency is not modelled; requests run one after another. The check-then-insert race of `/submit` therefore does not appear.
- JSON values are modelled as strings. Answers, justifications and comments that are numbers, `null` or objects are not modelled. An absent `answers` object is the empty map.
- The override score is modelled as an integer. The loose `score == 0` comparison and `parseInt` applied to strings are not modelled.
- `Store.QuizStore.Submit`: requires a question bank with distinct ids. JavaScript objects would merge the entries and answer keys of two questions sharing an id; the model does not describe that merge.
- Question ids are assumed not to look like array indices ("1", "2"). JavaScript lists such keys first in ascending order, not in insertion order.
- `Store.QuizStore.UpdateFeedback`: question ids naming an inherited `Object` property (`"toString"`, `"constructor"`, `"__proto__"`) are not modelled. In JavaScript, `answers[questionNumber]` finds the inherited object, so nothing throws. The total moves as if the question was not correct, the score and comment are written onto the inherited object, and the row is stored with the moved total and as corrected, with status 200. The stored `answers` column is unchanged, because `JSON.stringify` skips inherited properties. For `"__proto__"` the comment lands on `Object.prototype` in the running process, and from then on every listing shows it for each question without a comment of its own. The model answers `UpdateFailed` for these ids and changes nothing.
- `UPDATE ... WHERE correo = ?` changes every row with the email. Under the table invariant exactly one row has it, and `UpdateFeedback` states this.
