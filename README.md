# Feedback sessions store

A model of the store behind `toninog/feedback_app`, a small web application for
peer feedback rounds. An administrator creates a named session, identified by a
random eight-character token. People register under that token. The
administrator starts the session, and each participant submits one answer pair
(two free-text questions) about every registered participant. The administrator
watches per-name counters, closes the session and reviews the answers grouped
by recipient name. Sessions can be deleted with everything attached to them,
and the rows addressed to one participant can be downloaded.

The model keeps the three tables (sessions, participants, feedback rows) as
sequences in primary-key order, inside one `Store` class with one method per
request handler. It follows the handlers as they are written:

- There is a single `started` flag. Start sets it and Close clears it, so a
  closed session reads exactly like one never started. No operation consults it:
  registration, submission and starting work in every state. A three-phase
  design (registration, feedback, closed) is not what the code does.
- A submission writes one row for every participant of the session, the
  submitter included. The participant count shown as "total" is the count less
  one, so a counter can exceed its total.
- Both views file rows under the recipient's name, so participants who share a
  name share one counter and one list.
- The download filter looks the participant up by id in the whole participant
  table. A participant of another session yields an empty list, not an error.
- Primary keys are one more than the largest key in use, which is how an SQLite
  integer primary key without AUTOINCREMENT behaves. Keys can therefore come back
  after the newest session is deleted.

Modules:

- `Collections` (collections.dfy): the filter that every `filter_by` query
  amounts to, first-match search, key allocation, increasing keys and sums.
- `Models` (models.dfy): the three records of models.py. It also defines the
  predicate `Consistent`, which combines the constraints the schema enforces
  with the ones the handlers maintain.
  - The schema enforces unique tokens.
  - The token generator gives every token its shape.
  - SQLite's key rule keeps the keys increasing in insertion order.
  - The handlers keep every reference resolving, and the submission handler
    keeps every recipient in the row's own session. SQLite does not check the
    declared foreign keys unless `PRAGMA foreign_keys` is set, and the
    application does not set it.

  Next to it are lemmas showing that each kind of change keeps those constraints.
- `Aggregation` (aggregation.dfy): the monitoring counters and the review lists.
  Each is given once as a specification function (`Monitor`, `Review`) and once
  as the handler's loop (`CountSubmissions`, `GroupByRecipient`), which is proved
  equal to it. The properties of the two views are lemmas about the functions.
- `FeedbackStore` (store.dfy): the `Store` class, the submission loop and the
  error cases. The error cases are a session or participant that is not found, a
  token already in use, and a form without both answers for some participant.
  The class invariant `Valid()` is `Consistent` on its three fields, and every
  operation preserves it.

## Model

| member | source | states |
|---|---|---|
| Collections.Filter | app.py:70 | the rows kept are exactly the rows that satisfy the query's condition, and there are no more of them than in the table |
| Collections.FilterAppend | app.py:93 | a query over rows added later lists them after the older rows |
| Collections.FilterIncreasing | models.py:24 | a filtered table is still in ascending id order |
| Collections.FindFirst | app.py:62 | the result is the first matching row, or none when no row matches |
| Collections.NextId | models.py:6 | a new primary key is larger than every key in use: 1 for an empty table, otherwise one more than the largest |
| Models.FindToken | app.py:62 | the token lookup finds the first session bearing the token, and finds none only when no session bears it |
| Models.FindSession | app.py:160 | the key lookup finds the first session with that id, and finds none only when no session has it |
| Models.Consistent | models.py:5-24 | the store's constraints: increasing keys in all three tables, well-formed and unique tokens, and every participant and feedback row attached to an existing session, with a row's recipient in that same session; they imply that each table's keys are unique |
| Models.EmptyConsistent | models.py:5-24 | an empty database satisfies every constraint |
| Models.AddSessionConsistent | app.py:52-54 | adding a session with a fresh key and an unused well-formed token keeps every constraint |
| Models.AddParticipantConsistent | app.py:65-67 | adding a participant with a fresh key to an existing session keeps every constraint |
| Models.AddFeedbackConsistent | models.py:17-22 | appending feedback rows with fresh increasing keys, each addressed to a participant of its own existing session, keeps every constraint |
| Models.SetStartedConsistent | app.py:79 | changing one session's flag keeps every constraint |
| Models.DeleteConsistent | app.py:163-170 | removing a session with its feedback and participants leaves no reference to it, and every constraint still holds |
| Models.DeleteKeepsOtherSessions | app.py:163-166 | the two bulk deletes leave every other session's participants and feedback exactly as they were, in order |
| Models.AppendToSession | app.py:89-94 | committing rows of one session extends that session's feedback by exactly those rows, in order, and changes no other session's feedback |
| Models.TokenNamesOneSession | models.py:7 | in a consistent store a token names at most one session, so the token lookup finds that session |
| Aggregation.Lookup | app.py:120 | the participant found has the requested id, and none is found only when no participant has it |
| Aggregation.Monitor | app.py:117-122 | the monitoring view: one counter per participant name, each with the participant count less one as total and, as submitted, the number of rows whose recipient bears that name (never more than the rows) |
| Aggregation.Review | app.py:139-148 | the review view: each row in turn appended, as its answers and recipient id, to the list of its recipient's name; every list present is non-empty and no longer than the rows |
| Aggregation.TallySnoc | app.py:119-122 | counting one more row adds one to its recipient name's counter, if that recipient exists and the name has a counter, and changes nothing else |
| Aggregation.SubmittedSum | app.py:119-122 | summed over the names, the counters equal the number of rows whose recipient exists |
| Aggregation.MonitorSum | app.py:117-122 | summed over the session's participant names, the monitoring counters equal the number of rows whose recipient exists |
| Aggregation.AttributedAll | app.py:121 | when every recipient exists, every row is counted |
| Aggregation.SubmittedByDistinctName | app.py:119-122 | when names are distinct, a participant's counter equals the number of rows addressed to that participant |
| Aggregation.EntriesAppend | app.py:140-148 | a name's entries from older rows come before its entries from newer rows |
| Aggregation.EntriesFromRows | app.py:144-148 | each review entry carries the two answers and the recipient id of a row filed under that name |
| Aggregation.EntriesSum | app.py:139-148 | summed over the names, the list lengths equal the number of rows whose recipient exists |
| Aggregation.EntriesNonEmpty | app.py:142-143 | a name has entries exactly when some row is filed under it |
| Aggregation.ReviewGroups | app.py:139-148 | the review keys are exactly the names with at least one row, and each list holds that name's entries in row order |
| Aggregation.ReviewTotal | app.py:139-148 | when every recipient exists, the lists together hold exactly one entry per row of the session |
| Aggregation.RecipientInSession | models.py:20 | in a consistent store every feedback row of a session has a recipient, and the recipient belongs to that session |
| Aggregation.MonitorCountsRecipients | app.py:117-122 | in a consistent store with distinct names, each participant has a counter equal to the number of the session's rows addressed to them |
| Aggregation.MonitorTotal | app.py:115-122 | in a consistent store the session's counters add up to its number of feedback rows |
| Aggregation.CountSubmissions | app.py:117-122 | the counting loop builds the monitoring view: one counter per participant name, each with total equal to the participant count less one |
| Aggregation.GroupByRecipient | app.py:139-148 | the grouping loop builds the review view |
| FeedbackStore.PendingRows | app.py:89-93 | the batch succeeds exactly when every participant has both answers; on failure it names the first participant, in order, without them; on success it has one row per participant, in order, addressed to that participant, with their answers and consecutive ids |
| FeedbackStore.PendingRowsConsistent | app.py:92-94 | committing the batch staged for a session keeps every constraint |
| FeedbackStore.BatchInSession | app.py:92 | every staged row belongs to the submitting session |
| FeedbackStore.BatchCounts | app.py:89-94 | counting a batch adds, to each name's counter, the number of participants with that name (the submitter included) |
| FeedbackStore.SubmissionRaisesCounters | app.py:117-122 | after a submission the session's counter for each name rises by the number of its participants with that name |
| FeedbackStore.Store.constructor | models.py:5-22 | the store starts with three empty tables and satisfies its invariant |
| FeedbackStore.Store.CreateSession | app.py:50-54 | a token already in use fails with nothing changed; otherwise exactly one session is added with the given token and name, the next key and the flag cleared |
| FeedbackStore.Store.Register | app.py:62-67 | an unknown token fails with nothing changed; otherwise exactly one participant with that name, that session and the next key is appended, whatever the flag and even when the name is taken |
| FeedbackStore.Store.Start | app.py:76-80 | an unknown token fails with nothing changed; otherwise only that session's flag is set, whatever it was, and the session then reads as started |
| FeedbackStore.Store.Close | app.py:129-131 | an unknown token fails with nothing changed; otherwise only that session's flag is cleared, and no session with that token then reads as started |
| FeedbackStore.Store.IsStarted | app.py:105-108 | true exactly when a session with that token exists and its flag is set |
| FeedbackStore.Store.SessionParticipants | app.py:70 | an unknown token is not found; otherwise the result is exactly the session's participants, in id order |
| FeedbackStore.Store.SubmitFeedback | app.py:86-94 | an unknown token or a missing answer adds nothing; otherwise the rows of the batch are appended after the existing rows, the session's feedback grows by exactly them, and other sessions' feedback is unchanged |
| FeedbackStore.Store.Delete | app.py:160-170 | an unknown id fails with nothing changed; otherwise the session, its participants and its feedback are removed; no row refers to the id afterwards, and every other session's participants and feedback are unchanged |
| FeedbackStore.Store.MonitorView | app.py:113-124 | changes nothing; an unknown token is not found; otherwise the result is the monitoring view of the session, keyed by exactly its participant names, each total being the participant count less one |
| FeedbackStore.Store.ReviewView | app.py:137-149 | changes nothing; an unknown token is not found; otherwise the result is the review view of the session's feedback rows |
| FeedbackStore.Store.FeedbackFor | app.py:178-180 | an unknown token is not found, then an unknown participant id is not found; otherwise the result is exactly the session's rows addressed to that id, in id order |

## Left out

- Routing, templates, flash messages, redirects, the JSON replies and the HTTP
  status codes are not modelled. A 404 becomes a `SessionNotFound` or
  `ParticipantNotFound` result with the store unchanged.
- The administrator login, the `admin_required` decorator and logout are not
  modelled. They are cookie-based access control, not store logic.
- Random token generation is not modelled. Because it is nondeterministic, the
  token is a parameter of `CreateSession`, which requires eight ASCII letters or
  digits. The chance of a collision is handled as the unique constraint handles
  it: `DuplicateToken`, with nothing committed.
- The PDF rendering and the response headers of the download are not modelled.
  Only the row filter behind them is (`FeedbackFor`).
- The SQLite configuration, file paths, `create_all` on every request and the
  development server are not modelled. They are environment and I/O.
- The declared string lengths are not modelled, since SQLite does not enforce
  them.
- Concurrent requests and transaction isolation are not modelled. Each operation
  is atomic and runs alone.
- The submission form is modelled as two maps from participant id to answer, one
  per question. Form field names built from the id (`question_1_<id>`) are not
  modelled.
- The download route takes the participant id as text. The model takes a
  number, so text the database cannot read as an id is not modelled.
- Both views are maps, which have no order. The monitoring page lists names
  in participant order and the review page in order of first row, because
  dictionaries in the handlers keep insertion order. That display order is not
  modelled. The order of the entries within one name's list is modelled.
- Aggregation.Review: a row whose recipient no longer exists is skipped. The
  review page would fail on such a row. In a consistent store no such row
  exists (`RecipientInSession`), so `GroupByRecipient` and `ReviewView` never
  meet one.
- Aggregation.CountSubmissions requires every existing recipient's name to have
  a counter, because the monitoring page would fail otherwise. `MonitorView`
  establishes this from the store invariant.
