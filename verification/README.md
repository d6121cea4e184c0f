# Task API core, modelled in Dafny

This project models the server side of a small task-list web application.
The server is a Flask app that keeps one Mongo collection, `tasks`. The model
covers:

- the request-body validators (`validate_create`, `validate_update`, `PRIORITIES`);
- the document serializer (`serialize`);
- id parsing (`to_object_id`);
- the handlers' effect on the collection:
  - create, partial update and delete;
  - the positional reorder and the one-off order seeding;
  - the list order `(order, created_at)`;
  - the overdue flag of the task-detail page.

Every handler is a pure function. It takes the request data and the
collection, and returns a `Response` (status and body) together with the new
collection. The collection is a `map<ObjectId, Doc>`.

These inputs are parameters:

- the current time;
- today's date;
- the id a new document receives;
- the order in which the collection yields documents before sorting (`natural`).

Modules, one per file:

- `Py` (py.dfy): JSON values and the bits of Python semantics the code uses:
  - truthiness, `dict.get` and `(v or "")`;
  - the exceptions a handler can hit.
- `Text` (text.dfy): `str.strip`, `str.lower` and `str.split` on ASCII text.
- `ObjectIds` (objectid.dfy): `ObjectId(text)`, `str(oid)`, and the ids of a reorder request.
- `Schemas` (schemas.dfy): `validate_create`, `validate_update` and the priorities.
- `Db` (db.dfy): `serialize`.
- `Ordering` (ordering.dfy): Mongo's comparison of field values, sort keys, and a stable sort.
- `Dates` (dates.dfy): Python's `int(text)` and `datetime.date`, date order and ISO formatting.
- `Store` (store.dfy): `$set` on one document and the positional `update_one` loop.
- `Routes` (routes.dfy): the handlers and the properties that relate them.

`create_task` inserts no `order` field (`Routes.NewDocument` states that
`order` is absent). A new task therefore sorts before the numbered ones,
because a missing field sorts as null.

## Model

| member | source | states |
|---|---|---|
| Schemas.ParsePriority | app/schemas.py:3 | a lower-cased string names a priority exactly when it is one of "low", "normal", "high" |
| Schemas.ValidateCreate | app/schemas.py:5-20 | calling a string method on a truthy non-string title or priority raises AttributeError, and so does one on truthy non-string notes once title and priority pass. Otherwise a blank title or an unknown priority gives the error list. The payload validates exactly when none of these happens, and the document is then `CreateDoc` |
| Schemas.CreateDoc | app/schemas.py:15-20 | the created document has exactly the fields title, notes, priority and completed. The title is the stripped submitted title, which is not blank. The notes are stripped, or "" when falsy. The priority is the lower-cased submitted text, or "normal" when falsy, and it names a priority. `completed` is false |
| Schemas.ValidateCreateErrors | app/schemas.py:6-14 | the error list is exactly "title is required" when the title is missing or blank, followed by the priority message when the priority is not acceptable |
| Schemas.UpdateDoc | app/schemas.py:23-37 | the update document holds exactly the known fields the payload carries. Title and notes are stripped, priority is lower-cased, and completed is coerced to a boolean |
| Schemas.ValidateUpdate | app/schemas.py:22-38 | an empty payload gives an empty document. The fields are checked in the order title, notes, priority, and the first problem decides. A present truthy non-string field raises AttributeError. A blank title gives exactly ["title cannot be empty"]. A priority that is not a priority name gives exactly the priority message. Validation succeeds exactly on acceptable payloads, and the document is then `UpdateDoc` |
| Text.StripIsCore | app/schemas.py:7 | `strip` removes only surrounding whitespace: the result is a slice of the text with nothing but whitespace before and after it |
| Text.StripEmptyIff | app/schemas.py:7-8 | a stripped text is empty iff the text is all whitespace |
| Text.Strip | app/schemas.py:7 | a stripped text has no whitespace at either end |
| Text.StripIdempotent | app/schemas.py:25 | stripping twice is stripping once |
| Text.Lower | app/schemas.py:10 | lower-casing keeps the length and maps every character through the ASCII letter mapping |
| Text.LowerOfLower | app/schemas.py:10 | a text without upper-case ASCII letters is its own lower-case form |
| Text.LowerIdempotent | app/schemas.py:10 | lower-casing twice is lower-casing once |
| Text.Split | app/routes.py:44 | a split yields at least one part, and no part holds the separator. A text without the separator is its own single part |
| Text.SplitJoin | app/routes.py:44 | joining the parts with the separator gives the text back |
| ObjectIds.ToObjectId | app/db.py:17-22 | an id is returned exactly for 24 hexadecimal digits, and its rendering is the lower-cased text. Every other text is the ValueError case |
| ObjectIds.RenderRoundTrip | app/db.py:27 | parsing `str(id)` gives the same id back |
| ObjectIds.SameIdIffSameLowerCase | app/db.py:17-22 | two id texts name the same id exactly when they agree up to letter case |
| ObjectIds.ParseRefs | app/routes.py:119-122 | the id list converts exactly when every element converts. Null becomes a fresh id. The conversion is element by element |
| ObjectIds.ParseRef | app/routes.py:120 | one element converts exactly when it is null or 24 hexadecimal digits. Null, and only null, becomes a fresh id. A text becomes the id it parses to |
| Db.Serialize | app/db.py:24-35 | raises KeyError("title") iff the title is missing. Otherwise it gives exactly the eight public keys: an id that parses back to the document's id, and the title copied. notes, priority and the dates are copied or defaulted ("", "normal", null). completed is the truth of the stored value |
| Db.SerializeReadsStoredFields | app/db.py:26-35 | two documents that agree on the seven read fields serialize alike, so no other stored field is exposed |
| Db.SerializeIgnoresOrder | app/db.py:26-35 | the `order` field never affects the serialized task |
| Ordering.StrCmpZero | app/routes.py:59 | strings compare equal exactly when they are equal |
| Ordering.ValueCmp | app/routes.py:59 | values compare as -1, 0 or 1, a lower-ranked type comes first, and equal values tie |
| Ordering.ValueCmpWithinType | app/routes.py:59 | nulls tie. Numbers compare numerically. Strings tie only when they are equal. false comes before true |
| Ordering.KeyCmpFirstDifference | app/routes.py:59 | where two sort keys first differ, that field decides |
| Ordering.KeyCmpTie | app/routes.py:59 | two keys tie exactly when they have the same length and tie field by field |
| Ordering.SortKey | app/routes.py:59 | a document's sort key holds the value of each sort field in order, with null for a missing field |
| Ordering.KeyCmpAntisymmetric | app/routes.py:59 | swapping two sort keys negates their comparison |
| Ordering.KeyCmpTransitive | app/routes.py:59 | the sort-key order is transitive |
| Ordering.SortIds | app/routes.py:59 | the sort returns a permutation of its input |
| Ordering.SortIdsSorted | app/routes.py:59 | the sort's output is in ascending key order |
| Dates.ParseInt | app/routes.py:44 | `int(text)` succeeds iff the stripped text is digit groups with an optional sign, every whitespace character is one `int` skips (not 0x1C-0x1F), and there are at most 4300 digits. Its value is the digits' value, negated after a '-'. A text without '-' gives a non-negative number |
| Dates.SeparatorMarginRejected | app/routes.py:44 | `int` rejects a number with the file separator 0x1C as its margin, although `str.isspace` holds for it |
| Dates.TooManyDigitsRejected | app/routes.py:44 | a text of more than 4300 digits is rejected, leading zeros included |
| Dates.SignedParses | app/routes.py:44 | `int` reads back the decimal text of every integer of at most 4300 digits |
| Dates.NegativeParses | app/routes.py:44 | `int` reads back a minus sign followed by the digits of a natural number of at most 4300 digits |
| Dates.BeforeIffOrdinal | app/routes.py:45 | comparing two valid dates field by field agrees with comparing their day numbers |
| Dates.ParseDueDate | app/routes.py:44-45 | a due text parses iff it splits into exactly three parts on '-', each part is an integer and the three make a valid date. That date is the result |
| Dates.FormatDate | app/routes.py:44-45 | an ISO `YYYY-MM-DD` text holds only digits and dashes, and it parses back to the date it was written from |
| Dates.DueTextParses | app/routes.py:44-45 | three zero-padded numbers joined by dashes parse to their date, at any widths up to Python's 4300-digit limit |
| Dates.UnpaddedDueDate | app/routes.py:44-45 | "2024-1-5" parses to 5 January 2024 |
| Dates.IsValid | app/routes.py:45 | a valid date has a month in 1..12 and a day in 1..31. February 29 is valid exactly in a leap year between 1 and 9999 |
| Dates.DaysInMonth | app/routes.py:45 | months have 28 to 31 days. February has 29 exactly in a leap year, and every other month has at least 30 |
| Dates.IsOverdue | app/routes.py:39-48 | overdue holds iff the task is not completed and its due date is text that parses to a date before today. A malformed due date is never overdue |
| Dates.OverdueIffEarlierDay | app/routes.py:40-48 | for an open task whose due date is stored in ISO form, overdue iff its due day number is below today's |
| Store.SetFields | app/routes.py:102 | `$set` merges the fields into the matching document and changes nothing else. It is a no-op when no document matches |
| Store.AssignPositions | app/routes.py:127-128 | the position loop creates and removes no task |
| Store.AssignPositionsEffect | app/routes.py:127-128 | the position loop creates and removes nothing. A listed task gets its last position, and an unlisted task keeps its document |
| Store.AssignPositionsLastWins | app/routes.py:127-128 | for an id listed twice, the last index wins |
| Store.AssignKeepsOtherFields | app/routes.py:127-128 | the loop writes only `order` and the extra fields |
| Store.AssignDistinct | app/routes.py:153-154 | over a list without repetitions, each task gets its own index |
| Routes.SortedIds | app/routes.py:59 | the listing is a permutation of the stored tasks, in ascending key order |
| Routes.SortedIdsDistinct | app/routes.py:59 | the listing names each task once |
| Routes.SerializeAll | app/routes.py:60 | serializing the listing succeeds iff every listed document has a title. It then gives one task per document, in order, each the document's serialization |
| Routes.ListTasks | app/routes.py:54-64 | GET /api/tasks returns 200 iff every stored task has a title, and otherwise a server error. The tasks are serialized in listing order and the collection is unchanged |
| Routes.ListedTitles | app/routes.py:59-60 | the listing covers every stored task, so it has all titles iff the collection has |
| Routes.NewDocument | app/routes.py:70-79 | the inserted document has the validated fields and both timestamps equal to now. due_date is copied unvalidated exactly when it is truthy. There is no `order` |
| Routes.CreateTask | app/routes.py:66-84 | a validation error gives 400 with the messages and no write. Success gives 201, inserts exactly the new document, and returns its serialization |
| Routes.ApplyUpdate | app/routes.py:94-102 | the update writes the validated fields and a fresh updated_at into the task. All other fields and tasks are unchanged |
| Routes.UpdateTask | app/routes.py:86-105 | the body is checked before the id and the id before the lookup (400 errors, 400 invalid id, 404). A found task is updated. The reply is 200 with its serialization iff the updated task has a title, and otherwise 500 with the error page |
| Routes.Reorder | app/routes.py:107-130 | a missing, non-list or empty ids gives 400 with no write. Any bad element gives 400 with no write. Otherwise 200: each listed task gets its last index and updated_at, and unlisted tasks are unchanged |
| Routes.DeleteTask | app/routes.py:132-144 | an invalid id gives 400. An absent task gives 404. Otherwise exactly that task is removed |
| Routes.SeedOrder | app/routes.py:148-155 | each task gets `order` = its rank by created_at. The count is reported and no task is created or removed |
| Routes.TaskDetail | app/routes.py:23-50 | an unparsable or unknown id gives 404. A found task's page shows its serialization and the overdue flag |
| Routes.DeleteUndoesCreate | app/routes.py:132-144 | deleting a task just created restores the collection |
| Routes.DetailShowsCreated | app/routes.py:23-37 | the detail page of a new task shows what the create returned |
| Routes.UpdateIdempotent | app/routes.py:86-105 | an update repeated at the same instant changes nothing more and answers the same |
| Routes.UpdateRepeated | app/routes.py:86-105 | an update repeated later answers with the same status and changes no stored field other than updated_at |
| Routes.DeleteTwiceNotFound | app/routes.py:141-143 | a second delete of the same task is 404 |
| Routes.ReorderKeepsPublicFields | app/routes.py:127-128 | a reorder changes no serialized field other than updated_at |
| Routes.ReorderPositions | app/routes.py:127-128 | reordering by a list of stored tasks without repetition, all of them or some, gives each listed task its index as `order` |
| Routes.ListingByPositions | app/routes.py:59 | when the `order` fields number the tasks 0..n-1, the listing is that numbering |
| Routes.ListingFollowsReorder | app/routes.py:107-130 | after a reorder that names every task once, the list comes back in exactly the submitted order |
| Routes.ListingFollowsSeed | app/routes.py:148-155 | after seeding, the list comes back in created_at order |

## Left out

- HTTP plumbing is not modelled: Flask routing, request decoding, `jsonify` and the HTML templates. A request body is modelled as a JSON object (`Doc`). The `or {}` fallback for a missing or non-object body is not modelled.
- The landing and add pages are not modelled, and neither are `/healthz`, `_client` and `tasks_collection`. They are I/O only.
- The Mongo client and every database exception are left out. A `PyMongoError` (the `db_error` reply of the list handler) cannot arise in the model. Any other exception the list handler catches becomes `ServerErrorJson`, without the exception's text.
- Exception texts are not modelled: the `detail` of a server error, and the text appended to "bad id in list".
- `datetime.utcnow()` and `date.today()` are parameters, as are the id of a new document and the order in which the collection yields documents (`natural`).
- Routes.SortedIds: Mongo does not fix the order of documents with equal keys. The model sorts stably over `natural`, which is one order the database may produce.
- Ordering.ValueCmp: Mongo compares arrays by their smallest element and objects field by field. The model ranks all objects, and all arrays, as equal within their type. Stored sort fields here are numbers, strings or absent.
- Py.Value: JSON floating-point numbers are not modelled. Numbers are integers.
- Text.Strip: only ASCII whitespace is stripped. Python's `str.strip` also strips Unicode whitespace such as U+00A0. Text.Lower only lower-cases ASCII letters, and Python's `str.lower` also lower-cases other letters.
- Dates.ParseInt: only ASCII digits and ASCII whitespace are modelled. Python's `int` also skips Unicode whitespace such as U+00A0 around the number, and reads other Unicode decimal digits. Among ASCII characters the model follows `int` exactly: it skips tab, line feed, vertical tab, form feed, carriage return and space, and rejects the separators 0x1C-0x1F. The 4300-digit limit is CPython's default since 3.11; an interpreter without the limit accepts longer texts.
- ObjectIds.ToObjectId: bson's `bytes.fromhex` skips spaces inside a 24-character string. The model rejects such text. bson's acceptance of 12-byte values and of ObjectId instances is not modelled either, because JSON cannot carry them.
- app/__init__.py and run.py are configuration and start-up, and are not part of this model.
- Concurrency between requests is not modelled. Each handler is one atomic step.
