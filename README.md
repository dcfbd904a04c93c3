# Phoenix backend: the in-process logic of the request handlers

The Phoenix backend is an Express server over an Oracle database for a tutoring
centre. It manages teachers, students, groups, the weekly schedule, attendance,
notes and monthly fees. Most handlers hand SQL to Oracle. This project models
the parts whose behaviour is decided in JavaScript, and the effect of the
writing handlers on the tables.

- `wrappers.dfy`: `Option`, `Result`, and the reply of a handler (`Replies`).
  The reply is reduced to applied (200/201), a 400 with its reason, 404, 500,
  or no reply at all.
- `js_values.dfy`: the JavaScript value semantics the handlers rely on:
  - truthiness, `??`, `||`, `String(v)`, `Number(v)`, `parseInt(s, 10)` and `trim`;
  - how node-oracledb binds a JavaScript value to a NUMBER column.
- `validators.dfy`: the checks that run before any statement:
  - the password strength rule;
  - the teacher user name builder;
  - the group-update input checks;
  - the cash-report period selection;
  - the Cloudinary URL check.
- `note_digest.dfy`: the post-processing of the student report's note
  digest, which drops every line carrying the quick-rating marker.
- `schedule_batch.dfy`: the reconciliation of the SCHEDULE table with the
  array the timetable editor posts, as functions over the table.
- `tables.dfy`: the rows of the tables, and `Store`, which holds all tables
  and the next value of each sequence. Also the consistency the handlers keep
  (`Consistent`) and one lemma per kind of write, proving that write keeps it.
  `Consistent` includes `Joins`: every membership joins an existing student
  and an existing group of the same grade. Adding a membership checks this. A grade change
  drops the memberships it would break: always for a student, and for a
  group when its grade differs.
- `cascades.dfy`: what the teacher, student and group cascades leave behind,
  as functions of the tables.
- `database.dfy`: the class `Backend.Database`.
  - Its fields are the tables and the sequences.
  - Each writing handler is a method.
  - Each method runs the handler's statements in order and commits or rolls
    back as the handler does.
  - Each method's `ensures` gives the new state as a function of the old one
    and the request, and keeps `Valid()` (the consistency of `Tables`).

Conventions of the model:
- A commit keeps the new state; a rollback restores the tables of the
  snapshot. Sequences are not rolled back: a teacher insert that is rolled
  back, and a group insert refused as a duplicate, still use up their id.
- Two conversions the program hands to code outside this model are function
  parameters:
  - `parse`: `new Date("2026-01-01T<time>:00")` in the schedule batch;
  - `toDate`: Oracle's `TO_DATE(value, mask)`.
- `rejects` says which schedule writes Oracle refuses for a table constraint.
- A route parameter reaches its method already converted, as the handler
  converts it:
  - `Number(req.params.id)` arrives as a `Num`;
  - a parameter bound as it is arrives as `BindNumber` of the string;
  - two methods take the raw string instead and convert it themselves, as
    their handlers do: `RecordNote` applies `parseInt` to `:studentId`, and
    the group update's `:id` goes through `ParseGroupEdit`.
- Column types: the schema is not part of this model, so each column's type
  is taken from how the handlers use it.
  - These columns are NUMBER: ids, grade, teacher, group, room, the fee
    year and month, the fee amount and paid flag (the reports read them with
    `NVL(..., 0)` and `IS_PAID = 1`), and the rating. A value bound to one of
    them goes through `BindNumber` or `BindNum`. A boolean, or a string that
    does not convert, fails the statement.
  - All other columns hold the bound value as it is, through `Stored` or
    `x || null`, booleans included. These are the names, PHONE, GENDER,
    IMAGE, SUBJECT, GOLDEN, YOUTUBE_URL and the attendance status.
  - The group NAME is text: a number is stored as its decimal rendering, and
    a boolean is taken to be refused (`GroupNameText`).

## Model

| member | source | states |
|---|---|---|
| JsValues.TrimStartSuffix | index.js:691 | `trim` removes exactly the leading white space: the result is a suffix, everything dropped is white space, and the result does not start with white space |
| JsValues.TrimEndPrefix | index.js:691 | `trim` removes exactly the trailing white space: the result is a prefix, everything dropped is white space, and the result does not end with white space |
| JsValues.DigitPrefixLength | index.js:689 | the digit run `parseInt` reads is the longest prefix made of digits |
| JsValues.ParseNatToString | index.js:235 | reading back the decimal rendering of a natural number gives the number |
| JsValues.TrimIntToString | index.js:235 | a rendered integer has no white space for `trim` to remove |
| JsValues.StringToNumber | index.js:534 | `Number(s)`: a blank string is 0, a negative result needs a leading `-`, and a string read as a number ends with a digit |
| JsValues.ToNumber | index.js:692 | `Number(v)`: a number is itself; every falsy value except undefined is 0; a non-zero result comes only from a truthy value; only undefined and strings give NaN |
| JsValues.ParseInt10 | index.js:689 | `parseInt(s, 10)` is NaN exactly when no digit follows the leading white space and optional sign; a negative result needs a leading `-` |
| JsValues.ParseIntAgreesWithNumber | index.js:689-693 | where `Number(s)` reads a non-blank string as an integer, `parseInt(s, 10)` reads the same integer |
| JsValues.NumberOfIntToString | index.js:534 | `Number(String(i)) == i` |
| JsValues.ParseIntOfIntToString | index.js:689 | `parseInt(String(i), 10) == i` |
| JsValues.IntToStringInjective | index.js:235 | different integers render differently |
| Validators.Scan | index.js:278 | each flag is true exactly when the password contains a character of that class; `onlyAllowed` is true exactly when every character is in `A-Za-z0-9@$!%*?&` |
| Validators.IsStrongPassword | index.js:278 | accepted if and only if: at least 8 characters, all from the allowed set, and at least one lower-case letter, one upper-case letter, one digit and one of `@$!%*?&` |
| Validators.IntToStringChars | index.js:278 | a number converted by `String` holds only digits and `-`, so it has no upper-case letter |
| Validators.StrongOnlyFromString | index.js:278-280 | among undefined, null, booleans, numbers and strings, only a non-empty string can pass the strength test |
| Validators.CheckPasswordChange | index.js:280-285 | the strength test comes first; its failure alone gives the weak-password 400; a falsy USER_ID or CURRENT_PASSWORD then gives the missing-fields 400; otherwise the new password is accepted |
| Validators.Lower | index.js:234 | `toLowerCase` keeps the length and maps every character through the A-Z to a-z mapping |
| Validators.RemoveWhitespace | index.js:234 | `replace(/\s+/g, '')` keeps exactly the non-white-space characters and never lengthens the string |
| Validators.RemoveWhitespaceAppend | index.js:234 | removing white space distributes over concatenation, so the characters that stay keep their order |
| Validators.Clean | index.js:234 | `clean` leaves no white space and no upper-case letter |
| Validators.Username | index.js:235 | the user name ends with `_` and the teacher id, and its length is the two cleaned names, two underscores and the id |
| Validators.AfterLastUnderscore | index.js:235 | the last `_`-separated segment holds no `_` |
| Validators.LowerWithoutUpper | index.js:234 | lower-casing a string without upper-case letters changes nothing |
| Validators.RemoveWhitespaceWithoutWhitespace | index.js:234 | removing white space from a string without white space changes nothing |
| Validators.CleanIdempotent | index.js:234 | cleaning twice is cleaning once |
| Validators.AfterLastUnderscoreOf | index.js:235 | the segment after the last `_` of `x + "_" + d` is `d` when `d` has no `_` |
| Validators.UsernameProperties | index.js:234-235 | the user name has no white space and no upper-case letter, its last segment is the teacher id, and that segment parses back to the id |
| Validators.UsernameDeterminesTeacher | index.js:235 | two teachers with different ids never get the same user name |
| Validators.TrimmedEnds | index.js:691 | a trimmed non-empty string neither starts nor ends with white space |
| Validators.GroupNameInput | index.js:691 | `(GROUP_NAME ?? NAME ?? '').toString().trim()`: a string GROUP_NAME wins; with GROUP_NAME null or undefined a string NAME is used; with both null or undefined the name is `''`; a non-empty result neither starts nor ends with white space |
| Validators.ParseGroupEdit | index.js:689-698 | each of the four 400s is given exactly when its check fails and every earlier check passed, in the order id, name, grade, teacher. The edit is accepted if and only if all four pass, and it carries the parsed id, grade and teacher and the trimmed name |
| Validators.GroupEditKeyPrecedence | index.js:691-692 | `GROUP_NAME` wins over `NAME` when it is a string; `gradeId: null` alone reads as grade 0 |
| Validators.SelectCashFilter | index.js:1252-1300 | a period is selected if and only if the type is known and its parameters are truthy; month and year are bound through `Number`; otherwise the exact 400 message of the branch is returned |
| Validators.CheckImageRequest | index.js:1842-1850 | accepted if and only if both fields are truthy and the URL is a string starting with the Cloudinary prefix. Falsy fields give the missing-fields 400. A truthy string URL without the prefix gives the invalid-URL 400. A truthy non-string URL throws outside the try block (no reply) |
| NoteDigest.Split | index.js:1743 | `split('\n')` gives at least one piece, none holding a line feed |
| NoteDigest.KeepLines | index.js:1743 | the filter keeps exactly the lines without the marker |
| NoteDigest.JoinSplit | index.js:1743 | joining the pieces of a split gives the string back |
| NoteDigest.SplitJoin | index.js:1743 | splitting a join of line-feed-free pieces gives the pieces back |
| NoteDigest.KeepLinesAppend | index.js:1743 | the filter distributes over concatenation, so the kept lines keep their order |
| NoteDigest.KeepLinesOfKept | index.js:1743 | lines that all pass the filter are kept unchanged |
| NoteDigest.Digest | index.js:1742-1744 | a null or empty NOTES column becomes `''`, and a digest with no marked line comes back unchanged |
| NoteDigest.DigestKeepsUnmarkedLines | index.js:1742-1744 | a null or empty digest becomes `''`; otherwise the lines of the result are exactly the unmarked lines of the input, in order; no result line carries the marker |
| NoteDigest.DigestIdempotent | index.js:1742-1744 | post-processing twice is post-processing once |
| ScheduleBatch.SkippedIgnoresState | index.js:1127-1142 | the skip test reads only `start_time`: whether an item is skipped does not depend on its `_state` |
| ScheduleBatch.Targets | index.js:1163-1190 | an update or delete targets at most one row, the one its bound `schedule_id` names |
| ScheduleBatch.SlotOf | index.js:1150-1160 | a row to write exists exactly when `group_id` and `room_id` bind to numbers; it carries their bound values, the parsed start and end times, the class date and the day as sent |
| ScheduleBatch.Step | index.js:1127-1192 | a falsy or unparsable start time, or any other `_state`, changes nothing. `new` fails when group or room does not bind or the insert is refused, and otherwise stores the slot built from the item under the next id. `updated` fails likewise, and otherwise overwrites the targeted row with that slot if it exists and changes nothing if not. `deleted` fails when the id does not bind or the delete is refused, and otherwise removes exactly its target. Every untargeted row keeps its value |
| ScheduleBatch.Run | index.js:1126-1193 | the batch only adds ids drawn from the sequence; every row no item targets survives unchanged |
| ScheduleBatch.WellFormed | index.js:1127-1142 | the items that reach the dispatch are exactly those not skipped |
| ScheduleBatch.WellFormedAppend | index.js:1126-1142 | the selection distributes over concatenation, so the items that reach the dispatch keep their array order |
| ScheduleBatch.RunSkipsMalformed | index.js:1127-1142 | the batch does exactly what its well-formed items do; a skipped item has no effect even when `_state` is `deleted` |
| ScheduleBatch.RunAppend | index.js:1126-1193 | items run strictly in array order: running `a + b` is running `a`, then `b` from where `a` left off, unless `a` failed |
| ScheduleBatch.RunFailsAtOneItem | index.js:1126-1198 | a failed batch stops at one item: the items before it were applied and committed, its statement failed, and nothing after it ran |
| ScheduleBatch.RunSingle | index.js:1126-1193 | a one-item batch is the item's step, `ok` exactly when the statement succeeded |
| Tables.Stored | index.js:1575 | a bound value reads back as NULL when it is undefined or `''`, and as itself otherwise; truthiness is kept |
| Tables.Merge | index.js:1562-1570 | a MERGE leaves exactly one row at the key, holding the new value, and changes no other row |
| Tables.MergeIdempotent | index.js:1562-1570 | repeating the same MERGE changes nothing more |
| Tables.NextIdsAreFree | index.js:217 | in a consistent store, the next value of every sequence is not yet a key of its table |
| Tables.RecordsAreFree | index.js:1562-1570 | the consistency invariant does not constrain attendance, notes or fees, so replacing those tables keeps it; the attendance, note and fee methods rely on this frame fact |
| Tables.TeacherSequenceAdvances | index.js:217 | drawing a TEACHERS_SEQ value and throwing it away keeps the store consistent |
| Tables.GroupSequenceAdvances | index.js:652-665 | drawing a GROUPS_SEQ value for an INSERT the unique constraint refuses keeps the store consistent |
| Tables.AddTeacher | index.js:213-248 | one teacher row under the next TEACHERS_SEQ value and one 'teacher' user under the next USERS_SEQ value pointing at it; no other teacher or user row changes, every other table and the other sequences are unchanged |
| Tables.AddTeacherConsistent | index.js:213-248 | adding a teacher and its user keeps the store consistent |
| Tables.SetTeacherConsistent | index.js:1867-1875 | overwriting an existing teacher keeps the store consistent |
| Tables.AddStudentConsistent | index.js:516-519 | inserting a student under a fresh id keeps the store consistent |
| Tables.AddGroupConsistent | index.js:652-665 | inserting a group with a name no group has keeps the store consistent, group names included |
| Tables.UpdateGroupConsistent | index.js:714-732 | overwriting a group with a name no other group has keeps the store consistent, grades included, when the memberships it keeps are only those of other groups or its grade is unchanged |
| Tables.AddMemberConsistent | index.js:955-975 | a membership between an existing group and an existing student of the group's grade keeps the store consistent |
| Tables.RemoveMemberConsistent | index.js:1006-1010 | dropping a membership keeps the store consistent |
| Tables.ScheduleConsistent | index.js:1126-1193 | a schedule whose ids were all drawn from the sequence keeps the store consistent |
| Cascades.RemoveStudent | index.js:563-591 | the student and every attendance, note, fee and membership row referring to it are gone; every other row and every other table is unchanged |
| Cascades.ReplaceStudent | index.js:540-544 | the student's memberships are gone; its row is overwritten if present and no row is added; nothing else changes |
| Cascades.RemoveGroups | index.js:755-792 | the groups, their slots, fees and memberships, and the attendance and notes of their slots are gone; every other row is unchanged; teachers, users and students are untouched |
| Cascades.RemoveTeacher | index.js:382-440 | the teacher, its users and its groups are gone, and so are the slots, fees and memberships of those groups and the attendance and notes of their slots: all tables but teachers and users are those of `RemoveGroups` on the teacher's groups. No remaining group or user refers to the teacher; students and sequences are untouched |
| Cascades.RemoveStudentConsistent | index.js:563-599 | removing a student with its dependants keeps the store consistent |
| Cascades.RemoveGroupsConsistent | index.js:755-800 | removing groups with their dependants keeps the store consistent |
| Cascades.RemoveTeacherConsistent | index.js:382-447 | removing a teacher with its groups and users keeps the store consistent |
| Cascades.UpdateStudentConsistent | index.js:540-545 | the student update keeps the store consistent |
| Backend.NewTeacher | index.js:219-227 | FIRST_NAME and LAST_NAME are stored as bound; each optional column holds its value when truthy and NULL otherwise (`x \|\| null`); GOLDEN holds its value when truthy and 'N' otherwise |
| Backend.FeeKeyOf | index.js:1387-1396 | a fee row has a key exactly when student, group, year and month all bind to non-NULL numbers, and the key holds those bound values |
| Backend.GroupNameText | index.js:659 | a string name is stored as it is; only strings and numbers are stored |
| Backend.Database.constructor | index.js:203 | an empty, consistent database whose sequences start at 1 |
| Backend.Database.Rollback | index.js:267 | every table returns to the snapshot |
| Backend.Database.CreateTeacher | index.js:203-274 | a non-string first or last name makes `clean` throw: 500, the insert is rolled back and the sequence value stays used. Otherwise the teacher and its 'teacher' user named `clean(first)_clean(last)_id` are added under fresh ids |
| Backend.Database.InsertTeacherAccount | index.js:213-250 | the two inserts add the teacher under a fresh id and its user named after that id, keeping the store consistent |
| Backend.Database.InsertTeacher | index.js:213-233 | the row is stored under the next TEACHERS_SEQ value, which is returned |
| Backend.Database.InsertUser | index.js:238-248 | the user is stored under the next USERS_SEQ value |
| Backend.Database.DeleteGroupRecords | index.js:382-409 | the first three deletes leave the attendance, notes and fees of `RemoveGroups` of the state |
| Backend.Database.DeleteGroupRows | index.js:382-430 | the six deletes leave exactly `RemoveGroups` of the state |
| Backend.Database.DeleteTeacher | index.js:374-457 | an unbindable id is a 500 and a NULL or absent teacher a 404, with no change. Otherwise the state is `RemoveTeacher` of the old one: the teacher, its users and its groups are gone, and no remaining slot, fee or membership belongs to one of its groups, nor any attendance or note to one of their slots |
| Backend.Database.ChangeTeacherImage | index.js:1839-1880 | input errors come first with no change. An unknown or NULL teacher is a 404. Otherwise only that teacher's IMAGE becomes the URL |
| Backend.Database.CreateStudent | index.js:509-530 | falsy NAME or GRADE_ID is a 400; an unbindable grade a 500; otherwise one student is added under the next STUDENTS_SEQ value and nothing else changes |
| Backend.Database.UpdateStudent | index.js:533-553 | the student's memberships are always deleted, then its row is overwritten if present. A NaN id or an unbindable grade is a 500 with nothing changed |
| Backend.Database.DeleteStudentRows | index.js:563-591 | the five deletes leave exactly `RemoveStudent` of the state |
| Backend.Database.DeleteStudent | index.js:556-608 | a NaN id is a 500 and an absent student a 404, with every table as before. Otherwise the student and every attendance, note, fee and membership row referring to it are gone |
| Backend.Database.CreateGroup | index.js:640-686 | falsy fields give a 400. A name already in use gives the duplicate-name 400; the refused INSERT has used up its GROUPS_SEQ value and nothing else changes. Otherwise one group is added under the next GROUPS_SEQ value |
| Backend.Database.UpdateGroup | index.js:688-742 | the route parameter and body go through `ParseGroupEdit`; each of its 400s is the reply, with nothing changed. An absent group changes nothing. Memberships of the group are deleted if and only if the stored grade differs; other groups' memberships stay. Then name, grade and teacher are set. A name another group holds is a 500 with nothing changed |
| Backend.Database.DeleteGroup | index.js:746-817 | `!groupId` is a 400 and an absent group a 404, with no change. Otherwise the group, its slots, fees and memberships, and the attendance and notes of its slots are gone |
| Backend.Database.AddMember | index.js:943-991 | a zero or NaN group id, or a falsy studentId, is a 400. A group and student that do not exist with equal grades give a 400. An existing pair gives the duplicate 400. Otherwise exactly that membership is added |
| Backend.Database.RemoveMember | index.js:994-1024 | zero or NaN ids are a 400; an absent pair is a 404; otherwise exactly that membership is removed |
| Backend.Database.SaveScheduleItem | index.js:1127-1192 | one turn of the loop changes the schedule exactly as `Step` says, and reports whether its statement succeeded |
| Backend.Database.SaveSchedules | index.js:1118-1198 | the schedule ends as `Run` says; the reply is 200 exactly when every statement succeeded, else 500; the other tables are unchanged |
| Backend.Database.RecordAttendance | index.js:1548-1586 | a NaN id is a 400 with no change. Otherwise exactly the row at (schedule, student, day) holds the status and every other row is unchanged |
| Backend.Database.RecordNote | index.js:1587-1632 | with ids and rating from `parseInt` and a valid date, exactly the row at (student, schedule, day) holds the rating and text; otherwise 500 with no change |
| Backend.Database.UpdateFee | index.js:1381-1446 | a falsy required field is a 400 with no change. A key, amount or paid flag that does not bind to a NUMBER, or a date `TO_DATE` refuses, is a 500 with no change. Otherwise, whether the row existed or not, exactly the row at (student, group, year, month) holds the bound amount, the bound paid flag and the date |

## Left out

- Login, the change-password hash check and update, and bcrypt: these are foreign calls. `CheckPasswordChange` models only the input checks before them.
- The WhatsApp link in the create-teacher reply, room occupancy, the overall rating (floating point), and the SQL-only read endpoints: their logic lives in Oracle or in floating point.
- Express routing, connection handling and the exact HTTP bodies: a reply is reduced to its kind (applied, 400 with reason, 404, 500, none).
- The teacher PUT handler: a plain overwrite of a row, outside the model.
- Concurrency: handlers are modelled one at a time. The race between the fee lookup and its write is not modelled.
- Route parameters: each method takes its parameter already converted, as the handler converts it, rather than the raw string. The exceptions are RecordNote, which takes the raw `:studentId` string and parses it as the handler does, and the group update, whose `:id` string goes through `ParseGroupEdit`.
- StringToNumber: models `Number(s)` for decimal integers only. Fractional, hexadecimal, exponent and `Infinity` literals read as NaN; JSON numbers are integers.
- IntToString: numbers are exact unbounded integers. JavaScript numbers are doubles: integers above 2^53 are not exact, and `String(n)` uses exponent form once |n| reaches 1e21.
- NumberOfIntToString: matches JavaScript only for integers that doubles hold exactly, below 2^53 in magnitude.
- ParseIntOfIntToString: matches JavaScript only below 1e21 in magnitude. From 1e21 on, `String(n)` is in exponent form and `parseInt` stops at the `e`: a note rating of 1e21 binds as 1 in the source, but as 10^21 in `RecordNote`.
- ParseInt10: the note handler calls `parseInt` without a radix, which reads a `0x` prefix as hexadecimal. The model reads base 10.
- Lower: `toLowerCase` is restricted to A-Z; other letters are left as they are.
- BindNum: a NaN number bound to a NUMBER parameter is taken to fail the statement.
- BindNumber: Oracle's conversion of a string to NUMBER is modelled as `Number(s)`. A boolean bind is taken to fail.
- GroupNameText: a boolean group name is taken to be refused by the bind.
- Stored: models only undefined and `''` becoming NULL. The Date objects and timestamps the program binds are opaque.
- Step: `new Date(...)` for the start and end times, and `new Date(class_date)`, are not modelled: `parse` is a parameter, and the class date is kept as sent.
- `TO_DATE`: a parameter (`toDate`), with the date masks as constants.
- Constraint failures other than the ones the handlers test for are not modelled, except in the schedule batch (`rejects`):
  - foreign keys on group, grade and teacher ids;
  - NOT NULL columns;
  - ORA-02292 on group deletion.
- RecordAttendance: a NULL date never matches in the MERGE, so Oracle would insert a new row each time. The model treats the date `toDate` returns as a key like any other.
- The attendance status is stored as sent; the source does not validate it. The fee amount and paid flag are not validated either: they are bound to their NUMBER columns as sent, and a value that does not convert fails the write.
- The schedule batch with a body that is not an array: `for ... of` throws before the loop.
- The fee handler does not close its connection when a statement fails; connections are not modelled.
- StrongOnlyFromString: request values are undefined, null, booleans, integers and strings. JSON arrays and objects are not modelled. `String(["Abcdef1!"])` is a strong string, so such an array would pass the strength test in the source.
- RecordNote: a NULL note date never matches in the MERGE, so Oracle would insert a new row each time. The model treats the date `toDate` returns as a key like any other.
- Step: an INSERT that a constraint refuses has already drawn its SCHEDULE identity value in Oracle. The model keeps the counter of a failed step, because `Run` returns the table as it was before the failing statement.
- CreateGroup: a statement that fails on a bind conversion (500) is taken not to draw a GROUPS_SEQ value; only the unique-constraint refusal does.
