# Slot-filling registration dialogue, modelled in Dafny

This project models the dialogue manager of a course-registration chatbot
(`chatbot.py`). Over several conversational turns it collects six fields:
`language`, `first_name`, `last_name`, `city`, `email` and `course`. Each
turn goes like this:

1. An extractor turns the user's text into a candidate dictionary.
2. The candidate is merged into the session record. A field that already
   holds a value is never overwritten.
3. The evaluator lists the fields that are still empty, in declaration order.
4. If nothing is missing, the record is saved, the session is reset to a
   fresh record, and the reply is one of five closing phrases followed by
   `" [redirect]"`.
5. Otherwise the reply is the responder's follow-up for the missing list and
   the user's text.

Modules:

- `Wrappers` (`wrappers.dfy`): the `Option` type.
- `StudentRecord` (`record.dfy`): the `Field` enumeration and its
  declaration order `Fields`, the attribute names, the `Record` datatype
  (six `Option<string>` fields), the fresh record `Initial`, and the
  predicate `Empty`. `Empty` means `None` or `Some("")`.
- `MergeEngine` (`merge.dfy`): `Merge`, the fill-only-if-empty merge of a
  candidate `map<string, Option<string>>`, and its lemmas.
- `Completion` (`completion.dfy`): the specification `Missing` and the
  looping method `FindMissingDetails`, proved against it.
- `Dialogue` (`dialogue.dfy`): the pure turn `Step`, a run of turns `Run`,
  and the `Session` class. Each turn of a run carries its own candidate and
  its own responder, since every turn makes fresh language-model calls. `Session` has a mutable `record` and a ghost
  `saved` log that stands in for the store. Its method `Turn` is proved
  against `Step`.
- `Scenarios` (`scenarios.dfy`): the repository's unit-test inputs and
  four turn scenarios, stated against the model. The turns are: a message
  giving everything but the language, then the language (the completing
  turn), an empty extraction, and a failed save.

The source uses two tests of emptiness. Merge uses `not value`; the
evaluator uses `value in [None, "", 0]`. For optional text they agree: no
string equals `0`. So both are the one predicate `Empty`.

The collaborators are abstract:

- The extractor is a parameter of type `string -> Candidate`.
- The responder is a parameter of type `(seq<string>, string) -> string`.
- `random.choice` is a caller-supplied index `choice < 5` into the phrase list.
- The save is a caller-supplied flag `saveSucceeds`.

A failed save is the outcome `SaveFailed`. It stands for the exception the
source lets propagate. The session then keeps the merged record, because
the source stores the merged record (line 146) before it saves (line 153)
and resets (line 162).

## Model

| member | source | states |
|---|---|---|
| StudentRecord.Index | chatbot.py:24-48 | every field has a position in the declaration order `language` … `course` |
| StudentRecord.IndexOfPosition | chatbot.py:24-48 | the declaration order lists each field once |
| StudentRecord.NameInjective | chatbot.py:24-48 | distinct fields have distinct attribute names |
| StudentRecord.InitialIsEmpty | chatbot.py:136 | a fresh record (every field defaulting to `None`) has every field empty, nothing filled, and is not complete |
| MergeEngine.Merge | chatbot.py:72-99 | a filled current field is kept whatever the candidate holds; an empty one takes the candidate's entry for its name when the key is present, and keeps its current value when the key is absent |
| MergeEngine.MergeFilled | chatbot.py:82-89 | the fields filled after a merge are exactly those filled before plus those the candidate supplies non-empty; so merge is monotone |
| MergeEngine.MergeIdempotent | chatbot.py:82-99 | merging the same candidate twice gives the same record as merging it once |
| MergeEngine.MergeEmptyCandidate | chatbot.py:83-88 | an empty candidate leaves the record unchanged |
| MergeEngine.MergeIgnoresUnknownKeys | chatbot.py:82-89 | a candidate key that names no field has no effect on the result |
| MergeEngine.MergeIntoComplete | chatbot.py:83-88 | a complete record is unchanged by any candidate |
| Completion.MissingUpToFacts | chatbot.py:105-109 | scanning the first k declared fields yields exactly the empty ones among them, at strictly increasing positions |
| Completion.Missing | chatbot.py:102-110 | a field is listed if and only if it is empty; the list has no repeats, follows declaration order, has at most six entries, and is empty exactly when the record is complete |
| Completion.MissingNames | chatbot.py:102-110 | the reported attribute names: a name occurs if and only if its field is empty, no name occurs twice, at most six, empty exactly when complete |
| Completion.NamesOfFields | chatbot.py:24-48 | the attribute names in declaration order are `language`, `first_name`, `last_name`, `city`, `email`, `course` |
| Completion.MissingOfInitial | chatbot.py:136 | a fresh record is missing all six fields, listed in declaration order |
| Completion.FindMissingDetails | chatbot.py:102-110 | the loop returns the names of the empty fields in declaration order; a name is returned if and only if its field is empty; empty result exactly when complete |
| Dialogue.ClosingEndsWithMarker | chatbot.py:154-163 | every closing reply ends with the completion marker `" [redirect]"` |
| Dialogue.Step | chatbot.py:139-166 | something is saved exactly when the merged record is complete and the save succeeds; then the saved record is that complete merged record, the session resets to a fresh record, and the reply is a closing phrase plus the marker; a failed save leaves the merged record and surfaces as `SaveFailed`; an incomplete merge keeps the merged record, saves nothing and replies with the responder's output for the missing names and the text |
| Dialogue.RunSavesOnlyComplete | chatbot.py:146-163 | over any sequence of turns, every saved record is complete; the number of saves equals the number of completing turns (merged record complete and save succeeds); there is one outcome per turn |
| Dialogue.RunKeepsFilled | chatbot.py:146 | until a record is saved, a field once filled keeps its first value across any number of turns |
| Dialogue.Session.constructor | chatbot.py:136 | the session starts with a fresh record and an empty save log |
| Dialogue.Session.Turn | chatbot.py:139-166 | one turn updates the session record, the save log and the reply exactly as `Step` does: on completion it appends the complete merged record to the log once, resets the record and returns a closing reply; otherwise the log is unchanged and the record is the merged one; every logged record stays complete |
| Scenarios.MergeIntoFreshRecord | tests/test_chatbot.py:28-42 | merging the test's candidate into a fresh record yields its first name, city, email and course, and leaves the language absent |
| Scenarios.MissingOfPartialRecord | tests/test_chatbot.py:44-53 | a record with only first name and city lacks `language`, `last_name`, `email`, `course`, in that order |
| Scenarios.FirstTurnAsksForLanguage | chatbot.py:146-166 | after a turn that supplies everything but the language, only `language` is missing, nothing is saved and the responder is asked about `["language"]` |
| Scenarios.SecondTurnCompletes | chatbot.py:146-163 | the next turn supplying the language saves the full six-field record, resets the session and replies with the chosen closing phrase plus the marker |
| Scenarios.EmptyExtractionChangesNothing | chatbot.py:146-149 | an empty candidate on an incomplete record changes nothing, saves nothing and asks about the same missing list |
| Scenarios.FailedSaveKeepsRecord | chatbot.py:146-153 | when the completing save fails, the session keeps the merged record rather than a fresh one, and no closing reply is returned |

## Left out

- The extractor `extract_student_details` (chatbot.py:55-69) is a call to a language model. It is an uninterpreted parameter.
- The responder `prompt_for_missing_info` (chatbot.py:113-133) is a call to a language model. It is an uninterpreted parameter.
- Errors raised by the extractor are not modelled. The source does not catch them (line 143), so there is no "degrade to an empty candidate" path.
- Responder failures are not modelled either. The source lets them propagate (line 166).
- `random.choice` is a caller-supplied index into the five phrases.
- `save_student_details` and the rest of `db.py` are a SQLite store. The save is an abstract flag that says whether it succeeds. A success appends the record to the ghost `saved` log.
- A failed save stands for the two ways `save_student_details` (db.py:42-57) can raise: the `int(course)` conversion (db.py:53), and a SQLite I/O error. The conversion runs before the INSERT, so a failed save writes nothing.
- Row ids and the course join do not affect a turn. The join appears only in the read queries. The declared foreign key is never enforced, because foreign-key checking is never switched on.
- Candidate values are optional strings. The source would accept any JSON value and then validate it through the record's constructor. That runtime validation, and the `enum=` schema metadata on `language` and `course`, are not modelled.
- The no-op `try/except KeyError` (chatbot.py:74-79) is left out, because plain assignment cannot raise. The `print` logging is also left out.
- API-key setup and the unused `connect_db` (chatbot.py:14-21, 51-52) are left out.
- The Flask layer is left out. So is its unused second session record (main.py:21).
- Concurrency is left out. The source has one global session and no lock; the model is one sequential `Session` object.
