/**
 * Concrete conversations: the unit-test inputs of the repository and four
 * turn scenarios (a first turn giving everything but the language, the
 * completing turn, an empty extraction and a failed save).
 */
module Scenarios {
  import opened Wrappers
  import opened StudentRecord
  import opened MergeEngine
  import opened Completion
  import opened Dialogue

  /** The candidate extracted from a message that gives everything but the language. */
  const NoLanguage: Candidate := map[
    "first_name" := Some("John"),
    "last_name" := Some("Doe"),
    "city" := Some("New York"),
    "email" := Some("john@example.com"),
    "course" := Some("1")]

  /** The record after a first turn that gives everything but the language. */
  const AfterFirstTurn: Record :=
    Record(None, Some("John"), Some("Doe"), Some("New York"), Some("john@example.com"), Some("1"))

  /** Merging a full candidate into a fresh record takes every supplied value. */
  lemma MergeIntoFreshRecord()
    ensures var r := Merge(Initial, map[
        "first_name" := Some("Jane"),
        "last_name" := Some("Doe"),
        "city" := Some("Los Angeles"),
        "email" := Some("jane@example.com"),
        "course" := Some("2")]);
      r.firstName == Some("Jane") && r.city == Some("Los Angeles") &&
      r.email == Some("jane@example.com") && r.course == Some("2") && r.language == None
  {
  }

  /** A record with only a first name and a city lacks the other four fields, in order. */
  lemma MissingOfPartialRecord()
    ensures Names(Missing(Record(None, Some("John"), None, Some("New York"), None, None)))
      == ["language", "last_name", "email", "course"]
  {
    var r := Record(None, Some("John"), None, Some("New York"), None, None);
    assert MissingUpTo(r, 1) == [Language];
    assert MissingUpTo(r, 3) == [Language, LastName];
    assert MissingUpTo(r, 5) == [Language, LastName, Email];
  }

  /** First turn: all but the language is supplied, so the responder is asked about the language. */
  lemma FirstTurnAsksForLanguage(text: string, respond: Responder, choice: nat, saveSucceeds: bool)
    requires choice < |Closings|
    ensures Merge(Initial, NoLanguage) == AfterFirstTurn
    ensures Names(Missing(AfterFirstTurn)) == ["language"]
    ensures var s := Step(Initial, NoLanguage, text, respond, choice, saveSucceeds);
      s.saved == None && s.record == AfterFirstTurn && s.outcome == Reply(respond(["language"], text))
  {
    var r := Merge(Initial, NoLanguage);
    assert r.language == Get(r, Language);
    assert r.firstName == Get(r, FirstName);
    assert r.lastName == Get(r, LastName);
    assert r.city == Get(r, City);
    assert r.email == Get(r, Email);
    assert r.course == Get(r, Course);
    assert MissingUpTo(AfterFirstTurn, 1) == [Language];
    assert MissingUpTo(AfterFirstTurn, 6) == [Language];
  }

  /** Second turn: the language completes the record, which is saved once, and the session resets. */
  lemma SecondTurnCompletes(text: string, respond: Responder, choice: nat)
    requires choice < |Closings|
    ensures var s := Step(AfterFirstTurn, map["language" := Some("English")], text, respond, choice, true);
      && s.saved == Some(Record(Some("English"), Some("John"), Some("Doe"), Some("New York"),
                                Some("john@example.com"), Some("1")))
      && s.record == Initial
      && s.outcome == Reply(Closings[choice] + Marker)
  {
  }

  /** An empty extraction adds nothing: the missing list is unchanged and nothing is saved. */
  lemma EmptyExtractionChangesNothing(current: Record, text: string, respond: Responder,
                                      choice: nat, saveSucceeds: bool)
    requires choice < |Closings|
    requires !Complete(current)
    ensures var s := Step(current, map[], text, respond, choice, saveSucceeds);
      && s.saved == None
      && s.record == current
      && s.outcome == Reply(respond(Names(Missing(current)), text))
  {
  }

  /** A failing save leaves the completed record in the session and returns no closing phrase. */
  lemma FailedSaveKeepsRecord(text: string, respond: Responder, choice: nat)
    requires choice < |Closings|
    ensures var s := Step(AfterFirstTurn, map["language" := Some("English")], text, respond, choice, false);
      && s.saved == None
      && s.record == Merge(AfterFirstTurn, map["language" := Some("English")])
      && s.record != Initial
      && s.outcome == SaveFailed
  {
  }
}
