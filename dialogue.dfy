/**
 * The dialogue manager: one turn extracts a candidate, merges it into the
 * session record and either asks for what is still missing or, once the
 * record is complete, saves it, answers with a closing phrase followed by
 * the completion marker and resets the session to a fresh record.
 */
module Dialogue {
  import opened Wrappers
  import opened StudentRecord
  import opened MergeEngine
  import opened Completion

  /** The suffix that tells the caller the registration is finished. */
  const Marker: string := " [redirect]"

  /** The fixed pool of closing phrases one of which ends a registration. */
  const Closings: seq<string> := [
    "Thank you, I've collected your data that we need for registration. See you soon!",
    "Thanks! Your information has been recorded. Have a great day!",
    "Data saved! You're all set. See you next time!",
    "All done! Your registration is complete. See you soon!",
    "Got it! Your data is safe with us. See you next time!"
  ]

  /** A closing phrase followed by the completion marker. */
  predicate IsClosingReply(s: string)
  {
    exists i :: 0 <= i < |Closings| && s == Closings[i] + Marker
  }

  /** A closing reply ends with the completion marker, so a caller can detect it by suffix. */
  lemma ClosingEndsWithMarker(s: string)
    requires IsClosingReply(s)
    ensures |s| >= |Marker| && s[|s| - |Marker|..] == Marker
  {
  }

  /** The extractor: text in, candidate dictionary out. */
  type Extractor = string -> Candidate

  /** The responder: the missing attribute names and the latest text in, a follow-up message out. */
  type Responder = (seq<string>, string) -> string

  /** What a turn hands back: a reply, or the failure raised by the store. */
  datatype Outcome = Reply(text: string) | SaveFailed

  /** The state after a turn, the record it saved (if any) and its outcome. */
  datatype StepResult = StepResult(record: Record, saved: Option<Record>, outcome: Outcome)

  /**
   * One turn on the session record `current`, given the extracted
   * candidate, the user's text, the responder, the index of the closing
   * phrase and whether the store accepts the save.
   */
  function Step(current: Record, candidate: Candidate, text: string, respond: Responder,
                choice: nat, saveSucceeds: bool): (s: StepResult)
    requires choice < |Closings|
    ensures s.saved.Some? <==> Complete(Merge(current, candidate)) && saveSucceeds
    ensures s.saved.Some? ==>
      && s.saved.value == Merge(current, candidate)
      && Complete(s.saved.value)
      && s.record == Initial
      && s.outcome.Reply?
      && IsClosingReply(s.outcome.text)
    ensures s.saved.None? ==> s.record == Merge(current, candidate)
    ensures s.outcome == SaveFailed <==> Complete(Merge(current, candidate)) && !saveSucceeds
    ensures !Complete(Merge(current, candidate)) ==>
      s.outcome == Reply(respond(Names(Missing(Merge(current, candidate))), text))
  {
    var merged := Merge(current, candidate);
    var missing := Names(Missing(merged));
    MissingNames(merged);
    if missing == [] then
      if saveSucceeds then StepResult(Initial, Some(merged), Reply(Closings[choice] + Marker))
      else StepResult(merged, None, SaveFailed)
    else
      StepResult(merged, None, Reply(respond(missing, text)))
  }

  /**
   * The inputs of one turn: the user's text, what the extractor returned for
   * it on that turn, the responder as it answers on that turn, the index of
   * the closing phrase and whether the store accepts the save.
   */
  datatype TurnInput = TurnInput(text: string, candidate: Candidate, respond: Responder,
                                 choice: nat, saveSucceeds: bool)

  /** A run of turns: the final record, every record saved, and every outcome. */
  datatype RunResult = RunResult(record: Record, saved: seq<Record>, outcomes: seq<Outcome>)

  /** The turns' closing-phrase indices are all in range. */
  predicate ValidTurns(turns: seq<TurnInput>)
  {
    forall i :: 0 <= i < |turns| ==> turns[i].choice < |Closings|
  }

  /** Dropping the first turn keeps the indices in range. */
  lemma ValidTurnsTail(turns: seq<TurnInput>)
    requires ValidTurns(turns) && turns != []
    ensures ValidTurns(turns[1..])
  {
    forall i | 0 <= i < |turns[1..]| ensures turns[1..][i].choice < |Closings| {
      assert turns[1..][i].choice == turns[i + 1].choice;
    }
  }

  /** The step a turn performs on the record it starts from. */
  function StepOf(current: Record, t: TurnInput): StepResult
    requires t.choice < |Closings|
  {
    Step(current, t.candidate, t.text, t.respond, t.choice, t.saveSucceeds)
  }

  /** The records saved by one step, as a log fragment. */
  function SavedBy(s: StepResult): seq<Record>
  {
    if s.saved.Some? then [s.saved.value] else []
  }

  /** Successive turns, each starting from the record the previous one left. */
  function Run(current: Record, turns: seq<TurnInput>): RunResult
    requires ValidTurns(turns)
    decreases |turns|
  {
    if turns == [] then RunResult(current, [], [])
    else
      var s := StepOf(current, turns[0]);
      var rest := Run(s.record, turns[1..]);
      RunResult(rest.record, SavedBy(s) + rest.saved, [s.outcome] + rest.outcomes)
  }

  /**
   * The number of completing turns in a run: turns whose merged record is
   * complete and whose save succeeds.
   */
  function CompletingTurns(current: Record, turns: seq<TurnInput>): nat
    requires ValidTurns(turns)
    decreases |turns|
  {
    if turns == [] then 0
    else
      var t := turns[0];
      var done := Complete(Merge(current, t.candidate)) && t.saveSucceeds;
      ValidTurnsTail(turns);
      (if done then 1 else 0) + CompletingTurns(StepOf(current, t).record, turns[1..])
  }

  /**
   * Every record a run saves is complete, the number of saves equals the
   * number of completing turns, and there is one outcome per turn.
   */
  lemma {:induction false} RunSavesOnlyComplete(current: Record, turns: seq<TurnInput>)
    requires ValidTurns(turns)
    ensures forall i :: 0 <= i < |Run(current, turns).saved| ==> Complete(Run(current, turns).saved[i])
    ensures |Run(current, turns).saved| == CompletingTurns(current, turns)
    ensures |Run(current, turns).outcomes| == |turns|
    decreases |turns|
  {
    if turns != [] {
      ValidTurnsTail(turns);
      RunSavesOnlyComplete(StepOf(current, turns[0]).record, turns[1..]);
    }
  }

  /**
   * Until something is saved, a value once filled stays exactly as it was:
   * the first non-empty value of a field wins across any number of turns.
   */
  lemma {:induction false} RunKeepsFilled(current: Record, turns: seq<TurnInput>, f: Field)
    requires ValidTurns(turns)
    requires Run(current, turns).saved == []
    requires !Empty(Get(current, f))
    ensures Get(Run(current, turns).record, f) == Get(current, f)
    decreases |turns|
  {
    if turns != [] {
      ValidTurnsTail(turns);
      var s := StepOf(current, turns[0]);
      assert s.saved.None?;
      RunKeepsFilled(s.record, turns[1..], f);
    }
  }

  /**
   * The single conversation session: the record collected so far and, as a
   * ghost log standing in for the store, every record saved.
   */
  class Session {
    var record: Record
    ghost var saved: seq<Record>

    /** Only complete records ever reach the store. */
    ghost predicate Valid()
      reads this
    {
      forall i :: 0 <= i < |saved| ==> Complete(saved[i])
    }

    /** A new session starts from a fresh record with nothing saved. */
    constructor ()
      ensures Valid()
      ensures record == Initial && saved == []
    {
      record := Initial;
      saved := [];
    }

    /**
     * One conversational turn on `text`. The merged record is stored in the
     * session before anything else happens; if it is complete it is saved
     * and only then is the session reset. A failing save leaves the merged
     * record in place.
     */
    method Turn(text: string, extract: Extractor, respond: Responder, choice: nat, saveSucceeds: bool)
      returns (outcome: Outcome)
      requires Valid()
      requires choice < |Closings|
      modifies this
      ensures Valid()
      ensures var s := Step(old(record), extract(text), text, respond, choice, saveSucceeds);
        && record == s.record
        && saved == old(saved) + SavedBy(s)
        && outcome == s.outcome
      ensures Complete(Merge(old(record), extract(text))) && saveSucceeds ==>
        && saved == old(saved) + [Merge(old(record), extract(text))]
        && record == Initial
        && outcome.Reply? && IsClosingReply(outcome.text)
      ensures Complete(Merge(old(record), extract(text))) && !saveSucceeds ==>
        && saved == old(saved)
        && record == Merge(old(record), extract(text))
        && outcome == SaveFailed
      ensures !Complete(Merge(old(record), extract(text))) ==>
        && saved == old(saved)
        && record == Merge(old(record), extract(text))
        && outcome == Reply(respond(Names(Missing(record)), text))
    {
      var candidate := extract(text);
      record := Merge(record, candidate);
      var missing := FindMissingDetails(record);
      if missing == [] {
        if !saveSucceeds {
          return SaveFailed;
        }
        saved := saved + [record];
        var thanks := Closings[choice];
        record := Initial;
        outcome := Reply(thanks + Marker);
      } else {
        outcome := Reply(respond(missing, text));
      }
    }
  }
}
