/**
 * The merge engine: a candidate partial record, keyed by attribute name,
 * is folded into the current record one field at a time, and a field that
 * already holds a value is never overwritten.
 */
module MergeEngine {
  import opened Wrappers
  import opened StudentRecord

  /**
   * What the extractor produced for one turn: a dictionary from attribute
   * names to values. A key may be missing, may map to `None`, and keys that
   * name no field are allowed and ignored.
   */
  type Candidate = map<string, Option<string>>

  /**
   * One field of the merge: a filled current value wins; otherwise the
   * candidate's entry for the field's name is taken, and a missing key
   * falls back to the current value.
   */
  function MergeField(current: Record, candidate: Candidate, f: Field): Option<string>
  {
    var v := Get(current, f);
    if !Empty(v) then v
    else if Name(f) in candidate then candidate[Name(f)]
    else v
  }

  /** The merged record, built field by field from the two inputs. */
  function Merge(current: Record, candidate: Candidate): (r: Record)
    ensures forall f :: !Empty(Get(current, f)) ==> Get(r, f) == Get(current, f)
    ensures forall f :: Empty(Get(current, f)) && Name(f) in candidate ==> Get(r, f) == candidate[Name(f)]
    ensures forall f :: Empty(Get(current, f)) && Name(f) !in candidate ==> Get(r, f) == Get(current, f)
  {
    Record(
      MergeField(current, candidate, Language),
      MergeField(current, candidate, FirstName),
      MergeField(current, candidate, LastName),
      MergeField(current, candidate, City),
      MergeField(current, candidate, Email),
      MergeField(current, candidate, Course))
  }

  /** The fields for which the candidate supplies a non-empty value. */
  function Supplied(candidate: Candidate): (s: set<Field>)
    ensures forall f :: f in s <==> Name(f) in candidate && !Empty(candidate[Name(f)])
  {
    forall f ensures f in Fields { FieldListed(f); }
    set f | f in Fields && Name(f) in candidate && !Empty(candidate[Name(f)])
  }

  /**
   * Exactly the fields filled before or supplied now are filled afterwards:
   * merging can add filled fields and never removes one.
   */
  lemma MergeFilled(current: Record, candidate: Candidate)
    ensures Filled(Merge(current, candidate)) == Filled(current) + Supplied(candidate)
    ensures Filled(current) <= Filled(Merge(current, candidate))
  {
  }

  /** Merging the same candidate a second time changes nothing. */
  lemma MergeIdempotent(current: Record, candidate: Candidate)
    ensures Merge(Merge(current, candidate), candidate) == Merge(current, candidate)
  {
  }

  /** An empty candidate leaves the record exactly as it was. */
  lemma MergeEmptyCandidate(current: Record)
    ensures Merge(current, map[]) == current
  {
  }

  /** Keys that name no field have no influence on the merge. */
  lemma MergeIgnoresUnknownKeys(current: Record, candidate: Candidate, key: string, v: Option<string>)
    requires forall f :: Name(f) != key
    ensures Merge(current, candidate[key := v]) == Merge(current, candidate)
  {
  }

  /** A complete record absorbs every candidate unchanged. */
  lemma MergeIntoComplete(current: Record, candidate: Candidate)
    requires Complete(current)
    ensures Merge(current, candidate) == current
  {
  }
}
