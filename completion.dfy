/**
 * The completion evaluator: the names of the fields that are still empty,
 * listed in declaration order.
 */
module Completion {
  import opened StudentRecord

  /** The empty fields among the first `k` declared ones, in declaration order. */
  function MissingUpTo(r: Record, k: nat): seq<Field>
    requires k <= |Fields|
    decreases k
  {
    if k == 0 then []
    else
      var f := Fields[k - 1];
      MissingUpTo(r, k - 1) + (if Empty(Get(r, f)) then [f] else [])
  }

  /**
   * The prefix list holds a field exactly when the field is among the
   * first `k` and empty, and its positions strictly increase, so no field
   * occurs twice.
   */
  lemma {:induction false} MissingUpToFacts(r: Record, k: nat)
    requires k <= |Fields|
    ensures |MissingUpTo(r, k)| <= k
    ensures forall f :: f in MissingUpTo(r, k) <==> Index(f) < k && Empty(Get(r, f))
    ensures forall i :: 0 <= i < |MissingUpTo(r, k)| ==> Index(MissingUpTo(r, k)[i]) < k
    ensures forall i, j :: 0 <= i < j < |MissingUpTo(r, k)| ==> Index(MissingUpTo(r, k)[i]) < Index(MissingUpTo(r, k)[j])
    decreases k
  {
    if k > 0 {
      MissingUpToFacts(r, k - 1);
      IndexOfPosition(k - 1);
    }
  }

  /** The empty fields of a record in declaration order. */
  function Missing(r: Record): (m: seq<Field>)
    ensures forall f :: f in m <==> Empty(Get(r, f))
    ensures forall i, j :: 0 <= i < j < |m| ==> Index(m[i]) < Index(m[j])
    ensures |m| <= |Fields|
    ensures m == [] <==> Complete(r)
  {
    var m := MissingUpTo(r, |Fields|);
    MissingUpToFacts(r, |Fields|);
    assert m == [] ==> Complete(r) by {
      if m == [] {
        forall f ensures !Empty(Get(r, f)) { assert f !in m; }
      }
    }
    assert Complete(r) ==> m == [] by {
      if m != [] {
        assert m[0] in m;
      }
    }
    m
  }

  /** The attribute names of a list of fields, in the same order. */
  function Names(fs: seq<Field>): seq<string>
  {
    seq(|fs|, i requires 0 <= i < |fs| => Name(fs[i]))
  }

  /** A field's name is listed exactly when the field is. */
  lemma NamesMember(fs: seq<Field>, f: Field)
    ensures Name(f) in Names(fs) <==> f in fs
  {
    var ns := Names(fs);
    if f in fs {
      var i :| 0 <= i < |fs| && fs[i] == f;
      assert ns[i] == Name(f);
    }
    if Name(f) in ns {
      var i :| 0 <= i < |ns| && ns[i] == Name(f);
      NameInjective(f, fs[i]);
    }
  }

  /**
   * The list the evaluator reports: a name occurs exactly when its field is
   * empty, no name occurs twice, there are at most six names, and the list
   * is empty exactly when the record is complete.
   */
  lemma MissingNames(r: Record)
    ensures forall f :: Name(f) in Names(Missing(r)) <==> Empty(Get(r, f))
    ensures forall i, j :: 0 <= i < j < |Names(Missing(r))| ==> Names(Missing(r))[i] != Names(Missing(r))[j]
    ensures |Names(Missing(r))| <= 6
    ensures Names(Missing(r)) == [] <==> Complete(r)
  {
    var m := Missing(r);
    forall f ensures Name(f) in Names(m) <==> Empty(Get(r, f)) {
      NamesMember(m, f);
    }
    forall i, j | 0 <= i < j < |m| ensures Names(m)[i] != Names(m)[j] {
      NameInjective(m[i], m[j]);
    }
  }

  /** Names distributes over concatenation. */
  lemma NamesAppend(a: seq<Field>, b: seq<Field>)
    ensures Names(a + b) == Names(a) + Names(b)
  {
  }

  /** When every field is empty, every declared field is missing, in order. */
  lemma {:induction false} MissingUpToAllEmpty(r: Record, k: nat)
    requires k <= |Fields|
    requires forall f :: Empty(Get(r, f))
    ensures MissingUpTo(r, k) == Fields[..k]
    decreases k
  {
    if k > 0 {
      MissingUpToAllEmpty(r, k - 1);
      assert Fields[..k] == Fields[..k - 1] + [Fields[k - 1]];
    }
  }

  /** A fresh record lacks all six fields, reported in declaration order. */
  lemma MissingOfInitial()
    ensures Missing(Initial) == Fields
    ensures Names(Missing(Initial)) == ["language", "first_name", "last_name", "city", "email", "course"]
  {
    InitialIsEmpty();
    MissingUpToAllEmpty(Initial, |Fields|);
    assert Fields[..|Fields|] == Fields;
    NamesOfFields();
  }

  /** The declared attribute names, in declaration order. */
  lemma NamesOfFields()
    ensures Names(Fields) == ["language", "first_name", "last_name", "city", "email", "course"]
  {
  }

  /** Iterates over the fields in order, collecting the names of the empty ones. */
  method FindMissingDetails(r: Record) returns (missing: seq<string>)
    ensures missing == Names(Missing(r))
    ensures forall f :: Name(f) in missing <==> Empty(Get(r, f))
    ensures |missing| <= |Fields|
    ensures missing == [] <==> Complete(r)
  {
    missing := [];
    var i := 0;
    while i < |Fields|
      invariant 0 <= i <= |Fields|
      invariant missing == Names(MissingUpTo(r, i))
    {
      var f := Fields[i];
      ghost var step: seq<Field> := if Empty(Get(r, f)) then [f] else [];
      assert MissingUpTo(r, i + 1) == MissingUpTo(r, i) + step;
      NamesAppend(MissingUpTo(r, i), step);
      if Empty(Get(r, f)) {
        missing := missing + [Name(f)];
      }
      i := i + 1;
    }
    MissingNames(r);
  }
}
