/** The checks both instance classes make on a pair of field lists, and the
    messages they report. The two classes carry identical copies of these
    steps, so they are stated once here. */
module FieldChecks {
  import opened Project

  /** A source field and the destination field it is paired with, reported as
      "source => destination". */
  datatype FieldPair = FieldPair(source: FieldName, destination: FieldName)

  /** What a validator says about a configuration. The HTML wrapping, the
      project id and the exact wording of the source's messages are left out. */
  datatype Message =
    | NoMessage
    | FormNotInEvent(form: FormName, event: EventId)
    | FieldsNotOnForm(form: FormName, fields: seq<FieldName>)
    | RepeatingButShouldNotBe(form: FormName)
    | NotRepeatingButShouldBe(form: FormName)
    | NotInOneEvent(form: FormName)
    | CountMismatch(sources: nat, destinations: nat)
    | TypesDoNotMatch(pairs: seq<FieldPair>)

  /** `array($valid, $message)` as both `checkFormsFields` and `validateConfig` return it. */
  datatype Verdict = Verdict(valid: bool, message: Message)

  /** `array_diff($fields, $fieldsOnForm)`: the configured fields that are not
      on the form, in configured order and with repetitions kept. A field is
      reported exactly when it is configured and not on the form. */
  function MissingFields(fields: seq<FieldName>, onForm: set<FieldName>): (r: seq<FieldName>)
    ensures forall f :: f in r <==> f in fields && f !in onForm
    ensures |r| <= |fields|
  {
    if fields == [] then []
    else (if fields[0] in onForm then [] else [fields[0]]) + MissingFields(fields[1..], onForm)
  }

  /** The report of a list is the report of its first part followed by the
      report of the rest: the offending fields keep their configured order. */
  lemma {:induction false} MissingFieldsAppend(a: seq<FieldName>, b: seq<FieldName>, onForm: set<FieldName>)
    ensures MissingFields(a + b, onForm) == MissingFields(a, onForm) + MissingFields(b, onForm)
  {
    if a == [] {
      assert a + b == b;
    } else {
      var head := if a[0] in onForm then [] else [a[0]];
      var ab := a + b;
      assert ab[0] == a[0] && ab[1..] == a[1..] + b;
      MissingFieldsAppend(a[1..], b, onForm);
      assert MissingFields(ab, onForm) == head + (MissingFields(a[1..], onForm) + MissingFields(b, onForm));
    }
  }

  /** Position `i` pairs two fields whose type or validation type differ. */
  predicate TypesDiffer(p: Metadata, src: seq<FieldName>, dst: seq<FieldName>, i: nat)
    requires i < |src| && i < |dst|
  {
    p.TypeOf(src[i]) != p.TypeOf(dst[i])
  }

  /** The mismatching pairs among the first `n` positions, in index order. */
  function Mismatches(p: Metadata, src: seq<FieldName>, dst: seq<FieldName>, n: nat): seq<FieldPair>
    requires n <= |src| && n <= |dst|
  {
    if n == 0 then []
    else Mismatches(p, src, dst, n - 1)
         + (if TypesDiffer(p, src, dst, n - 1) then [FieldPair(src[n - 1], dst[n - 1])] else [])
  }

  /** The type-comparison loop of `validateConfig`: walks the paired lists once
      and collects every pair whose types differ. Only reached when the two
      lists have the same length. */
  method CollectMismatches(p: Metadata, src: seq<FieldName>, dst: seq<FieldName>)
    returns (nonMatchingFields: seq<FieldPair>)
    requires |src| == |dst|
    ensures nonMatchingFields == Mismatches(p, src, dst, |src|)
  {
    nonMatchingFields := [];
    for ncnt := 0 to |src|
      invariant nonMatchingFields == Mismatches(p, src, dst, ncnt)
    {
      if TypesDiffer(p, src, dst, ncnt) {
        nonMatchingFields := nonMatchingFields + [FieldPair(src[ncnt], dst[ncnt])];
      }
    }
  }

  /** A pair is reported exactly when it sits at a position whose types differ. */
  lemma {:induction false} MismatchesReportEveryPair(p: Metadata, src: seq<FieldName>, dst: seq<FieldName>, n: nat)
    requires n <= |src| && n <= |dst|
    ensures forall pair :: pair in Mismatches(p, src, dst, n) <==>
      exists i :: 0 <= i < n && TypesDiffer(p, src, dst, i) && pair == FieldPair(src[i], dst[i])
  {
    if n > 0 {
      MismatchesReportEveryPair(p, src, dst, n - 1);
    }
  }

  /** Nothing is reported exactly when every pair agrees on both types. */
  lemma {:induction false} MismatchesEmpty(p: Metadata, src: seq<FieldName>, dst: seq<FieldName>, n: nat)
    requires n <= |src| && n <= |dst|
    ensures Mismatches(p, src, dst, n) == [] <==>
      forall i :: 0 <= i < n ==> p.TypeOf(src[i]) == p.TypeOf(dst[i])
  {
    if n > 0 {
      MismatchesEmpty(p, src, dst, n - 1);
    }
  }

  /** Index order: the pairs found among the first `n` positions open the
      report of any longer prefix. */
  lemma {:induction false} MismatchesPrefix(p: Metadata, src: seq<FieldName>, dst: seq<FieldName>, n: nat, m: nat)
    requires n <= m <= |src| && m <= |dst|
    ensures Mismatches(p, src, dst, n) <= Mismatches(p, src, dst, m)
    decreases m - n
  {
    if n < m {
      MismatchesPrefix(p, src, dst, n, m - 1);
    }
  }
}
