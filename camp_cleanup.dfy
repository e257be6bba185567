/** Day 4, "Camp Cleanup": each record holds two section assignments "lo-hi";
    the program counts the records whose two assignments share a section. */
module CampCleanup {
  import opened Wrappers
  import opened Text
  import opened Decimal

  /** An inclusive range `lo..=hi` of section ids; empty when `lo > hi`. */
  datatype Range = Range(lo: nat, hi: nat)

  predicate Contains(r: Range, x: int) {
    r.lo <= x <= r.hi
  }

  function Max(a: int, b: int): int { if a < b then b else a }

  function Min(a: int, b: int): int { if a < b then a else b }

  /** One field of a record: split at '-', the first two pieces parsed as
      bounds; pieces after the second are ignored. Fewer than two pieces, or a
      piece that is not a number, stops the program. */
  function ParseRange(field: string): (r: Option<Range>)
    ensures var p := Split(field, '-');
      r.Some? <==> |p| >= 2 && ParseUnsigned(p[0]).Some? && ParseUnsigned(p[1]).Some?
    ensures var p := Split(field, '-');
      r.Some? ==> r.value == Range(ParseUnsigned(p[0]).value, ParseUnsigned(p[1]).value)
  {
    var parts := Split(field, '-');
    if |parts| < 2 then None
    else
      match (ParseUnsigned(parts[0]), ParseUnsigned(parts[1]))
      case (Some(lo), Some(hi)) => Some(Range(lo, hi))
      case _ => None
  }

  /** The text "lo-hi" that the puzzle input uses for a range. */
  function RangeText(r: Range): string {
    ToDecimal(r.lo) + "-" + ToDecimal(r.hi)
  }

  lemma NoDashInDecimal(n: nat)
    ensures '-' !in ToDecimal(n)
  {
    var s := ToDecimal(n);
    assert forall i | 0 <= i < |s| :: s[i] != '-';
  }

  /** Every range reads back from its "lo-hi" text. */
  lemma ParseRangeText(r: Range)
    ensures ParseRange(RangeText(r)) == Some(r)
  {
    NoDashInDecimal(r.lo);
    NoDashInDecimal(r.hi);
    var parts := [ToDecimal(r.lo), ToDecimal(r.hi)];
    assert Join(parts, "-") == RangeText(r);
    SplitJoin(parts, '-');
    ParseToDecimal(r.lo);
    ParseToDecimal(r.hi);
  }

  /** `parse_record`: both fields of the record; a missing field fails. */
  function ParseRecord(record: seq<string>): (r: Option<(Range, Range)>)
    ensures r.Some? <==> |record| >= 2 && ParseRange(record[0]).Some? && ParseRange(record[1]).Some?
    ensures r.Some? ==> r.value == (ParseRange(record[0]).value, ParseRange(record[1]).value)
  {
    if |record| < 1 then None
    else
      match ParseRange(record[0])
      case None => None
      case Some(first) =>
        if |record| < 2 then None
        else
          match ParseRange(record[1])
          case None => None
          case Some(second) => Some((first, second))
  }

  /** `are_ranges_overlapping`: the sets of sections of the two ranges intersect.
      That holds exactly when the larger lower bound is at most the smaller
      upper bound, and never when either range is empty. */
  function Overlapping(pair: (Range, Range)): (b: bool)
    ensures b <==> Max(pair.0.lo, pair.1.lo) <= Min(pair.0.hi, pair.1.hi)
    ensures b <==> exists x :: Contains(pair.0, x) && Contains(pair.1, x)
    ensures pair.0.lo > pair.0.hi || pair.1.lo > pair.1.hi ==> !b
  {
    var elems1 := set x: nat | pair.0.lo <= x <= pair.0.hi && Contains(pair.0, x);
    var elems2 := set x: nat | pair.1.lo <= x <= pair.1.hi && Contains(pair.1, x);
    var m := Max(pair.0.lo, pair.1.lo);
    assert m <= Min(pair.0.hi, pair.1.hi) ==> m in elems1 * elems2 && Contains(pair.0, m);
    elems1 * elems2 != {}
  }

  /** The overlap test does not depend on the order of the two ranges. */
  lemma OverlapSymmetric(a: Range, b: Range)
    ensures Overlapping((a, b)) == Overlapping((b, a))
  {
  }

  /** The number of `true` entries. */
  function CountTrue(evals: seq<bool>): (n: nat)
    ensures n == |set i | 0 <= i < |evals| && evals[i]|
  {
    if evals == [] then 0
    else
      var n := CountTrue(evals[..|evals| - 1]);
      var last := |evals| - 1;
      assert (set i | 0 <= i < |evals| && evals[i]) ==
        (set i | 0 <= i < last && evals[..last][i]) + (if evals[last] then {last} else {});
      n + (if evals[last] then 1 else 0)
  }

  /** The loop in `main`: one overlap verdict per record, in record order; a
      record that does not parse stops the program. */
  method RangeEvaluations(records: seq<seq<string>>) returns (r: Option<seq<bool>>)
    ensures r.Some? <==> forall i | 0 <= i < |records| :: ParseRecord(records[i]).Some?
    ensures r.Some? ==> |r.value| == |records|
    ensures r.Some? ==> forall i | 0 <= i < |records| ::
      r.value[i] == Overlapping(ParseRecord(records[i]).value)
  {
    var evals: seq<bool> := [];
    for k := 0 to |records|
      invariant |evals| == k
      invariant forall i | 0 <= i < k :: ParseRecord(records[i]).Some?
      invariant forall i | 0 <= i < k :: evals[i] == Overlapping(ParseRecord(records[i]).value)
    {
      var parsed := ParseRecord(records[k]);
      if parsed.None? {
        return None;
      }
      evals := evals + [Overlapping(parsed.value)];
    }
    return Some(evals);
  }

  /** The printed figure: the number of records whose ranges overlap. */
  method CountOverlapping(records: seq<seq<string>>) returns (r: Option<nat>)
    ensures r.Some? <==> forall i | 0 <= i < |records| :: ParseRecord(records[i]).Some?
    ensures r.Some? ==>
      r.value == |set i | 0 <= i < |records| && Overlapping(ParseRecord(records[i]).value)|
  {
    var evals := RangeEvaluations(records);
    if evals.None? {
      return None;
    }
    assert (set i | 0 <= i < |records| && Overlapping(ParseRecord(records[i]).value)) ==
      (set i | 0 <= i < |evals.value| && evals.value[i]);
    return Some(CountTrue(evals.value));
  }
}
