/** Distinct values of an indexed column, each found by seeking past the one before. */
module SkipScan {
  import opened Bytes
  import opened Counting
  import opened Wrappers

  /** `column > last`, where nothing seen yet stands for the empty string, below every value. */
  predicate Past(last: Option<Bytes32>, v: Bytes32) { last.None? || LexLt(last.value, v) }

  function Rest(values: set<Bytes32>, last: Option<Bytes32>): set<Bytes32> { set v | v in values && Past(last, v) }

  ghost predicate IsNext(values: set<Bytes32>, last: Option<Bytes32>, v: Bytes32) {
    v in Rest(values, last) && forall w :: w in Rest(values, last) ==> LexLe(v, w)
  }

  lemma {:induction false} LeastExists(values: set<Bytes32>) returns (v: Bytes32)
    requires values != {}
    ensures v in values && forall w :: w in values ==> LexLe(v, w)
    decreases |values|
  {
    var x :| x in values;
    LexTotal(x, x);
    if values == {x} {
      v := x;
    } else {
      var rest := LeastExists(values - {x});
      LexTotal(rest, x);
      v := if LexLe(rest, x) then rest else x;
      forall w | w in values ensures LexLe(v, w) {
        if w != x { LexTransitive(v, rest, w); }
      }
    }
  }

  /** `SELECT v WHERE v > last ORDER BY v LIMIT 1`. */
  method Next(values: set<Bytes32>, last: Option<Bytes32>) returns (r: Option<Bytes32>)
    ensures r.None? ==> Rest(values, last) == {}
    ensures r.Some? ==> IsNext(values, last, r.value)
  {
    var after := Rest(values, last);
    if after == {} {
      return None;
    }
    ghost var least := LeastExists(after);
    var v :| v in after && forall w :: w in after ==> LexLe(v, w);
    return Some(v);
  }

  /** What is left after `v` is strictly less than what was left after `last`. */
  lemma RestShrinks(values: set<Bytes32>, last: Option<Bytes32>, v: Bytes32)
    requires IsNext(values, last, v)
    ensures Rest(values, Some(v)) < Rest(values, last) && Rest(values, last) == Rest(values, Some(v)) + {v}
  {
    forall w | w in Rest(values, Some(v)) ensures w in Rest(values, last) {
      if last.Some? { LexLtTransitive(last.value, v, w); }
    }
    assert v in Rest(values, last) && v !in Rest(values, Some(v));
  }

  /** Seeking value by value visits every distinct value once, in ascending order, and stops. */
  method DistinctValues(values: set<Bytes32>) returns (out: seq<Bytes32>)
    ensures Elements(out) == values
    ensures forall i, j :: 0 <= i < j < |out| ==> LexLt(out[i], out[j])
  {
    out := [];
    var last: Option<Bytes32> := None;
    var row := Next(values, None);
    while row.Some?
      invariant row.Some? ==> IsNext(values, last, row.value)
      invariant last == if out == [] then None else Some(out[|out| - 1])
      invariant forall i, j :: 0 <= i < j < |out| ==> LexLt(out[i], out[j])
      invariant values == Elements(out) + if row.Some? then Rest(values, last) else {}
      decreases row.Some?, Rest(values, last)
    {
      RestShrinks(values, last, row.value);
      forall i | 0 <= i < |out| ensures LexLt(out[i], row.value) {
        if i < |out| - 1 { LexLtTransitive(out[i], out[|out| - 1], row.value); }
      }
      out := out + [row.value];
      last := row;
      row := Next(values, row);
    }
  }
}
