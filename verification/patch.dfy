/**
 * The "patchable record": a full record is the sequence of its field values in
 * declaration order, a partial record the sequence of optional values for the
 * same fields. Applying a partial overwrites exactly the fields that are
 * present, whatever their type, which is the code both `generate_structs!`
 * and the `partial_struct!` procedural macro generate for `update`.
 */
module Patch {
  import opened Wrappers

  /** The partial record with no field present (`#[derive(Default)]`). */
  function NoneOf<V>(n: nat): (p: seq<Option<V>>)
    ensures |p| == n
    ensures forall i :: 0 <= i < n ==> p[i].None?
  {
    seq(n, _ => None)
  }

  /** The merge rule: field i becomes `p[i]`'s value when present, else stays `s[i]`. */
  function Apply<V>(s: seq<V>, p: seq<Option<V>>): (r: seq<V>)
    requires |s| == |p|
    ensures |r| == |s|
    ensures forall i :: 0 <= i < |p| && p[i].Some? ==> r[i] == p[i].value
    ensures forall i :: 0 <= i < |p| && p[i].None? ==> r[i] == s[i]
    decreases |p|
  {
    if |p| == 0 then []
    else [p[0].GetOr(s[0])] + Apply(s[1..], p[1..])
  }

  /**
   * The generated `update(&mut self, new_data)`: one `if let Some(value) =
   * new_data.field { self.field = value; }` statement per declared field, run
   * in declaration order on the record being updated.
   */
  method Update<V>(s: seq<V>, p: seq<Option<V>>) returns (r: seq<V>)
    requires |s| == |p|
    ensures r == Apply(s, p)
  {
    r := s;
    var i := 0;
    while i < |p|
      invariant 0 <= i <= |p|
      invariant |r| == |s|
      invariant forall k :: 0 <= k < i ==> r[k] == p[k].GetOr(s[k])
      invariant r[i..] == s[i..]
    {
      if p[i].Some? {
        r := r[i := p[i].value];
      }
      i := i + 1;
    }
  }

  /** A record that agrees with the merge rule at every field is the merge. */
  lemma ApplyPointwise<V>(s: seq<V>, p: seq<Option<V>>, r: seq<V>)
    requires |s| == |p| == |r|
    requires forall i :: 0 <= i < |r| ==> r[i] == p[i].GetOr(s[i])
    ensures r == Apply(s, p)
  {
    var a := Apply(s, p);
    assert forall i :: 0 <= i < |r| ==> r[i] == a[i];
  }

  /** Last writer wins: the single partial equivalent to applying `p` then `q`. */
  function Then<V>(p: seq<Option<V>>, q: seq<Option<V>>): (pq: seq<Option<V>>)
    requires |p| == |q|
    ensures |pq| == |p|
    ensures forall i :: 0 <= i < |q| && q[i].Some? ==> pq[i] == q[i]
    ensures forall i :: 0 <= i < |q| && q[i].None? ==> pq[i] == p[i]
  {
    seq(|p|, i requires 0 <= i < |p| => if q[i].Some? then q[i] else p[i])
  }

  /** Applying the all-absent partial leaves the record as it was. */
  lemma ApplyNoneIsIdentity<V>(s: seq<V>)
    ensures Apply(s, NoneOf(|s|)) == s
  {
    var r := Apply(s, NoneOf<V>(|s|));
    assert forall i :: 0 <= i < |s| ==> r[i] == s[i];
  }

  /** Applying the same partial twice equals applying it once. */
  lemma ApplyIdempotent<V>(s: seq<V>, p: seq<Option<V>>)
    requires |s| == |p|
    ensures Apply(Apply(s, p), p) == Apply(s, p)
  {
    var once := Apply(s, p);
    var twice := Apply(once, p);
    assert forall i :: 0 <= i < |s| ==> twice[i] == once[i];
  }

  /** Two merges in a row are one merge of the combined partial: field-level last writer wins. */
  lemma ApplyThen<V>(s: seq<V>, p: seq<Option<V>>, q: seq<Option<V>>)
    requires |s| == |p| == |q|
    ensures Apply(Apply(s, p), q) == Apply(s, Then(p, q))
  {
    var lhs := Apply(Apply(s, p), q);
    var rhs := Apply(s, Then(p, q));
    assert forall i :: 0 <= i < |s| ==> lhs[i] == rhs[i];
  }
}
