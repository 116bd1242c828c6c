// The nearest-hit choice shared by `trace` (over objects) and
// MeshTriangle::intersect (over triangles): walk the candidates in order and
// take one whenever its distance is strictly below the best so far, starting
// from the caller's `tnear`.

module Nearest {
  import opened Maybe

  /**
   * The candidate the strict-`<` update loop ends on: the index of the first
   * least distance below `bound`, or None when no candidate gets below it.
   */
  function FirstMin(ts: seq<Option<real>>, bound: real): (r: Option<nat>)
    ensures r.Some? ==> r.value < |ts| && ts[r.value].Some? && ts[r.value].value < bound
    decreases |ts|
  {
    if |ts| == 0 then None
    else
      var b := FirstMin(ts[..|ts| - 1], bound);
      var last := ts[|ts| - 1];
      if last.Some? && last.value < Best(ts[..|ts| - 1], bound, b) then Some(|ts| - 1) else b
  }

  /** The loop's running `tnear`: the chosen distance, or the bound when nothing was chosen. */
  function Best(ts: seq<Option<real>>, bound: real, choice: Option<nat>): real
    requires choice.Some? ==> choice.value < |ts| && ts[choice.value].Some?
  {
    if choice.None? then bound else ts[choice.value].value
  }

  /** One more candidate: how the loop's choice is updated. */
  lemma FirstMinStep(ts: seq<Option<real>>, bound: real, t: Option<real>)
    ensures FirstMin(ts + [t], bound)
         == if t.Some? && t.value < Best(ts, bound, FirstMin(ts, bound)) then Some(|ts|) else FirstMin(ts, bound)
  {
    assert (ts + [t])[..|ts|] == ts;
  }

  /**
   * FirstMin finds nothing exactly when no candidate is below the bound;
   * otherwise it finds a least candidate, and every earlier one is strictly
   * farther.
   */
  lemma {:induction false} FirstMinIsFirstLeast(ts: seq<Option<real>>, bound: real)
    ensures FirstMin(ts, bound).None? <==> forall j :: 0 <= j < |ts| && ts[j].Some? ==> ts[j].value >= bound
    ensures FirstMin(ts, bound).Some? ==>
      forall j :: 0 <= j < |ts| && ts[j].Some? ==> ts[FirstMin(ts, bound).value].value <= ts[j].value
    ensures FirstMin(ts, bound).Some? ==>
      forall j :: 0 <= j < FirstMin(ts, bound).value && ts[j].Some? ==> ts[FirstMin(ts, bound).value].value < ts[j].value
    decreases |ts|
  {
    if |ts| > 0 {
      var init := ts[..|ts| - 1];
      FirstMinIsFirstLeast(init, bound);
      assert forall j :: 0 <= j < |init| ==> init[j] == ts[j];
    }
  }
}
