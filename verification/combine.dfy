/**
 * Combination of masks by cellwise AND: the reference fold `AndAll` and the
 * custom-mode loop of the source, which seeds with the first two masks and
 * then ANDs every mask again from the first.
 */
module Combine {
  import opened Wrappers
  import opened Errors
  import opened Mask

  /** Every mask has `n` cells. */
  predicate OnGrid(ms: seq<Mask>, n: nat) {
    forall k :: 0 <= k < |ms| ==> |ms[k]| == n
  }

  /** Left fold of `&` over `ms`: a cell is true iff it is true in every mask. */
  function AndAll(ms: seq<Mask>, n: nat): (r: Mask)
    requires OnGrid(ms, n)
    ensures |r| == n
    ensures forall i :: 0 <= i < n ==> (r[i] <==> forall k :: 0 <= k < |ms| ==> ms[k][i])
    decreases |ms|
  {
    if |ms| == 0 then seq(n, _ => true)
    else
      var init := ms[..|ms| - 1];
      assert forall k :: 0 <= k < |init| ==> init[k] == ms[k];
      And(AndAll(init, n), ms[|ms| - 1])
  }

  /**
   * The custom-mode combination: `usedForAnalysis[0] & usedForAnalysis[1]`,
   * then `& usedForAnalysis[i]` for every `i` from 0. Fewer than two masks
   * raise at the indexing; masks off one grid cannot be combined.
   */
  method CombineCustom(ms: seq<Mask>) returns (r: Result<Mask, Error>)
    ensures |ms| < 2 ==> r == Err(TooFewMasks(|ms|))
    ensures |ms| >= 2 && !OnGrid(ms, |ms[0]|) ==> r == Err(GridMismatch)
    ensures |ms| >= 2 && OnGrid(ms, |ms[0]|) ==> r == Ok(AndAll(ms, |ms[0]|))
  {
    if |ms| < 2 {
      return Err(TooFewMasks(|ms|));
    }
    var n := |ms[0]|;
    if !OnGrid(ms, n) {
      return Err(GridMismatch);
    }
    var out := And(ms[0], ms[1]);
    for i := 0 to |ms|
      invariant |out| == n
      invariant forall c :: 0 <= c < n ==>
                  (out[c] <==> ms[0][c] && ms[1][c] && forall k :: 0 <= k < i ==> ms[k][c])
    {
      out := And(out, ms[i]);
    }
    var all := AndAll(ms, n);
    assert forall c :: 0 <= c < n ==> out[c] == all[c];
    assert out == all;
    return Ok(out);
  }

  /** The combined mask does not depend on the order of the masks. */
  lemma AndAllPermutation(ms: seq<Mask>, ps: seq<Mask>, n: nat)
    requires OnGrid(ms, n)
    requires multiset(ms) == multiset(ps)
    ensures OnGrid(ps, n)
    ensures AndAll(ms, n) == AndAll(ps, n)
  {
    forall k | 0 <= k < |ps|
      ensures ps[k] in ms
    {
      assert ps[k] in multiset(ps);
    }
    forall k | 0 <= k < |ms|
      ensures ms[k] in ps
    {
      assert ms[k] in multiset(ms);
    }
    var a, b := AndAll(ms, n), AndAll(ps, n);
    forall c | 0 <= c < n
      ensures a[c] == b[c]
    {
      if a[c] {
        forall k | 0 <= k < |ps|
          ensures ps[k][c]
        {
          var j :| 0 <= j < |ms| && ms[j] == ps[k];
        }
      }
      if b[c] {
        forall k | 0 <= k < |ms|
          ensures ms[k][c]
        {
          var j :| 0 <= j < |ps| && ps[j] == ms[k];
        }
      }
    }
  }

  /** Moving the last mask to the front leaves the result alone: [A, B, C] and [C, A, B] combine alike. */
  lemma RotateLast(ms: seq<Mask>, c: Mask, n: nat)
    requires OnGrid(ms, n) && |c| == n
    ensures OnGrid(ms + [c], n) && OnGrid([c] + ms, n)
    ensures AndAll(ms + [c], n) == AndAll([c] + ms, n)
  {
    var xs, ys := ms + [c], [c] + ms;
    assert multiset(xs) == multiset(ys);
    AndAllPermutation(xs, ys, n);
  }
}
