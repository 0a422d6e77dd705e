/**
 * The custom analysis of `main`: for each listed raster the user answers
 * whether to use it and, if so, gives a lower and an upper bound; the masks
 * of the used rasters are combined and saved as "OutRaster".
 */
module Custom {
  import opened Wrappers
  import opened Errors
  import opened Names
  import opened Mask
  import opened Combine
  import opened Store

  /** The answers given for one listed raster: use it?, and its two bounds. */
  datatype Choice = Choice(answer: string, lo: Bound, hi: Bound)

  /** At least one bound was given. */
  predicate Answered(c: Choice) {
    c.lo.Some? || c.hi.Some?
  }

  /** Every used raster has at least one bound. */
  predicate AllAnswered(choices: seq<Choice>) {
    forall k :: 0 <= k < |choices| && IsYes(choices[k].answer) ==> Answered(choices[k])
  }

  /** Positions of the rasters answered yes, in list order. */
  function Selected(choices: seq<Choice>): (s: seq<nat>)
    ensures forall j :: 0 <= j < |s| ==> s[j] < |choices| && IsYes(choices[s[j]].answer)
    ensures forall k :: 0 <= k < |choices| && IsYes(choices[k].answer) ==> k in s
    ensures forall a, b :: 0 <= a < b < |s| ==> s[a] < s[b]
    decreases |choices|
  {
    if |choices| == 0 then []
    else
      var n := |choices| - 1;
      var init := choices[..n];
      assert forall k :: 0 <= k < n ==> init[k] == choices[k];
      Selected(init) + (if IsYes(choices[n].answer) then [n] else [])
  }

  /**
   * The selection loop: a mask for each raster answered yes, in list order,
   * built by `rasterCheck` on the raster itself (custom mode does not clip).
   */
  function CollectMasks(listing: Workspace, choices: seq<Choice>): (r: Result<seq<Mask>, Error>)
    requires |choices| == |listing|
    ensures r.Ok? <==> AllAnswered(choices)
    ensures r.Err? ==> r.error == BlankBounds
    ensures r.Ok? ==> |r.value| == |Selected(choices)|
    ensures r.Ok? ==> forall j :: 0 <= j < |r.value| ==>
              var k := Selected(choices)[j];
              var t := Threshold(listing[k].cells, choices[k].lo, choices[k].hi);
              t.Ok? && t.value == r.value[j]
    decreases |choices|
  {
    if |choices| == 0 then Ok([])
    else
      var n := |choices| - 1;
      var init, initListing := choices[..n], listing[..n];
      assert forall k :: 0 <= k < n ==> init[k] == choices[k] && initListing[k] == listing[k];
      match CollectMasks(initListing, init)
      case Err(e) => Err(e)
      case Ok(ms) =>
        if IsYes(choices[n].answer) then
          match Threshold(listing[n].cells, choices[n].lo, choices[n].hi)
          case Err(e) => Err(e)
          case Ok(m) => Ok(ms + [m])
        else Ok(ms)
  }

  /** The used rasters all lie on one grid. */
  predicate SelectedOnGrid(listing: Workspace, choices: seq<Choice>)
    requires |choices| == |listing|
  {
    var s := Selected(choices);
    forall j :: 0 <= j < |s| ==> |listing[s[j]].cells| == |listing[s[0]].cells|
  }

  /** Cell `c` passes the range of every used raster. */
  predicate Suitable(listing: Workspace, choices: seq<Choice>, c: nat)
    requires |choices| == |listing|
  {
    var s := Selected(choices);
    forall j :: 0 <= j < |s| ==>
      c < |listing[s[j]].cells| && InRange(listing[s[j]].cells[c], choices[s[j]].lo, choices[s[j]].hi)
  }

  /**
   * Reference outcome of the custom analysis: a blank range on a used raster
   * raises, fewer than two used rasters raise, used rasters off one grid
   * cannot be combined; otherwise a cell is suitable iff every used raster
   * passes its range there.
   */
  function SuitableHabitat(listing: Workspace, choices: seq<Choice>): Result<Mask, Error>
    requires |choices| == |listing|
  {
    var s := Selected(choices);
    if !AllAnswered(choices) then Err(BlankBounds)
    else if |s| < 2 then Err(TooFewMasks(|s|))
    else if !SelectedOnGrid(listing, choices) then Err(GridMismatch)
    else
      var n := |listing[s[0]].cells|;
      Ok(seq(n, c requires 0 <= c < n => Suitable(listing, choices, c)))
  }

  /** The collected masks lie on one grid exactly when the used rasters do. */
  lemma CollectedOnGrid(listing: Workspace, choices: seq<Choice>, ms: seq<Mask>)
    requires |choices| == |listing|
    requires CollectMasks(listing, choices).Ok? && CollectMasks(listing, choices).value == ms && |ms| > 0
    ensures OnGrid(ms, |ms[0]|) <==> SelectedOnGrid(listing, choices)
    ensures |ms[0]| == |listing[Selected(choices)[0]].cells|
  {
    var s := Selected(choices);
    assert forall j :: 0 <= j < |ms| ==> |ms[j]| == |listing[s[j]].cells|;
  }

  /** The AND of the collected masks is the reference habitat. */
  lemma CollectedHabitat(listing: Workspace, choices: seq<Choice>, ms: seq<Mask>)
    requires |choices| == |listing|
    requires CollectMasks(listing, choices).Ok? && CollectMasks(listing, choices).value == ms && |ms| >= 2 && OnGrid(ms, |ms[0]|)
    ensures SuitableHabitat(listing, choices) == Ok(AndAll(ms, |ms[0]|))
  {
    CollectedOnGrid(listing, choices, ms);
    var n := |ms[0]|;
    var a := AndAll(ms, n);
    var h := seq(n, c requires 0 <= c < n => Suitable(listing, choices, c));
    assert a == h by {
      forall c | 0 <= c < n
        ensures a[c] == h[c]
      {
        CollectedCell(listing, choices, ms, c);
      }
    }
  }

  /** One cell of the AND of the collected masks: true iff every used raster passes its range there. */
  lemma CollectedCell(listing: Workspace, choices: seq<Choice>, ms: seq<Mask>, c: nat)
    requires |choices| == |listing|
    requires CollectMasks(listing, choices).Ok? && CollectMasks(listing, choices).value == ms
    requires |ms| >= 1 && OnGrid(ms, |ms[0]|) && c < |ms[0]|
    ensures AndAll(ms, |ms[0]|)[c] <==> Suitable(listing, choices, c)
  {
    var s := Selected(choices);
    assert forall j :: 0 <= j < |ms| ==> |ms[j]| == |listing[s[j]].cells|;
    assert forall j :: 0 <= j < |ms| ==> (ms[j][c] <==> InRange(listing[s[j]].cells[c], choices[s[j]].lo, choices[s[j]].hi));
  }

  /**
   * The custom analysis as the source runs it: collect the masks, combine
   * them with the seeded loop, save the result as "OutRaster". Its outcome
   * is the reference outcome; on failure nothing is saved.
   */
  method CustomStage(st: Stores, choices: seq<Choice>) returns (run: Run)
    requires |choices| == |st.input|
    ensures run.stores.input == st.input
    ensures var h := SuitableHabitat(st.input, choices);
            && (h.Err? ==> run == Run(st, Some(h.error)))
            && (h.Ok? ==> run == Run(Stores(st.input, Save(st.output, "OutRaster", ToCells(h.value))), None))
  {
    var collected := CollectMasks(st.input, choices);
    if collected.Err? {
      return Run(st, Some(collected.error));
    }
    var ms := collected.value;
    if |ms| > 0 {
      CollectedOnGrid(st.input, choices, ms);
    }
    var combined := CombineCustom(ms);
    if combined.Err? {
      return Run(st, Some(combined.error));
    }
    CollectedHabitat(st.input, choices, ms);
    var out := Save(st.output, "OutRaster", ToCells(combined.value));
    return Run(Stores(st.input, out), None);
  }
}
