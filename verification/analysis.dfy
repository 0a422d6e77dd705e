/**
 * One run of the program (`main`): pick the study area, clear the output
 * workspace, run the analysis the mode selects, and finally delete the clip
 * artifacts from the input workspace. An exception in the analysis ends the
 * run at once, so the final cleanup does not happen then.
 */
module Analysis {
  import opened Wrappers
  import opened Errors
  import opened Names
  import opened Mask
  import opened StudyArea
  import opened Store
  import opened Preset
  import opened Custom

  /**
   * `areaKey` and `mode` are the first two answers, `saveAnswer` the preset
   * "Save all files" answer, `choices` the custom answers, one per listed raster.
   */
  method RunAnalysis(areaKey: string, mode: string, st: Stores, clip: Clipper, saveAnswer: string, choices: seq<Choice>)
    returns (run: Run)
    requires mode == "2" ==> |choices| == |st.input|
    ensures run.failure.None? ==> forall e :: e in run.stores.input <==> e in st.input && !IsClipArtifact(e.name)
    ensures run.failure.Some? ==> run.stores.output == []
    ensures mode == "1" ==>
              var p := PresetStage(Stores(st.input, []), AnalysisArea(areaKey), clip, IsYes(saveAnswer));
              && run.failure == p.failure
              && run.stores.output == p.stores.output
              && (p.failure.Some? ==> run.stores.input == p.stores.input)
    ensures mode == "2" ==>
              var h := SuitableHabitat(st.input, choices);
              && (h.Err? ==> run == Run(Stores(st.input, []), Some(h.error)))
              && (h.Ok? ==> run.failure.None? && run.stores.output == [Entry("OutRaster", ToCells(h.value))])
    ensures mode != "1" && mode != "2" ==> run.failure.None? && run.stores.output == []
  {
    var area := AnalysisArea(areaKey);
    var output := CleanOutput(st.output);
    var input := st.input;
    if mode == "1" {
      var p := PresetStage(Stores(input, output), area, clip, IsYes(saveAnswer));
      if p.failure.Some? {
        return p;
      }
      input, output := p.stores.input, p.stores.output;
    }
    if mode == "2" {
      var c := CustomStage(Stores(input, output), choices);
      if c.failure.Some? {
        return c;
      }
      output := c.stores.output;
    }
    input := DataCleanup(input);
    run := Run(Stores(input, output), None);
  }
}
