/**
 * The preset (Douglas-fir) analysis of `main`: clip the four named rasters
 * to the study area, threshold each against its fixed range, AND the masks
 * and save the result. The clip tool's geometry is the parameter `clip`.
 */
module Preset {
  import opened Wrappers
  import opened Errors
  import opened Names
  import opened Mask
  import opened Combine
  import opened StudyArea
  import opened Store

  /** The rasters the preset analysis clips, matched by exact name. */
  const PresetRasters: seq<string> := ["ordemfeet", "202101tMean.tif", "202107tMean.tif", "RainfallIN.tif"]

  /** The names under which the preset analysis reads its four clipped layers. */
  const ElevationLayer: string := "clipordemfeet"
  const JanuaryLayer: string := "Clip202101tMean.tif"
  const JulyLayer: string := "Clip202107tMean.tif"
  const RainLayer: string := "ClipRainfallIN.tif"

  /**
   * The preset analysis reads back exactly the clip outputs of the preset
   * rasters: three under the name the clip stage wrote, the elevation layer
   * under a lower-case spelling the store resolves to the same raster.
   */
  lemma PresetLayerNames()
    ensures ElevationLayer != ClipName(PresetRasters[0]) && SameName(ElevationLayer, ClipName(PresetRasters[0]))
    ensures JanuaryLayer == ClipName(PresetRasters[1])
    ensures JulyLayer == ClipName(PresetRasters[2])
    ensures RainLayer == ClipName(PresetRasters[3])
  {
    assert ElevationLayer[0] != ClipName(PresetRasters[0])[0];
  }

  /** The five output names of the preset analysis denote five different rasters. */
  lemma OutputNamesDistinct()
    ensures !SameName("Habitat", "elevation") && !SameName("Habitat", "rain")
    ensures !SameName("Habitat", "janTemp") && !SameName("Habitat", "julyTemp")
    ensures !SameName("elevation", "rain") && !SameName("elevation", "janTemp") && !SameName("elevation", "julyTemp")
    ensures !SameName("rain", "janTemp") && !SameName("rain", "julyTemp") && !SameName("janTemp", "julyTemp")
  {
    assert Lower("Habitat")[0] != Lower("janTemp")[0];
  }

  /** The clip tool: the cells of a raster restricted to a study area. */
  type Clipper = (Raster, Extent) -> Raster

  /** Saving a clip output keeps every raster that is not a clip artifact and adds only an artifact. */
  lemma SaveClipKeeps(ws: Workspace, name: string, cells: Raster)
    ensures forall e :: e in Save(ws, ClipName(name), cells) && !IsClipArtifact(e.name) ==> e in ws
    ensures forall e :: e in ws && !IsClipArtifact(e.name) ==> e in Save(ws, ClipName(name), cells)
  {
    ClipNameIsArtifact(name);
    forall e | e in ws && !IsClipArtifact(e.name)
      ensures !SameName(e.name, ClipName(name))
    {
      if SameName(e.name, ClipName(name)) {
        SameNameArtifact(e.name, ClipName(name));
      }
    }
  }

  /**
   * The clip loop of the preset analysis: each listed raster whose name is
   * one of `PresetRasters` is clipped to `area` and saved as `ClipName(name)`.
   * It adds clip artifacts only and removes nothing else.
   */
  function ClipListed(ws: Workspace, listing: Workspace, area: Extent, clip: Clipper): (r: Workspace)
    ensures forall e :: e in r && !IsClipArtifact(e.name) ==> e in ws
    ensures forall e :: e in ws && !IsClipArtifact(e.name) ==> e in r
    ensures forall e :: e in r ==> e in ws || exists k :: && 0 <= k < |listing| && listing[k].name in PresetRasters
                                                          && e == Entry(ClipName(listing[k].name), clip(listing[k].cells, area))
    decreases |listing|
  {
    if |listing| == 0 then ws
    else
      var e := listing[0];
      var next := if e.name in PresetRasters then Save(ws, ClipName(e.name), clip(e.cells, area)) else ws;
      SaveClipKeeps(ws, e.name, clip(e.cells, area));
      assert forall k :: 1 <= k < |listing| ==> listing[1..][k - 1] == listing[k];
      ClipListed(next, listing[1..], area, clip)
  }

  /** A lookup no clip output of the listing can shadow is left as it was. */
  lemma {:induction false} ClipListedPreserves(ws: Workspace, listing: Workspace, area: Extent, clip: Clipper, n: string)
    requires forall k :: 0 <= k < |listing| && listing[k].name in PresetRasters ==> !SameName(n, ClipName(listing[k].name))
    ensures Find(ClipListed(ws, listing, area, clip), n) == Find(ws, n)
    decreases |listing|
  {
    if |listing| > 0 {
      var e := listing[0];
      var next := if e.name in PresetRasters then Save(ws, ClipName(e.name), clip(e.cells, area)) else ws;
      if e.name in PresetRasters {
        SaveFind(ws, ClipName(e.name), clip(e.cells, area), n);
      }
      assert forall k :: 0 <= k < |listing| - 1 ==> listing[1..][k] == listing[k + 1];
      ClipListedPreserves(next, listing[1..], area, clip, n);
    }
  }

  /** In a listing without name clashes, each preset raster's clip output is found under its clip name. */
  lemma {:induction false} ClipListedFinds(ws: Workspace, listing: Workspace, area: Extent, clip: Clipper, d: string, g: Raster)
    requires UniqueNames(listing)
    requires Entry(d, g) in listing && d in PresetRasters
    ensures Find(ClipListed(ws, listing, area, clip), ClipName(d)) == Some(clip(g, area))
    decreases |listing|
  {
    var e := listing[0];
    var next := if e.name in PresetRasters then Save(ws, ClipName(e.name), clip(e.cells, area)) else ws;
    var rest := listing[1..];
    assert forall k :: 0 <= k < |rest| ==> rest[k] == listing[k + 1];
    if e == Entry(d, g) {
      SaveFind(ws, ClipName(d), clip(g, area), ClipName(d));
      forall k | 0 <= k < |rest| && rest[k].name in PresetRasters
        ensures !SameName(ClipName(d), ClipName(rest[k].name))
      {
        SameClipName(d, rest[k].name);
      }
      ClipListedPreserves(next, rest, area, clip, ClipName(d));
    } else {
      ClipListedFinds(next, rest, area, clip, d, g);
    }
  }

  /** The four preset masks. */
  datatype Layers = Layers(elevation: Mask, janTemp: Mask, julyTemp: Mask, rain: Mask)

  /**
   * `rasterCheck(name, lo, hi)`: threshold the raster the workspace holds
   * under `name`; a name no raster carries raises.
   */
  function CheckLayer(ws: Workspace, name: string, lo: Bound, hi: Bound): (r: Result<Mask, Error>)
    ensures Find(ws, name).None? ==> r.Err? && r.error == MissingRaster(name)
    ensures Find(ws, name).Some? ==> (r.Ok? <==> lo.Some? || hi.Some?)
    ensures r.Err? && Find(ws, name).Some? ==> r.error == BlankBounds
    ensures r.Ok? ==> && Find(ws, name).Some?
                      && |r.value| == |Find(ws, name).value|
                      && forall i :: 0 <= i < |r.value| ==> (r.value[i] <==> InRange(Find(ws, name).value[i], lo, hi))
  {
    match Find(ws, name)
    case None => Err(MissingRaster(name))
    case Some(g) => Threshold(g, lo, hi)
  }

  /**
   * The four preset checks, in the order the source makes them. Every range
   * has a bound, so the only exception is the first layer in that order that
   * the workspace does not hold.
   */
  function PresetLayers(ws: Workspace): (r: Result<Layers, Error>)
    ensures r.Ok? <==> && Find(ws, ElevationLayer).Some? && Find(ws, JanuaryLayer).Some?
                       && Find(ws, JulyLayer).Some? && Find(ws, RainLayer).Some?
    ensures Find(ws, ElevationLayer).None? ==> r.Err? && r.error == MissingRaster(ElevationLayer)
    ensures Find(ws, ElevationLayer).Some? && Find(ws, JanuaryLayer).None? ==>
              r.Err? && r.error == MissingRaster(JanuaryLayer)
    ensures Find(ws, ElevationLayer).Some? && Find(ws, JanuaryLayer).Some? && Find(ws, JulyLayer).None? ==>
              r.Err? && r.error == MissingRaster(JulyLayer)
    ensures (Find(ws, ElevationLayer).Some? && Find(ws, JanuaryLayer).Some? && Find(ws, JulyLayer).Some?
             && Find(ws, RainLayer).None?) ==> r.Err? && r.error == MissingRaster(RainLayer)
    ensures r.Ok? ==> && |r.value.elevation| == |Find(ws, ElevationLayer).value|
                      && |r.value.janTemp| == |Find(ws, JanuaryLayer).value|
                      && |r.value.julyTemp| == |Find(ws, JulyLayer).value|
                      && |r.value.rain| == |Find(ws, RainLayer).value|
    ensures r.Ok? ==> r.value == Layers(Threshold(Find(ws, ElevationLayer).value, Some(0), Some(5000)).value,
                                        Threshold(Find(ws, JanuaryLayer).value, None, Some(6)).value,
                                        Threshold(Find(ws, JulyLayer).value, Some(20), Some(30)).value,
                                        Threshold(Find(ws, RainLayer).value, Some(24), Some(700)).value)
  {
    var elevation :- CheckLayer(ws, ElevationLayer, Some(0), Some(5000));
    var janTemp :- CheckLayer(ws, JanuaryLayer, None, Some(6));
    var julyTemp :- CheckLayer(ws, JulyLayer, Some(20), Some(30));
    var rain :- CheckLayer(ws, RainLayer, Some(24), Some(700));
    Ok(Layers(elevation, janTemp, julyTemp, rain))
  }

  /** The four preset masks cover the same cells. */
  predicate LayersOnGrid(l: Layers) {
    |l.janTemp| == |l.julyTemp| == |l.rain| == |l.elevation|
  }

  /** Douglas-fir habitat at one cell: elevation in (0, 5000), January below 6, July in (20, 30), rain in (24, 700). */
  predicate FirHabitat(elevation: int, janTemp: int, julyTemp: int, rain: int) {
    && 0 < elevation < 5000
    && janTemp < 6
    && 20 < julyTemp < 30
    && 24 < rain < 700
  }

  /**
   * The preset analysis: clip, threshold the four layers, save their AND as
   * "Habitat", and, when asked, the four masks as well.
   */
  function PresetStage(st: Stores, area: Extent, clip: Clipper, saveAll: bool): (r: Run)
    ensures forall e :: e in r.stores.input && !IsClipArtifact(e.name) <==> e in st.input && !IsClipArtifact(e.name)
    ensures r.failure.Some? ==> r.stores.output == st.output
    ensures r.failure.None? ==> Find(r.stores.output, "Habitat").Some?
    ensures var p := PresetLayers(ClipListed(st.input, st.input, area, clip));
            && (p.Err? ==> r.failure == Some(p.error))
            && (r.failure.None? <==> p.Ok? && LayersOnGrid(p.value))
            && (p.Ok? && !LayersOnGrid(p.value) ==> r.failure == Some(GridMismatch))
            && (p.Ok? && LayersOnGrid(p.value) ==>
                  r == Run(Stores(ClipListed(st.input, st.input, area, clip), SaveResults(st.output, p.value, saveAll)), None))
  {
    var clipped := ClipListed(st.input, st.input, area, clip);
    match PresetLayers(clipped)
    case Err(e) => Run(Stores(clipped, st.output), Some(e))
    case Ok(l) =>
      if !LayersOnGrid(l) then
        Run(Stores(clipped, st.output), Some(GridMismatch))
      else
        Run(Stores(clipped, SaveResults(st.output, l, saveAll)), None)
  }

  /**
   * `elevation & januaryTemperature & julyTemperature & rain`: the cellwise
   * AND of the four preset masks, grouped as the source writes it.
   */
  function Habitat(l: Layers): (h: Mask)
    requires |l.janTemp| == |l.julyTemp| == |l.rain| == |l.elevation|
    ensures OnGrid([l.elevation, l.janTemp, l.julyTemp, l.rain], |l.elevation|)
    ensures h == AndAll([l.elevation, l.janTemp, l.julyTemp, l.rain], |l.elevation|)
  {
    var ms := [l.elevation, l.janTemp, l.julyTemp, l.rain];
    var h := And(And(And(l.elevation, l.janTemp), l.julyTemp), l.rain);
    assert OnGrid(ms, |l.elevation|);
    var a := AndAll(ms, |l.elevation|);
    assert forall c :: 0 <= c < |h| ==> (a[c] <==> ms[0][c] && ms[1][c] && ms[2][c] && ms[3][c]);
    assert |h| == |a| && forall c :: 0 <= c < |h| ==> h[c] == a[c];
    h
  }

  /** The rasters the preset analysis saves, in saving order: "Habitat", then, when asked, the four masks. */
  function Results(l: Layers, saveAll: bool): seq<Entry>
    requires |l.janTemp| == |l.julyTemp| == |l.rain| == |l.elevation|
  {
    [Entry("Habitat", ToCells(Habitat(l)))]
    + if saveAll then
        [Entry("elevation", ToCells(l.elevation)), Entry("rain", ToCells(l.rain)),
         Entry("janTemp", ToCells(l.janTemp)), Entry("julyTemp", ToCells(l.julyTemp))]
      else []
  }

  /** The result names, in the order the preset analysis saves them. */
  function ResultNames(saveAll: bool): seq<string> {
    if saveAll then ["Habitat", "elevation", "rain", "janTemp", "julyTemp"] else ["Habitat"]
  }

  /** The result entries carry the result names, and no two of them clash. */
  lemma ResultsNamed(l: Layers, saveAll: bool)
    requires |l.janTemp| == |l.julyTemp| == |l.rain| == |l.elevation|
    ensures Listing(Results(l, saveAll)) == ResultNames(saveAll)
    ensures var items := Results(l, saveAll);
            forall a, b :: 0 <= a < b < |items| ==> !SameName(items[a].name, items[b].name)
  {
    OutputNamesDistinct();
  }

  /**
   * `Habitats.save('Habitat')`, then, when asked, the four masks under their
   * own names. Each saved name then finds its 1/0 raster; no other lookup changes.
   */
  function SaveResults(out: Workspace, l: Layers, saveAll: bool): (r: Workspace)
    requires |l.janTemp| == |l.julyTemp| == |l.rain| == |l.elevation|
    ensures Find(r, "Habitat") == Some(ToCells(Habitat(l)))
    ensures saveAll ==> && Find(r, "elevation") == Some(ToCells(l.elevation))
                        && Find(r, "rain") == Some(ToCells(l.rain))
                        && Find(r, "janTemp") == Some(ToCells(l.janTemp))
                        && Find(r, "julyTemp") == Some(ToCells(l.julyTemp))
    ensures forall n :: (forall j :: 0 <= j < |ResultNames(saveAll)| ==> !SameName(n, ResultNames(saveAll)[j]))
                        ==> Find(r, n) == Find(out, n)
  {
    var items := Results(l, saveAll);
    ResultsNamed(l, saveAll);
    SaveEachOthers(out, items);
    SaveEachFinds(out, items, 0);
    if saveAll then
      SaveEachFinds(out, items, 1);
      SaveEachFinds(out, items, 2);
      SaveEachFinds(out, items, 3);
      SaveEachFinds(out, items, 4);
      SaveEach(out, items)
    else
      SaveEach(out, items)
  }

  /** The AND of the four preset masks is true exactly at the cells that pass all four ranges. */
  lemma HabitatMaskCells(l: Layers, e: Raster, j: Raster, u: Raster, r: Raster)
    requires Threshold(e, Some(0), Some(5000)).Ok? && Threshold(e, Some(0), Some(5000)).value == l.elevation
    requires Threshold(j, None, Some(6)).Ok? && Threshold(j, None, Some(6)).value == l.janTemp
    requires Threshold(u, Some(20), Some(30)).Ok? && Threshold(u, Some(20), Some(30)).value == l.julyTemp
    requires Threshold(r, Some(24), Some(700)).Ok? && Threshold(r, Some(24), Some(700)).value == l.rain
    requires |j| == |u| == |r| == |e|
    ensures var h := Habitat(l);
            |h| == |e| && forall c :: 0 <= c < |e| ==> (h[c] <==> FirHabitat(e[c], j[c], u[c], r[c]))
  {
  }

  /** Each preset raster listed under its exact name is read back clipped, under the name the analysis uses. */
  lemma PresetClipsFound(input: Workspace, area: Extent, clip: Clipper,
                         elevation: Raster, janTemp: Raster, julyTemp: Raster, rain: Raster)
    requires UniqueNames(input)
    requires Entry(PresetRasters[0], elevation) in input
    requires Entry(PresetRasters[1], janTemp) in input
    requires Entry(PresetRasters[2], julyTemp) in input
    requires Entry(PresetRasters[3], rain) in input
    ensures var clipped := ClipListed(input, input, area, clip);
            && Find(clipped, ElevationLayer) == Some(clip(elevation, area))
            && Find(clipped, JanuaryLayer) == Some(clip(janTemp, area))
            && Find(clipped, JulyLayer) == Some(clip(julyTemp, area))
            && Find(clipped, RainLayer) == Some(clip(rain, area))
  {
    var clipped := ClipListed(input, input, area, clip);
    PresetLayerNames();
    ClipListedFinds(input, input, area, clip, PresetRasters[0], elevation);
    ClipListedFinds(input, input, area, clip, PresetRasters[1], janTemp);
    ClipListedFinds(input, input, area, clip, PresetRasters[2], julyTemp);
    ClipListedFinds(input, input, area, clip, PresetRasters[3], rain);
    FindSameName(clipped, ClipName(PresetRasters[0]), ElevationLayer);
  }

  /**
   * With the four preset rasters listed under their exact names, no name
   * clashes, and clip outputs on one grid, the run succeeds and a cell of
   * "Habitat" is 1 exactly when all four clipped layers pass their ranges
   * there, and 0 when any one fails.
   */
  lemma PresetHabitatCells(st: Stores, area: Extent, clip: Clipper, saveAll: bool,
                           elevation: Raster, janTemp: Raster, julyTemp: Raster, rain: Raster)
    requires UniqueNames(st.input)
    requires Entry(PresetRasters[0], elevation) in st.input
    requires Entry(PresetRasters[1], janTemp) in st.input
    requires Entry(PresetRasters[2], julyTemp) in st.input
    requires Entry(PresetRasters[3], rain) in st.input
    requires |clip(janTemp, area)| == |clip(julyTemp, area)| == |clip(rain, area)| == |clip(elevation, area)|
    ensures PresetStage(st, area, clip, saveAll).failure.None?
    ensures Find(PresetStage(st, area, clip, saveAll).stores.output, "Habitat").Some?
    ensures var h := Find(PresetStage(st, area, clip, saveAll).stores.output, "Habitat").value;
            var e, j, u, r := clip(elevation, area), clip(janTemp, area), clip(julyTemp, area), clip(rain, area);
            && |h| == |e|
            && forall c :: 0 <= c < |e| ==>
                 && (h[c] == 1 <==> FirHabitat(e[c], j[c], u[c], r[c]))
                 && (h[c] == 0 <==> !FirHabitat(e[c], j[c], u[c], r[c]))
  {
    var e, j, u, r := clip(elevation, area), clip(janTemp, area), clip(julyTemp, area), clip(rain, area);
    var l := Layers(Threshold(e, Some(0), Some(5000)).value, Threshold(j, None, Some(6)).value,
                    Threshold(u, Some(20), Some(30)).value, Threshold(r, Some(24), Some(700)).value);
    PresetClippedLayers(st.input, area, clip, elevation, janTemp, julyTemp, rain);
    PresetStageSucceeds(st, area, clip, saveAll, l);
    HabitatMaskCells(l, e, j, u, r);
  }

  /** With the four preset rasters listed under their exact names, the preset layers are their clipped thresholds. */
  lemma PresetClippedLayers(input: Workspace, area: Extent, clip: Clipper,
                            elevation: Raster, janTemp: Raster, julyTemp: Raster, rain: Raster)
    requires UniqueNames(input)
    requires Entry(PresetRasters[0], elevation) in input
    requires Entry(PresetRasters[1], janTemp) in input
    requires Entry(PresetRasters[2], julyTemp) in input
    requires Entry(PresetRasters[3], rain) in input
    ensures var p := PresetLayers(ClipListed(input, input, area, clip));
            && p.Ok?
            && p.value == Layers(Threshold(clip(elevation, area), Some(0), Some(5000)).value,
                                 Threshold(clip(janTemp, area), None, Some(6)).value,
                                 Threshold(clip(julyTemp, area), Some(20), Some(30)).value,
                                 Threshold(clip(rain, area), Some(24), Some(700)).value)
  {
    PresetClipsFound(input, area, clip, elevation, janTemp, julyTemp, rain);
  }

  /** Once the four layers are read on one grid, the preset analysis saves its results and reports no failure. */
  lemma PresetStageSucceeds(st: Stores, area: Extent, clip: Clipper, saveAll: bool, l: Layers)
    requires PresetLayers(ClipListed(st.input, st.input, area, clip)) == Ok(l)
    requires |l.janTemp| == |l.julyTemp| == |l.rain| == |l.elevation|
    ensures PresetStage(st, area, clip, saveAll)
            == Run(Stores(ClipListed(st.input, st.input, area, clip), SaveResults(st.output, l, saveAll)), None)
  {
  }

  /**
   * Into an emptied output workspace the preset analysis writes "Habitat",
   * followed, when asked, by the four masks, and nothing else.
   */
  lemma PresetOutputNames(l: Layers, saveAll: bool)
    requires |l.janTemp| == |l.julyTemp| == |l.rain| == |l.elevation|
    ensures Listing(SaveResults([], l, saveAll))
              == if saveAll then ["Habitat", "elevation", "rain", "janTemp", "julyTemp"] else ["Habitat"]
  {
    SaveResultsListing([], l, saveAll);
  }

  /** Into an output workspace holding none of the result names, the results are appended in saving order. */
  lemma SaveResultsListing(out: Workspace, l: Layers, saveAll: bool)
    requires |l.janTemp| == |l.julyTemp| == |l.rain| == |l.elevation|
    requires forall k, j :: 0 <= k < |out| && 0 <= j < 5 ==> !SameName(out[k].name, ResultNames(true)[j])
    ensures Listing(SaveResults(out, l, saveAll)) == Listing(out) + ResultNames(saveAll)
  {
    var items := Results(l, saveAll);
    ResultsNamed(l, saveAll);
    assert forall j :: 0 <= j < |items| ==> items[j].name == ResultNames(true)[j];
    SaveEachListing(out, items);
  }

  /** The clip outputs stay in the input workspace whether or not the analysis then fails. */
  lemma ClipsOutliveStage(st: Stores, area: Extent, clip: Clipper, saveAll: bool, elevation: Raster)
    requires UniqueNames(st.input)
    requires Entry(PresetRasters[0], elevation) in st.input
    ensures Find(PresetStage(st, area, clip, saveAll).stores.input, ElevationLayer) == Some(clip(elevation, area))
  {
    var clipped := ClipListed(st.input, st.input, area, clip);
    assert PresetStage(st, area, clip, saveAll).stores.input == clipped;
    PresetLayerNames();
    ClipListedFinds(st.input, st.input, area, clip, PresetRasters[0], elevation);
    FindSameName(clipped, ClipName(PresetRasters[0]), ElevationLayer);
  }

  /**
   * Without a raster named "RainfallIN.tif" (and no stale clip output of one)
   * the preset analysis fails on a missing raster.
   */
  lemma PresetNeedsRain(st: Stores, area: Extent, clip: Clipper, saveAll: bool)
    requires forall k :: 0 <= k < |st.input| ==> st.input[k].name != PresetRasters[3]
    requires Find(st.input, RainLayer).None?
    ensures PresetStage(st, area, clip, saveAll).failure.Some?
    ensures PresetStage(st, area, clip, saveAll).failure.value.MissingRaster?
  {
    var clipped := ClipListed(st.input, st.input, area, clip);
    RainNotClipped(st.input, area, clip);
    assert CheckLayer(clipped, RainLayer, Some(24), Some(700)) == Err(MissingRaster(RainLayer));
    assert PresetLayers(clipped).Err? && PresetLayers(clipped).error.MissingRaster?;
  }

  /** The clip stage produces no rain layer from a workspace without a raster named "RainfallIN.tif". */
  lemma RainNotClipped(input: Workspace, area: Extent, clip: Clipper)
    requires forall k :: 0 <= k < |input| ==> input[k].name != PresetRasters[3]
    requires Find(input, RainLayer).None?
    ensures Find(ClipListed(input, input, area, clip), RainLayer).None?
  {
    PresetLayerNames();
    forall k | 0 <= k < |input| && input[k].name in PresetRasters
      ensures !SameName(RainLayer, ClipName(input[k].name))
    {
      var x := input[k].name;
      assert |Lower(x)| == |x| != |PresetRasters[3]| == |Lower(PresetRasters[3])|;
      SameClipName(PresetRasters[3], x);
    }
    ClipListedPreserves(input, input, area, clip, RainLayer);
  }
}
