# Habitat suitability analysis: a Dafny model

The program classifies Douglas-fir habitat from four gridded layers: elevation,
January mean temperature, July mean temperature and rainfall. Each layer is
clipped to a study area. Each is then thresholded against an inclusion range
whose two sides are strict and may each be left blank. The resulting boolean
masks are combined with a cellwise AND, and the result is saved as "Habitat".
A custom mode lets the user pick the layers and type in the ranges. Its result
is saved as "OutRaster". Before the analysis, the output workspace is emptied.
When the analysis finishes without an exception, every raster whose name
starts with "clip" (in any case) is then deleted from the data workspace.

The model is functional:

- A raster is a `seq<int>` of cell values and a mask is a `seq<bool>`.
- A bound is an `Option<int>`. `None` stands for the blank answer `""`.
- A workspace is a sequence of named grids in store order (`Store.Entry`).
- Names are compared without regard to case, as the file store does. This is
  why the lookup of `clipordemfeet` finds the raster the clip step saved as
  `Clipordemfeet`.
- Saving overwrites a raster of the same name, because the program turns
  overwriting on at startup.
- The clip tool's geometry is a function parameter `clip`.
- Prompt answers are parameters.
- The exceptions the model keeps are `Errors.Error` values:
  - `BlankBounds`: `int("")` on a range left blank on both sides;
  - `MissingRaster`: `Raster(name)` on a name no raster carries;
  - `TooFewMasks`: the indexing of fewer than two custom layers.
- `GridMismatch` is a refusal the model adds. The program raises nothing
  there: `&` on rasters of different extent still produces a raster (lines
  126, 164 and 167).

Modules:

- `Names` (names.dfy): case folding, the `Clip` prefix, the cleanup test and the yes test.
- `Mask` (mask.dfy): `rasterCheck`.
- `Combine` (combine.dfy): the cellwise AND.
- `StudyArea` (study_area.dfy): `analysisAreaCheck`.
- `Store` (store.dfy): workspaces, `dataCleanup` and `cleanOutput`.
- `Preset` (preset.dfy): the clip loop and the preset analysis.
- `Custom` (custom.dfy): the custom analysis.
- `Analysis` (analysis.dfy): `main`.
- `Wrappers` (wrappers.dfy) and `Errors` (errors.dfy): the result type and the error kinds.

Facts about the code that the model keeps:

- `analysisAreaCheck` raises for no key: any key other than `'1'` selects the state rectangle.
- Nothing raises for a range with `lo >= hi`. Its mask is all false (`Mask.EmptyRangeMasksAll`).
- `main` has no `try`/`finally`. An exception in the analysis ends it before
  `dataCleanup` (line 182) runs, so a failed run leaves its clip outputs in the
  data workspace (`Preset.ClipsOutliveStage`, `Preset.PresetNeedsRain`,
  `Analysis.RunAnalysis`).
- Custom mode thresholds the rasters under their listed names. It does not clip them.
- Custom mode indexes `usedForAnalysis[0]` and `usedForAnalysis[1]`. With fewer
  than two selected layers it raises (`TooFewMasks`), so a single layer is not
  accepted either.

## Model

| member | source | states |
|---|---|---|
| Mask.Threshold | HabitatSutability.py:24-36 | the mask has the raster's length; a cell is true iff it is above the lower bound (when given) and below the upper bound (when given); the call fails exactly when both bounds are blank |
| Mask.EmptyRangeMasksAll | HabitatSutability.py:33-36 | with both bounds given and `lo >= hi` no error is raised and every cell is false |
| Mask.TwoSidedExample | HabitatSutability.py:33-36 | cells 100, 6000, 3000 against (0, 5000) give true, false, true |
| Mask.BoundsExclusive | HabitatSutability.py:28-36 | a cell equal to a given bound is never in the mask |
| Mask.ToCells | HabitatSutability.py:126-127 | a saved mask holds 1 exactly where the mask is true and 0 elsewhere |
| Combine.AndAll | HabitatSutability.py:126 | the AND of a list of masks on one grid is true at a cell iff every mask is true there |
| Combine.CombineCustom | HabitatSutability.py:163-167 | the seeded loop (`[0] & [1]`, then every index from 0) fails with fewer than two masks, and otherwise equals the AND of all masks |
| Combine.AndAllPermutation | HabitatSutability.py:163-167 | any reordering of the masks gives the same combined mask |
| Combine.RotateLast | HabitatSutability.py:163-167 | moving the last mask to the front leaves the result unchanged ([A, B, C] and [C, A, B]) |
| StudyArea.AnalysisArea | HabitatSutability.py:50-55 | key "1" and only it gives the forest rectangle; every other key gives the state rectangle; both are proper rectangles inside the state one |
| Names.ClipNameIsArtifact | HabitatSutability.py:21 | every name the clip step writes (`'Clip' + name`) passes the cleanup test |
| Names.ClipArtifactIff | HabitatSutability.py:67 | the cleanup test holds iff the name has at least four characters and they read "clip" in any case |
| Names.SameNameArtifact | HabitatSutability.py:67-68 | two spellings of one raster's name agree on the cleanup test, so deleting by the listed name never misses a clip output |
| Names.SameClipName | HabitatSutability.py:21 | two clip outputs collide in the store exactly when their source names do |
| Names.IsYesIff | HabitatSutability.py:157 | an answer selects a layer iff it is "y" or "Y" |
| Store.Listing | HabitatSutability.py:64 | the listing names every raster of the workspace once, in store order |
| Store.Find | HabitatSutability.py:118-121 | a lookup returns the cells of the first raster whose name matches in any case, and fails iff no name matches |
| Store.FindSameName | HabitatSutability.py:118 | two spellings that differ only in case find the same raster |
| Store.Delete | HabitatSutability.py:68 | a deletion removes every raster carrying the name and keeps all others, in their store order |
| Store.DeleteCount | HabitatSutability.py:68 | a deletion shortens the workspace by exactly the number of rasters carrying the name, so with the order clause of `Delete` it is exactly the filter of the workspace |
| Store.Save | HabitatSutability.py:127 | a save leaves the new raster plus every raster whose name differs; a same-named raster is overwritten |
| Store.SaveOrder | HabitatSutability.py:127 | a save puts the raster last; the rasters before it are the other rasters in their old order, one each, none carrying the saved name |
| Store.SaveFresh | HabitatSutability.py:127 | saving under a name no raster carries appends exactly that name to the listing |
| Store.FindAfterDelete | HabitatSutability.py:68 | deleting one name leaves the lookup of every other name as it was |
| Store.SaveFind | HabitatSutability.py:127 | after a save the name finds the saved cells and every other name finds what it found before |
| Store.SaveEachFind | HabitatSutability.py:132-135 | a run of saves under other names leaves a lookup as it was |
| Store.SaveEachFinds | HabitatSutability.py:132-135 | after a run of saves under distinct names, each name finds the raster saved under it |
| Store.SaveEachListing | HabitatSutability.py:132-135 | a run of saves under distinct fresh names appends those names to the listing in saving order |
| Store.DeleteIfClip | HabitatSutability.py:67-68 | one pass of the cleanup loop deletes the listed name exactly when it starts with "clip" in any case, and keeps the order of the rest |
| Store.DataCleanup | HabitatSutability.py:61-69 | a raster remains iff it was there and its name fails the "clip" prefix test; the survivors keep their store order |
| Store.CleanOutput | HabitatSutability.py:71-78 | the output workspace ends empty, whatever it held |
| Preset.PresetLayerNames | HabitatSutability.py:118-121 | the four names the preset analysis reads are the clip names of the four preset rasters; the elevation one differs only in case |
| Preset.ClipListed | HabitatSutability.py:112-114 | the clip loop keeps every raster that is not a clip artifact; each raster it adds is the clip of a listed raster named in the preset list |
| Preset.ClipListedFinds | HabitatSutability.py:112-114 | with unique names, each listed preset raster's clip is found under its clip name |
| Preset.ClipListedPreserves | HabitatSutability.py:112-114 | a name that no clip output of the loop can shadow is looked up exactly as before the loop |
| Preset.PresetClipsFound | HabitatSutability.py:112-121 | with the four preset rasters listed under their exact names, the analysis reads each one's clip under its lookup name |
| Preset.CheckLayer | HabitatSutability.py:118-121 | reading a layer fails with that name when no raster carries it; otherwise it is the threshold of that raster, failing only when both bounds are blank |
| Preset.PresetLayers | HabitatSutability.py:118-121 | the four reads succeed iff all four layers are present; otherwise the failure names the first missing layer in source order; on success each mask is its layer thresholded by the fixed range of its line (elevation (0, 5000), January below 6, July (20, 30), rain (24, 700)) |
| Preset.PresetStage | HabitatSutability.py:109-135 | the preset analysis changes the data workspace only by clip artifacts; it fails exactly when a layer read fails (with that read's error) or the four layers are not on one grid; on failure the output is untouched; otherwise the result is the clipped data workspace and the output with the saved results, "Habitat" among them |
| Preset.Habitat | HabitatSutability.py:126 | the grouped `&` of the four preset masks equals the AND of all four (`Combine.AndAll`) |
| Preset.SaveResults | HabitatSutability.py:127-135 | after the saves "Habitat" finds the 1/0 habitat raster, each optional name (when asked) finds its 1/0 mask, and every other lookup is unchanged |
| Preset.HabitatMaskCells | HabitatSutability.py:118-126 | the AND of the four preset masks is true at a cell iff elevation is in (0, 5000), January is below 6, July is in (20, 30) and rain is in (24, 700) |
| Preset.PresetHabitatCells | HabitatSutability.py:109-127 | with the four preset rasters present and clipped onto one grid, the run succeeds; a "Habitat" cell is 1 iff all four ranges hold there, and 0 if any one fails |
| Preset.PresetStageSucceeds | HabitatSutability.py:118-135 | once the four layers are read on one grid, the analysis reports no failure, keeps the clipped data workspace and writes its results to the output |
| Preset.SaveResultsListing | HabitatSutability.py:127-135 | into an output workspace holding none of the result names, the preset analysis appends them in saving order |
| Preset.PresetOutputNames | HabitatSutability.py:127-135 | into an empty output workspace the preset analysis writes "Habitat", then, when asked, elevation, rain, janTemp and julyTemp, in that order |
| Preset.ClipsOutliveStage | HabitatSutability.py:112-121 | the elevation clip stays in the data workspace after the preset analysis, whether or not that analysis then fails |
| Preset.PresetNeedsRain | HabitatSutability.py:113-121 | without a raster named exactly "RainfallIN.tif" or a stale clip of it, the preset analysis fails on a missing raster |
| Custom.Selected | HabitatSutability.py:156-161 | the selected positions are exactly those answered yes, each once, in list order |
| Custom.CollectMasks | HabitatSutability.py:156-161 | one mask per selected raster, in list order, each the threshold of that raster by its own range; fails iff some selected raster has both bounds blank |
| Custom.CollectedOnGrid | HabitatSutability.py:156-164 | the collected masks lie on one grid exactly when the selected rasters do |
| Custom.CollectedCell | HabitatSutability.py:163-167 | one cell of the AND of the collected masks is true iff every selected raster passes its own range there |
| Custom.CollectedHabitat | HabitatSutability.py:163-167 | the AND of the collected masks is the reference outcome: a cell is suitable iff every selected raster passes its range there |
| Custom.CustomStage | HabitatSutability.py:139-169 | the custom analysis fails on a blank range, on fewer than two selected layers, or on selected layers off one grid; otherwise it saves the reference habitat as "OutRaster"; the data workspace is untouched |
| Analysis.RunAnalysis | HabitatSutability.py:94-184 | a successful run leaves exactly the non-clip rasters in the data workspace; a failed run leaves the output workspace empty; each mode's outcome is its stage's outcome; any other mode saves nothing |

## Left out

- The raster toolkit itself is not modelled: loading, clip geometry, NoData cells and resampling. A grid is its cell sequence and the clip is the parameter `clip`. `Preset.ClipListed` clips the cells of the listed raster. The toolkit would read them again by name, and the clip stage never overwrites a preset raster, so this is the same.
- Prompts (`input`) are parameters: the area key, the mode, the save answer, and one `Custom.Choice` per listed raster.
- `minMaxCheck`'s `GetRasterProperties` query and its "NA" fallback (lines 38-48) only feed the prompt text, so they are left out. Its bounds arrive as parameters.
- `int()` parsing is reduced to the blank sentinel. Bounds and cells are integers. Floating-point cells are left out, and so is the `ValueError` a non-numeric answer raises (lines 28, 31, 34-35).
- Failures of the toolkit calls themselves (`Clip`, `save`, `Delete_management`, `ListRasters`) are not modelled; the model treats these calls as always succeeding.
- Case folding covers ASCII letters only. Python's full Unicode `lower`/`upper` is not modelled.
- `turnAllToRaster` (lines 82-90) is left out. Its only call is inside a string literal, and it uses an undefined `field`.
- The custom "keep all data layers" save (lines 172-177) is left out. It names each file after the object's printed form, which is not a stable name.
- Switching `arcpy.env.workspace` is replaced by two explicit workspaces (`Store.Stores`).
- `print` output is left out.
- Combine.CombineCustom: combining masks of different lengths returns `GridMismatch`. The toolkit's own handling of misaligned grids (intersection and resampling) is not modelled.
- Custom.CustomStage: uses the same `GridMismatch` simplification when the selected rasters differ in cell count.
- Preset.PresetStage: uses the same `GridMismatch` simplification when the four clipped layers differ in cell count.
- Preset.PresetHabitatCells: assumes the data workspace has no two rasters whose names differ only in case. A case-insensitive file store cannot hold two such rasters.
