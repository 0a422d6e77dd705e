/**
 * The ways a run of the model can end early. `BlankBounds`, `MissingRaster`
 * and `TooFewMasks` are exceptions the program raises; `GridMismatch` is a
 * refusal the model adds where the raster toolkit would combine grids of
 * different extent on its own. Exceptions the model does not keep (a
 * non-numeric bound, a failing tool call) have no constructor.
 */
module Errors {

  datatype Error =
    /** `int("")`: a range whose lower and upper bound were both left blank */
    | BlankBounds
    /** `Raster(name)` for a name no raster in the workspace carries */
    | MissingRaster(name: string)
    /** `usedForAnalysis[0]` or `usedForAnalysis[1]` out of range: `count` layers were selected */
    | TooFewMasks(count: nat)
    /** added by the model: masks that do not lie on one grid are not combined cell by cell */
    | GridMismatch
}
