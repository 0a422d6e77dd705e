/** The study-area selector (`analysisAreaCheck`). */
module StudyArea {

  /** An axis-aligned clip rectangle, in the order the clip tool reads it. */
  datatype Extent = Extent(xMin: real, yMin: real, xMax: real, yMax: real) {

    /** A proper rectangle: positive width and height. */
    predicate Valid() {
      xMin < xMax && yMin < yMax
    }

    /** This rectangle lies inside `outer`. */
    predicate Within(outer: Extent) {
      outer.xMin <= xMin && outer.yMin <= yMin && xMax <= outer.xMax && yMax <= outer.yMax
    }
  }

  /** Willamette National Forest study area. */
  const Forest := Extent(711388.17, 584312.16, 992855.62, 1156748.05)

  /** State-wide study area. */
  const State := Extent(400000.00, 145000.00, 2000000.00, 1375000.00)

  /**
   * The key "1" selects the forest; every other answer, including an empty or
   * unrecognised one, selects the state. There is no error path.
   */
  function AnalysisArea(key: string): (e: Extent)
    ensures e.Valid()
    ensures e.Within(State)
    ensures e == Forest <==> key == "1"
    ensures e != Forest ==> e == State
  {
    if key == "1" then Forest else State
  }
}
