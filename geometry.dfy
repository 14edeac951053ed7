// OpenCvSharp value types used across the detectors, the tracker and the lane
// analyzer, and the shared Detection record (WpfApp1/Models/Detection.cs).

module Geometry {

  /** OpenCvSharp Point (integer pixel coordinates). */
  datatype Point = Point(x: int, y: int)

  /** OpenCvSharp Rect: top-left corner plus width and height. */
  datatype Rect = Rect(x: int, y: int, width: int, height: int) {
    function Right(): int { x + width }
    function Bottom(): int { y + height }
    function Area(): int { width * height }

    /** Rect.Contains(Point): the half-open box [x, x+width) x [y, y+height). */
    predicate Contains(p: Point) {
      x <= p.x < x + width && y <= p.y < y + height
    }
  }

  /**
   * Detection.cs. Box, ClassId and Score are set once by the parsers and never
   * reassigned by the modelled code, so they are constants here; TrackId is
   * written by the tracker and starts at -1.
   */
  class Detection {
    const box: Rect
    const classId: int
    const score: real
    var trackId: int

    constructor (box: Rect, classId: int, score: real)
      ensures this.box == box && this.classId == classId && this.score == score
      ensures trackId == -1
    {
      this.box := box;
      this.classId := classId;
      this.score := score;
      trackId := -1;
    }
  }
}
