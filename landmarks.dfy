/** The pose-detector output both posture heuristics read. Coordinates are the
    detector's normalised image coordinates: y grows downwards. */
module Landmarks {

  /** The y coordinates of the five pose landmarks the posture rules use. */
  datatype Pose = Pose(
    noseY: real,
    leftShoulderY: real,
    rightShoulderY: real,
    leftHipY: real,
    rightHipY: real)

  function Abs(x: real): (r: real)
    ensures r >= 0.0 && (r == x || r == -x)
  {
    if x < 0.0 then -x else x
  }
}
