/**
 Properties of the schedule that span several frames: the face switches once
 per flip, the edge-on frame is the only one the two arithmetics disagree on,
 and each flip lands on the face the next cycle holds.  The orientation in
 which that face is drawn does not carry over: the second half of a flip
 draws it reversed left to right and the hold after it does not.  A
 corrected schedule without the extra reflection is given and proved to loop
 without a jump.
 */
module FlipProperties {
  import opened Schedule
  import opened CanvasTransform

  /** The first flip frame (counted from the start of the flip) that draws
      the opposite face: flip frame 30 when the edge-on cosine reads as zero,
      31 when it reads as positive. */
  function SwitchPoint(edge: EdgeOn): (k: nat)
    ensures k == TransitionFrames / 2 || k == TransitionFrames / 2 + 1
  {
    if edge == FloatPositive then 31 else 30
  }

  /** Every flip frame before the switch point draws the current face
      unmirrored and every one from it on draws the other face mirrored, so
      the face switches exactly once per flip. */
  lemma FaceSwitchesOnce(edge: EdgeOn)
    ensures forall i: nat :: i < TotalFrames && FrameAt(i, edge).pose.Turn? ==>
              (FrameAt(i, edge).pose.mirrored <==> FrameAt(i, edge).pose.local >= SwitchPoint(edge))
  {
  }

  /** The edge-on frames 90 and 210 switch face under real arithmetic and do
      not under floating point; this is the only frame where the readings
      differ. */
  lemma EdgeOnFrame(i: nat, edge: EdgeOn)
    requires i < TotalFrames && FrameAt(i, edge).pose.Turn? && FrameAt(i, edge).pose.local == 30
    ensures i == 90 || i == 210
    ensures FrameAt(i, edge).pose.mirrored <==> edge == RealZero
  {
  }

  /** Apart from the edge-on frames, the schedule does not depend on how the
      cosine rounds. */
  lemma OnlyEdgeOnDiffers(i: nat)
    requires i < TotalFrames && i != 90 && i != 210
    ensures FrameAt(i, RealZero) == FrameAt(i, FloatPositive)
  {
  }

  /** The first frame of the cycle after the one containing frame `i`,
      wrapping from the last cycle back to frame 0. */
  function NextCycleStart(i: nat): (j: nat)
    requires i < TotalFrames
    ensures j < TotalFrames && j % CycleLength == 0
    ensures j != i / CycleLength * CycleLength
  {
    (i / CycleLength + 1) % (TotalFrames / CycleLength) * CycleLength
  }

  /** Once a flip has passed its edge-on point it shows the face that the
      next cycle holds, including across the wrap from frame 239 back to
      frame 0.  This is about the face only, not its orientation. */
  lemma FlipEndsOnNextFace(i: nat, edge: EdgeOn)
    requires i < TotalFrames && FrameAt(i, edge).pose.Turn? && FrameAt(i, edge).pose.mirrored
    ensures FrameAt(NextCycleStart(i), edge).pose == Hold(FrameAt(i, edge).pose.face)
  {
  }

  /** The last frame of each flip shows the face held next: back after the
      first flip, front after the second. */
  lemma FlipsEndOnNextHold(edge: EdgeOn)
    ensures FrameAt(119, edge).pose.face == FrameAt(120, edge).pose.face == Back
    ensures FrameAt(239, edge).pose.face == FrameAt(0, edge).pose.face == Front
  {
  }

  /** The first frame that draws the back: flip frame 30 or 31 of the first
      flip, depending on the edge-on reading.  Every earlier frame draws the
      front. */
  lemma FirstBackFrame(edge: EdgeOn)
    ensures FrameAt(SideDuration + SwitchPoint(edge), edge).pose.face == Back
    ensures forall j: nat :: j < SideDuration + SwitchPoint(edge) ==> FrameAt(j, edge).pose.face == Front
  {
  }

  /** The horizontal transform a frame draws its face with, on a canvas
      `width` wide, when the flip's foreshortening factor `|cos(eased * pi)|`
      is `absScale`.  A hold draws with no transform. */
  function PoseTransform(pose: Pose, width: real, absScale: real): Affine {
    match pose
    case Hold(_) => Identity
    case Turn(_, _, mirrored) => FlipTransform(width, absScale, mirrored)
  }

  /** A mirrored flip frame draws its face reversed left to right; every
      other frame draws it the right way round. */
  lemma ReversedIffMirrored(pose: Pose, width: real, absScale: real, x1: real, x2: real)
    requires absScale > 0.0 && x1 < x2
    ensures pose.Turn? && pose.mirrored ==>
              Apply(PoseTransform(pose, width, absScale), x1) > Apply(PoseTransform(pose, width, absScale), x2)
    ensures !(pose.Turn? && pose.mirrored) ==>
              Apply(PoseTransform(pose, width, absScale), x1) < Apply(PoseTransform(pose, width, absScale), x2)
  {
  }

  /** As written, the face is drawn reversed in the last frame of each flip
      and unreversed in the next frame, which holds the same face: between
      frames 119 and 120, and between 239 and 0, the picture jumps from
      reversed to unreversed. */
  lemma OrientationJumpsAtCycleEnd(edge: EdgeOn, width: real, absScale: real, x1: real, x2: real)
    requires absScale > 0.0 && x1 < x2
    ensures FrameAt(119, edge).pose.face == FrameAt(120, edge).pose.face
    ensures Apply(PoseTransform(FrameAt(119, edge).pose, width, absScale), x1)
              > Apply(PoseTransform(FrameAt(119, edge).pose, width, absScale), x2)
    ensures Apply(PoseTransform(FrameAt(120, edge).pose, width, absScale), x1)
              < Apply(PoseTransform(FrameAt(120, edge).pose, width, absScale), x2)
    ensures FrameAt(239, edge).pose.face == FrameAt(0, edge).pose.face
    ensures Apply(PoseTransform(FrameAt(239, edge).pose, width, absScale), x1)
              > Apply(PoseTransform(FrameAt(239, edge).pose, width, absScale), x2)
    ensures Apply(PoseTransform(FrameAt(0, edge).pose, width, absScale), x1)
              < Apply(PoseTransform(FrameAt(0, edge).pose, width, absScale), x2)
  {
  }

  /** The schedule with the second half of each flip drawn unmirrored: the
      foreshortening already uses `|cos|`, so the incoming face needs no
      further reflection.  Faces, holds and delays are those of `FrameAt`. */
  function CorrectedFrameAt(i: nat, edge: EdgeOn): (r: Frame)
    requires i < TotalFrames
    ensures r.delay == FrameAt(i, edge).delay
    ensures r.pose.face == FrameAt(i, edge).pose.face
    ensures r.pose.Hold? <==> FrameAt(i, edge).pose.Hold?
  {
    var f := FrameAt(i, edge);
    match f.pose
    case Hold(_) => f
    case Turn(local, face, _) => Frame(Turn(local, face, false), f.delay)
  }

  /** In the corrected schedule no frame is drawn reversed, and the last
      frame of each cycle draws the face the next cycle holds, so every
      cycle boundary, including the wrap from 239 to 0, shows the same face
      in the same orientation on both sides. */
  lemma CorrectedLoopSeamless(i: nat, edge: EdgeOn, width: real, absScale: real, x1: real, x2: real)
    requires i < TotalFrames && absScale > 0.0 && x1 < x2
    ensures Apply(PoseTransform(CorrectedFrameAt(i, edge).pose, width, absScale), x1)
              < Apply(PoseTransform(CorrectedFrameAt(i, edge).pose, width, absScale), x2)
    ensures i % CycleLength == CycleLength - 1 ==>
              CorrectedFrameAt(i, edge).pose.face == CorrectedFrameAt(NextCycleStart(i), edge).pose.face
  {
  }
}
