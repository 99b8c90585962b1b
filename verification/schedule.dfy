/**
 The frame schedule of the flip GIF: which face of the card each of the 240
 frames shows, whether it is held full-width or caught mid-turn, and whether
 the canvas is mirrored.  Pixels, the affine transform stack and the
 foreshortened width `|cos(eased * pi)|` are not modelled; only the decision
 the transform stack encodes is.
 */
module Schedule {
  import opened Easing

  /** Frames in the whole animation (8 s at 30 fps). */
  const TotalFrames: nat := 240
  /** Frames a face is held still at the start of each cycle. */
  const SideDuration: nat := 60
  /** Frames of the flip that follows each hold. */
  const TransitionFrames: nat := 60
  /** Frames in one hold-then-flip cycle. */
  const CycleLength: nat := SideDuration + TransitionFrames
  /** Display delay of every frame, in milliseconds. */
  const FrameDelay: nat := 33

  datatype Face = Front | Back

  function Opposite(f: Face): Face {
    match f
    case Front => Back
    case Back => Front
  }

  /** The face a cycle holds: front on even cycles, back on odd ones. */
  function CycleFace(cycle: nat): Face {
    if cycle % 2 == 0 then Front else Back
  }

  /** Consecutive cycles hold opposite faces, and the faces repeat every
      two cycles. */
  lemma CycleFaceAlternates(cycle: nat)
    ensures CycleFace(cycle + 1) == Opposite(CycleFace(cycle))
    ensures CycleFace(cycle + 2) == CycleFace(cycle)
  {
  }

  /**
   How the sign test `cos(eased * pi) > 0` comes out at the edge-on point,
   where eased is exactly 1/2.  In real arithmetic the cosine is 0, which is
   not positive; in IEEE doubles `Math.cos(0.5 * Math.PI)` is a tiny positive
   number.  The schedule is stated for either reading.
   */
  datatype EdgeOn = RealZero | FloatPositive

  /** What a frame draws.  A hold draws one face at full width; a turn frame
      sits `local` frames into the flip and draws `face`, horizontally
      mirrored or not. */
  datatype Pose = Hold(face: Face) | Turn(local: nat, face: Face, mirrored: bool)

  /** One frame handed to the encoder: what is drawn and for how long. */
  datatype Frame = Frame(pose: Pose, delay: nat)

  /** Splits a frame index into its cycle and its position inside the cycle.
      For the indices the loop visits there are exactly two cycles. */
  function Split(i: nat): (r: (nat, nat))
    requires i < TotalFrames
    ensures r.0 < 2 && r.1 < CycleLength
    ensures i == r.0 * CycleLength + r.1
  {
    (i / CycleLength, i % CycleLength)
  }

  /** Linear progress through a flip, from the position in the cycle.  The
      last flip frame is 59/60 of the way through, so progress never reaches 1. */
  function Progress(cycleFrame: nat): (r: real)
    requires SideDuration <= cycleFrame < CycleLength
    ensures 0.0 <= r <= 59.0 / 60.0
    ensures r == 0.5 <==> cycleFrame - SideDuration == TransitionFrames / 2
    ensures r < 0.5 <==> cycleFrame - SideDuration < TransitionFrames / 2
  {
    (cycleFrame - SideDuration) as real / TransitionFrames as real
  }

  /** Whether `cos(e * pi)` is positive, for e in the unit interval: the
      cosine is positive below one half and negative above it, and at one
      half the answer depends on the arithmetic in use. */
  function CosPositive(e: real, edge: EdgeOn): bool
    requires 0.0 <= e <= 1.0
  {
    if e == 0.5 then edge == FloatPositive else e < 0.5
  }

  /** As cos(pi - x) = -cos(x), away from the edge-on point the test gives
      opposite answers at e and 1 - e. */
  lemma CosSignSymmetric(e: real, edge: EdgeOn)
    requires 0.0 <= e <= 1.0 && e != 0.5
    ensures CosPositive(1.0 - e, edge) == !CosPositive(e, edge)
  {
  }

  /** As the cosine decreases on [0, pi], the test holds at 0, fails at pi,
      and once it fails it keeps failing. */
  lemma CosSignMonotone(a: real, b: real, edge: EdgeOn)
    requires 0.0 <= a <= b <= 1.0
    ensures CosPositive(0.0, edge) && !CosPositive(1.0, edge)
    ensures CosPositive(b, edge) ==> CosPositive(a, edge)
  {
  }

  /**
   The pose and delay of frame `i`.  The contract restates the schedule by
   index ranges: frames 0-59 hold the front, 60-119 flip to the back,
   120-179 hold the back and 180-239 flip to the front.  Before the edge-on
   point of a flip the current face is drawn as is; after it the other face
   is drawn mirrored.  The edge-on frame itself is left to `edge`.
   */
  function FrameAt(i: nat, edge: EdgeOn): (r: Frame)
    requires i < TotalFrames
    ensures r.delay == 33
    ensures r.pose.Hold? <==> i < 60 || 120 <= i < 180
    ensures i < 60 ==> r.pose == Hold(Front)
    ensures 120 <= i < 180 ==> r.pose == Hold(Back)
    ensures r.pose.Turn? ==> r.pose.local == i % 120 - 60 < 60
    ensures r.pose.Turn? ==>
              (r.pose.mirrored <==> r.pose.face != (if i < 120 then Front else Back))
    ensures r.pose.Turn? && r.pose.local < 30 ==>
              r.pose.face == (if i < 120 then Front else Back) && !r.pose.mirrored
    ensures r.pose.Turn? && r.pose.local > 30 ==>
              r.pose.face == (if i < 120 then Back else Front) && r.pose.mirrored
  {
    var (cycle, cycleFrame) := Split(i);
    var current := CycleFace(cycle);
    var pose :=
      if cycleFrame < SideDuration then
        Hold(current)
      else
        var local := cycleFrame - SideDuration;
        if CosPositive(Ease(Progress(cycleFrame)), edge) then
          Turn(local, current, false)
        else
          Turn(local, Opposite(current), true);
    Frame(pose, FrameDelay)
  }

  /** Every flip frame other than the edge-on one eases to a value more than
      0.03 away from one half (the closest are flip frames 29 and 31), so the
      small rounding error of double arithmetic cannot move such a frame
      across the threshold that decides which face is drawn. */
  lemma EasedClearOfHalf(cycleFrame: nat)
    requires SideDuration <= cycleFrame < CycleLength
    requires cycleFrame - SideDuration != TransitionFrames / 2
    ensures Ease(Progress(cycleFrame)) < 0.47 || Ease(Progress(cycleFrame)) > 0.53
  {
    if cycleFrame < SideDuration + TransitionFrames / 2 {
      EaseMonotone(Progress(cycleFrame), Progress(SideDuration + 29));
    } else {
      EaseMonotone(Progress(SideDuration + 31), Progress(cycleFrame));
    }
  }
}
