/**
 The frame-producing half of GIF export: refuse unless both images are
 present, otherwise draw the 240 scheduled frames in index order and hand
 each to the encoder.  Drawing a face whose image did not decode throws and
 ends the export without a GIF.  The encoder itself (palette, workers,
 binary output) is outside the model; the frames it would be given are the
 result.
 */
module GifExport {
  import opened Schedule
  import opened FlipProperties

  /** Why export produced no GIF: an image slot was empty, or drawing frame
      `frame` threw because the image it draws did not decode. */
  datatype Error = MissingImage | BrokenImage(frame: nat)

  datatype Result<T> = Success(value: T) | Failure(error: Error)

  datatype Option<T> = None | Some(value: T)

  /** An image the user supplied or that was fetched: its data URL, and
      whether the browser could decode it into the image element that
      frames are drawn from. */
  datatype Image = Image(url: string, decodes: bool)

  /** JavaScript truthiness of an image slot: a slot that is empty or holds
      the empty string counts as missing. */
  function Loaded(slot: Option<Image>): bool {
    slot.Some? && slot.value.url != ""
  }

  /** Whether drawing `face` succeeds, given the two images. */
  function Drawable(face: Face, front: Image, back: Image): bool {
    match face
    case Front => front.decodes
    case Back => back.decodes
  }

  /**
   Produces the frames submitted to the encoder.  With an image missing it
   fails before any frame is made.  If both are present and decode, it
   yields exactly 240 frames, frame `i` being the scheduled frame `i`, each
   with a 33 ms delay.  If one does not decode, export stops at the first
   frame that draws it: frame 0 for the front, the first frame past the
   switch point of the first flip for the back.  The result is fully
   determined by the inputs, so two exports of the same images agree.
   */
  method CreateGif(front: Option<Image>, back: Option<Image>, edge: EdgeOn)
    returns (r: Result<seq<Frame>>)
    ensures r == Failure(MissingImage) <==> !Loaded(front) || !Loaded(back)
    ensures r.Success? <==> Loaded(front) && Loaded(back) && front.value.decodes && back.value.decodes
    ensures r.Success? ==> |r.value| == 240
    ensures r.Success? ==> forall i :: 0 <= i < |r.value| ==> r.value[i] == FrameAt(i, edge)
    ensures r.Success? ==> forall i :: 0 <= i < |r.value| ==> r.value[i].delay == 33
    ensures r.Failure? && r.error.BrokenImage? ==>
              && r.error.frame < TotalFrames
              && !Drawable(FrameAt(r.error.frame, edge).pose.face, front.value, back.value)
              && forall j: nat :: j < r.error.frame ==> Drawable(FrameAt(j, edge).pose.face, front.value, back.value)
    ensures Loaded(front) && Loaded(back) && !front.value.decodes ==> r == Failure(BrokenImage(0))
    ensures Loaded(front) && Loaded(back) && front.value.decodes && !back.value.decodes ==>
              r == Failure(BrokenImage(SideDuration + SwitchPoint(edge)))
  {
    if !Loaded(front) || !Loaded(back) {
      return Failure(MissingImage);
    }
    var f, b := front.value, back.value;
    assert FrameAt(0, edge).pose.face == Front;
    assert FrameAt(120, edge).pose.face == Back;
    FirstBackFrame(edge);
    var frames: seq<Frame> := [];
    var i: nat := 0;
    while i < TotalFrames
      invariant i <= TotalFrames
      invariant |frames| == i
      invariant forall j :: 0 <= j < i ==> frames[j] == FrameAt(j, edge)
      invariant forall j: nat :: j < i ==> Drawable(FrameAt(j, edge).pose.face, f, b)
    {
      var frame := FrameAt(i, edge);
      if !Drawable(frame.pose.face, f, b) {
        return Failure(BrokenImage(i));
      }
      frames := frames + [frame];
      i := i + 1;
    }
    return Success(frames);
  }
}
