/**
 The horizontal part of the canvas transform stack a flip frame is drawn
 with.  Every call on the stack leaves y alone, so a transform is an affine
 map of x.  `ctx.translate` and `ctx.scale` append to the current transform:
 the most recently appended step acts on a drawn point first.
 */
module CanvasTransform {

  /** The map x |-> factor * x + offset. */
  datatype Affine = Affine(factor: real, offset: real)

  function Apply(m: Affine, x: real): real {
    m.factor * x + m.offset
  }

  /** The transform after `ctx.restore()`, used by hold frames. */
  const Identity: Affine := Affine(1.0, 0.0)

  function Translate(dx: real): Affine {
    Affine(1.0, dx)
  }

  function Scale(sx: real): Affine {
    Affine(sx, 0.0)
  }

  /** Appends `next` to the current transform `m`: a drawn point goes
      through `next` and then through `m`. */
  function Then(m: Affine, next: Affine): (r: Affine)
    ensures forall x :: Apply(r, x) == Apply(m, Apply(next, x))
  {
    Affine(m.factor * next.factor, m.factor * next.offset + m.offset)
  }

  /**
   The transform of a flip frame on a canvas `width` wide: squeeze by
   `absScale` about the vertical centre line, then, when `mirrored`, also
   translate by the full width and reflect.  The net map is
   x |-> width/2 + absScale * (x - width/2) when not mirrored, and
   x |-> width/2 + absScale * (width/2 - x) when mirrored.
   */
  function FlipTransform(width: real, absScale: real, mirrored: bool): (r: Affine)
    ensures !mirrored ==> forall x :: Apply(r, x) == width / 2.0 + absScale * (x - width / 2.0)
    ensures mirrored ==> forall x :: Apply(r, x) == width / 2.0 + absScale * (width / 2.0 - x)
  {
    var squeezed := Then(Then(Then(Identity, Translate(width / 2.0)), Scale(absScale)), Translate(-width / 2.0));
    if mirrored then Then(Then(squeezed, Translate(width)), Scale(-1.0)) else squeezed
  }

  /** With a positive foreshortening factor, the mirrored flip transform
      reverses the left-to-right order of the image and the unmirrored one
      keeps it.  Both keep the centre of the image on the centre line. */
  lemma FlipTransformOrder(width: real, absScale: real, mirrored: bool, x1: real, x2: real)
    requires absScale > 0.0 && x1 < x2
    ensures mirrored ==>
              Apply(FlipTransform(width, absScale, mirrored), x1) > Apply(FlipTransform(width, absScale, mirrored), x2)
    ensures !mirrored ==>
              Apply(FlipTransform(width, absScale, mirrored), x1) < Apply(FlipTransform(width, absScale, mirrored), x2)
    ensures Apply(FlipTransform(width, absScale, mirrored), width / 2.0) == width / 2.0
  {
    var m := FlipTransform(width, absScale, mirrored);
    var d := x2 - x1;
    assert absScale * d > 0.0;
    if mirrored {
      assert Apply(m, x1) == width / 2.0 + absScale * (width / 2.0 - x1);
      assert Apply(m, x2) == width / 2.0 + absScale * (width / 2.0 - x1) - absScale * d;
    } else {
      assert Apply(m, x1) == width / 2.0 + absScale * (x1 - width / 2.0);
      assert Apply(m, x2) == width / 2.0 + absScale * (x1 - width / 2.0) + absScale * d;
    }
  }
}
