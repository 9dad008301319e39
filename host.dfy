/** The boundary to the host 2D engine: vectors, and a view that answers the
    culling question and records every partial-decal draw issued against it. */
module Host {

  /** A float vector (olc::vf2d), with floats taken as exact reals. */
  datatype Vec2 = Vec2(x: real, y: real)

  /** An integer vector (olc::vi2d). */
  datatype IVec2 = IVec2(x: int, y: int)

  /** The implicit conversion of an integer vector to a float one. */
  function ToReal(v: IVec2): Vec2
  {
    Vec2(v.x as real, v.y as real)
  }

  function Add(a: Vec2, b: Vec2): Vec2
  {
    Vec2(a.x + b.x, a.y + b.y)
  }

  /** Component-wise product, as olc's vector operator* computes it. */
  function Mul(a: Vec2, b: Vec2): Vec2
  {
    Vec2(a.x * b.x, a.y * b.y)
  }

  /** One DrawPartialDecal call against the renderer's sheet decal: screen
      position, source position and size in the sheet, and scale. */
  datatype DrawCall = DrawCall(pos: Vec2, srcPos: Vec2, srcSize: Vec2, scale: Vec2)

  /** A transformed view. Its visibility test is supplied from outside (it
      depends on pan and zoom, which are not modelled); every draw is appended
      to a trace. */
  class View {
    const isRectVisible: (Vec2, Vec2) -> bool
    var trace: seq<DrawCall>

    constructor (isRectVisible: (Vec2, Vec2) -> bool)
      ensures this.isRectVisible == isRectVisible
      ensures trace == []
    {
      this.isRectVisible := isRectVisible;
      trace := [];
    }

    method DrawPartialDecal(pos: Vec2, srcPos: Vec2, srcSize: Vec2, scale: Vec2)
      modifies this
      ensures trace == old(trace) + [DrawCall(pos, srcPos, srcSize, scale)]
    {
      trace := trace + [DrawCall(pos, srcPos, srcSize, scale)];
    }
  }
}
