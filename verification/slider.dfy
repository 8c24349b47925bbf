/** The "how it works" image slider of the root page: wrap-around next and previous. */
module Slider {

  /** The slider shows three images. */
  const SlideCount: int := 3

  function Abs(x: int): int {
    if x < 0 then -x else x
  }

  /** JavaScript's truncating division: the quotient is rounded toward zero. */
  function JsQuot(a: int, b: int): int
    requires b != 0
  {
    var q := if a >= 0 then a / Abs(b) else -((-a) / Abs(b));
    if b < 0 then -q else q
  }

  /** JavaScript's `%`: truncated division, so the remainder takes the sign of the dividend. */
  function JsRem(a: int, b: int): (r: int)
    requires b != 0
    ensures a == JsQuot(a, b) * b + r
    ensures a >= 0 ==> 0 <= r < Abs(b)
    ensures a < 0 ==> -Abs(b) < r <= 0
  {
    var m := Abs(b);
    if a >= 0 then
      assert a == (a / m) * m + a % m;
      a % m
    else
      assert -a == ((-a) / m) * m + (-a) % m;
      -((-a) % m)
  }

  /** `nextSlide`: `(prev + 1) % slides.length`. */
  function Next(i: int): (r: int)
    ensures 0 <= i < SlideCount ==> 0 <= r < SlideCount
  {
    JsRem(i + 1, SlideCount)
  }

  /** `prevSlide`: `(prev - 1 + slides.length) % slides.length`; the added length keeps the dividend non-negative. */
  function Prev(i: int): (r: int)
    ensures 0 <= i < SlideCount ==> 0 <= r < SlideCount
  {
    JsRem(i - 1 + SlideCount, SlideCount)
  }

  /** On the slider's indices, previous undoes next and next undoes previous. */
  lemma PrevUndoesNext(i: int)
    requires 0 <= i < SlideCount
    ensures Prev(Next(i)) == i && Next(Prev(i)) == i
  {
  }

  /** Without the added length the previous of the first slide would be -1 under JavaScript's `%`. */
  lemma AddedLengthIsNeeded()
    ensures JsRem(0 - 1, SlideCount) == -1 && Prev(0) == SlideCount - 1
  {
  }
}
