/** Fitting a source picture into the framebuffer, with even sides. */
module AspectFit {

  lemma MulNext(q: int, den: int)
    ensures (q + 1) * den == q * den + den
  {
  }

  lemma MulMonotone(a: int, b: int, den: int)
    requires a <= b && den > 0
    ensures a * den <= b * den
  {
    assert (b - a) * den >= 0;
    assert b * den == a * den + (b - a) * den;
  }

  lemma Divided(num: int, den: int)
    requires num >= 0 && den > 0
    ensures num == (num / den) * den + num % den && num / den >= 0
  {
  }

  // The bounds for the quotient and the next integer, whichever is taken.
  lemma Rounded(num: int, den: int, q: int, rem: int)
    requires num == q * den + rem && 0 <= rem < den
    ensures 2 * rem <= den ==> 2 * num - den <= 2 * (q * den) <= 2 * num + den
    ensures 2 * rem >= den ==> 2 * num - den <= 2 * ((q + 1) * den) <= 2 * num + den
  {
    MulNext(q, den);
  }

  /** Python's round of an exact quotient: to the nearest integer, halves to even. */
  function RoundHalfEven(num: int, den: int): (r: int)
    requires num >= 0 && den > 0
    ensures r >= 0
    ensures 2 * num - den <= 2 * (r * den) <= 2 * num + den
    ensures 2 * (r * den) == 2 * num - den || 2 * (r * den) == 2 * num + den ==> r % 2 == 0
  {
    var q, rem := num / den, num % den;
    Divided(num, den);
    Rounded(num, den, q, rem);
    if 2 * rem < den || (2 * rem == den && q % 2 == 0) then q else q + 1
  }

  function EvenAtLeastTwo(n: int): (r: int)
    ensures r >= 2 && r % 2 == 0
    ensures n >= 2 ==> n - 1 <= r <= n
    ensures n < 2 ==> r == 2
  {
    if n - n % 2 < 2 then 2 else n - n % 2
  }

  datatype Dims = Dims(width: int, height: int)

  function DisplayWidth(srcWidth: int, parN: int, parD: int): int {
    srcWidth * if parN <= 0 || parD <= 0 then 1 else parN
  }

  function DisplayHeight(srcHeight: int, parN: int, parD: int): int {
    srcHeight * if parN <= 0 || parD <= 0 then 1 else parD
  }

  function ComputeFitDims(srcWidth: int, srcHeight: int, parN: int, parD: int, fbWidth: int, fbHeight: int): Dims {
    if srcWidth <= 0 || srcHeight <= 0 || fbWidth <= 0 || fbHeight <= 0 then Dims(fbWidth, fbHeight) else
      var displayW, displayH := DisplayWidth(srcWidth, parN, parD), DisplayHeight(srcHeight, parN, parD);
      Positive(srcWidth, srcHeight, parN, parD);
      Products(displayW, displayH, fbWidth, fbHeight);
      if displayW * fbHeight >= displayH * fbWidth then
        Dims(EvenAtLeastTwo(fbWidth), EvenAtLeastTwo(RoundHalfEven(fbWidth * displayH, displayW)))
      else
        Dims(EvenAtLeastTwo(RoundHalfEven(fbHeight * displayW, displayH)), EvenAtLeastTwo(fbHeight))
  }

  lemma Positive(srcWidth: int, srcHeight: int, parN: int, parD: int)
    requires srcWidth > 0 && srcHeight > 0
    ensures DisplayWidth(srcWidth, parN, parD) > 0 && DisplayHeight(srcHeight, parN, parD) > 0
  {
  }

  lemma Products(a: int, b: int, c: int, d: int)
    requires a > 0 && b > 0 && c > 0 && d > 0
    ensures c * b > 0 && d * a > 0
  {
  }

  // |value - num / den| < 2, without dividing.
  predicate WithinTwo(value: int, num: int, den: int) {
    -2 * den < value * den - num < 2 * den
  }

  // Rounding moves by at most a half, evening by at most one, clamping by less than two.
  lemma RoundedSide(num: int, den: int)
    requires num > 0 && den > 0
    ensures WithinTwo(EvenAtLeastTwo(RoundHalfEven(num, den)), num, den)
  {
    hide RoundHalfEven, EvenAtLeastTwo;
    var q := RoundHalfEven(num, den);
    MulNext(q - 1, den);
    if q < 2 {
      Small(q, den);
    }
  }

  lemma Small(q: int, den: int)
    requires 0 <= q < 2
    ensures q * den == if q == 0 then 0 else den
  {
  }

  lemma BelowByProduct(q: int, bound: int, den: int)
    requires den > 0 && 2 * (q * den) <= 2 * (bound * den) + den
    ensures q <= bound
  {
    if bound + 1 <= q {
      MulNext(bound, den);
      MulMonotone(bound + 1, q, den);
    }
  }

  lemma RoundedFits(num: int, den: int, bound: int)
    requires num >= 0 && den > 0 && num <= bound * den && bound >= 2
    ensures EvenAtLeastTwo(RoundHalfEven(num, den)) <= bound
  {
    hide RoundHalfEven, EvenAtLeastTwo;
    BelowByProduct(RoundHalfEven(num, den), bound, den);
  }

  lemma ExactSide(n: int, den: int)
    requires n > 0 && den > 0
    ensures WithinTwo(EvenAtLeastTwo(n), n * den, den)
  {
    hide EvenAtLeastTwo;
    MulNext(n - 1, den);
    MulNext(n, den);
  }

  /** Both sides even and at least two; inside the framebuffer exactly when it is at least two by two. */
  lemma FitBounded(srcWidth: int, srcHeight: int, parN: int, parD: int, fbWidth: int, fbHeight: int)
    requires srcWidth > 0 && srcHeight > 0 && fbWidth > 0 && fbHeight > 0
    ensures var d := ComputeFitDims(srcWidth, srcHeight, parN, parD, fbWidth, fbHeight);
            && d.width >= 2 && d.height >= 2 && d.width % 2 == 0 && d.height % 2 == 0
            && (d.width <= fbWidth && d.height <= fbHeight <==> fbWidth >= 2 && fbHeight >= 2)
  {
    Positive(srcWidth, srcHeight, parN, parD);
    var w, h := DisplayWidth(srcWidth, parN, parD), DisplayHeight(srcHeight, parN, parD);
    Products(w, h, fbWidth, fbHeight);
    if fbWidth >= 2 && fbHeight >= 2 {
      if w * fbHeight >= h * fbWidth {
        assert fbWidth * h == h * fbWidth && fbHeight * w == w * fbHeight;
        RoundedFits(fbWidth * h, w, fbHeight);
      } else {
        assert fbHeight * w == w * fbHeight && fbWidth * h == h * fbWidth;
        RoundedFits(fbHeight * w, h, fbWidth);
      }
    }
  }

  /** Each side is less than two pixels from the exact fit of the picture's display shape, clamped or not. */
  lemma FitExact(srcWidth: int, srcHeight: int, parN: int, parD: int, fbWidth: int, fbHeight: int)
    requires srcWidth > 0 && srcHeight > 0 && fbWidth > 0 && fbHeight > 0
    ensures var square := parN <= 0 || parD <= 0;
            var w, h := srcWidth * if square then 1 else parN, srcHeight * if square then 1 else parD;
            var d := ComputeFitDims(srcWidth, srcHeight, parN, parD, fbWidth, fbHeight);
            if w * fbHeight >= h * fbWidth then
              WithinTwo(d.width, fbWidth * w, w) && WithinTwo(d.height, fbWidth * h, w)
            else
              WithinTwo(d.height, fbHeight * h, h) && WithinTwo(d.width, fbHeight * w, h)
  {
    Positive(srcWidth, srcHeight, parN, parD);
    var w, h := DisplayWidth(srcWidth, parN, parD), DisplayHeight(srcHeight, parN, parD);
    Products(w, h, fbWidth, fbHeight);
    if w * fbHeight >= h * fbWidth {
      ExactSide(fbWidth, w);
      RoundedSide(fbWidth * h, w);
    } else {
      ExactSide(fbHeight, h);
      RoundedSide(fbHeight * w, h);
    }
  }

  /** With nothing to fit, or nowhere to fit it, the answer is the framebuffer's own size. */
  lemma NothingToFit(srcWidth: int, srcHeight: int, parN: int, parD: int, fbWidth: int, fbHeight: int)
    requires srcWidth <= 0 || srcHeight <= 0 || fbWidth <= 0 || fbHeight <= 0
    ensures ComputeFitDims(srcWidth, srcHeight, parN, parD, fbWidth, fbHeight) == Dims(fbWidth, fbHeight)
  {
  }
}
