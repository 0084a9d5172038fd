/** Padding frames to a multiple of the latent grid and taking the padding off again. */
module Padding {
  import opened Arith
  import opened Base
  import opened TemporalWindows

  const MULTIPLE: nat := 64

  datatype Pad = Pad(top: nat, bottom: nat, left: nat, right: nat) {
    predicate Any() {
      top != 0 || bottom != 0 || left != 0 || right != 0
    }
  }

  function PaddingToMultiple(height: nat, width: nat, multiple: nat): Pad
    requires multiple >= 1
  {
    CeilDivLeast(height, multiple, CeilDiv(height, multiple));
    CeilDivLeast(width, multiple, CeilDiv(width, multiple));
    var dh := CeilDiv(height, multiple) * multiple - height;
    var dw := CeilDiv(width, multiple) * multiple - width;
    Pad(dh / 2, dh - dh / 2, dw / 2, dw - dw / 2)
  }

  lemma MultipleModulo(q: nat, d: nat)
    requires d >= 1
    ensures (q * d) % d == 0
  {
    QuotientUnique(q * d, d, q, 0);
  }

  lemma LeastMultiple(a: nat, d: nat, k: nat)
    requires d >= 1
    ensures a <= k * d ==> CeilDiv(a, d) * d <= k * d
  {
    CeilDivLeast(a, d, k);
    if a <= k * d {
      assert (k - CeilDiv(a, d)) * d >= 0;
    }
  }

  /** The padded sides are the least multiples that fit, and the padding is split evenly, an odd
      pixel going to the bottom and to the right. */
  lemma PaddedSizes(height: nat, width: nat, multiple: nat, k: nat)
    requires multiple >= 1
    ensures var p := PaddingToMultiple(height, width, multiple);
            && (height + p.top + p.bottom) % multiple == 0 && (width + p.left + p.right) % multiple == 0
            && p.top <= p.bottom <= p.top + 1 && p.left <= p.right <= p.left + 1
            && (height <= k * multiple ==> height + p.top + p.bottom <= k * multiple)
            && (width <= k * multiple ==> width + p.left + p.right <= k * multiple)
  {
    MultipleModulo(CeilDiv(height, multiple), multiple);
    MultipleModulo(CeilDiv(width, multiple), multiple);
    LeastMultiple(height, multiple, k);
    LeastMultiple(width, multiple, k);
  }

  /** Rows of pixels, all of the same width. */
  type Image<T> = seq<seq<T>>

  ghost predicate HasShape<T>(image: Image<T>, height: nat, width: nat) {
    |image| == height && forall r :: 0 <= r < height ==> |image[r]| == width
  }

  function ExpandRow<T>(row: seq<T>, p: Pad, fill: T): seq<T> {
    seq(p.left, _ => fill) + row + seq(p.right, _ => fill)
  }

  /** A border of `fill` around the image, when there is any padding to add. */
  function Expand<T>(image: Image<T>, width: nat, p: Pad, fill: T): Image<T> {
    if p.Any() then
      var blank := seq(p.left + width + p.right, _ => fill);
      seq(p.top, _ => blank) + seq(|image|, r requires 0 <= r < |image| => ExpandRow(image[r], p, fill))
      + seq(p.bottom, _ => blank)
    else image
  }

  /** The part inside the padding; a slice that ends before it starts is empty. */
  function Slice<T>(s: seq<T>, from: nat, end: int): seq<T> {
    if from <= end <= |s| then s[from..end] else []
  }

  function Unpad<T>(image: Image<T>, width: nat, p: Pad): Image<T> {
    if !p.Any() then image
    else
      var rows := Slice(image, p.top, |image| - p.bottom);
      seq(|rows|, r requires 0 <= r < |rows| => Slice(rows[r], p.left, width - p.right))
  }

  /** Padding makes every pixel outside the frame `fill` and keeps the frame inside. */
  lemma ExpandShape<T>(image: Image<T>, height: nat, width: nat, p: Pad, fill: T)
    requires HasShape(image, height, width)
    ensures var big := Expand(image, width, p, fill);
            && HasShape(big, p.top + height + p.bottom, p.left + width + p.right)
            && forall r, c :: 0 <= r < |big| && 0 <= c < p.left + width + p.right ==>
                 big[r][c] == if p.top <= r < p.top + height && p.left <= c < p.left + width
                              then image[r - p.top][c - p.left] else fill
  {
    var big := Expand(image, width, p, fill);
    forall r | 0 <= r < |big| && p.top <= r < p.top + height
      ensures big[r] == if p.Any() then ExpandRow(image[r - p.top], p, fill) else image[r]
    {
    }
  }

  /** Taking the padding off a padded frame restores it. */
  lemma PadRoundTrip<T>(image: Image<T>, height: nat, width: nat, p: Pad, fill: T)
    requires HasShape(image, height, width)
    ensures Unpad(Expand(image, width, p, fill), p.left + width + p.right, p) == image
  {
    if p.Any() {
      var big := Expand(image, width, p, fill);
      var back := Unpad(big, p.left + width + p.right, p);
      forall r | 0 <= r < height ensures back[r] == image[r] {
        assert big[p.top + r] == ExpandRow(image[r], p, fill);
        assert Slice(big, p.top, |big| - p.bottom)[r] == big[p.top + r];
      }
      assert |back| == height;
    }
  }

  /** What the padding adds around, unpadding takes off: the shape comes back for any contents. */
  lemma UnpadShape<T>(image: Image<T>, height: nat, width: nat, p: Pad)
    requires HasShape(image, p.top + height + p.bottom, p.left + width + p.right)
    ensures HasShape(Unpad(image, p.left + width + p.right, p), height, width)
    ensures var back := Unpad(image, p.left + width + p.right, p);
            forall r :: 0 <= r < height ==> back[r] == image[p.top + r][p.left..p.left + width]
  {
  }

  lemma UnpadPixel<T>(image: Image<T>, height: nat, width: nat, p: Pad, r: nat, c: nat)
    requires HasShape(image, p.top + height + p.bottom, p.left + width + p.right) && r < height && c < width
    ensures HasShape(Unpad(image, p.left + width + p.right, p), height, width)
    ensures Unpad(image, p.left + width + p.right, p)[r][c] == image[p.top + r][p.left + c]
  {
    hide Unpad;
    UnpadShape(image, height, width, p);
  }

  datatype ShapeError = NoImageChannels | ChannelMismatch | NotDivisible

  datatype LatentShape = LatentShape(frames: nat, channels: nat, height: nat, width: nat)

  /** Python's integer division on a positive divisor. */
  function WindowLatentShape(unetIn: int, imageChannels: int, height: nat, width: nat, factor: int)
    : Result<LatentShape, ShapeError>
  {
    if imageChannels <= 0 then Failure(NoImageChannels)
    else if unetIn != imageChannels * 2 then Failure(ChannelMismatch)
    else if factor <= 0 || height % factor != 0 || width % factor != 0 then Failure(NotDivisible)
    else Success(LatentShape(WINDOW_SIZE, imageChannels, height / factor, width / factor))
  }

  /** Each error of the latent shape has its own cause; channels are looked at first. */
  lemma ShapeErrors(unetIn: int, imageChannels: int, height: nat, width: nat, factor: int)
    ensures var shape := WindowLatentShape(unetIn, imageChannels, height, width, factor);
            && (imageChannels <= 0 <==> shape == Failure(NoImageChannels))
            && (imageChannels > 0 && unetIn != 2 * imageChannels <==> shape == Failure(ChannelMismatch))
            && (factor <= 0 ==> shape.Failure?)
            && (factor > 0 && shape == Failure(NotDivisible) ==> height % factor != 0 || width % factor != 0)
  {
  }

  lemma DividesMultiple(d: nat, m: nat, x: nat)
    requires d >= 1 && m >= 1 && m % d == 0 && x % m == 0
    ensures x % d == 0
  {
    var a, k := m / d, x / m;
    assert m == a * d && x == k * m;
    assert x == (k * a) * d;
    MultipleModulo(k * a, d);
  }

  lemma ExactQuotient(x: nat, d: nat)
    requires d >= 1 && x % d == 0
    ensures x / d * d == x
  {
  }

  /** The latent grid of a frame whose sides the factor divides. */
  lemma LatentGrid(unetIn: int, imageChannels: int, height: nat, width: nat, factor: nat)
    requires factor >= 1 && height % factor == 0 && width % factor == 0
    ensures var shape := WindowLatentShape(unetIn, imageChannels, height, width, factor);
            && (shape.Success? <==> imageChannels > 0 && unetIn == 2 * imageChannels)
            && (shape.Failure? ==> shape.error != NotDivisible)
            && (shape.Success? ==> shape.value.height * factor == height && shape.value.width * factor == width)
            && (shape.Success? ==> shape.value.frames == 14 && shape.value.channels == imageChannels)
  {
    ExactQuotient(height, factor);
    ExactQuotient(width, factor);
  }

  /** With a VAE factor that divides the padding multiple, padded dimensions always fit the latent grid,
      and the grid times the factor is exactly the padded frame. */
  lemma PaddedFitsLatentGrid(unetIn: int, imageChannels: int, height: nat, width: nat, factor: nat)
    requires factor >= 1 && MULTIPLE % factor == 0
    ensures var p := PaddingToMultiple(height, width, MULTIPLE);
            var h, w := height + p.top + p.bottom, width + p.left + p.right;
            var shape := WindowLatentShape(unetIn, imageChannels, h, w, factor);
            && (shape.Success? <==> imageChannels > 0 && unetIn == 2 * imageChannels)
            && (shape.Failure? ==> shape.error != NotDivisible)
            && (shape.Success? ==> shape.value.height * factor == h && shape.value.width * factor == w)
            && (shape.Success? ==> shape.value.frames == 14 && shape.value.channels == imageChannels)
  {
    hide PaddingToMultiple, WindowLatentShape;
    var p := PaddingToMultiple(height, width, MULTIPLE);
    var h, w := height + p.top + p.bottom, width + p.left + p.right;
    PaddedSizes(height, width, MULTIPLE, 0);
    DividesMultiple(factor, MULTIPLE, h);
    DividesMultiple(factor, MULTIPLE, w);
    LatentGrid(unetIn, imageChannels, h, w, factor);
  }
}
