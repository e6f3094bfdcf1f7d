/** The line and rectangle rasteriser (kernel/src/console.rs). */
module Raster {
  import opened Common

  datatype Pixel = Pixel(x: int, y: int)

  datatype Format = Rgb | Gray | Other

  /** Steps along one axis after `k` of `n` pixels, for a total of `m` steps: m * k / n, rounded half up. */
  function Steps(m: nat, n: nat, k: nat): nat {
    if n == 0 then 0 else (2 * m * k + n) / (2 * n)
  }

  function Toward(a: int, b: int): int {
    if a < b then 1 else -1
  }

  function Length(p: Pixel, q: Pixel): nat {
    var a, b := Abs(q.x - p.x), Abs(q.y - p.y);
    if a >= b then a else b
  }

  /** Pixel `k` of the line from `p` to `q`. */
  function PixelAt(p: Pixel, q: Pixel, k: nat): Pixel {
    var n := Length(p, q);
    Pixel(p.x + Toward(p.x, q.x) * Steps(Abs(q.x - p.x), n, k),
          p.y + Toward(p.y, q.y) * Steps(Abs(q.y - p.y), n, k))
  }

  /** The line from `p` to `q`: the ideal line sampled once per major-axis step. */
  function Line(p: Pixel, q: Pixel): seq<Pixel> {
    seq(Length(p, q) + 1, k requires 0 <= k => PixelAt(p, q, k))
  }

  // ---- Rounding ----

  /** Rounding is within half a step of the exact position. */
  lemma StepsBounds(m: nat, n: nat, k: nat)
    requires n > 0
    ensures 2 * m * k - n < 2 * n * Steps(m, n, k) <= 2 * m * k + n
  {
    DivBounds(2 * m * k + n, 2 * n);
  }

  lemma StepsEnds(m: nat, n: nat)
    requires m <= n
    ensures Steps(m, n, 0) == 0
    ensures Steps(m, n, n) == m
  {
    if n > 0 {
      DivIs(n, 2 * n, 0);
      assert 2 * m * n + n == 2 * n * m + n;
      DivIs(2 * m * n + n, 2 * n, m);
    }
  }

  lemma StepsMajor(n: nat, k: nat)
    requires n > 0
    ensures Steps(n, n, k) == k
  {
    DivIs(2 * n * k + n, 2 * n, k);
  }

  /** The minor axis takes a step exactly when the next sample has passed the midpoint. */
  lemma StepsNext(m: nat, n: nat, k: nat)
    requires m <= n && n > 0
    ensures var j := Steps(m, n, k);
            Steps(m, n, k + 1) == if (2 * j + 1) * n <= 2 * m * (k + 1) then j + 1 else j
  {
    var j := Steps(m, n, k);
    StepsBounds(m, n, k);
    var a := 2 * m * (k + 1) + n;
    assert a == 2 * m * k + 2 * m + n;
    assert (2 * j + 1) * n == 2 * n * j + n;
    assert 2 * n * (j + 1) == 2 * n * j + 2 * n;
    if (2 * j + 1) * n <= 2 * m * (k + 1) {
      DivIs(a, 2 * n, j + 1);
    } else {
      DivIs(a, 2 * n, j);
    }
  }

  lemma StepsMonotone(m: nat, n: nat, k: nat)
    requires m <= n && k <= n
    ensures Steps(m, n, k) <= m
    ensures k < n ==> Steps(m, n, k) <= Steps(m, n, k + 1) <= Steps(m, n, k) + 1
  {
    if n > 0 {
      StepsBounds(m, n, k);
      assert 2 * m * k <= 2 * m * n by { MulLe(2 * m, k, n); }
      assert 2 * n * Steps(m, n, k) <= 2 * n * m + n;
      MulLess(2 * n, m, Steps(m, n, k));
      StepsNext(m, n, k);
    }
  }

  // ---- What the line is ----

  /** The line starts at `p`, ends at `q`, and has one pixel more than its longer side. */
  lemma LineEnds(p: Pixel, q: Pixel)
    ensures |Line(p, q)| == Length(p, q) + 1
    ensures Line(p, q)[0] == p && Line(p, q)[Length(p, q)] == q
  {
    var n := Length(p, q);
    StepsEnds(Abs(q.x - p.x), n);
    StepsEnds(Abs(q.y - p.y), n);
  }

  predicate Between(a: int, b: int, v: int) {
    (a <= v <= b) || (b <= v <= a)
  }

  /** Every pixel lies in the bounding box of the endpoints. */
  lemma LineInBox(p: Pixel, q: Pixel, k: nat)
    requires k <= Length(p, q)
    ensures var z := Line(p, q)[k];
            Between(p.x, q.x, z.x) && Between(p.y, q.y, z.y)
  {
    var n := Length(p, q);
    StepsMonotone(Abs(q.x - p.x), n, k);
    StepsMonotone(Abs(q.y - p.y), n, k);
  }

  /** Consecutive pixels are neighbours, moving towards `q` on the longer axis every time. */
  lemma LineConnected(p: Pixel, q: Pixel, k: nat)
    requires k < Length(p, q)
    ensures var a, b := Line(p, q)[k], Line(p, q)[k + 1];
            && Abs(b.x - a.x) <= 1 && Abs(b.y - a.y) <= 1
            && (Abs(q.x - p.x) >= Abs(q.y - p.y) ==> b.x == a.x + Toward(p.x, q.x))
            && (Abs(q.y - p.y) >= Abs(q.x - p.x) ==> b.y == a.y + Toward(p.y, q.y))
  {
    var n := Length(p, q);
    StepsMonotone(Abs(q.x - p.x), n, k);
    StepsMonotone(Abs(q.y - p.y), n, k);
    StepsMajor(n, k);
    StepsMajor(n, k + 1);
  }

  /** Every pixel is within half a pixel of the ideal line, measured along the shorter axis. */
  lemma HalfPixel(p: Pixel, q: Pixel, k: nat)
    requires k <= Length(p, q)
    ensures var z := Line(p, q)[k];
            var a, b := Abs(q.x - p.x), Abs(q.y - p.y);
            var i, j := Abs(z.x - p.x), Abs(z.y - p.y);
            Abs(2 * (a * j - b * i)) <= Length(p, q)
  {
    hide Steps;
    var n := Length(p, q);
    var a, b := Abs(q.x - p.x), Abs(q.y - p.y);
    if n > 0 {
      StepsBounds(a, n, k);
      StepsBounds(b, n, k);
      StepsMajor(n, k);
      HalfOfMinor(a, b, n, k, Steps(a, n, k), Steps(b, n, k));
      StepsMonotone(a, n, k);
      StepsMonotone(b, n, k);
      TowardSteps(p.x, q.x, Steps(a, n, k));
      TowardSteps(p.y, q.y, Steps(b, n, k));
    }
  }

  lemma TowardSteps(from: int, to: int, i: nat)
    ensures Abs(from + Toward(from, to) * i - from) == i
  {
  }

  lemma HalfOfMinor(a: nat, b: nat, n: nat, k: nat, i: nat, j: nat)
    requires n == if a >= b then a else b
    requires a == n ==> i == k
    requires b == n ==> j == k
    requires 2 * a * k - n < 2 * n * i <= 2 * a * k + n
    requires 2 * b * k - n < 2 * n * j <= 2 * b * k + n
    ensures Abs(2 * (a * j - b * i)) <= n
  {
    if a == n {
      assert 2 * (a * j - b * i) == 2 * n * j - 2 * b * k;
    } else {
      assert 2 * (a * j - b * i) == 2 * a * k - 2 * n * i;
    }
  }

  // ---- The integer loop ----

  /** One iteration of the loop, from pixel `k` of the line with its error term. */
  lemma Iterate(a: nat, b: nat, k: nat, err: int)
    requires k < (if a >= b then a else b)
    requires var n := if a >= b then a else b;
             err == a - b - b * Steps(a, n, k) + a * Steps(b, n, k)
    ensures var n := if a >= b then a else b;
            && (2 * err + b >= 0 <==> Steps(a, n, k + 1) == Steps(a, n, k) + 1)
            && (2 * err <= a <==> Steps(b, n, k + 1) == Steps(b, n, k) + 1)
            && (2 * err + b < 0 ==> Steps(a, n, k + 1) == Steps(a, n, k))
            && (!(2 * err <= a) ==> Steps(b, n, k + 1) == Steps(b, n, k))
  {
    var n := if a >= b then a else b;
    var i, j := Steps(a, n, k), Steps(b, n, k);
    StepsMajor(n, k);
    StepsMajor(n, k + 1);
    if a >= b {
      StepsBounds(b, n, k);
      StepsNext(b, n, k);
      IterateWide(a, b, k, j, err);
    } else {
      StepsBounds(a, n, k);
      StepsNext(a, n, k);
      IterateTall(a, b, k, i, err);
    }
  }

  lemma IterateWide(a: nat, b: nat, k: nat, j: nat, err: int)
    requires a >= b && a > 0 && err == a - b - b * k + a * j
    requires 2 * b * k - a < 2 * a * j <= 2 * b * k + a
    ensures 2 * err + b >= 0
    ensures 2 * err <= a <==> (2 * j + 1) * a <= 2 * b * (k + 1)
  {
    assert (2 * j + 1) * a == 2 * a * j + a;
    assert 2 * b * (k + 1) == 2 * b * k + 2 * b;
    assert 2 * err == 2 * a - 2 * b - 2 * b * k + 2 * a * j;
  }

  lemma IterateTall(a: nat, b: nat, k: nat, i: nat, err: int)
    requires b > a && err == a - b - b * i + a * k
    requires 2 * a * k - b < 2 * b * i <= 2 * a * k + b
    ensures 2 * err <= a
    ensures 2 * err + b >= 0 <==> (2 * i + 1) * b <= 2 * a * (k + 1)
  {
    assert (2 * i + 1) * b == 2 * b * i + b;
    assert 2 * a * (k + 1) == 2 * a * k + 2 * a;
    assert 2 * err == 2 * a - 2 * b - 2 * b * i + 2 * a * k;
  }

  // ---- Framebuffer ----

  datatype Info = Info(stride: nat, bytesPerPixel: nat, format: Format)

  predicate InfoOk(info: Info) {
    (info.format.Rgb? ==> info.bytesPerPixel >= 3) && (info.format.Gray? ==> info.bytesPerPixel >= 1)
  }

  /** The framebuffer with one pixel set to an intensity; a pixel past the end is skipped. */
  function Shaded(fb: seq<Byte>, info: Info, z: Pixel, v: Byte): (r: seq<Byte>)
    requires InfoOk(info) && z.x >= 0 && z.y >= 0
    ensures |r| == |fb|
  {
    var off := (z.y * info.stride + z.x) * info.bytesPerPixel;
    if off + info.bytesPerPixel > |fb| then fb
    else
      match info.format
      case Rgb => fb[off := v][off + 1 := v][off + 2 := v]
      case Gray => fb[off := v]
      case Other => fb
  }

  /** The framebuffer with one pixel lit. */
  function Lit(fb: seq<Byte>, info: Info, z: Pixel): (r: seq<Byte>)
    requires InfoOk(info) && z.x >= 0 && z.y >= 0
    ensures |r| == |fb|
  {
    Shaded(fb, info, z, 255)
  }

  function ByteOffset(info: Info, z: Pixel): nat
    requires z.x >= 0 && z.y >= 0
  {
    (z.y * info.stride + z.x) * info.bytesPerPixel
  }

  /** Channels a pixel of this format has in memory. */
  function Channels(format: Format): nat {
    match format
    case Rgb => 3
    case Gray => 1
    case Other => 0
  }

  /** Byte `i` of a framebuffer of `size` bytes belongs to pixel `z`. */
  predicate Covers(size: nat, info: Info, z: Pixel, i: nat) {
    && z.x >= 0 && z.y >= 0
    && ByteOffset(info, z) + info.bytesPerPixel <= size
    && ByteOffset(info, z) <= i < ByteOffset(info, z) + Channels(info.format)
  }

  predicate SomeCovers(size: nat, info: Info, zs: seq<Pixel>, i: nat) {
    exists k :: 0 <= k < |zs| && Covers(size, info, zs[k], i)
  }

  lemma ShadedByte(fb: seq<Byte>, info: Info, z: Pixel, v: Byte, i: nat)
    requires InfoOk(info) && z.x >= 0 && z.y >= 0 && i < |fb|
    ensures Shaded(fb, info, z, v)[i] == if Covers(|fb|, info, z, i) then v else fb[i]
  {
    ShadedAt(fb, info, ByteOffset(info, z), v, i);
  }

  lemma ShadedAt(fb: seq<Byte>, info: Info, off: nat, v: Byte, i: nat)
    requires InfoOk(info) && i < |fb|
    ensures off + info.bytesPerPixel <= |fb| ==>
              var r := match info.format case Rgb => fb[off := v][off + 1 := v][off + 2 := v] case Gray => fb[off := v] case Other => fb;
              r[i] == if off <= i < off + Channels(info.format) then v else fb[i]
  {
  }

  predicate Drawable(zs: seq<Pixel>) {
    forall k :: 0 <= k < |zs| ==> zs[k].x >= 0 && zs[k].y >= 0
  }

  function AllLit(fb: seq<Byte>, info: Info, zs: seq<Pixel>): (r: seq<Byte>)
    requires InfoOk(info) && Drawable(zs)
    ensures |r| == |fb|
  {
    if zs == [] then fb else Lit(AllLit(fb, info, zs[..|zs| - 1]), info, zs[|zs| - 1])
  }

  lemma {:induction false} LitConcat(fb: seq<Byte>, info: Info, a: seq<Pixel>, b: seq<Pixel>)
    requires InfoOk(info) && Drawable(a) && Drawable(b)
    ensures Drawable(a + b)
    ensures AllLit(fb, info, a + b) == AllLit(AllLit(fb, info, a), info, b)
    decreases |b|
  {
    if b == [] {
      assert a + b == a;
    } else {
      var c := b[..|b| - 1];
      assert (a + b)[..|a + b| - 1] == a + c;
      LitConcat(fb, info, a, c);
    }
  }

  /** Byte by byte: after pixels are lit a byte is 255 if it belongs to one of them, and otherwise as it was. */
  lemma {:induction false} LitBytes(fb: seq<Byte>, info: Info, zs: seq<Pixel>, i: nat)
    requires InfoOk(info) && Drawable(zs) && i < |fb|
    ensures AllLit(fb, info, zs)[i] == if SomeCovers(|fb|, info, zs, i) then 255 else fb[i]
  {
    hide Shaded, Covers;
    if zs != [] {
      var last := |zs| - 1;
      LitBytes(fb, info, zs[..last], i);
      ShadedByte(AllLit(fb, info, zs[..last]), info, zs[last], 255, i);
      if SomeCovers(|fb|, info, zs, i) && !Covers(|fb|, info, zs[last], i) {
        var k :| 0 <= k < |zs| && Covers(|fb|, info, zs[k], i);
        assert zs[..last][k] == zs[k];
      }
    }
  }

  /** So drawing a rectangle sets exactly the bytes of the pixels of its area, or of its border. */
  lemma RectBytes(fb: seq<Byte>, info: Info, x: nat, y: nat, width: nat, height: nat, filled: bool, z: Pixel, i: nat)
    requires InfoOk(info) && i < |fb| && Covers(|fb|, info, z, i)
    requires x <= z.x < x + width && y <= z.y < y + height
    requires filled || z.x == x || z.x == x + width - 1 || z.y == y || z.y == y + height - 1
    ensures Drawable(Rect(x, y, width, height, filled))
    ensures AllLit(fb, info, Rect(x, y, width, height, filled))[i] == 255
  {
    hide Rect, AllLit, Covers;
    RectDrawable(x, y, width, height, filled);
    RectCovers(x, y, width, height, filled, z);
    LitBytes(fb, info, Rect(x, y, width, height, filled), i);
  }

  lemma LineDrawable(p: Pixel, q: Pixel)
    requires p.x >= 0 && p.y >= 0 && q.x >= 0 && q.y >= 0
    ensures Drawable(Line(p, q))
  {
    forall k: nat | k <= Length(p, q) ensures Line(p, q)[k].x >= 0 && Line(p, q)[k].y >= 0 {
      LineInBox(p, q, k);
    }
  }

  /** Rows `y..y1`, each from `x` to `x1`. */
  function Rows(x: nat, x1: nat, y: nat, y1: nat): seq<Pixel>
    decreases y1 + 1 - y
  {
    if y > y1 then [] else Line(Pixel(x, y), Pixel(x1, y)) + Rows(x, x1, y + 1, y1)
  }

  function Outline(x: nat, x1: nat, y: nat, y1: nat): seq<Pixel> {
    Line(Pixel(x, y), Pixel(x1, y)) + Line(Pixel(x, y1), Pixel(x1, y1))
    + Line(Pixel(x, y), Pixel(x, y1)) + Line(Pixel(x1, y), Pixel(x1, y1))
  }

  /** The pixels draw_rect lights, in order. */
  function Rect(x: nat, y: nat, width: nat, height: nat, filled: bool): seq<Pixel> {
    if width == 0 || height == 0 then []
    else if filled then Rows(x, x + width - 1, y, y + height - 1)
    else Outline(x, x + width - 1, y, y + height - 1)
  }

  /** A level line is exactly the pixels between its ends. */
  lemma LevelLine(x: nat, x1: nat, y: nat, z: Pixel)
    requires x <= x1
    ensures z in Line(Pixel(x, y), Pixel(x1, y)) <==> z.y == y && x <= z.x <= x1
  {
    var p, q := Pixel(x, y), Pixel(x1, y);
    if z in Line(p, q) {
      var k: nat :| k <= Length(p, q) && Line(p, q)[k] == z;
      LineInBox(p, q, k);
    }
    if z.y == y && x <= z.x <= x1 {
      var k: nat := z.x - x;
      if x1 > x {
        StepsMajor(x1 - x, k);
        StepsEnds(0, x1 - x);
        StepsMonotone(0, x1 - x, k);
      }
      assert Line(p, q)[k] == z;
    }
  }

  lemma UprightLine(x: nat, y: nat, y1: nat, z: Pixel)
    requires y <= y1
    ensures z in Line(Pixel(x, y), Pixel(x, y1)) <==> z.x == x && y <= z.y <= y1
  {
    var p, q := Pixel(x, y), Pixel(x, y1);
    if z in Line(p, q) {
      var k: nat :| k <= Length(p, q) && Line(p, q)[k] == z;
      LineInBox(p, q, k);
    }
    if z.x == x && y <= z.y <= y1 {
      var k: nat := z.y - y;
      if y1 > y {
        StepsMajor(y1 - y, k);
        StepsMonotone(0, y1 - y, k);
      }
      assert Line(p, q)[k] == z;
    }
  }

  lemma {:induction false} RowsCover(x: nat, x1: nat, y: nat, y1: nat, z: Pixel)
    requires x <= x1
    ensures z in Rows(x, x1, y, y1) <==> x <= z.x <= x1 && y <= z.y <= y1
    decreases y1 + 1 - y
  {
    if y <= y1 {
      LevelLine(x, x1, y, z);
      RowsCover(x, x1, y + 1, y1, z);
      hide Line;
    }
  }

  /** A rectangle lights exactly its area, or exactly its border. */
  lemma RectCovers(x: nat, y: nat, width: nat, height: nat, filled: bool, z: Pixel)
    ensures var inside := x <= z.x < x + width && y <= z.y < y + height;
            var border := z.x == x || z.x == x + width - 1 || z.y == y || z.y == y + height - 1;
            z in Rect(x, y, width, height, filled) <==> inside && (filled || border)
  {
    hide Line, Rows;
    if width > 0 && height > 0 {
      var x1, y1 := x + width - 1, y + height - 1;
      RowsCover(x, x1, y, y1, z);
      LevelLine(x, x1, y, z);
      LevelLine(x, x1, y1, z);
      UprightLine(x, y, y1, z);
      UprightLine(x1, y, y1, z);
    }
  }

  lemma {:induction false} RowsDrawable(x: nat, x1: nat, y: nat, y1: nat)
    ensures Drawable(Rows(x, x1, y, y1))
    decreases y1 + 1 - y
  {
    if y <= y1 {
      LineDrawable(Pixel(x, y), Pixel(x1, y));
      RowsDrawable(x, x1, y + 1, y1);
      hide Line;
    }
  }

  lemma RectDrawable(x: nat, y: nat, width: nat, height: nat, filled: bool)
    ensures Drawable(Rect(x, y, width, height, filled))
  {
    hide Line, Rows;
    if width > 0 && height > 0 {
      var x1, y1 := x + width - 1, y + height - 1;
      RowsDrawable(x, x1, y, y1);
      LineDrawable(Pixel(x, y), Pixel(x1, y));
      LineDrawable(Pixel(x, y1), Pixel(x1, y1));
      LineDrawable(Pixel(x, y), Pixel(x, y1));
      LineDrawable(Pixel(x1, y), Pixel(x1, y1));
    }
  }

  class Console {
    const fb: array<Byte>
    const info: Info

    constructor (fb: array<Byte>, info: Info)
      requires InfoOk(info)
      ensures this.fb == fb && this.info == info
    {
      this.fb, this.info := fb, info;
    }

    method DrawPixel(x: nat, y: nat, on: bool)
      requires InfoOk(info)
      modifies fb
      ensures fb[..] == Shaded(old(fb[..]), info, Pixel(x, y), if on then 255 else 0)
    {
      var intensity: Byte := if on then 255 else 0;
      var off := (y * info.stride + x) * info.bytesPerPixel;
      if off + info.bytesPerPixel > fb.Length {
        return;
      }
      match info.format {
        case Rgb =>
          fb[off] := intensity;
          fb[off + 1] := intensity;
          fb[off + 2] := intensity;
        case Gray =>
          fb[off] := intensity;
        case Other =>
      }
    }

    /** The loop's variables when pixel `k` of the line is about to be drawn. */
    static ghost predicate At(p: Pixel, q: Pixel, k: nat, x: int, y: int, err: int) {
      var n, a, b := Length(p, q), Abs(q.x - p.x), Abs(q.y - p.y);
      && k <= n
      && x == p.x + Toward(p.x, q.x) * Steps(a, n, k)
      && y == p.y + Toward(p.y, q.y) * Steps(b, n, k)
      && err == a - b - b * Steps(a, n, k) + a * Steps(b, n, k)
    }

    static lemma AtStart(p: Pixel, q: Pixel)
      ensures At(p, q, 0, p.x, p.y, Abs(q.x - p.x) - Abs(q.y - p.y))
    {
      StepsEnds(Abs(q.x - p.x), Length(p, q));
      StepsEnds(Abs(q.y - p.y), Length(p, q));
    }

    static lemma AtNext(p: Pixel, q: Pixel, k: nat, x: int, y: int, err: int)
      requires At(p, q, k, x, y, err) && k < Length(p, q)
      ensures var a, b := Abs(q.x - p.x), Abs(q.y - p.y);
              var stepX, stepY := 2 * err + b >= 0, 2 * err <= a;
              At(p, q, k + 1,
                 if stepX then x + Toward(p.x, q.x) else x,
                 if stepY then y + Toward(p.y, q.y) else y,
                 (if stepX then err - b else err) + (if stepY then a else 0))
    {
      hide Steps, Toward, Abs, Length;
      var n, a, b := Length(p, q), Abs(q.x - p.x), Abs(q.y - p.y);
      LongerSide(p, q);
      Iterate(a, b, k, err);
      Product(b, Steps(a, n, k), Steps(a, n, k + 1));
      Product(a, Steps(b, n, k), Steps(b, n, k + 1));
      Product(Toward(p.x, q.x), Steps(a, n, k), Steps(a, n, k + 1));
      Product(Toward(p.y, q.y), Steps(b, n, k), Steps(b, n, k + 1));
    }

    static lemma Product(t: int, i: int, i1: int)
      ensures i1 == i + 1 ==> t * i1 == t * i + t
    {
    }

    static lemma LongerSide(p: Pixel, q: Pixel)
      ensures var a, b := Abs(q.x - p.x), Abs(q.y - p.y); Length(p, q) == if a >= b then a else b
    {
    }

    static lemma AtPixel(p: Pixel, q: Pixel, k: nat, x: int, y: int, err: int)
      requires At(p, q, k, x, y, err)
      requires p.x >= 0 && p.y >= 0 && q.x >= 0 && q.y >= 0
      ensures k <= Length(p, q) && Line(p, q)[k] == Pixel(x, y) && x >= 0 && y >= 0
      ensures Pixel(x, y) == q <==> k == Length(p, q)
    {
      hide Steps;
      LineInBox(p, q, k);
      LineEnds(p, q);
      if Pixel(x, y) == q {
        AtEnd(p, q, k);
      }
    }

    /** Every pair of endpoints, every octant: the loop ends and lights exactly the pixels of `Line`. */
    method DrawLine(p: Pixel, q: Pixel)
      requires InfoOk(info)
      requires p.x >= 0 && p.y >= 0 && q.x >= 0 && q.y >= 0
      modifies fb
      ensures Drawable(Line(p, q))
      ensures fb[..] == AllLit(old(fb[..]), info, Line(p, q))
    {
      hide Shaded, Line, At, AllLit, Length;
      LineDrawable(p, q);
      LineEnds(p, q);
      var x, y := p.x, p.y;
      var dx := Abs(q.x - p.x);
      var dy: int := 0 - Abs(q.y - p.y);
      var sx := if x < q.x then 1 else -1;
      var sy := if y < q.y then 1 else -1;
      var err := dx + dy;
      ghost var k := 0;
      AtStart(p, q);
      NothingLit(fb[..], info);
      while true
        invariant 0 <= k <= Length(p, q)
        invariant At(p, q, k, x, y, err)
        invariant Drawable(Line(p, q)[..k])
        invariant fb[..] == AllLit(old(fb[..]), info, Line(p, q)[..k])
        decreases Length(p, q) - k
      {
        AtPixel(p, q, k, x, y, err);
        OneMore(old(fb[..]), info, Line(p, q), k);
        DrawPixel(x, y, true);
        if x == q.x && y == q.y {
          assert Line(p, q)[..k + 1] == Line(p, q);
          break;
        }
        AtNext(p, q, k, x, y, err);
        var e2 := 2 * err;
        if e2 >= dy {
          err := err + dy;
          x := x + sx;
        }
        if e2 <= dx {
          err := err + dx;
          y := y + sy;
        }
        k := k + 1;
      }
    }

    static lemma OneMore(fb: seq<Byte>, info: Info, zs: seq<Pixel>, k: nat)
      requires InfoOk(info) && Drawable(zs) && k < |zs|
      ensures AllLit(fb, info, zs[..k + 1]) == Shaded(AllLit(fb, info, zs[..k]), info, zs[k], 255)
    {
      assert zs[..k + 1][..k] == zs[..k];
    }

    /** Only the last pixel is the endpoint. */
    static lemma AtEnd(p: Pixel, q: Pixel, k: nat)
      requires k <= Length(p, q) && Line(p, q)[k] == q
      ensures k == Length(p, q)
    {
      var n := Length(p, q);
      if n > 0 {
        StepsMajor(n, k);
      }
    }

    method DrawRect(x: nat, y: nat, width: nat, height: nat, filled: bool)
      requires InfoOk(info)
      modifies fb
      ensures Drawable(Rect(x, y, width, height, filled))
      ensures fb[..] == AllLit(old(fb[..]), info, Rect(x, y, width, height, filled))
    {
      hide Line, AllLit, Lit;
      RectDrawable(x, y, width, height, filled);
      if width == 0 || height == 0 {
        NothingLit(fb[..], info);
        return;
      }
      var x1, y1 := x + width - 1, y + height - 1;
      if filled {
        var row := y;
        RowsDrawable(x, x1, y, y1);
        while row <= y1
          invariant y <= row <= y1 + 1
          invariant Drawable(Rows(x, x1, row, y1)) && Drawable(Rows(x, x1, y, y1))
          invariant AllLit(fb[..], info, Rows(x, x1, row, y1)) == AllLit(old(fb[..]), info, Rows(x, x1, y, y1))
        {
          LineDrawable(Pixel(x, row), Pixel(x1, row));
          RowsDrawable(x, x1, row + 1, y1);
          LitConcat(fb[..], info, Line(Pixel(x, row), Pixel(x1, row)), Rows(x, x1, row + 1, y1));
          DrawLine(Pixel(x, row), Pixel(x1, row));
          row := row + 1;
        }
        NothingLit(fb[..], info);
      } else {
        var top, bottom := Line(Pixel(x, y), Pixel(x1, y)), Line(Pixel(x, y1), Pixel(x1, y1));
        var left, right := Line(Pixel(x, y), Pixel(x, y1)), Line(Pixel(x1, y), Pixel(x1, y1));
        LineDrawable(Pixel(x, y), Pixel(x1, y));
        LineDrawable(Pixel(x, y1), Pixel(x1, y1));
        LineDrawable(Pixel(x, y), Pixel(x, y1));
        LineDrawable(Pixel(x1, y), Pixel(x1, y1));
        LitConcat(fb[..], info, top, bottom);
        LitConcat(fb[..], info, top + bottom, left);
        LitConcat(fb[..], info, top + bottom + left, right);
        DrawLine(Pixel(x, y), Pixel(x1, y));
        DrawLine(Pixel(x, y1), Pixel(x1, y1));
        DrawLine(Pixel(x, y), Pixel(x, y1));
        DrawLine(Pixel(x1, y), Pixel(x1, y1));
      }
    }

    static lemma NothingLit(fb: seq<Byte>, info: Info)
      requires InfoOk(info)
      ensures AllLit(fb, info, []) == fb
    {
    }
  }
}
