/** The latency graph's canvas (pkg/client/cli.go:480-526, 572-597): a Braille mask matrix and
    an integer line rasteriser proved equal to the rounded ideal line. */
module LineRaster {
  import opened Bytes
  import opened Replay

  // ----- The ideal line -------------------------------------------------------------------

  datatype Pixel = Pixel(x: int, y: int)

  function Abs(v: int): nat
  {
    if v < 0 then -v else v
  }

  function Max(a: int, b: int): int
  {
    if a < b then b else a
  }

  function Sign(from: int, to: int): int
  {
    if from < to then 1 else -1
  }

  /** How far the minor axis has moved after k major steps: k*minor/major, halves upward. */
  function Rounded(k: nat, minor: nat, major: nat): nat
  {
    if major == 0 then 0 else (2 * k * minor + major) / (2 * major)
  }

  /** Steps along x and along y after k steps of a line dx wide and dy high. */
  function Along(k: nat, dx: nat, dy: nat): (int, int)
  {
    if dx >= dy then (k, Rounded(k, dy, dx)) else (Rounded(k, dx, dy), k)
  }

  /** Length of the line in steps. */
  function Steps(p: Pixel, q: Pixel): nat
  {
    Max(Abs(q.x - p.x), Abs(q.y - p.y))
  }

  /** Pixel k of the line from p to q. */
  function LinePixel(p: Pixel, q: Pixel, k: nat): Pixel
  {
    var (i, j) := Along(k, Abs(q.x - p.x), Abs(q.y - p.y));
    Pixel(p.x + Sign(p.x, q.x) * i, p.y + Sign(p.y, q.y) * j)
  }

  /** j is within half a pixel of k*minor/major, above if halfway. */
  predicate Near(k: nat, minor: nat, major: nat, j: int)
  {
    var e := 2 * (j * major - k * minor);
    0 < e + major && e <= major
  }

  /** j is Rounded(k, minor, major) exactly when it is within half a pixel of the ideal. */
  lemma RoundedWhen(k: nat, minor: nat, major: nat, j: int)
    requires major > 0
    ensures Near(k, minor, major, j) <==> j == Rounded(k, minor, major)
  {
    var n, m := 2 * (k * minor) + major, 2 * major;
    assert n == 2 * k * minor + major;
    var r := n / m;
    assert n == m * r + n % m;
    assert m * r == 2 * (r * major);
    assert Near(k, minor, major, r);
    var e := j - r;
    assert 2 * (j * major - k * minor) == 2 * (r * major - k * minor) + m * e;
    Multiple(m, e);
  }

  lemma RoundedEnds(minor: nat, major: nat)
    requires minor <= major
    ensures Rounded(0, minor, major) == 0 && Rounded(major, minor, major) == minor
  {
    if major > 0 {
      RoundedWhen(0, minor, major, 0);
      RoundedWhen(major, minor, major, minor);
    }
  }

  /** The minor axis moves by nothing or one per step, */
  lemma RoundedSteps(k: nat, minor: nat, major: nat)
    requires minor <= major && k < major
    ensures Rounded(k, minor, major) <= Rounded(k + 1, minor, major) <= Rounded(k, minor, major) + 1
  {
    var j, next := Rounded(k, minor, major), Rounded(k + 1, minor, major);
    RoundedWhen(k, minor, major, j);
    RoundedWhen(k + 1, minor, major, next);
    Apart(j, next, major);
    assert (k + 1) * minor == k * minor + minor;
  }

  lemma Apart(j: int, next: int, major: nat)
    requires major > 0
    ensures next < j ==> next * major <= j * major - major
    ensures next > j + 1 ==> next * major >= j * major + 2 * major
  {
    var e := next - j;
    assert next * major == j * major + major * e;
    Multiple(major, e);
    Multiple(major, e - 1);
    assert major * (e - 1) == major * e - major;
  }

  /** and never past its end. */
  lemma RoundedBounded(k: nat, minor: nat, major: nat)
    requires minor <= major && k <= major
    ensures Rounded(k, minor, major) <= minor
  {
    if k < major {
      var j := Rounded(k, minor, major);
      RoundedWhen(k, minor, major, j);
      Apart(j, minor, major);
      assert (major - k) * minor == minor * major - k * minor;
      Product(major - k, minor);
    } else {
      RoundedEnds(minor, major);
    }
  }

  lemma Product(a: nat, b: nat)
    ensures a * b >= 0
  {
  }

  /** The loop's error variable after i steps along x and j along y. */
  predicate Balanced(i: int, j: int, dx: nat, dy: nat, err: int)
  {
    err == j * dx - i * dy + dx - dy
  }

  lemma Distribute(a: int, b: int)
    ensures (a + 1) * b == a * b + b
  {
  }

  /** The error test of the loop decides the minor axis; the major axis always moves. */
  lemma ErrorDecides(k: nat, minor: nat, major: nat)
    requires minor <= major && k < major
    ensures var j := Rounded(k, minor, major);
            var d := j * major - k * minor;
            && Rounded(k + 1, minor, major) == (if 2 * d + major <= 2 * minor then j + 1 else j)
            && 2 * d + 2 * major >= minor
  {
    var j := Rounded(k, minor, major);
    RoundedWhen(k, minor, major, j);
    RoundedWhen(k + 1, minor, major, j);
    RoundedWhen(k + 1, minor, major, j + 1);
    Distribute(k, minor);
    Distribute(j, major);
    hide Rounded;
  }

  lemma LineStep(k: nat, dx: nat, dy: nat, i: int, j: int, err: int)
    requires k < dx || k < dy
    requires (i, j) == Along(k, dx, dy) && err == j * dx - i * dy + dx - dy
    ensures Along(k + 1, dx, dy)
            == (if 2 * err + dy >= 0 then i + 1 else i, if 2 * err <= dx then j + 1 else j)
  {
    hide Rounded;
    if dx >= dy {
      ErrorDecides(k, dy, dx);
    } else {
      ErrorDecides(k, dx, dy);
    }
  }

  lemma LineEnds(p: Pixel, q: Pixel)
    ensures LinePixel(p, q, 0) == p && LinePixel(p, q, Steps(p, q)) == q
  {
    var dx, dy := Abs(q.x - p.x), Abs(q.y - p.y);
    RoundedEnds(if dx >= dy then dy else dx, if dx >= dy then dx else dy);
  }

  lemma LineStarts(p: Pixel, q: Pixel, rtt: int, width: nat, height: nat)
    ensures var dx, dy := Abs(q.x - p.x), Abs(q.y - p.y);
            Along(0, dx, dy) == (0, 0) && Balanced(0, 0, dx, dy, dx - dy)
    ensures LinePixel(p, q, 0) == p && Clipped(LineMarks(p, q, rtt, 0), width, height) == []
  {
    LineEnds(p, q);
    var dx, dy := Abs(q.x - p.x), Abs(q.y - p.y);
    RoundedEnds(if dx >= dy then dy else dx, if dx >= dy then dx else dy);
  }

  /** The target is reached at the last step and not before. */
  lemma LineArrives(p: Pixel, q: Pixel, k: nat)
    requires k <= Steps(p, q)
    ensures LinePixel(p, q, k) == q <==> k == Steps(p, q)
  {
    LineEnds(p, q);
  }

  /** What the loop does to its variables is one step along the line. */
  lemma LineMoves(p: Pixel, q: Pixel, k: nat, i: int, j: int, err: int)
    requires k < Steps(p, q)
    requires var dx, dy := Abs(q.x - p.x), Abs(q.y - p.y);
             (i, j) == Along(k, dx, dy) && Balanced(i, j, dx, dy, err)
    ensures var dx, dy, a := Abs(q.x - p.x), Abs(q.y - p.y), LinePixel(p, q, k);
            var i' := if 2 * err + dy >= 0 then i + 1 else i;
            var j' := if 2 * err <= dx then j + 1 else j;
            && Along(k + 1, dx, dy) == (i', j')
            && LinePixel(p, q, k + 1) == Pixel(if i' > i then a.x + Sign(p.x, q.x) else a.x,
                                               if j' > j then a.y + Sign(p.y, q.y) else a.y)
            && Balanced(i', j', dx, dy, err + (if j' > j then dx else 0) - (if i' > i then dy else 0))
  {
    hide Rounded;
    var dx, dy := Abs(q.x - p.x), Abs(q.y - p.y);
    LineStep(k, dx, dy, i, j, err);
    Distribute(i, dy);
    Distribute(j, dx);
  }

  /** Each pixel is an 8-neighbour of the last. */
  lemma LineIsConnected(p: Pixel, q: Pixel, k: nat)
    requires k < Steps(p, q)
    ensures var a, b := LinePixel(p, q, k), LinePixel(p, q, k + 1);
            Abs(b.x - a.x) <= 1 && Abs(b.y - a.y) <= 1 && a != b
  {
    var dx, dy := Abs(q.x - p.x), Abs(q.y - p.y);
    RoundedSteps(k, if dx >= dy then dy else dx, if dx >= dy then dx else dy);
  }

  /** Every pixel lies in the bounding box of the ends. */
  lemma LineStaysInBox(p: Pixel, q: Pixel, k: nat)
    requires k <= Steps(p, q)
    ensures var a := LinePixel(p, q, k);
            && (p.x <= a.x <= q.x || q.x <= a.x <= p.x)
            && (p.y <= a.y <= q.y || q.y <= a.y <= p.y)
  {
    var dx, dy := Abs(q.x - p.x), Abs(q.y - p.y);
    var minor, major := if dx >= dy then dy else dx, if dx >= dy then dx else dy;
    RoundedBounded(k, minor, major);
  }

  /** On the minor axis pixel k is within half a pixel of the ideal line, the point k steps
      along the major axis; times twice the length, so as to stay in integers. */
  lemma LineIsAccurate(p: Pixel, q: Pixel, k: nat)
    requires 0 < Steps(p, q) && k <= Steps(p, q)
    ensures var a, n := LinePixel(p, q, k), Steps(p, q);
            && 2 * Abs((a.x - p.x) * n - k * (q.x - p.x)) <= n
            && 2 * Abs((a.y - p.y) * n - k * (q.y - p.y)) <= n
  {
    var dx, dy := Abs(q.x - p.x), Abs(q.y - p.y);
    var minor, major := if dx >= dy then dy else dx, if dx >= dy then dx else dy;
    var j := Rounded(k, minor, major);
    RoundedWhen(k, minor, major, j);
    Signed(Sign(p.x, q.x), if dx >= dy then k else j, k, major, dx);
    Signed(Sign(p.y, q.y), if dx >= dy then j else k, k, major, dy);
    assert q.x - p.x == Sign(p.x, q.x) * dx && q.y - p.y == Sign(p.y, q.y) * dy;
  }

  lemma Signed(s: int, i: nat, k: nat, n: nat, d: nat)
    requires s == 1 || s == -1
    ensures Abs(s * i * n - k * (s * d)) == Abs(i * n - k * d)
  {
    assert s * i * n - k * (s * d) == s * (i * n - k * d);
  }

  // ----- Braille cells --------------------------------------------------------------------

  /** Unicode's number of the dot at a place of the 2x4 cell, from zero. */
  function Dot(x: nat, y: nat): nat
    requires x < 2 && y < 4
  {
    if y == 3 then 6 + x else 3 * x + y
  }

  function BrailleDotMask(x: nat, y: nat): (mask: Byte)
    requires x < 2 && y < 4
    ensures mask == Pow2(Dot(x, y))
  {
    Powers();
    if x == 0 then if y == 0 then 1 else if y == 1 then 2 else if y == 2 then 4 else 64
    else if y == 0 then 8 else if y == 1 then 16 else if y == 2 then 32 else 128
  }

  lemma Powers()
    ensures Pow2(0) == 1 && Pow2(1) == 2 && Pow2(2) == 4 && Pow2(3) == 8
    ensures Pow2(4) == 16 && Pow2(5) == 32 && Pow2(6) == 64 && Pow2(7) == 128 && Pow2(8) == 256
  {
    assert Pow2(2) == 4;
    assert Pow2(4) == 16;
    assert Pow2(6) == 64;
  }

  /** Eight places, eight different dots. */
  lemma DotsDiffer(x: nat, y: nat, u: nat, v: nat)
    requires x < 2 && y < 4 && u < 2 && v < 4
    ensures Bit(BrailleDotMask(x, y), Dot(u, v)) <==> x == u && y == v
  {
    ShiftedOne(Dot(x, y));
    ShiftDigit(1, Dot(x, y), Dot(u, v));
    if Dot(x, y) <= Dot(u, v) {
      OneDigit(Dot(u, v) - Dot(x, y));
    }
  }

  // ----- The canvas -----------------------------------------------------------------------

  /** A pixel set with the round-trip time it shows. */
  datatype Mark = Mark(at: Pixel, rtt: int)

  predicate IsLit(marks: seq<Mark>, at: Pixel)
  {
    exists k :: 0 <= k < |marks| && marks[k].at == at
  }

  /** The longest time shown by a pixel of a cell, zero if none is longer. */
  function Peak(marks: seq<Mark>, column: int, row: int): int
  {
    if marks == [] then 0
    else
      var m := marks[|marks| - 1];
      var before := Peak(marks[..|marks| - 1], column, row);
      if m.at.x / 2 == column && m.at.y / 4 == row then Max(m.rtt, before) else before
  }

  function Clipped(marks: seq<Mark>, width: nat, height: nat): seq<Mark>
  {
    if marks == [] then []
    else
      var m := marks[|marks| - 1];
      Clipped(marks[..|marks| - 1], width, height)
      + if 0 <= m.at.x < 2 * width && 0 <= m.at.y < 4 * height then [m] else []
  }

  /** The pixels of a line. */
  function LineMarks(p: Pixel, q: Pixel, rtt: int, n: nat): seq<Mark>
  {
    seq(n, k requires 0 <= k < n => Mark(LinePixel(p, q, k), rtt))
  }

  lemma ClippedOne(m: Mark, width: nat, height: nat)
    ensures Clipped([m], width, height)
            == if 0 <= m.at.x < 2 * width && 0 <= m.at.y < 4 * height then [m] else []
  {
    assert Clipped([m][..0], width, height) == [];
  }

  /** Setting a dot of a cell sets that bit and no other. */
  lemma DotAdded(mask: Byte, x: nat, y: nat)
    requires x < 2 && y < 4
    ensures Or(mask, BrailleDotMask(x, y)) < 256
    ensures forall u: nat, v: nat | u < 2 && v < 4 ::
              Bit(Or(mask, BrailleDotMask(x, y)), Dot(u, v)) <==> Bit(mask, Dot(u, v)) || (u == x && v == y)
  {
    hide Bit, Or, Dot;
    Powers();
    OrBound(mask, BrailleDotMask(x, y), 8);
    forall u: nat, v: nat | u < 2 && v < 4
      ensures Bit(Or(mask, BrailleDotMask(x, y)), Dot(u, v)) <==> Bit(mask, Dot(u, v)) || (u == x && v == y)
    {
      OrDigit(mask, BrailleDotMask(x, y), Dot(u, v));
      DotsDiffer(x, y, u, v);
    }
  }

  lemma PeakMore(marks: seq<Mark>, m: Mark)
    ensures forall column, row :: Peak(marks + [m], column, row)
              == if m.at.x / 2 == column && m.at.y / 4 == row then Max(m.rtt, Peak(marks, column, row))
                 else Peak(marks, column, row)
  {
    assert (marks + [m])[..|marks + [m]| - 1] == marks;
  }

  /** Peak is the greatest time shown in the cell, zero if there is none above. */
  lemma {:induction false} PeakIsGreatest(marks: seq<Mark>, column: int, row: int)
    ensures Peak(marks, column, row) >= 0
    ensures forall m | m in marks && m.at.x / 2 == column && m.at.y / 4 == row :: m.rtt <= Peak(marks, column, row)
    ensures Peak(marks, column, row) > 0 ==>
              exists m :: m in marks && m.at.x / 2 == column && m.at.y / 4 == row && m.rtt == Peak(marks, column, row)
  {
    if marks != [] {
      var before, last := marks[..|marks| - 1], marks[|marks| - 1];
      assert marks == before + [last];
      PeakIsGreatest(before, column, row);
      assert last in marks;
      if Peak(marks, column, row) != Peak(before, column, row) {
        assert last.rtt == Peak(marks, column, row);
      }
    }
  }

  /** The dots of Unicode's Braille patterns: 1, 2, 3 and 7 down the left, 4, 5, 6 and 8 the right. */
  lemma DotWeights(mask: nat)
    ensures And(mask, 0x01) != 0 <==> Bit(mask, Dot(0, 0))
    ensures And(mask, 0x02) != 0 <==> Bit(mask, Dot(0, 1))
    ensures And(mask, 0x04) != 0 <==> Bit(mask, Dot(0, 2))
    ensures And(mask, 0x40) != 0 <==> Bit(mask, Dot(0, 3))
    ensures And(mask, 0x08) != 0 <==> Bit(mask, Dot(1, 0))
    ensures And(mask, 0x10) != 0 <==> Bit(mask, Dot(1, 1))
    ensures And(mask, 0x20) != 0 <==> Bit(mask, Dot(1, 2))
    ensures And(mask, 0x80) != 0 <==> Bit(mask, Dot(1, 3))
  {
    hide And, Bit;
    Powers();
    forall d: nat ensures And(mask, Pow2(d)) != 0 <==> Bit(mask, d) {
      MaskReadsDigit(mask, d);
    }
  }

  /** The marks of a line show it: the pixels on the canvas and no other, each with its time. */
  lemma LineShows(p: Pixel, q: Pixel, rtt: int, n: nat, width: nat, height: nat)
    ensures var line := Clipped(LineMarks(p, q, rtt, n), width, height);
            && (forall m | m in line :: m.rtt == rtt)
            && forall at :: IsLit(line, at) <==>
                 && 0 <= at.x < 2 * width && 0 <= at.y < 4 * height
                 && exists k: nat :: k < n && LinePixel(p, q, k) == at
  {
    hide LinePixel;
    var marks := LineMarks(p, q, rtt, n);
    var line := Clipped(marks, width, height);
    ClippedKeeps(marks, width, height);
    forall at
      ensures IsLit(line, at) <==>
                && 0 <= at.x < 2 * width && 0 <= at.y < 4 * height
                && exists k: nat :: k < n && LinePixel(p, q, k) == at
    {
      ClippedIsInside(marks, width, height, at);
      if k: nat :| k < n && LinePixel(p, q, k) == at {
        assert marks[k].at == at;
      }
      if IsLit(marks, at) {
        var k :| 0 <= k < |marks| && marks[k].at == at;
        assert LinePixel(p, q, k) == at;
      }
    }
  }

  lemma {:induction false} ClippedKeeps(marks: seq<Mark>, width: nat, height: nat)
    ensures forall m | m in Clipped(marks, width, height) :: m in marks
  {
    if marks != [] {
      ClippedKeeps(marks[..|marks| - 1], width, height);
    }
  }

  lemma LitByBoth(a: seq<Mark>, b: seq<Mark>, at: Pixel)
    ensures IsLit(a + b, at) <==> IsLit(a, at) || IsLit(b, at)
  {
    if IsLit(a, at) {
      var k :| 0 <= k < |a| && a[k].at == at;
      assert (a + b)[k].at == at;
    }
    if IsLit(b, at) {
      var k :| 0 <= k < |b| && b[k].at == at;
      assert (a + b)[|a| + k].at == at;
    }
  }

  class Canvas {
    const width: nat
    const height: nat
    const masks: array2<Byte>
    const cellRTT: array2<int>
    /** Every pixel set inside the canvas, in order. */
    ghost var marks: seq<Mark>

    ghost predicate Valid()
      reads this, masks, cellRTT
    {
      && masks.Length0 == cellRTT.Length0 == height && masks.Length1 == cellRTT.Length1 == width
      && (forall x: nat, y: nat | x < 2 * width && y < 4 * height ::
            Bit(masks[y / 4, x / 2], Dot(x % 2, y % 4)) <==> IsLit(marks, Pixel(x, y)))
      && (forall column, row | 0 <= column < width && 0 <= row < height ::
            cellRTT[row, column] == Peak(marks, column, row))
    }

    constructor (width: nat, height: nat)
      ensures Valid() && fresh(masks) && fresh(cellRTT) && marks == []
      ensures this.width == width && this.height == height
    {
      this.width, this.height := width, height;
      masks := new Byte[height, width]((_, _) => 0);
      cellRTT := new int[height, width]((_, _) => 0);
      marks := [];
      new;
      forall x: nat, y: nat | x < 2 * width && y < 4 * height ensures !Bit(masks[y / 4, x / 2], Dot(x % 2, y % 4)) {
        NoDigits(Dot(x % 2, y % 4));
      }
    }

    /** Each cell is the Braille pattern of its eight pixels, and shows its longest time. */
    lemma CellReads(column: nat, row: nat)
      requires Valid() && column < width && row < height
      ensures var mask, x, y := masks[row, column], 2 * column, 4 * row;
              && (And(mask, 0x01) != 0 <==> IsLit(marks, Pixel(x, y)))
              && (And(mask, 0x02) != 0 <==> IsLit(marks, Pixel(x, y + 1)))
              && (And(mask, 0x04) != 0 <==> IsLit(marks, Pixel(x, y + 2)))
              && (And(mask, 0x40) != 0 <==> IsLit(marks, Pixel(x, y + 3)))
              && (And(mask, 0x08) != 0 <==> IsLit(marks, Pixel(x + 1, y)))
              && (And(mask, 0x10) != 0 <==> IsLit(marks, Pixel(x + 1, y + 1)))
              && (And(mask, 0x20) != 0 <==> IsLit(marks, Pixel(x + 1, y + 2)))
              && (And(mask, 0x80) != 0 <==> IsLit(marks, Pixel(x + 1, y + 3)))
      ensures forall m | m in marks && m.at.x / 2 == column && m.at.y / 4 == row :: m.rtt <= cellRTT[row, column]
      ensures cellRTT[row, column] > 0 ==>
                exists m :: m in marks && m.at.x / 2 == column && m.at.y / 4 == row && m.rtt == cellRTT[row, column]
    {
      hide And, Bit, Dot, IsLit, Peak;
      DotWeights(masks[row, column]);
      PeakIsGreatest(marks, column, row);
      forall u: nat, v: nat | u < 2 && v < 4
        ensures Bit(masks[row, column], Dot(u, v)) <==> IsLit(marks, Pixel(2 * column + u, 4 * row + v))
      {
        var x, y := 2 * column + u, 4 * row + v;
        assert x / 2 == column && x % 2 == u && y / 4 == row && y % 4 == v;
      }
    }

    /** Sets one pixel; outside the canvas, nothing. */
    method SetPixel(x: int, y: int, rtt: int)
      requires Valid()
      modifies this, masks, cellRTT
      ensures Valid()
      ensures marks == old(marks) + Clipped([Mark(Pixel(x, y), rtt)], width, height)
    {
      hide Bit, Or, Dot, IsLit, Peak, BrailleDotMask;
      ghost var m := Mark(Pixel(x, y), rtt);
      ClippedOne(m, width, height);
      if x < 0 || x >= 2 * width || y < 0 || y >= 4 * height {
        return;
      }
      var column, row := x / 2, y / 4;
      DotAdded(masks[row, column], x % 2, y % 4);
      masks[row, column] := Or(masks[row, column], BrailleDotMask(x % 2, y % 4));
      if rtt > cellRTT[row, column] {
        cellRTT[row, column] := rtt;
      }
      LitMore(marks, m);
      PeakMore(marks, m);
      marks := marks + [m];
    }

    /** Draws from one point to another, on or off the canvas; ends after Steps + 1 pixels. */
    method DrawLine(x0: int, y0: int, x1: int, y1: int, rtt: int)
      requires Valid()
      modifies this, masks, cellRTT
      ensures Valid()
      ensures var p, q := Pixel(x0, y0), Pixel(x1, y1);
              marks == old(marks) + Clipped(LineMarks(p, q, rtt, Steps(p, q) + 1), width, height)
      ensures forall k | |old(marks)| <= k < |marks| :: marks[k].rtt == rtt
      ensures forall at :: IsLit(marks, at) <==>
                || old(IsLit(marks, at))
                || (&& 0 <= at.x < 2 * width && 0 <= at.y < 4 * height
                    && exists k: nat :: k <= Steps(Pixel(x0, y0), Pixel(x1, y1))
                                        && LinePixel(Pixel(x0, y0), Pixel(x1, y1), k) == at)
    {
      hide Valid, Along, LinePixel, LineMarks, Clipped, Rounded, Balanced, Abs, Steps;
      ghost var p, q := Pixel(x0, y0), Pixel(x1, y1);
      var x, y := x0, y0;
      var dx: int, dy: int := Abs(x1 - x0), 0 - Abs(y1 - y0);
      var sx, sy := -1, -1;
      if x0 < x1 {
        sx := 1;
      }
      if y0 < y1 {
        sy := 1;
      }
      var err := dx + dy;
      ghost var k: nat, i: int, j: int := 0, 0, 0;
      LineStarts(p, q, rtt, width, height);
      while true
        invariant Valid() && k <= Steps(p, q)
        invariant (i, j) == Along(k, dx, -dy) && Pixel(x, y) == LinePixel(p, q, k)
        invariant Balanced(i, j, dx, -dy, err)
        invariant marks == old(marks) + Clipped(LineMarks(p, q, rtt, k), width, height)
        decreases Steps(p, q) - k
      {
        SetPixel(x, y, rtt);
        ClippedMore(p, q, rtt, k, width, height);
        LineArrives(p, q, k);
        if x == x1 && y == y1 {
          LineLit(old(marks), p, q, rtt, width, height);
          return;
        }
        LineMoves(p, q, k, i, j, err);
        i, j := if 2 * err >= dy then i + 1 else i, if 2 * err <= dx then j + 1 else j;
        var e2 := 2 * err;
        if e2 >= dy {
          err := err + dy;
          x := x + sx;
        }
        if e2 <= dx {
          err := err + dx;
          y := y + sy;
        }
        k := k + 1;
      }
    }
  }

  lemma LineLit(before: seq<Mark>, p: Pixel, q: Pixel, rtt: int, width: nat, height: nat)
    ensures var after := before + Clipped(LineMarks(p, q, rtt, Steps(p, q) + 1), width, height);
            && (forall k | |before| <= k < |after| :: after[k].rtt == rtt)
            && forall at :: IsLit(after, at) <==>
                 || IsLit(before, at)
                 || (&& 0 <= at.x < 2 * width && 0 <= at.y < 4 * height
                     && exists k: nat :: k <= Steps(p, q) && LinePixel(p, q, k) == at)
  {
    hide IsLit, LinePixel, LineMarks, Clipped, Steps;
    var line := Clipped(LineMarks(p, q, rtt, Steps(p, q) + 1), width, height);
    LineShows(p, q, rtt, Steps(p, q) + 1, width, height);
    forall at ensures IsLit(before + line, at) <==> IsLit(before, at) || IsLit(line, at) {
      LitByBoth(before, line, at);
    }
    forall k | |before| <= k < |before + line| ensures (before + line)[k].rtt == rtt {
      assert (before + line)[k] == line[k - |before|];
    }
  }

  lemma ClippedMore(p: Pixel, q: Pixel, rtt: int, k: nat, width: nat, height: nat)
    ensures Clipped(LineMarks(p, q, rtt, k + 1), width, height)
            == Clipped(LineMarks(p, q, rtt, k), width, height) + Clipped([Mark(LinePixel(p, q, k), rtt)], width, height)
  {
    assert LineMarks(p, q, rtt, k + 1)[..k] == LineMarks(p, q, rtt, k);
    assert [Mark(LinePixel(p, q, k), rtt)][..0] == [];
  }

  lemma LitMore(marks: seq<Mark>, m: Mark)
    ensures forall at :: IsLit(marks + [m], at) <==> IsLit(marks, at) || at == m.at
  {
    forall at ensures IsLit(marks + [m], at) <==> IsLit(marks, at) || at == m.at {
      if IsLit(marks, at) {
        var k :| 0 <= k < |marks| && marks[k].at == at;
        assert (marks + [m])[k].at == at;
      }
      assert (marks + [m])[|marks|] == m;
    }
  }

  /** Clipping keeps exactly the pixels inside the canvas. */
  lemma {:induction false} ClippedIsInside(marks: seq<Mark>, width: nat, height: nat, at: Pixel)
    ensures IsLit(Clipped(marks, width, height), at)
            <==> IsLit(marks, at) && 0 <= at.x < 2 * width && 0 <= at.y < 4 * height
  {
    if marks != [] {
      var before, m := marks[..|marks| - 1], marks[|marks| - 1];
      assert marks == before + [m];
      ClippedIsInside(before, width, height, at);
      LitMore(before, m);
      assert IsLit(before + [m], at) <==> IsLit(before, at) || at == m.at;
      var kept := Clipped(before, width, height);
      if 0 <= m.at.x < 2 * width && 0 <= m.at.y < 4 * height {
        LitMore(kept, m);
        assert IsLit(kept + [m], at) <==> IsLit(kept, at) || at == m.at;
      } else {
        assert kept + [] == kept;
      }
    }
  }
}
