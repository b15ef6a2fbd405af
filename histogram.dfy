/**
 * The depth histogram equalisation of one depth frame and the fill of the
 * three colour planes (B, G, R) from it.
 *
 * A frame is the row-major sequence of `width * height` depth samples; the
 * value 0 means "no reading". The table is the reused global buffer of
 * MAX_DEPTH entries; the planes are the three 8-bit image planes. The
 * specification functions below say what the table holds after each phase;
 * the methods perform the phases in place and are proved against them.
 */
module Histogram {

  /** Size of the depth table; every sample indexes it. */
  const MAX_DEPTH: nat := 10000

  /** Every sample of the frame is a valid index into the depth table. */
  predicate InRange(frame: seq<int>) {
    forall i :: 0 <= i < |frame| ==> 0 <= frame[i] < MAX_DEPTH
  }

  // ---------------------------------------------------------------------------
  // Specification functions (all defined by recursion on the last sample, the
  // order in which the scan visits them)
  // ---------------------------------------------------------------------------

  /** Number of non-zero samples of the frame. */
  function NonZero(frame: seq<int>): nat
  {
    if frame == [] then 0
    else NonZero(frame[..|frame| - 1]) + (if frame[|frame| - 1] != 0 then 1 else 0)
  }

  /** Number of non-zero samples equal to `d` (the counter the scan keeps for `d`). */
  function Tally(frame: seq<int>, d: int): nat
  {
    if frame == [] then 0
    else Tally(frame[..|frame| - 1], d) + (if d != 0 && frame[|frame| - 1] == d then 1 else 0)
  }

  /** Prefix sum of the counters over depths 0..d. */
  function Cumulative(frame: seq<int>, d: nat): nat
  {
    if d == 0 then Tally(frame, 0) else Cumulative(frame, d - 1) + Tally(frame, d)
  }

  /** Independent reference: the rank of `d`, the number of non-zero samples at most `d`. */
  function Rank(frame: seq<int>, d: int): nat
  {
    if frame == [] then 0
    else Rank(frame[..|frame| - 1], d) + (if 0 < frame[|frame| - 1] <= d then 1 else 0)
  }

  /**
   * Display level of a cumulative count `c` out of `n` non-zero samples:
   * the exact-integer form of `(unsigned)(256 * (1 - c / n))`.
   */
  function Level(c: int, n: int): (l: int)
    requires n > 0
    ensures n * l <= 256 * (n - c) < n * (l + 1)
    ensures 0 <= c <= n ==> 0 <= l <= 256
  {
    (256 * (n - c)) / n
  }

  /** Table entry `d` once the equalisation phase is over. */
  function Equalised(frame: seq<int>, d: nat): int
  {
    var n := NonZero(frame);
    if n > 0 && d >= 1 then Level(Cumulative(frame, d), n) else Cumulative(frame, d)
  }

  /** Conversion of a table value to the unsigned 8-bit plane element. */
  function Byte(v: int): (b: int)
    ensures 0 <= b < 256
    ensures 0 <= v < 256 ==> b == v
  {
    v % 256
  }

  /** Red-plane value of pixel `i`: the equalised entry of its depth, stored as a byte. */
  function Intensity(frame: seq<int>, i: nat): int
    requires i < |frame| && InRange(frame)
  {
    Byte(Equalised(frame, frame[i]))
  }

  // ---------------------------------------------------------------------------
  // Lemmas about the specification
  // ---------------------------------------------------------------------------

  /** Depth 0 is never counted: its counter stays 0. */
  lemma {:induction false} TallyOfZero(frame: seq<int>)
    ensures Tally(frame, 0) == 0
  {
    if frame != [] {
      TallyOfZero(frame[..|frame| - 1]);
    }
  }

  /** One more depth value adds its counter to the rank. */
  lemma {:induction false} RankStep(frame: seq<int>, d: int)
    requires d >= 1
    ensures Rank(frame, d) == Rank(frame, d - 1) + Tally(frame, d)
  {
    if frame != [] {
      RankStep(frame[..|frame| - 1], d);
    }
  }

  /** The prefix sum of the counters is the rank of the depth. */
  lemma {:induction false} CumulativeIsRank(frame: seq<int>, d: nat)
    ensures Cumulative(frame, d) == Rank(frame, d)
  {
    if d == 0 {
      TallyOfZero(frame);
      RankOfZero(frame);
    } else {
      CumulativeIsRank(frame, d - 1);
      RankStep(frame, d);
    }
  }

  /** No non-zero sample is at most 0. */
  lemma {:induction false} RankOfZero(frame: seq<int>)
    ensures Rank(frame, 0) == 0
  {
    if frame != [] {
      RankOfZero(frame[..|frame| - 1]);
    }
  }

  /** The rank never exceeds the number of non-zero samples. */
  lemma {:induction false} RankAtMostNonZero(frame: seq<int>, d: int)
    ensures Rank(frame, d) <= NonZero(frame)
  {
    if frame != [] {
      RankAtMostNonZero(frame[..|frame| - 1], d);
    }
  }

  /** The rank is non-decreasing in the depth. */
  lemma {:induction false} RankMonotone(frame: seq<int>, d1: int, d2: int)
    requires d1 <= d2
    ensures Rank(frame, d1) <= Rank(frame, d2)
  {
    if frame != [] {
      RankMonotone(frame[..|frame| - 1], d1, d2);
    }
  }

  /** A depth no smaller than every sample has every non-zero sample below it. */
  lemma {:induction false} RankOfBound(frame: seq<int>, d: int)
    requires forall i :: 0 <= i < |frame| ==> 0 <= frame[i] <= d
    ensures Rank(frame, d) == NonZero(frame)
  {
    if frame != [] {
      var last := |frame| - 1;
      assert forall i :: 0 <= i < last ==> frame[..last][i] == frame[i];
      RankOfBound(frame[..last], d);
    }
  }

  /** A non-zero depth that occurs in the frame has rank at least 1. */
  lemma {:induction false} RankOfPresent(frame: seq<int>, i: nat)
    requires i < |frame| && frame[i] > 0
    ensures Rank(frame, frame[i]) >= 1
  {
    var last := |frame| - 1;
    if i < last {
      RankOfPresent(frame[..last], i);
    }
  }

  /**
   * After the prefix-sum phase the table is non-decreasing over every depth
   * and its last entry is the number of non-zero samples.
   */
  lemma CumulativeShape(frame: seq<int>, d1: nat, d2: nat)
    requires InRange(frame)
    requires d1 <= d2
    ensures Cumulative(frame, d1) <= Cumulative(frame, d2)
    ensures Cumulative(frame, MAX_DEPTH - 1) == NonZero(frame)
  {
    CumulativeIsRank(frame, d1);
    CumulativeIsRank(frame, d2);
    RankMonotone(frame, d1, d2);
    CumulativeIsRank(frame, MAX_DEPTH - 1);
    RankOfBound(frame, MAX_DEPTH - 1);
  }

  /** Division by a positive number keeps the order of the dividends. */
  lemma DivMonotone(a: int, b: int, n: int)
    requires n > 0 && a <= b
    ensures a / n <= b / n
  {
    var q1, q2 := a / n, b / n;
    assert n * q1 <= a;
    assert b < n * q2 + n;
    assert n * q1 < n * (q2 + 1);
  }

  /** A count between 1 and n gives a level in [0, 255]; the full count gives 0. */
  lemma LevelBounds(c: int, n: int)
    requires 1 <= c <= n
    ensures 0 <= Level(c, n) <= 255
    ensures c == n ==> Level(c, n) == 0
  {
    DivMonotone(0, 256 * (n - c), n);
    DivMonotone(256 * (n - c), 256 * (n - 1), n);
    assert 256 * (n - 1) < 256 * n;
    var q := (256 * (n - 1)) / n;
    assert n * q <= 256 * (n - 1) < n * 256;
  }

  /** A larger count gives a level no larger. */
  lemma LevelNonIncreasing(c1: int, c2: int, n: int)
    requires n > 0 && c1 <= c2
    ensures Level(c1, n) >= Level(c2, n)
  {
    DivMonotone(256 * (n - c2), 256 * (n - c1), n);
  }

  /** An all-zero frame skips the equalisation and leaves every entry 0. */
  lemma ZeroFrameTable(frame: seq<int>, d: nat)
    requires NonZero(frame) == 0
    ensures Equalised(frame, d) == 0
  {
    CumulativeIsRank(frame, d);
    RankAtMostNonZero(frame, d);
  }

  /** The entry of depth 0 is 0 whatever the frame. */
  lemma ZeroDepthEntry(frame: seq<int>)
    ensures Equalised(frame, 0) == 0
  {
    TallyOfZero(frame);
  }

  /** A depth present in a frame with readings maps to a level in [0, 255]. */
  lemma PresentDepthLevel(frame: seq<int>, i: nat)
    requires InRange(frame) && i < |frame|
    ensures 0 <= Equalised(frame, frame[i]) <= 255
  {
    if frame[i] == 0 {
      ZeroDepthEntry(frame);
    } else {
      var d := frame[i];
      CumulativeIsRank(frame, d);
      RankOfPresent(frame, i);
      RankAtMostNonZero(frame, d);
      LevelBounds(Cumulative(frame, d), NonZero(frame));
    }
  }

  /** With readings present, the level is non-increasing over depths 1..MAX_DEPTH-1. */
  lemma EqualisedNonIncreasing(frame: seq<int>, d1: nat, d2: nat)
    requires NonZero(frame) > 0
    requires 1 <= d1 <= d2
    ensures Equalised(frame, d1) >= Equalised(frame, d2)
  {
    CumulativeIsRank(frame, d1);
    CumulativeIsRank(frame, d2);
    RankMonotone(frame, d1, d2);
    LevelNonIncreasing(Cumulative(frame, d1), Cumulative(frame, d2), NonZero(frame));
  }

  /** The largest depth present maps to level 0. */
  lemma LargestDepthLevel(frame: seq<int>, i: nat)
    requires InRange(frame) && i < |frame| && frame[i] != 0
    requires forall j :: 0 <= j < |frame| ==> frame[j] <= frame[i]
    ensures Equalised(frame, frame[i]) == 0
  {
    var d := frame[i];
    RankOfPresent(frame, i);
    RankAtMostNonZero(frame, d);
    CumulativeIsRank(frame, d);
    RankOfBound(frame, d);
  }

  /**
   * Every pixel's red value: 0 for a frame without readings, 0 for a pixel
   * without reading, the table level (in [0, 255], no wrap) otherwise.
   */
  lemma IntensityBounds(frame: seq<int>, i: nat)
    requires InRange(frame) && i < |frame|
    ensures 0 <= Intensity(frame, i) <= 255
    ensures Intensity(frame, i) == Equalised(frame, frame[i])
    ensures NonZero(frame) == 0 ==> Intensity(frame, i) == 0
    ensures frame[i] == 0 ==> Intensity(frame, i) == 0
  {
    PresentDepthLevel(frame, i);
    if NonZero(frame) == 0 {
      ZeroFrameTable(frame, frame[i]);
    }
    if frame[i] == 0 {
      ZeroDepthEntry(frame);
    }
  }

  /** A frame whose samples are pointwise no larger ranks every depth at least as high. */
  lemma {:induction false} RankOfNearer(a: seq<int>, b: seq<int>, d: int)
    requires |a| == |b|
    requires forall i :: 0 <= i < |a| ==> (a[i] == 0 <==> b[i] == 0) && 0 <= a[i] <= b[i]
    ensures NonZero(a) == NonZero(b)
    ensures Rank(a, d) >= Rank(b, d)
  {
    if a != [] {
      var last := |a| - 1;
      assert forall i :: 0 <= i < last ==> a[..last][i] == a[i] && b[..last][i] == b[i];
      RankOfNearer(a[..last], b[..last], d);
    }
  }

  /**
   * Of two frames with the same pixels without reading, the one whose samples
   * are pointwise nearer gives every fixed depth value a level no higher.
   */
  lemma NearerFrameLevel(a: seq<int>, b: seq<int>, d: nat)
    requires |a| == |b|
    requires forall i :: 0 <= i < |a| ==> (a[i] == 0 <==> b[i] == 0) && 0 <= a[i] <= b[i]
    requires NonZero(a) > 0 && d >= 1
    ensures Equalised(a, d) <= Equalised(b, d)
  {
    RankOfNearer(a, b, d);
    CumulativeIsRank(a, d);
    CumulativeIsRank(b, d);
    LevelNonIncreasing(Cumulative(b, d), Cumulative(a, d), NonZero(a));
  }

  /** The 2x2 frame [0, 500, 1000, 0]: two readings, red values 0, 128, 0, 0. */
  lemma SmallFrameExample(f: seq<int>)
    requires f == [0, 500, 1000, 0]
    ensures InRange(f) && NonZero(f) == 2
    ensures Intensity(f, 0) == 0 && Intensity(f, 1) == 128
    ensures Intensity(f, 2) == 0 && Intensity(f, 3) == 0
  {
    assert f[..3] == [0, 500, 1000];
    assert f[..3][..2] == [0, 500];
    assert f[..3][..2][..1] == [0];
    assert [0][..0] == [];
    assert NonZero([0]) == 0 && Rank([0], 500) == 0 && Rank([0], 1000) == 0;
    assert NonZero([0, 500]) == 1 && Rank([0, 500], 500) == 1 && Rank([0, 500], 1000) == 1;
    assert NonZero([0, 500, 1000]) == 2 && Rank([0, 500, 1000], 500) == 1;
    assert Rank([0, 500, 1000], 1000) == 2;
    assert NonZero(f) == 2 && Rank(f, 500) == 1 && Rank(f, 1000) == 2;
    CumulativeIsRank(f, 500);
    CumulativeIsRank(f, 1000);
    ZeroDepthEntry(f);
  }

  // ---------------------------------------------------------------------------
  // The phases, in place on the table and the planes
  // ---------------------------------------------------------------------------

  /** Clears the whole table. */
  method ClearTable(hist: array<int>)
    modifies hist
    ensures forall d :: 0 <= d < hist.Length ==> hist[d] == 0
  {
    forall d | 0 <= d < hist.Length {
      hist[d] := 0;
    }
  }

  /** A row that starts before the last one ends inside the frame, where the next row starts. */
  lemma RowInside(y: nat, width: nat, height: nat)
    requires y < height
    ensures y * width + width == (y + 1) * width <= width * height
  {
    assert (y + 1) * width <= height * width;
  }

  /** Counts the non-zero samples of one row, pixels `p` .. `p + width - 1`. */
  method CountRow(frame: seq<int>, p: nat, width: nat, hist: array<int>, n: nat) returns (n': nat)
    requires p + width <= |frame| && InRange(frame)
    requires hist.Length == MAX_DEPTH
    requires n == NonZero(frame[..p])
    requires forall d :: 0 <= d < MAX_DEPTH ==> hist[d] == Tally(frame[..p], d)
    modifies hist
    ensures n' == NonZero(frame[..p + width])
    ensures forall d :: 0 <= d < MAX_DEPTH ==> hist[d] == Tally(frame[..p + width], d)
  {
    n' := n;
    for x := 0 to width
      invariant n' == NonZero(frame[..p + x])
      invariant forall d :: 0 <= d < MAX_DEPTH ==> hist[d] == Tally(frame[..p + x], d)
    {
      var v := frame[p + x];
      assert frame[..p + x + 1][..p + x] == frame[..p + x];
      if v != 0 {
        hist[v] := hist[v] + 1;
        n' := n' + 1;
      }
    }
  }

  /**
   * Scans the frame row by row and counts every non-zero sample in its
   * entry of the (cleared) table; returns the number of non-zero samples.
   */
  method CountSamples(frame: seq<int>, width: nat, height: nat, hist: array<int>) returns (n: nat)
    requires |frame| == width * height && InRange(frame)
    requires hist.Length == MAX_DEPTH
    requires forall d :: 0 <= d < MAX_DEPTH ==> hist[d] == 0
    modifies hist
    ensures n == NonZero(frame)
    ensures forall d :: 0 <= d < MAX_DEPTH ==> hist[d] == Tally(frame, d)
  {
    n := 0;
    var p := 0;
    var y := 0;
    while y < height
      invariant 0 <= y <= height && p == y * width
      invariant n == NonZero(frame[..p])
      invariant forall d :: 0 <= d < MAX_DEPTH ==> hist[d] == Tally(frame[..p], d)
    {
      RowInside(y, width, height);
      n := CountRow(frame, p, width, hist, n);
      p := p + width;
      y := y + 1;
    }
    assert frame[..p] == frame;
  }

  /** Turns the counters into their prefix sums over depths 1..MAX_DEPTH-1. */
  method PrefixSum(ghost frame: seq<int>, hist: array<int>)
    requires hist.Length == MAX_DEPTH
    requires forall d :: 0 <= d < MAX_DEPTH ==> hist[d] == Tally(frame, d)
    modifies hist
    ensures forall d :: 0 <= d < MAX_DEPTH ==> hist[d] == Cumulative(frame, d)
  {
    for i := 1 to MAX_DEPTH
      invariant forall d :: 0 <= d < i ==> hist[d] == Cumulative(frame, d)
      invariant forall d :: i <= d < MAX_DEPTH ==> hist[d] == Tally(frame, d)
    {
      assert Cumulative(frame, i) == Cumulative(frame, i - 1) + Tally(frame, i);
      hist[i] := hist[i] + hist[i - 1];
    }
  }

  /**
   * When the frame has readings, replaces every prefix sum at depth 1 or more
   * by its display level; an all-zero frame leaves the table alone.
   */
  method Equalise(ghost frame: seq<int>, n: nat, hist: array<int>)
    requires hist.Length == MAX_DEPTH && n == NonZero(frame)
    requires forall d :: 0 <= d < MAX_DEPTH ==> hist[d] == Cumulative(frame, d)
    modifies hist
    ensures forall d :: 0 <= d < MAX_DEPTH ==> hist[d] == Equalised(frame, d)
  {
    if n > 0 {
      for i := 1 to MAX_DEPTH
        invariant hist[0] == Cumulative(frame, 0)
        invariant forall d :: 1 <= d < i ==> hist[d] == Level(Cumulative(frame, d), n)
        invariant forall d :: i <= d < MAX_DEPTH ==> hist[d] == Cumulative(frame, d)
      {
        hist[i] := Level(hist[i], n);
      }
    }
  }

  /**
   * Writes one row, pixels `row` .. `row + width - 1`, through the three
   * row addresses; every other pixel of the planes is left as it was.
   */
  method FillRow(frame: seq<int>, row: nat, width: nat, hist: array<int>,
                 blue: array<int>, green: array<int>, red: array<int>)
    requires row + width <= |frame| && InRange(frame)
    requires blue.Length == green.Length == red.Length == |frame|
    requires hist.Length == MAX_DEPTH
    requires hist != blue && hist != green && hist != red
    requires blue != green && green != red && blue != red
    modifies blue, green, red
    ensures forall i :: row <= i < row + width ==> blue[i] == 0
    ensures forall i :: row <= i < row + width ==> green[i] == 0
    ensures forall i :: row <= i < row + width ==> red[i] == Byte(hist[frame[i]])
    ensures forall i :: 0 <= i < |frame| && !(row <= i < row + width) ==>
      blue[i] == old(blue[i]) && green[i] == old(green[i]) && red[i] == old(red[i])
  {
    for x := 0 to width
      invariant forall i :: row <= i < row + x ==> blue[i] == 0
      invariant forall i :: row <= i < row + x ==> green[i] == 0
      invariant forall i :: row <= i < row + x ==> red[i] == Byte(hist[frame[i]])
      invariant forall i :: 0 <= i < |frame| && !(row <= i < row + x) ==>
        blue[i] == old(blue[i]) && green[i] == old(green[i]) && red[i] == old(red[i])
    {
      var level := hist[frame[row + x]];
      blue[row + x] := 0;
      green[row + x] := 0;
      red[row + x] := Byte(level);
    }
  }

  /**
   * Writes the planes row by row: blue and green 0, red the table entry of
   * the pixel's depth stored as a byte.
   */
  method FillPlanes(frame: seq<int>, width: nat, height: nat, hist: array<int>,
                    blue: array<int>, green: array<int>, red: array<int>)
    requires |frame| == width * height && InRange(frame)
    requires hist.Length == MAX_DEPTH
    requires blue.Length == green.Length == red.Length == width * height
    requires hist != blue && hist != green && hist != red
    requires blue != green && green != red && blue != red
    modifies blue, green, red
    ensures forall i :: 0 <= i < |frame| ==>
      blue[i] == 0 && green[i] == 0 && red[i] == Byte(hist[frame[i]])
  {
    var row := 0;
    var y := 0;
    while y < height
      invariant 0 <= y <= height && row == y * width && row <= |frame|
      invariant forall i :: 0 <= i < row ==> blue[i] == 0
      invariant forall i :: 0 <= i < row ==> green[i] == 0
      invariant forall i :: 0 <= i < row ==> red[i] == Byte(hist[frame[i]])
    {
      RowInside(y, width, height);
      FillRow(frame, row, width, hist, blue, green, red);
      row := row + width;
      y := y + 1;
    }
    assert row == |frame|;
  }

  /**
   * One frame's depth rendering: clear, count, prefix-sum, equalise, fill.
   * Afterwards the table holds the equalised levels and every pixel's planes
   * hold (0, 0, its intensity); returns the number of non-zero samples.
   */
  method RenderDepth(frame: seq<int>, width: nat, height: nat, hist: array<int>,
                     blue: array<int>, green: array<int>, red: array<int>) returns (n: nat)
    requires |frame| == width * height && InRange(frame)
    requires hist.Length == MAX_DEPTH
    requires blue.Length == green.Length == red.Length == width * height
    requires hist != blue && hist != green && hist != red
    requires blue != green && green != red && blue != red
    modifies hist, blue, green, red
    ensures n == NonZero(frame)
    ensures forall d :: 0 <= d < MAX_DEPTH ==> hist[d] == Equalised(frame, d)
    ensures forall i :: 0 <= i < |frame| ==>
      blue[i] == 0 && green[i] == 0 && red[i] == Intensity(frame, i)
  {
    ClearTable(hist);
    n := CountSamples(frame, width, height, hist);
    PrefixSum(frame, hist);
    Equalise(frame, n, hist);
    FillPlanes(frame, width, height, hist, blue, green, red);
  }
}
