/** The integer fragments of the two topview scripts: the corner ordering that
    feeds the perspective warp, the margin crop of the warped table, the
    mapping from colour masks to detected ball positions, the paste regions of
    the ball textures, and the label file written from the detections. The
    image processing itself (contours, moments, warping, blending) is an input
    here: a detection is whatever the mask pipeline reports for one colour. */
module Topview {
  import opened Wrappers
  import opened Text
  import opened OrderedDict
  import opened Labels
  import Selection
  import Grid

  /** The size of the warped table image. */
  const Width: int := 840
  const Height: int := 420

  datatype Point = Point(x: int, y: int)

  // Corner ordering (`get_warped_table`)

  /** The squared length of the segment between two corners; the scripts
      compare Euclidean norms, which order segments the same way. */
  function SquaredDistance(a: Point, b: Point): int {
    (a.x - b.x) * (a.x - b.x) + (a.y - b.y) * (a.y - b.y)
  }

  /** `side_length[k]`: the side that ends at corner `k`, coming from corner `k - 1`. */
  function Side(p: seq<Point>, k: int): int
    requires |p| == 4 && 0 <= k < 4
  {
    SquaredDistance(p[(k + 3) % 4], p[k])
  }

  /** `min(range(4), key=x + y)`: the first corner with the least `x + y`. */
  function UpperLeftIndex(p: seq<Point>): (ul: nat)
    requires |p| == 4
    ensures ul < 4
    ensures forall j :: 0 <= j < 4 ==> p[ul].x + p[ul].y <= p[j].x + p[j].y
    ensures forall j :: 0 <= j < ul ==> p[ul].x + p[ul].y < p[j].x + p[j].y
  {
    Selection.FirstMax(p, (q: Point) => -(q.x + q.y))
  }

  /** `si`: the upper-left corner when the side ending there is the longer of
      its two sides, otherwise the corner after it. */
  function StartIndex(p: seq<Point>): nat
    requires |p| == 4
  {
    var ul := UpperLeftIndex(p);
    if Side(p, ul) > Side(p, (ul + 1) % 4) then ul else (ul + 1) % 4
  }

  /** `src_point`: the four corners read cyclically from `si`. */
  function SourceCorners(p: seq<Point>): seq<Point>
    requires |p| == 4
  {
    var si := StartIndex(p);
    [p[si], p[(si + 1) % 4], p[(si + 2) % 4], p[(si + 3) % 4]]
  }

  /** `dst_point`: the warped table, top-left corner first, then down the
      short left edge, along the bottom and up the right edge. */
  const Destination: seq<Point> :=
    [Point(0, 0), Point(0, Height - 1), Point(Width - 1, Height - 1), Point(Width - 1, 0)]

  /** The warp's corner pairs, or None when no four corners were found. */
  function WarpCorners(approx: Option<seq<Point>>): (r: Option<(seq<Point>, seq<Point>)>)
    requires approx.Some? ==> |approx.value| == 4
    ensures r.None? <==> approx.None?
    ensures r.Some? ==> |r.value.0| == 4 && multiset(r.value.0) == multiset(approx.value)
    ensures r.Some? ==> r.value.1 == Destination
  {
    match approx
    case None => None
    case Some(p) =>
      SourceCornersRotate(p);
      Some((SourceCorners(p), Destination))
  }

  /** The source corners are the input corners rotated to start at `si`. */
  lemma SourceCornersRotate(p: seq<Point>)
    requires |p| == 4
    ensures StartIndex(p) < 4
    ensures SourceCorners(p) == p[StartIndex(p)..] + p[..StartIndex(p)]
    ensures multiset(SourceCorners(p)) == multiset(p)
  {
    Rotation(p, StartIndex(p));
  }

  /** Reading four corners cyclically from `si` is a rotation, hence a permutation. */
  lemma Rotation(p: seq<Point>, si: nat)
    requires |p| == 4 && si < 4
    ensures [p[si], p[(si + 1) % 4], p[(si + 2) % 4], p[(si + 3) % 4]] == p[si..] + p[..si]
    ensures multiset(p[si..] + p[..si]) == multiset(p)
  {
    var r := p[si..] + p[..si];
    forall k | 0 <= k < 4 ensures r[k] == p[(si + k) % 4] {
      if si + k < 4 {
        assert (si + k) % 4 == si + k;
      } else {
        assert (si + k) % 4 == si + k - 4;
      }
    }
    assert r == [r[0], r[1], r[2], r[3]];
    assert p == p[..si] + p[si..];
  }

  /** What the ordering is for: the upper-left corner is an end of the edge
      mapped onto the warped table's top (the long edge from (W-1, 0) to
      (0, 0)), and that edge is the longer of the two sides meeting there,
      while the edge mapped onto the short left side is a side no longer than it. */
  lemma LongSideBecomesTop(p: seq<Point>)
    requires |p| == 4
    ensures var src, ul := SourceCorners(p), UpperLeftIndex(p);
      && (src[0] == p[ul] || src[3] == p[ul])
      && SquaredDistance(src[3], src[0]) == Grid.MaxInt(Side(p, ul), Side(p, (ul + 1) % 4))
    ensures SquaredDistance(Destination[3], Destination[0]) > SquaredDistance(Destination[0], Destination[1])
  {
    var src, ul := SourceCorners(p), UpperLeftIndex(p);
    var next := (ul + 1) % 4;
    CycleBack(ul);
    if StartIndex(p) == ul {
      assert src[0] == p[ul] && src[3] == p[(ul + 3) % 4];
      assert SquaredDistance(src[3], src[0]) == Side(p, ul);
    } else {
      assert src[0] == p[next] && src[3] == p[(next + 3) % 4];
      assert SquaredDistance(src[3], src[0]) == Side(p, next);
    }
    DestinationTopIsLong();
  }

  /** Stepping forward one corner and then back three more returns to the start. */
  lemma CycleBack(k: nat)
    requires k < 4
    ensures ((k + 1) % 4 + 3) % 4 == k
  {
  }

  /** The warped table's top edge is longer than its left edge. */
  lemma DestinationTopIsLong()
    ensures SquaredDistance(Destination[3], Destination[0]) > SquaredDistance(Destination[0], Destination[1])
  {
    assert Destination[3] == Point(839, 0) && Destination[0] == Point(0, 0) && Destination[1] == Point(0, 419);
    assert SquaredDistance(Point(839, 0), Point(0, 0)) == 839 * 839;
    assert SquaredDistance(Point(0, 0), Point(0, 419)) == 419 * 419;
  }

  /** A tilted table: the first corner has the least x + y but its incoming
      side is the short one, so the warp starts at the next corner. */
  lemma StartAfterUpperLeft()
    ensures var p := [Point(0, 0), Point(80, 0), Point(80, 40), Point(0, 40)];
      && UpperLeftIndex(p) == 0 && StartIndex(p) == 1
      && SourceCorners(p) == [Point(80, 0), Point(80, 40), Point(0, 40), Point(0, 0)]
  {
    var p := [Point(0, 0), Point(80, 0), Point(80, 40), Point(0, 40)];
    assert forall j :: 1 <= j < 4 ==> p[0].x + p[0].y < p[j].x + p[j].y;
    UpperLeftIsFirst(p);
    assert Side(p, 0) == 1600 && Side(p, 1) == 6400;
    StartAfterFirst(p);
  }

  /** A first corner with the strictly least x + y is the upper-left corner. */
  lemma UpperLeftIsFirst(p: seq<Point>)
    requires |p| == 4
    requires forall j :: 1 <= j < 4 ==> p[0].x + p[0].y < p[j].x + p[j].y
    ensures UpperLeftIndex(p) == 0
  {
  }

  /** When the side ending at the first corner is not the longer one, the
      warp starts at the second corner. */
  lemma StartAfterFirst(p: seq<Point>)
    requires |p| == 4 && UpperLeftIndex(p) == 0 && Side(p, 0) <= Side(p, 1)
    ensures StartIndex(p) == 1
    ensures SourceCorners(p) == [p[1], p[2], p[3], p[0]]
  {
  }

  // The margin crop (`dst[10:-10, 20:-20]`)

  /** A slice bound as Python normalises it for a sequence of length `n`:
      a negative bound counts from the end, and bounds are clipped to `0..n`. */
  function SliceBound(n: nat, i: int): (b: nat)
    ensures b <= n
    ensures 0 <= i ==> b == Grid.MinInt(i, n)
    ensures i < 0 ==> b == Grid.MaxInt(n + i, 0)
  {
    if i < 0 then (if n + i < 0 then 0 else n + i)
    else if i > n then n else i
  }

  /** `s[start:stop]`; a stop bound before the start gives the empty slice. */
  function Slice<T>(s: seq<T>, start: int, stop: int): (r: seq<T>)
    ensures SliceBound(|s|, start) + |r| <= |s|
    ensures forall i :: 0 <= i < |r| ==> r[i] == s[SliceBound(|s|, start) + i]
  {
    var lo, hi := SliceBound(|s|, start), SliceBound(|s|, stop);
    if hi <= lo then [] else s[lo..hi]
  }

  /** Trimming a margin `m` from both ends keeps the middle, or nothing when
      the margins overlap. */
  lemma SliceMargins<T>(s: seq<T>, m: int)
    requires m > 0
    ensures 2 * m <= |s| ==> Slice(s, m, -m) == s[m..|s| - m]
    ensures 2 * m >= |s| ==> Slice(s, m, -m) == []
  {
  }

  /** An image as rows of pixels. */
  type Image<P> = seq<seq<P>>

  /** The crop applied to the warped table. */
  function Crop<P>(img: Image<P>): Image<P> {
    var rows := Slice(img, 10, -10);
    seq(|rows|, i requires 0 <= i < |rows| => Slice(rows[i], 20, -20))
  }

  /** A warped table of HEIGHT x WIDTH pixels comes out as 400 x 800, the
      pixel at (i, j) being the warped pixel at (i + 10, j + 20). */
  lemma CropShape<P>(img: Image<P>)
    requires |img| == Height
    requires forall i :: 0 <= i < |img| ==> |img[i]| == Width
    ensures |Crop(img)| == Height - 20 == 400
    ensures forall i :: 0 <= i < |Crop(img)| ==> |Crop(img)[i]| == Width - 40 == 800
    ensures forall i, j :: 0 <= i < |Crop(img)| && 0 <= j < |Crop(img)[i]| ==> Crop(img)[i][j] == img[i + 10][j + 20]
  {
    SliceMargins(img, 10);
    var c := Crop(img);
    forall i | 0 <= i < |c| ensures |c[i]| == 800 {
      assert Slice(img, 10, -10)[i] == img[i + 10];
      SliceMargins(img[i + 10], 20);
    }
  }

  // Ball detection (`find_ball`, `find_balls`)

  /** What the mask pipeline reports for one entry of the colour table: the
      centroid of its largest contour, or None when it finds nothing (no
      contour, a zero moment, or in one copy an area under 50 pixels). */
  type Detector = string -> Option<(int, int)>

  /** Storing one detection: nothing happens when the mask found no ball. */
  function Record(d: Positions, key: string, found: Option<(int, int)>): (r: Positions)
    requires DistinctKeys(d)
    ensures DistinctKeys(r)
    ensures found.None? ==> r == d
    ensures found.Some? ==> Get(r, key) == found
    ensures forall k :: k != key ==> Get(r, k) == Get(d, k)
    ensures forall i :: 0 <= i < |r| ==> r[i].0 == key || r[i].0 in Keys(d)
  {
    if found.Some? then Put(d, key, found.value) else d
  }

  /** The detection loop over the colour table, in table order, storing each
      entry's detection under `keyOf` of its name. */
  function DetectAll(names: seq<string>, keyOf: string -> string, detect: Detector): (r: Positions)
    ensures DistinctKeys(r)
    ensures forall i :: 0 <= i < |r| ==> exists j :: 0 <= j < |names| && keyOf(names[j]) == r[i].0
  {
    if |names| == 0 then []
    else
      var n := |names| - 1;
      var d := DetectAll(names[..n], keyOf, detect);
      var r := Record(d, keyOf(names[n]), detect(names[n]));
      DetectedKeysGrow(names, keyOf, d, r);
      r
  }

  /** The keys after one more detection come from the table so far. */
  lemma DetectedKeysGrow(names: seq<string>, keyOf: string -> string, d: Positions, r: Positions)
    requires |names| > 0
    requires var front := names[..|names| - 1];
      forall i :: 0 <= i < |d| ==> exists j :: 0 <= j < |front| && keyOf(front[j]) == d[i].0
    requires forall i :: 0 <= i < |r| ==> r[i].0 == keyOf(names[|names| - 1]) || r[i].0 in Keys(d)
    ensures forall i :: 0 <= i < |r| ==> exists j :: 0 <= j < |names| && keyOf(names[j]) == r[i].0
  {
    var n := |names| - 1;
    forall i | 0 <= i < |r| ensures exists j :: 0 <= j < |names| && keyOf(names[j]) == r[i].0 {
      if r[i].0 == keyOf(names[n]) {
        assert 0 <= n < |names|;
      } else {
        var i' :| 0 <= i' < |d| && Keys(d)[i'] == r[i].0;
        var j :| 0 <= j < n && keyOf(names[..n][j]) == d[i'].0;
        assert names[..n][j] == names[j];
        assert 0 <= j < |names| && keyOf(names[j]) == r[i].0;
      }
    }
    assert forall i :: 0 <= i < |r| ==> exists j :: 0 <= j < |names| && keyOf(names[j]) == r[i].0;
  }

  /** The value a key ends up with: the detection of the last table entry for
      that key that found a ball. */
  function LastDetection(names: seq<string>, keyOf: string -> string, detect: Detector, key: string): Option<(int, int)> {
    if |names| == 0 then None
    else
      var n := |names| - 1;
      if keyOf(names[n]) == key && detect(names[n]).Some? then detect(names[n])
      else LastDetection(names[..n], keyOf, detect, key)
  }

  lemma {:induction false} DetectAllKeepsLast(names: seq<string>, keyOf: string -> string, detect: Detector, key: string)
    ensures Get(DetectAll(names, keyOf, detect), key) == LastDetection(names, keyOf, detect, key)
  {
    if |names| > 0 {
      DetectAllKeepsLast(names[..|names| - 1], keyOf, detect, key);
    }
  }

  /** The colour table of the model-side script; its "red" entry already
      merges the second red range into its mask. */
  const QfitMasks: seq<string> := ["red", "red2", "white", "yellow"]

  /** Both red ranges store under "red". */
  function QfitKey(name: string): string {
    if name == "red" || name == "red2" then "red" else name
  }

  /** `find_ball` of the model-side script. */
  function FindBall(detect: Detector): Positions {
    DetectAll(QfitMasks, QfitKey, detect)
  }

  /** The keys are among red, white and yellow; red is the second red range's
      detection when that range alone finds a ball (it runs after the merged
      mask and overwrites it), the merged mask's otherwise. */
  lemma FindBallKeys(detect: Detector)
    ensures DistinctKeys(FindBall(detect))
    ensures forall i :: 0 <= i < |FindBall(detect)| ==> FindBall(detect)[i].0 in {"red", "white", "yellow"}
    ensures Get(FindBall(detect), "red") == if detect("red2").Some? then detect("red2") else detect("red")
    ensures Get(FindBall(detect), "white") == detect("white")
    ensures Get(FindBall(detect), "yellow") == detect("yellow")
  {
    QfitKeysWithin(detect);
    QfitLastDetections(detect);
    FindBallLast(detect, "red");
    FindBallLast(detect, "white");
    FindBallLast(detect, "yellow");
  }

  lemma QfitKeysWithin(detect: Detector)
    ensures forall i :: 0 <= i < |FindBall(detect)| ==> FindBall(detect)[i].0 in {"red", "white", "yellow"}
  {
    forall j | 0 <= j < |QfitMasks| ensures QfitKey(QfitMasks[j]) in {"red", "white", "yellow"} {
    }
    KeysWithin(QfitMasks, QfitKey, detect, {"red", "white", "yellow"});
  }

  lemma FindBallLast(detect: Detector, key: string)
    ensures Get(FindBall(detect), key) == LastDetection(QfitMasks, QfitKey, detect, key)
  {
    DetectAllKeepsLast(QfitMasks, QfitKey, detect, key);
  }

  /** Every stored key is the key of some table entry. */
  lemma KeysWithin(names: seq<string>, keyOf: string -> string, detect: Detector, allowed: set<string>)
    requires forall j :: 0 <= j < |names| ==> keyOf(names[j]) in allowed
    ensures forall i :: 0 <= i < |DetectAll(names, keyOf, detect)| ==> DetectAll(names, keyOf, detect)[i].0 in allowed
  {
  }

  lemma QfitLastDetections(detect: Detector)
    ensures LastDetection(QfitMasks, QfitKey, detect, "red") == if detect("red2").Some? then detect("red2") else detect("red")
    ensures LastDetection(QfitMasks, QfitKey, detect, "white") == detect("white")
    ensures LastDetection(QfitMasks, QfitKey, detect, "yellow") == detect("yellow")
  {
    var id := QfitKey;
    LastDetectionSnoc(["red", "red2", "white"], "yellow", id, detect);
    LastDetectionSnoc(["red", "red2"], "white", id, detect);
    LastDetectionSnoc(["red"], "red2", id, detect);
    LastDetectionSnoc([], "red", id, detect);
    assert QfitMasks == ["red", "red2", "white"] + ["yellow"];
    assert ["red", "red2", "white"] == ["red", "red2"] + ["white"];
    assert ["red", "red2"] == ["red"] + ["red2"];
    assert ["red"] == [] + ["red"];
  }

  /** One more table entry: its detection wins for its key when it finds a ball. */
  lemma LastDetectionSnoc(names: seq<string>, name: string, keyOf: string -> string, detect: Detector)
    ensures forall key ::
      LastDetection(names + [name], keyOf, detect, key) ==
      (if keyOf(name) == key && detect(name).Some? then detect(name) else LastDetection(names, keyOf, detect, key))
  {
    assert (names + [name])[..|names|] == names;
  }

  /** The colour table of the server-side script. */
  const ServerMasks: seq<string> := ["red", "yellow", "white"]

  /** `find_balls` of the server-side script: each colour under its own name. */
  function FindBalls(detect: Detector): Positions {
    DetectAll(ServerMasks, (name: string) => name, detect)
  }

  lemma FindBallsKeys(detect: Detector)
    ensures DistinctKeys(FindBalls(detect))
    ensures forall i :: 0 <= i < |FindBalls(detect)| ==> FindBalls(detect)[i].0 in {"red", "yellow", "white"}
    ensures forall c :: c in {"red", "yellow", "white"} ==> Get(FindBalls(detect), c) == detect(c)
  {
    ServerKeysWithin(detect);
    ServerLastDetections(detect);
    FindBallsLast(detect, "red");
    FindBallsLast(detect, "yellow");
    FindBallsLast(detect, "white");
  }

  lemma ServerKeysWithin(detect: Detector)
    ensures forall i :: 0 <= i < |FindBalls(detect)| ==> FindBalls(detect)[i].0 in {"red", "yellow", "white"}
  {
    var id := (name: string) => name;
    forall j | 0 <= j < |ServerMasks| ensures id(ServerMasks[j]) in {"red", "yellow", "white"} {
    }
    KeysWithin(ServerMasks, id, detect, {"red", "yellow", "white"});
  }

  lemma FindBallsLast(detect: Detector, key: string)
    ensures Get(FindBalls(detect), key) == LastDetection(ServerMasks, (name: string) => name, detect, key)
  {
    DetectAllKeepsLast(ServerMasks, (name: string) => name, detect, key);
  }

  lemma ServerLastDetections(detect: Detector)
    ensures forall c :: c in {"red", "yellow", "white"} ==> LastDetection(ServerMasks, (name: string) => name, detect, c) == detect(c)
  {
    var id := (name: string) => name;
    LastDetectionSnoc(["red", "yellow"], "white", id, detect);
    LastDetectionSnoc(["red"], "yellow", id, detect);
    LastDetectionSnoc([], "red", id, detect);
    assert ServerMasks == ["red", "yellow"] + ["white"];
    assert ["red", "yellow"] == ["red"] + ["yellow"];
    assert ["red"] == [] + ["red"];
  }

  // The label file (`main`)

  lemma ColourNamesReadable()
    ensures ReadableColor("red") && ReadableColor("white") && ReadableColor("yellow")
  {
    assert NoSpace("red") by { assert forall i :: 0 <= i < 3 ==> "red"[i] in "red"; }
    assert NoSpace("white") by { assert forall i :: 0 <= i < 5 ==> "white"[i] in "white"; }
    assert NoSpace("yellow") by { assert forall i :: 0 <= i < 6 ==> "yellow"[i] in "yellow"; }
  }

  /** The label file written from `find_ball`'s detections reads back, through
      the simulator's `load_ball_position`, as the same mapping. */
  lemma FindBallLabelsRoundTrip(detect: Detector)
    ensures LoadBallPosition(Some(WriteLabels(FindBall(detect)))) == FindBall(detect)
  {
    var d := FindBall(detect);
    assert DistinctKeys(d) && forall k :: 0 <= k < |d| ==> d[k].0 in {"red", "white", "yellow"} by {
      FindBallKeys(detect);
    }
    BallLabelsRoundTrip(d);
  }

  /** A mapping with distinct keys among the three ball colours is read back exactly. */
  lemma BallLabelsRoundTrip(d: Positions)
    requires DistinctKeys(d)
    requires forall k :: 0 <= k < |d| ==> d[k].0 in {"red", "white", "yellow"}
    ensures LoadBallPosition(Some(WriteLabels(d))) == d
  {
    forall k | 0 <= k < |d| ensures ReadableColor(d[k].0) {
      BallColourReadable(d[k].0);
    }
    LabelRoundTrip(d);
  }

  lemma BallColourReadable(c: string)
    requires c in {"red", "white", "yellow"}
    ensures ReadableColor(c)
  {
    ColourNamesReadable();
  }

  /** The same for the server-side script's `find_balls`. */
  lemma FindBallsLabelsRoundTrip(detect: Detector)
    ensures LoadBallPosition(Some(WriteLabels(FindBalls(detect)))) == FindBalls(detect)
  {
    var d := FindBalls(detect);
    assert DistinctKeys(d) && forall k :: 0 <= k < |d| ==> d[k].0 in {"red", "white", "yellow"} by {
      FindBallsKeys(detect);
    }
    BallLabelsRoundTrip(d);
  }

  // Paste regions (`place_ball_on_table`, `place_balls_on_table`)

  /** `shape[:2]` of an image. */
  datatype Size = Size(rows: nat, cols: nat)

  /** The rows `y1:y2` and columns `x1:x2` a ball texture is pasted into. */
  datatype Region = Region(y1: int, y2: int, x1: int, x2: int)

  /** One axis of the region: `max(0, c - half)` to `min(extent, c + half)`. */
  function Span(c: int, half: int, extent: int): (int, int) {
    (Grid.MaxInt(0, c - half), Grid.MinInt(extent, c + half))
  }

  /** The model-side clamp of a centre coordinate: `max(half, min(extent - half, c))`. */
  function ClampCentre(c: int, half: int, extent: int): int {
    Grid.MaxInt(half, Grid.MinInt(extent - half, c))
  }

  /** The model-side region: the centre is clamped before the spans are taken. */
  function QfitRegion(image: Size, ball: Size, cx: int, cy: int): (g: Region)
    ensures 0 <= g.y1 && g.y2 <= image.rows && 0 <= g.x1 && g.x2 <= image.cols
    ensures g.y2 - g.y1 == Grid.MinInt(2 * (ball.rows / 2), image.rows)
    ensures g.x2 - g.x1 == Grid.MinInt(2 * (ball.cols / 2), image.cols)
    ensures 0 <= g.y2 - g.y1 <= ball.rows && 0 <= g.x2 - g.x1 <= ball.cols
  {
    var ccx := ClampCentre(cx, ball.cols / 2, image.cols);
    var ccy := ClampCentre(cy, ball.rows / 2, image.rows);
    var (y1, y2) := Span(ccy, ball.rows / 2, image.rows);
    var (x1, x2) := Span(ccx, ball.cols / 2, image.cols);
    Region(y1, y2, x1, x2)
  }

  /** The server-side region: no clamp, so it stays inside the image but can
      be empty or inverted when the centre lies outside. */
  function ServerRegion(image: Size, ball: Size, cx: int, cy: int): (g: Region)
    ensures 0 <= g.y1 && g.y2 <= image.rows && 0 <= g.x1 && g.x2 <= image.cols
    ensures g.y2 - g.y1 <= ball.rows && g.x2 - g.x1 <= ball.cols
  {
    var (y1, y2) := Span(cy, ball.rows / 2, image.rows);
    var (x1, x2) := Span(cx, ball.cols / 2, image.cols);
    Region(y1, y2, x1, x2)
  }

  /** The two copies paste into the same region whenever the ball lies wholly
      inside the image, and then the region is centred on the ball. */
  lemma RegionsAgreeInside(image: Size, ball: Size, cx: int, cy: int)
    requires ball.cols / 2 <= cx <= image.cols - ball.cols / 2
    requires ball.rows / 2 <= cy <= image.rows - ball.rows / 2
    ensures QfitRegion(image, ball, cx, cy) == ServerRegion(image, ball, cx, cy)
    ensures ServerRegion(image, ball, cx, cy)
      == Region(cy - ball.rows / 2, cy + ball.rows / 2, cx - ball.cols / 2, cx + ball.cols / 2)
  {
  }

  /** A ball detected left of the image: the server-side region is inverted,
      the model-side one is pulled back to the left edge. */
  lemma CentreOutside()
    ensures ServerRegion(Size(400, 800), Size(20, 20), -100, 200) == Region(190, 210, 0, -90)
    ensures QfitRegion(Size(400, 800), Size(20, 20), -100, 200) == Region(190, 210, 0, 20)
  {
  }

  /** One pasted texture. */
  datatype Paste = Paste(color: string, region: Region)

  /** The textures of the model-side script, in paste order. */
  const QfitBallImages: seq<string> := ["red", "white", "yellow"]

  /** The textures of the server-side script, in paste order. */
  const ServerBallImages: seq<string> := ["red", "yellow", "white"]

  /** A texture load: the image size, or None when the file cannot be read. */
  type TextureLoader = string -> Option<Size>

  /** A paste lies where the detection of its colour puts it, using the size
      of that colour's texture. */
  predicate Placed(p: Paste, image: Size, positions: Positions, load: TextureLoader, region: (Size, Size, int, int) -> Region) {
    && p.color in Keys(positions) && Get(positions, p.color).Some? && load(p.color).Some?
    && p.region == region(image, load(p.color).value, Get(positions, p.color).value.0, Get(positions, p.color).value.1)
  }

  /** Some paste has colour `c`. */
  predicate Painted(ps: seq<Paste>, c: string) {
    exists k :: 0 <= k < |ps| && ps[k].color == c
  }

  /** The paste of colour `c`, if it is detected and its texture loads. */
  function PasteFor(c: string, image: Size, positions: Positions, load: TextureLoader, region: (Size, Size, int, int) -> Region): (e: seq<Paste>)
    ensures |e| <= 1
    ensures |e| == 1 <==> c in Keys(positions) && load(c).Some?
    ensures forall k :: 0 <= k < |e| ==> e[k].color == c && Placed(e[k], image, positions, load, region)
  {
    match Get(positions, c)
    case None => []
    case Some(pos) =>
      match load(c)
      case None => []
      case Some(ball) => [Paste(c, region(image, ball, pos.0, pos.1))]
  }

  /** `place_ball_on_table`: colours without a detection are skipped before
      their texture is read, and an unreadable texture is skipped too; each
      paste sits in the clamped region of a listed colour. */
  function QfitPlacement(colors: seq<string>, image: Size, positions: Positions, load: TextureLoader): (ps: seq<Paste>)
    ensures |ps| <= |colors|
    ensures forall k :: 0 <= k < |ps| ==> ps[k].color in colors && Placed(ps[k], image, positions, load, QfitRegion)
  {
    if |colors| == 0 then []
    else
      var n := |colors| - 1;
      var front := QfitPlacement(colors[..n], image, positions, load);
      var ps := front + PasteFor(colors[n], image, positions, load, QfitRegion);
      assert forall k :: 0 <= k < |front| ==> ps[k] == front[k] && front[k].color in colors[..n];
      ps
  }

  /** Every detected colour with a readable texture is painted. */
  lemma {:induction false} QfitPlacementComplete(colors: seq<string>, image: Size, positions: Positions, load: TextureLoader)
    ensures forall c :: c in colors && c in Keys(positions) && load(c).Some? ==> Painted(QfitPlacement(colors, image, positions, load), c)
  {
    if |colors| > 0 {
      var n := |colors| - 1;
      ColoursSnoc(colors);
      QfitPlacementComplete(colors[..n], image, positions, load);
      var front := QfitPlacement(colors[..n], image, positions, load);
      var ps := QfitPlacement(colors, image, positions, load);
      assert ps == front + PasteFor(colors[n], image, positions, load, QfitRegion);
      forall c | c in colors && c in Keys(positions) && load(c).Some? ensures Painted(ps, c) {
        PaintedAppend(front, PasteFor(colors[n], image, positions, load, QfitRegion), c);
      }
    }
  }

  /** Appending keeps what was painted and adds the appended colour. */
  lemma PaintedAppend(front: seq<Paste>, e: seq<Paste>, c: string)
    ensures Painted(front, c) ==> Painted(front + e, c)
    ensures |e| == 1 && e[0].color == c ==> Painted(front + e, c)
  {
    if Painted(front, c) {
      var k :| 0 <= k < |front| && front[k].color == c;
      assert (front + e)[k] == front[k];
    }
    if |e| == 1 && e[0].color == c {
      assert (front + e)[|front|] == e[0];
    }
  }

  /** Every model-side paste lies inside the image. */
  lemma QfitPlacementInside(colors: seq<string>, image: Size, positions: Positions, load: TextureLoader)
    ensures var ps := QfitPlacement(colors, image, positions, load);
      forall k :: 0 <= k < |ps| ==> (
        && 0 <= ps[k].region.x1 && ps[k].region.x2 <= image.cols
        && 0 <= ps[k].region.y1 && ps[k].region.y2 <= image.rows)
  {
    var ps := QfitPlacement(colors, image, positions, load);
    forall k | 0 <= k < |ps|
      ensures 0 <= ps[k].region.x1 && ps[k].region.x2 <= image.cols && 0 <= ps[k].region.y1 && ps[k].region.y2 <= image.rows
    {
      var c := ps[k].color;
      var pos := Get(positions, c).value;
      assert ps[k].region == QfitRegion(image, load(c).value, pos.0, pos.1);
    }
  }

  /** `place_balls_on_table`: every texture is read, and a detected colour
      whose texture cannot be read raises an error (None here); each paste
      sits in the unclamped region of a listed colour. */
  function ServerPlacement(colors: seq<string>, image: Size, positions: Positions, load: TextureLoader): (r: Option<seq<Paste>>)
    ensures r.None? <==> exists c :: c in colors && c in Keys(positions) && load(c).None?
    ensures r.Some? ==> |r.value| <= |colors|
    ensures r.Some? ==> forall k :: 0 <= k < |r.value| ==> r.value[k].color in colors && Placed(r.value[k], image, positions, load, ServerRegion)
  {
    if |colors| == 0 then Some([])
    else
      var n := |colors| - 1;
      var c := colors[n];
      assert forall c' :: c' in colors <==> c' in colors[..n] || c' == c;
      match ServerPlacement(colors[..n], image, positions, load)
      case None => None
      case Some(front) =>
        if c in Keys(positions) && load(c).None? then None
        else
          var ps := front + PasteFor(c, image, positions, load, ServerRegion);
          assert forall k :: 0 <= k < |front| ==> ps[k] == front[k] && front[k].color in colors[..n];
          Some(ps)
  }

  /** When the server-side placement succeeds, every detected colour is painted. */
  lemma {:induction false} ServerPlacementComplete(colors: seq<string>, image: Size, positions: Positions, load: TextureLoader)
    requires ServerPlacement(colors, image, positions, load).Some?
    ensures forall c :: c in colors && c in Keys(positions) ==> Painted(ServerPlacement(colors, image, positions, load).value, c)
  {
    if |colors| > 0 {
      var n := |colors| - 1;
      var c := colors[n];
      ColoursSnoc(colors);
      ServerPlacementComplete(colors[..n], image, positions, load);
      var front := ServerPlacement(colors[..n], image, positions, load).value;
      var ps := ServerPlacement(colors, image, positions, load).value;
      assert ps == front + PasteFor(c, image, positions, load, ServerRegion);
      forall c' | c' in colors && c' in Keys(positions) ensures Painted(ps, c') {
        PaintedAppend(front, PasteFor(c, image, positions, load, ServerRegion), c');
      }
    }
  }

  /** A colour of the list is in its front part or is the last one. */
  lemma ColoursSnoc(colors: seq<string>)
    requires |colors| > 0
    ensures forall c :: c in colors <==> c in colors[..|colors| - 1] || c == colors[|colors| - 1]
  {
    assert colors == colors[..|colors| - 1] + [colors[|colors| - 1]];
  }

  /** Every server-side paste starts inside the image and ends within it,
      though without the clamp it may be empty or inverted. */
  lemma ServerPlacementInside(colors: seq<string>, image: Size, positions: Positions, load: TextureLoader)
    requires ServerPlacement(colors, image, positions, load).Some?
    ensures var ps := ServerPlacement(colors, image, positions, load).value;
      forall k :: 0 <= k < |ps| ==> (
        && 0 <= ps[k].region.x1 && ps[k].region.x2 <= image.cols
        && 0 <= ps[k].region.y1 && ps[k].region.y2 <= image.rows)
  {
    var ps := ServerPlacement(colors, image, positions, load).value;
    forall k | 0 <= k < |ps|
      ensures 0 <= ps[k].region.x1 && ps[k].region.x2 <= image.cols && 0 <= ps[k].region.y1 && ps[k].region.y2 <= image.rows
    {
      var c := ps[k].color;
      var pos := Get(positions, c).value;
      assert ps[k].region == ServerRegion(image, load(c).value, pos.0, pos.1);
    }
  }
}
