/** The shot grids the searches enumerate: Python `range`s, the nested
    angle/power/offset loops, and the fine grid the sim6 copy builds around the
    best coarse shot (server/pymunk_sim6.py lines 247-283, with the v1 copy's
    coarse grid at qfit/model_src/qfit_simulation_v1.py lines 409-415). */
module Grid {

  /** `spin_offset`, a tip offset from the cue ball's centre. */
  datatype Offset = Offset(x: int, y: int)

  /** One trial's parameters: angle in degrees, power gauge, tip offset. */
  datatype Shot = Shot(angle: int, power: int, offset: Offset)

  /** Python's `range(lo, hi, step)` for a positive step. */
  function Range(lo: int, hi: int, step: int): seq<int>
    requires step > 0
    decreases hi - lo
  {
    if lo >= hi then [] else [lo] + Range(lo + step, hi, step)
  }

  /** The k-th element is `lo + k * step`, and the range stops at the first such value reaching `hi`. */
  lemma {:induction false} RangeElements(lo: int, hi: int, step: int)
    requires step > 0
    ensures forall k :: 0 <= k < |Range(lo, hi, step)| ==> Range(lo, hi, step)[k] == lo + k * step
    ensures lo + |Range(lo, hi, step)| * step >= hi
    ensures |Range(lo, hi, step)| > 0 ==> lo + (|Range(lo, hi, step)| - 1) * step < hi
    decreases hi - lo
  {
    if lo < hi {
      var rest := Range(lo + step, hi, step);
      RangeElements(lo + step, hi, step);
      var r := Range(lo, hi, step);
      assert r == [lo] + rest;
      forall k | 0 <= k < |r| ensures r[k] == lo + k * step {
        if k > 0 {
          assert r[k] == rest[k - 1];
          assert rest[k - 1] == lo + step + (k - 1) * step;
        }
      }
      assert lo + |r| * step == lo + step + |rest| * step;
      if |rest| > 0 {
        assert lo + (|r| - 1) * step == lo + step + (|rest| - 1) * step;
      }
    }
  }

  /** A unit-step range holds exactly the integers from `lo` below `hi`. */
  lemma {:induction false} UnitRangeMembers(lo: int, hi: int)
    ensures forall x :: x in Range(lo, hi, 1) <==> lo <= x < hi
    decreases hi - lo
  {
    if lo < hi {
      UnitRangeMembers(lo + 1, hi);
    }
  }

  /** The shots of one angle: the power loop around the offset loop. */
  function Row(angle: int, powers: seq<int>, offsets: seq<Offset>): seq<Shot> {
    if |powers| == 0 then []
    else seq(|offsets|, k requires 0 <= k < |offsets| => Shot(angle, powers[0], offsets[k])) + Row(angle, powers[1..], offsets)
  }

  /** The nested `for ang ... for pwr ... for off ...` loops, in their order. */
  function Product(angles: seq<int>, powers: seq<int>, offsets: seq<Offset>): seq<Shot> {
    if |angles| == 0 then [] else Row(angles[0], powers, offsets) + Product(angles[1..], powers, offsets)
  }

  lemma {:induction false} RowShape(angle: int, powers: seq<int>, offsets: seq<Offset>)
    ensures |Row(angle, powers, offsets)| == |powers| * |offsets|
    ensures forall s :: s in Row(angle, powers, offsets) <==> s.angle == angle && s.power in powers && s.offset in offsets
  {
    if |powers| > 0 {
      RowShape(angle, powers[1..], offsets);
      var head := seq(|offsets|, k requires 0 <= k < |offsets| => Shot(angle, powers[0], offsets[k]));
      assert Row(angle, powers, offsets) == head + Row(angle, powers[1..], offsets);
      forall s ensures s in head <==> s.angle == angle && s.power == powers[0] && s.offset in offsets {
        if s.angle == angle && s.power == powers[0] && s.offset in offsets {
          var k :| 0 <= k < |offsets| && offsets[k] == s.offset;
          assert head[k] == s;
        }
      }
      assert forall p :: p in powers <==> p == powers[0] || p in powers[1..];
    }
  }

  /** The grid holds |angles|·|powers|·|offsets| shots. */
  lemma {:induction false} ProductLength(angles: seq<int>, powers: seq<int>, offsets: seq<Offset>)
    ensures |Product(angles, powers, offsets)| == |angles| * (|powers| * |offsets|)
  {
    if |angles| > 0 {
      ProductLength(angles[1..], powers, offsets);
      RowShape(angles[0], powers, offsets);
      var x, n := |powers| * |offsets|, |angles| - 1;
      assert |angles[1..]| == n;
      assert (n + 1) * x == x + n * x;
    }
  }

  /** The grid holds exactly the combinations of its three lists. */
  lemma {:induction false} ProductMembers(angles: seq<int>, powers: seq<int>, offsets: seq<Offset>)
    ensures forall s :: s in Product(angles, powers, offsets) <==> s.angle in angles && s.power in powers && s.offset in offsets
  {
    if |angles| > 0 {
      ProductMembers(angles[1..], powers, offsets);
      RowShape(angles[0], powers, offsets);
      assert forall a :: a in angles <==> a == angles[0] || a in angles[1..];
    }
  }

  const Centre: Offset := Offset(0, 0)

  /** The v1 copy's grid: every 5 degrees, powers 1-10, no offset. */
  function V1Grid(): seq<Shot> {
    Product(Range(0, 360, 5), Range(1, 11, 1), [Centre])
  }

  /** The sim6 copy's coarse grid: every 10 degrees, powers 1-10, no offset. */
  function CoarseGrid(): seq<Shot> {
    Product(Range(0, 360, 10), Range(1, 11, 1), [Centre])
  }

  /** The v1 grid: 720 shots, every multiple of 5 degrees below 360 with powers 1 to 10 and the centre offset. */
  lemma V1GridShape()
    ensures |V1Grid()| == 720
    ensures forall s :: s in V1Grid() <==> 0 <= s.angle < 360 && s.angle % 5 == 0 && 1 <= s.power <= 10 && s.offset == Centre
  {
    var angles, powers := Range(0, 360, 5), Range(1, 11, 1);
    PowerRange();
    MultiplesOfFive();
    assert |V1Grid()| == 720 by {
      ProductLength(angles, powers, [Centre]);
    }
    assert forall s :: s in V1Grid() <==> s.angle in angles && s.power in powers && s.offset in [Centre] by {
      ProductMembers(angles, powers, [Centre]);
    }
  }

  /** The coarse sim6 grid: 360 shots, every multiple of 10 degrees below 360 with powers 1 to 10 and the centre offset. */
  lemma CoarseGridShape()
    ensures |CoarseGrid()| == 360
    ensures forall s :: s in CoarseGrid() <==> 0 <= s.angle < 360 && s.angle % 10 == 0 && 1 <= s.power <= 10 && s.offset == Centre
  {
    var angles, powers := Range(0, 360, 10), Range(1, 11, 1);
    PowerRange();
    MultiplesOfTen();
    assert |CoarseGrid()| == 360 by {
      ProductLength(angles, powers, [Centre]);
    }
    assert forall s :: s in CoarseGrid() <==> s.angle in angles && s.power in powers && s.offset in [Centre] by {
      ProductMembers(angles, powers, [Centre]);
    }
  }

  /** `range(1, 11)`: the ten powers 1 to 10. */
  lemma PowerRange()
    ensures |Range(1, 11, 1)| == 10
    ensures forall p :: p in Range(1, 11, 1) <==> 1 <= p <= 10
  {
    UnitRangeMembers(1, 11);
    RangeElements(1, 11, 1);
  }

  /** `range(0, 360, 5)`: the 72 multiples of 5 below 360. */
  lemma MultiplesOfFive()
    ensures |Range(0, 360, 5)| == 72
    ensures forall x :: x in Range(0, 360, 5) <==> 0 <= x < 360 && x % 5 == 0
  {
    var r := Range(0, 360, 5);
    RangeElements(0, 360, 5);
    assert |r| == 72 by {
      assert |r| * 5 >= 360 && (|r| - 1) * 5 < 360;
    }
    forall x | x in r ensures 0 <= x < 360 && x % 5 == 0 {
      var k :| 0 <= k < |r| && r[k] == x;
      assert x == k * 5;
      MultipleMod(k, 5);
    }
    forall x | 0 <= x < 360 && x % 5 == 0 ensures x in r {
      var k := x / 5;
      assert 0 <= k < |r| && r[k] == x;
    }
  }

  /** `range(0, 360, 10)`: the 36 multiples of 10 below 360. */
  lemma MultiplesOfTen()
    ensures |Range(0, 360, 10)| == 36
    ensures forall x :: x in Range(0, 360, 10) <==> 0 <= x < 360 && x % 10 == 0
  {
    var r := Range(0, 360, 10);
    RangeElements(0, 360, 10);
    assert |r| == 36 by {
      assert |r| * 10 >= 360 && (|r| - 1) * 10 < 360;
    }
    forall x | x in r ensures 0 <= x < 360 && x % 10 == 0 {
      var k :| 0 <= k < |r| && r[k] == x;
      assert x == k * 10;
      MultipleMod(k, 10);
    }
    forall x | 0 <= x < 360 && x % 10 == 0 ensures x in r {
      var k := x / 10;
      assert 0 <= k < |r| && r[k] == x;
    }
  }

  lemma MultipleMod(k: int, m: int)
    requires m > 0
    ensures (k * m) % m == 0
  {
    var q, r := (k * m) / m, (k * m) % m;
    assert m * (k - q) == r;
    MulAwayFromZero(m, k - q);
  }

  lemma MulAwayFromZero(m: int, d: int)
    requires m > 0
    ensures d >= 1 ==> m * d >= m
    ensures d <= -1 ==> m * d <= -m
  {
  }

  function MinInt(a: int, b: int): int { if a < b then a else b }
  function MaxInt(a: int, b: int): int { if a > b then a else b }

  /** `[(ox, oy) for ox in range(bx-1, bx+2) for oy in range(by-1, by+2)]`. */
  function OffsetsAround(c: Offset): seq<Offset> {
    Pairs(Range(c.x - 1, c.x + 2, 1), Range(c.y - 1, c.y + 2, 1))
  }

  /** The nested comprehension over `xs` (outer) and `ys` (inner). */
  function Pairs(xs: seq<int>, ys: seq<int>): seq<Offset> {
    if |xs| == 0 then []
    else seq(|ys|, k requires 0 <= k < |ys| => Offset(xs[0], ys[k])) + Pairs(xs[1..], ys)
  }

  lemma {:induction false} PairsShape(xs: seq<int>, ys: seq<int>)
    ensures |Pairs(xs, ys)| == |xs| * |ys|
    ensures forall o :: o in Pairs(xs, ys) <==> o.x in xs && o.y in ys
  {
    if |xs| > 0 {
      PairsShape(xs[1..], ys);
      var head := seq(|ys|, k requires 0 <= k < |ys| => Offset(xs[0], ys[k]));
      assert Pairs(xs, ys) == head + Pairs(xs[1..], ys);
      forall o ensures o in head <==> o.x == xs[0] && o.y in ys {
        if o.x == xs[0] && o.y in ys {
          var k :| 0 <= k < |ys| && ys[k] == o.y;
          assert head[k] == o;
        }
      }
      assert forall a :: a in xs <==> a == xs[0] || a in xs[1..];
      assert |xs| * |ys| == |ys| + |xs[1..]| * |ys|;
    }
  }

  /** The fine angles, each `ang2 % 360` for `ang2` in `range(bang-30, bang+31, 5)`. */
  function FineAngles(bang: int): seq<int> {
    var raw := Range(bang - 30, bang + 31, 5);
    seq(|raw|, k requires 0 <= k < |raw| => raw[k] % 360)
  }

  /** The fine powers, `min(p, 10)` for `p` from `max(bpwr-5, 1)` to `min(bpwr+5, 10)`. */
  function FinePowers(bpwr: int): seq<int> {
    var raw := Range(MaxInt(bpwr - 5, 1), MinInt(bpwr + 5, 10) + 1, 1);
    seq(|raw|, k requires 0 <= k < |raw| => MinInt(raw[k], 10))
  }

  /** The second-phase grid around the best coarse shot. */
  function FineGrid(best: Shot): seq<Shot> {
    Product(FineAngles(best.angle), FinePowers(best.power), OffsetsAround(best.offset))
  }

  /** Thirteen angles, each reduced into [0, 360), the centre angle among them. */
  lemma FineAnglesShape(bang: int)
    ensures |FineAngles(bang)| == 13
    ensures forall k :: 0 <= k < 13 ==> FineAngles(bang)[k] == (bang - 30 + 5 * k) % 360
    ensures forall a :: a in FineAngles(bang) ==> 0 <= a < 360
    ensures bang % 360 in FineAngles(bang)
  {
    RangeElements(bang - 30, bang + 31, 5);
    assert FineAngles(bang)[6] == bang % 360;
  }

  /** Every fine power lies in [1, 10], and a power in that range is among its own fine powers. */
  lemma FinePowersShape(bpwr: int)
    ensures forall p :: p in FinePowers(bpwr) ==> 1 <= p <= 10 && bpwr - 5 <= p <= bpwr + 5
    ensures forall p :: p in FinePowers(bpwr) <==> MaxInt(bpwr - 5, 1) <= p <= MinInt(bpwr + 5, 10)
    ensures 1 <= bpwr <= 10 ==> bpwr in FinePowers(bpwr)
  {
    var lo, hi := MaxInt(bpwr - 5, 1), MinInt(bpwr + 5, 10) + 1;
    var raw := Range(lo, hi, 1);
    UnitRangeMembers(lo, hi);
    forall k | 0 <= k < |raw| ensures FinePowers(bpwr)[k] == raw[k] {
      assert raw[k] in raw;
    }
    assert FinePowers(bpwr) == raw;
  }

  /** The nine offsets of the 3x3 block around the centre, x outer, the centre among them. */
  lemma OffsetsAroundShape(c: Offset)
    ensures |OffsetsAround(c)| == 9
    ensures forall o :: o in OffsetsAround(c) <==> c.x - 1 <= o.x <= c.x + 1 && c.y - 1 <= o.y <= c.y + 1
  {
    var xs, ys := Range(c.x - 1, c.x + 2, 1), Range(c.y - 1, c.y + 2, 1);
    assert forall a :: a in xs <==> c.x - 1 <= a <= c.x + 1 by {
      ThreeAround(c.x);
    }
    assert forall b :: b in ys <==> c.y - 1 <= b <= c.y + 1 by {
      ThreeAround(c.y);
    }
    assert |xs| == 3 && |ys| == 3 by {
      ThreeAround(c.x);
      ThreeAround(c.y);
    }
    PairsShape(xs, ys);
  }

  lemma ThreeAround(m: int)
    ensures Range(m - 1, m + 2, 1) == [m - 1, m, m + 1]
  {
    assert Range(m + 2, m + 2, 1) == [];
    assert Range(m + 1, m + 2, 1) == [m + 1];
    assert Range(m, m + 2, 1) == [m, m + 1];
  }

  /** A shot with a reduced angle and a power in [1, 10] lies in its own fine
      grid, so the second phase always re-tries the coarse winner. */
  lemma FineGridContainsCentre(best: Shot)
    requires 0 <= best.angle < 360 && 1 <= best.power <= 10
    ensures best in FineGrid(best)
    ensures |FineGrid(best)| == 13 * (|FinePowers(best.power)| * 9)
    ensures forall s :: s in FineGrid(best) ==> 0 <= s.angle < 360 && 1 <= s.power <= 10
  {
    var angles, powers, offsets := FineAngles(best.angle), FinePowers(best.power), OffsetsAround(best.offset);
    assert |angles| == 13 && best.angle in angles && forall a :: a in angles ==> 0 <= a < 360 by {
      FineAnglesShape(best.angle);
      assert best.angle % 360 == best.angle;
    }
    assert best.power in powers && forall p :: p in powers ==> 1 <= p <= 10 by {
      FinePowersShape(best.power);
    }
    assert |offsets| == 9 && best.offset in offsets by {
      OffsetsAroundShape(best.offset);
    }
    assert |FineGrid(best)| == 13 * (|powers| * 9) by {
      ProductLength(angles, powers, offsets);
    }
    assert forall s :: s in FineGrid(best) <==> s.angle in angles && s.power in powers && s.offset in offsets by {
      ProductMembers(angles, powers, offsets);
    }
  }

  /** Near the top of the range the fine powers are cut at 10: around 8 they are 3 to 10. */
  lemma FinePowersNearTop()
    ensures FinePowers(8) == [3, 4, 5, 6, 7, 8, 9, 10]
  {
    RangeElements(3, 11, 1);
  }

  /** Near 0 degrees the fine angles wrap around to the top of the circle. */
  lemma FineAnglesWrap()
    ensures FineAngles(0)[0] == 330 && FineAngles(0)[12] == 30
  {
    FineAnglesShape(0);
  }
}
