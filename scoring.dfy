/** The scoring part of GameService: the fixed wheel table, the normalisation of an arrow
    position to an angle and the lookup of the sector that angle falls in. */
module Scoring {
  import opened GameTypes

  /** The score at which confirmArrow ends the game. */
  const WinScore: int := 20

  /** The wheel: five arcs worth 2, 3, 4, 3, 2 points. */
  const WheelSectors: seq<WheelSector> := [
    WheelSector(2, Yellow, 0, 60),
    WheelSector(3, Red, 60, 120),
    WheelSector(4, Blue, 120, 240),
    WheelSector(3, Red, 240, 300),
    WheelSector(2, Yellow, 300, 360)
  ]

  /** JavaScript's `a % b` for b > 0: the quotient is truncated toward zero, so the
      remainder differs from the dividend by a multiple of b and takes the dividend's sign. */
  function JsRem(a: int, b: int): (r: int)
    requires b > 0
    ensures (a - r) % b == 0
    ensures a >= 0 ==> 0 <= r < b
    ensures a < 0 ==> -b < r <= 0
  {
    if a >= 0 then
      RemainderOfNonNegative(a, b);
      a % b
    else
      RemainderOfNegative(a, b);
      -((-a) % b)
  }

  lemma RemainderOfNonNegative(a: int, b: int)
    requires a >= 0 && b > 0
    ensures (a - a % b) % b == 0
  {
    var q := a / b;
    assert a - a % b == b * q;
    MultipleHasNoRemainder(b, q);
  }

  lemma RemainderOfNegative(a: int, b: int)
    requires a < 0 && b > 0
    ensures (a + (-a) % b) % b == 0
  {
    var q := (-a) / b;
    assert -a == b * q + (-a) % b;
    assert a + (-a) % b == b * -q;
    MultipleHasNoRemainder(b, -q);
  }

  /** A multiple of b leaves no remainder. */
  lemma MultipleHasNoRemainder(b: int, q: int)
    requires b > 0
    ensures (b * q) % b == 0
  {
    var x := b * q;
    var d := q - x / b;
    assert x == b * (x / b) + x % b;
    assert b * d == x % b;
  }

  /** `(x % 360 + 360) % 360` with JavaScript's `%`: the representative of x in [0, 360).
      It agrees with Dafny's Euclidean `x % 360`. */
  function NormalizeAngle(x: int): (angle: int)
    ensures 0 <= angle < 360
    ensures angle == x % 360
  {
    var once := JsRem(x, 360);
    var angle := JsRem(once + 360, 360);
    NormalizeIsEuclidean(x);
    angle
  }

  lemma NormalizeIsEuclidean(x: int)
    ensures JsRem(JsRem(x, 360) + 360, 360) == x % 360
  {
    var once := JsRem(x, 360);
    var angle := JsRem(once + 360, 360);
    assert x - once == 360 * ((x - once) / 360);
    assert once + 360 - angle == 360 * ((once + 360 - angle) / 360);
    EuclideanRepresentative(x, angle, (x - once) / 360 + (once + 360 - angle) / 360 - 1);
  }

  /** Two numbers that differ by a multiple of 360, one of them in [0, 360), have that one
      as Euclidean remainder. */
  lemma EuclideanRepresentative(x: int, angle: int, turns: int)
    requires 0 <= angle < 360
    requires x == angle + 360 * turns
    ensures angle == x % 360
  {
  }

  predicate InSector(s: WheelSector, angle: int) {
    s.startAngle <= angle < s.endAngle
  }

  /** The index of the first sector whose arc contains angle, if any. */
  function FirstSector(sectors: seq<WheelSector>, angle: int): (r: Option<nat>)
    ensures r.Some? ==> r.value < |sectors| && InSector(sectors[r.value], angle)
    ensures r.Some? ==> forall j :: 0 <= j < r.value ==> !InSector(sectors[j], angle)
    ensures r.None? <==> forall j :: 0 <= j < |sectors| ==> !InSector(sectors[j], angle)
    decreases |sectors|
  {
    if |sectors| == 0 then None
    else if InSector(sectors[0], angle) then Some(0)
    else match FirstSector(sectors[1..], angle)
      case None => None
      case Some(k) => Some(k + 1)
  }

  /** What the loop of calculatePoints returns for an already normalised angle: the value
      of the first sector containing it, and 0 when no sector does. */
  function SectorValueAt(sectors: seq<WheelSector>, angle: int): int {
    match FirstSector(sectors, angle)
    case Some(k) => sectors[k].value
    case None => 0
  }

  /** The sectors lie side by side, each non-empty, the first starting at lo and the last
      ending at hi. */
  predicate Tiles(sectors: seq<WheelSector>, lo: int, hi: int)
    decreases |sectors|
  {
    if |sectors| == 0 then lo == hi
    else sectors[0].startAngle == lo && lo < sectors[0].endAngle && Tiles(sectors[1..], sectors[0].endAngle, hi)
  }

  /** Every sector of a tiling of [lo, hi) lies inside [lo, hi). */
  lemma {:induction false} TilingBounds(sectors: seq<WheelSector>, lo: int, hi: int)
    requires Tiles(sectors, lo, hi)
    ensures lo <= hi
    ensures forall k :: 0 <= k < |sectors| ==> lo <= sectors[k].startAngle && sectors[k].endAngle <= hi
    decreases |sectors|
  {
    if |sectors| > 0 {
      TilingBounds(sectors[1..], sectors[0].endAngle, hi);
      forall k | 1 <= k < |sectors|
        ensures lo <= sectors[k].startAngle && sectors[k].endAngle <= hi
      {
        assert sectors[k] == sectors[1..][k - 1];
      }
    }
  }

  /** A tiling of [lo, hi) covers exactly [lo, hi), and every angle lies in at most one of
      its sectors. */
  lemma {:induction false} TilingPartitions(sectors: seq<WheelSector>, lo: int, hi: int, angle: int)
    requires Tiles(sectors, lo, hi)
    ensures FirstSector(sectors, angle).Some? <==> lo <= angle < hi
    ensures forall j, k :: 0 <= j < |sectors| && 0 <= k < |sectors| && InSector(sectors[j], angle) && InSector(sectors[k], angle) ==> j == k
    decreases |sectors|
  {
    if |sectors| > 0 {
      var rest := sectors[1..];
      TilingBounds(rest, sectors[0].endAngle, hi);
      TilingPartitions(rest, sectors[0].endAngle, hi, angle);
      forall k | 1 <= k < |sectors|
        ensures sectors[k] == rest[k - 1]
      {
      }
    }
  }

  lemma WheelSectorsTile()
    ensures Tiles(WheelSectors, 0, 360)
  {
    var s := WheelSectors;
    assert Tiles(s[4..], 300, 360) by { assert s[4..][1..] == []; }
    assert s[3..][1..] == s[4..];
    assert s[2..][1..] == s[3..];
    assert s[1..][1..] == s[2..];
  }

  /** calculatePoints: the points an arrow at arrowPosition earns. The five sectors tile the
      whole circle, so some sector always matches and the fallback `return 0` is never
      taken: every position earns 2, 3 or 4 points, 4 in the middle third of the wheel and
      2 in the outer sixths. */
  function Points(arrowPosition: int): (p: int)
    ensures 2 <= p <= 4
    ensures p == 4 <==> 120 <= arrowPosition % 360 < 240
    ensures p == 2 <==> arrowPosition % 360 < 60 || 300 <= arrowPosition % 360
  {
    var angle := NormalizeAngle(arrowPosition);
    WheelSectorsTile();
    TilingPartitions(WheelSectors, 0, 360, angle);
    SectorValueAt(WheelSectors, angle)
  }

  /** Adding whole turns to the arrow does not change its score. */
  lemma PointsPeriodic(arrowPosition: int, turns: int)
    ensures Points(arrowPosition + 360 * turns) == Points(arrowPosition)
  {
    var a := arrowPosition % 360;
    var q := arrowPosition / 360;
    assert arrowPosition == a + 360 * q;
    EuclideanRepresentative(arrowPosition + 360 * turns, a, q + turns);
  }
}
