/** The distribution of a station's calibration coefficients over its tiles. */
module Calibration {
  import opened Basics

  const ANTENNAS_PER_TILE := 16
  const MAX_TILES := 16

  datatype Error = Insufficient | Incomplete | IndexError

  datatype Result<+T> = Loaded(value: T) | Rejected(error: Error)

  // ---------- All antennas, several channels ----------

  /** The list is one leading element and then an array of channels, each of 256 antennas of 8 values. */
  predicate Covers(coefficients: seq<real>, channels: nat) {
    |coefficients| == 1 + 2048 * channels
  }

  /** The tile and the position in its list where an element of the station's list belongs. */
  function Target(i: nat): (nat, nat)
    requires i >= 1
  {
    var (c, a, k) := ((i - 1) / 2048, (i - 1) % 2048 / 8, (i - 1) % 8);
    (a / ANTENNAS_PER_TILE, 1 + 128 * c + 8 * (a % ANTENNAS_PER_TILE) + k)
  }

  /** The element of the station's list that belongs at a position of a tile's list. */
  function Source(t: nat, p: nat): nat
    requires p >= 1
  {
    var (c, j, k) := ((p - 1) / 128, (p - 1) % 128 / 8, (p - 1) % 8);
    1 + 2048 * c + 8 * (ANTENNAS_PER_TILE * t + j) + k
  }

  lemma Eights(q: nat, r: nat)
    requires r < 8
    ensures (8 * q + r) / 8 == q && (8 * q + r) % 8 == r
  {
  }

  /** The parts of a number written by channel, antenna and value, in the station's list and in a tile's. */
  lemma StationDigits(c: nat, a: nat, k: nat)
    requires a < 256 && k < 8
    ensures var x := 2048 * c + 8 * a + k; x / 2048 == c && x % 2048 / 8 == a && x % 8 == k
  {
    var x, r := 2048 * c + 8 * a + k, 8 * a + k;
    assert x / 2048 == c && x % 2048 == r;
    Eights(a, k);
    Eights(256 * c + a, k);
  }

  lemma TileDigits(c: nat, j: nat, k: nat)
    requires j < 16 && k < 8
    ensures var x := 128 * c + 8 * j + k; x / 128 == c && x % 128 / 8 == j && x % 8 == k
  {
    var x, r := 128 * c + 8 * j + k, 8 * j + k;
    assert x / 128 == c && x % 128 == r;
    Eights(j, k);
    Eights(16 * c + j, k);
  }

  lemma EightsOf(m: nat, r: nat, x: nat)
    requires x == 8 * m + r
    ensures x % 8 == r % 8
  {
    assert x == 8 * (m + r / 8) + r % 8;
  }

  lemma StationNumber(x: nat)
    ensures x == 2048 * (x / 2048) + 8 * (x % 2048 / 8) + x % 8 && x % 2048 / 8 < 256 && x % 8 < 8
  {
    var r := x % 2048;
    EightsOf(256 * (x / 2048), r, x);
  }

  lemma TileNumber(x: nat)
    ensures x == 128 * (x / 128) + 8 * (x % 128 / 8) + x % 8 && x % 128 / 8 < 16 && x % 8 < 8
  {
    var r := x % 128;
    EightsOf(16 * (x / 128), r, x);
  }

  lemma AntennaDigits(t: nat, j: nat)
    requires j < 16
    ensures (16 * t + j) / 16 == t && (16 * t + j) % 16 == j
  {
  }

  lemma SourceOf(c: nat, t: nat, j: nat, k: nat)
    requires j < 16 && k < 8
    ensures Source(t, 1 + 128 * c + 8 * j + k) == 1 + 2048 * c + 8 * (16 * t + j) + k
  {
    TileDigits(c, j, k);
  }

  lemma TargetOf(c: nat, t: nat, j: nat, k: nat)
    requires t < MAX_TILES && j < 16 && k < 8
    ensures Target(1 + 2048 * c + 8 * (16 * t + j) + k) == (t, 1 + 128 * c + 8 * j + k)
  {
    StationDigits(c, 16 * t + j, k);
    AntennaDigits(t, j);
  }

  lemma SourceOfTarget(i: nat)
    requires i >= 1
    ensures Source(Target(i).0, Target(i).1) == i
  {
    var (c, a, k) := ((i - 1) / 2048, (i - 1) % 2048 / 8, (i - 1) % 8);
    StationNumber(i - 1);
    SourceOf(c, a / 16, a % 16, k);
  }

  lemma TargetOfSource(t: nat, p: nat)
    requires p >= 1 && t < MAX_TILES
    ensures Target(Source(t, p)) == (t, p)
  {
    var (c, j, k) := ((p - 1) / 128, (p - 1) % 128 / 8, (p - 1) % 8);
    TileNumber(p - 1);
    TargetOf(c, t, j, k);
  }

  /** Elements and places correspond one to one. */
  lemma PlacesCorrespond(i: nat, t: nat, p: nat)
    requires i >= 1 && p >= 1 && t < MAX_TILES
    ensures Target(i) == (t, p) <==> i == Source(t, p)
  {
    SourceOfTarget(i);
    TargetOfSource(t, p);
  }

  /** `q` places into channel `c` of the tile's list. */
  lemma SourceInChannel(t: nat, c: nat, q: nat)
    requires q < 128
    ensures Source(t, 1 + 128 * c + q) == 1 + 2048 * c + 128 * t + q
  {
    SourceOf(c, t, q / 8, q % 8);
  }

  /** A list for tile `t`: the leading element, and at every other place the element of the station's list that belongs
      there. */
  ghost predicate IsPart(coefficients: seq<real>, t: nat, channels: nat, part: seq<real>)
    requires coefficients != []
  {
    && |part| == 1 + 128 * channels && part[0] == coefficients[0]
    && forall p :: 1 <= p < |part| ==> Source(t, p) < |coefficients| && part[p] == coefficients[Source(t, p)]
  }

  /** Whole tiles beyond the 256 antennas of the array get no values. */
  ghost predicate IsDistributed(coefficients: seq<real>, channels: nat, tiles: seq<seq<real>>)
    requires Covers(coefficients, channels)
  {
    forall t :: 0 <= t < |tiles| ==>
      if t < MAX_TILES then IsPart(coefficients, t, channels, tiles[t]) else tiles[t] == [coefficients[0]]
  }

  method LoadForChannels(coefficients: seq<real>, tileCount: nat) returns (result: Result<seq<seq<real>>>)
    ensures |coefficients| < 2047 ==> result == Rejected(Insufficient)
    ensures |coefficients| >= 2047 && |coefficients| % 2048 != 1 ==> result == Rejected(Incomplete)
    ensures |coefficients| >= 2047 && |coefficients| % 2048 == 1 ==>
              var channels := |coefficients| / 2048;
              && Covers(coefficients, channels) && result.Loaded? && |result.value| == tileCount
              && IsDistributed(coefficients, channels, result.value)
  {
    if |coefficients| < 2047 {
      return Rejected(Insufficient);
    }
    if |coefficients| % 2048 != 1 {
      return Rejected(Incomplete);
    }
    var channels := |coefficients| / 2048;
    var tiles: seq<seq<real>> := [];
    for t := 0 to tileCount
      invariant |tiles| == t && IsDistributed(coefficients, channels, tiles)
    {
      var part := [coefficients[0]];
      if t < MAX_TILES {
        part := TilePart(coefficients, channels, t);
      }
      tiles := tiles + [part];
    }
    return Loaded(tiles);
  }

  /** The slice of the array for the 16 antennas of a tile, channel after channel. */
  method TilePart(coefficients: seq<real>, channels: nat, t: nat) returns (part: seq<real>)
    requires Covers(coefficients, channels) && t < MAX_TILES
    ensures IsPart(coefficients, t, channels, part)
  {
    part := [coefficients[0]];
    for c := 0 to channels
      invariant IsPart(coefficients, t, c, part)
    {
      var first := 1 + 2048 * c + 128 * t;
      var slice := coefficients[first..first + 128];
      forall p | |part| <= p < |part| + 128
        ensures Source(t, p) == first + (p - |part|)
      {
        SourceInChannel(t, c, p - |part|);
      }
      part := part + slice;
    }
  }

  lemma PlaceBounds(coefficients: seq<real>, channels: nat, i: nat)
    requires Covers(coefficients, channels) && 1 <= i < |coefficients|
    ensures Target(i).0 < MAX_TILES && 1 <= Target(i).1 < 1 + 128 * channels
  {
    var (c, a, k) := ((i - 1) / 2048, (i - 1) % 2048 / 8, (i - 1) % 8);
    assert c < channels && a < 256;
  }

  /** Nothing is lost and nothing is doubled: in the lists of 16 tiles every element of the station's list, but for the
      leading one, stands at one place only. */
  lemma LandsWhereItBelongs(coefficients: seq<real>, channels: nat, tiles: seq<seq<real>>, i: nat)
    requires Covers(coefficients, channels) && IsDistributed(coefficients, channels, tiles) && |tiles| == MAX_TILES
    requires 1 <= i < |coefficients|
    ensures var (t, p) := Target(i);
      && t < |tiles| && 1 <= p < |tiles[t]| && tiles[t][p] == coefficients[i]
      && forall t', p' :: 0 <= t' < |tiles| && 1 <= p' < |tiles[t']| && Source(t', p') == i ==> (t', p') == (t, p)
  {
    PlaceBounds(coefficients, channels, i);
    SourceOfTarget(i);
    forall t', p' | 0 <= t' < |tiles| && 1 <= p' < |tiles[t']| && Source(t', p') == i
      ensures (t', p') == Target(i)
    {
      TargetOfSource(t', p');
    }
  }

  // ---------- One antenna ----------

  /** `int(x)`, which truncates toward zero. */
  function Truncated(x: real): int {
    if x >= 0.0 then x.Floor else -((-x).Floor)
  }

  lemma TruncatedExactly(x: real, n: int)
    ensures Truncated(x) == n
       <==> if x >= 0.0 then n as real <= x < n as real + 1.0 else n as real - 1.0 < x <= n as real
  {
  }

  /** Where an antenna is: the tile, and the antenna within it. A negative tile number counts from the last tile. */
  function AntennaPlace(antenna: int, tileCount: nat): Option<(nat, nat)> {
    var tile := antenna / ANTENNAS_PER_TILE;
    if 0 <= tile < tileCount then Some((tile, antenna % ANTENNAS_PER_TILE))
    else if tile < 0 && tile + tileCount >= 0 then Some((tile + tileCount, antenna % ANTENNAS_PER_TILE))
    else None
  }

  /** Every antenna of every deployed tile has two numbers, one that counts from the first antenna and one from the end,
      and no other number is accepted. */
  lemma TwoNumbersExactly(antenna: int, tileCount: nat, t: nat, k: nat)
    requires k < ANTENNAS_PER_TILE
    ensures AntennaPlace(antenna, tileCount) == Some((t, k))
       <==> && t < tileCount
            && (|| antenna == ANTENNAS_PER_TILE * t + k
                || antenna == ANTENNAS_PER_TILE * t + k - ANTENNAS_PER_TILE * tileCount)
  {
    var tile, within := antenna / ANTENNAS_PER_TILE, antenna % ANTENNAS_PER_TILE;
    assert antenna == 16 * tile + within && 0 <= within < 16;
  }

  /** An empty list raises IndexError, and so does a tile that is not deployed. */
  method LoadForAntenna(coefficients: seq<real>, tileCount: nat) returns (result: Result<(nat, seq<real>)>)
    ensures result.Rejected?
       <==> coefficients == [] || AntennaPlace(Truncated(coefficients[0]), tileCount) == None
    ensures result.Rejected? ==> result.error == IndexError
    ensures result.Loaded? ==>
              && |result.value.1| == |coefficients|
              && AntennaPlace(Truncated(coefficients[0]), tileCount)
                   == Some((result.value.0, Truncated(result.value.1[0])))
              && result.value.1[0] == Truncated(result.value.1[0]) as real
              && result.value.1[1..] == coefficients[1..]
  {
    if |coefficients| == 0 {
      return Rejected(IndexError);
    }
    var antenna := Truncated(coefficients[0]);
    var tile := antenna / ANTENNAS_PER_TILE;
    if tile < 0 {
      tile := tile + tileCount;
    }
    if tile < 0 || tile >= tileCount {
      return Rejected(IndexError);
    }
    var coefs := coefficients[0 := (antenna % ANTENNAS_PER_TILE) as real];
    return Loaded((tile, coefs));
  }

  /** Both ways of loading agree on where an antenna is: value `k` of antenna `a` in channel `c` is loaded into the tile
      that the single-antenna load names, among the values of the antenna number that it gives. */
  lemma LoadsAgree(tileCount: nat, c: nat, a: nat, k: nat, t: nat, within: nat)
    requires a < 256 && k < 8
    requires AntennaPlace(a, tileCount) == Some((t, within))
    ensures Target(1 + 2048 * c + 8 * a + k) == (t, 1 + 128 * c + 8 * within + k)
  {
    TwoNumbersExactly(a, tileCount, t, within);
    StationDigits(c, a, k);
  }
}
