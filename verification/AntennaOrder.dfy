/** Reordering between antenna order and tile order: pointing delays are scattered to the tiles, and bandpass rows are
    gathered from them. */
module AntennaOrder {
  import opened Basics

  const ANTENNAS_PER_TILE := 16
  const ADC_CHANNELS := 32

  /** Where an antenna is connected: the tile, and the ports of its two polarisations. */
  datatype Antenna = Antenna(id: int, tpm: nat, xChannel: nat, yChannel: nat)

  // ---------- Pointing delays ----------

  /** The last antenna, in the order of the mapping, that is connected to a pair of channels of a tile. */
  function LastWriter(mapping: seq<Antenna>, tile: nat, pair: nat): Option<int> {
    if mapping == [] then None
    else
      var a := mapping[|mapping| - 1];
      if a.tpm == tile && a.yChannel / 2 == pair then Some(a.id) else LastWriter(mapping[..|mapping| - 1], tile, pair)
  }

  /** Where the delay of antenna `id` is in a list of `n` elements; its rate is the next one. Antennas are numbered from
      1, and numbers below that count from the end of the list. */
  function DelayIndex(n: nat, id: int): int {
    if id >= 1 then 2 * id - 1 else n + 2 * (id - 1)
  }

  /** With `m` delays in the list, those are held of the antennas numbered from 1 to `m`, and from `1 - m` to 0. */
  lemma HoldsExactly(m: nat, id: int)
    ensures Holds(2 * m + 1, id) <==> 0 < id + m && id <= m
    ensures Holds(2 * m + 1, id) ==> DelayIndex(2 * m + 1, id) == 2 * (if id >= 1 then id else m + id) - 1
  {
  }

  /** The list holds a delay and a rate for the antenna. */
  predicate Holds(n: nat, id: int) {
    1 <= DelayIndex(n, id) < n - 1
  }

  function DelayOf(delays: seq<real>, writer: Option<int>): real {
    if writer.Some? && Holds(|delays|, writer.value) then delays[DelayIndex(|delays|, writer.value)] else 0.0
  }

  function RateOf(delays: seq<real>, writer: Option<int>): real {
    if writer.Some? && Holds(|delays|, writer.value) then delays[DelayIndex(|delays|, writer.value) + 1] else 0.0
  }

  /** The list for a tile: the beam, and delay and rate of every pair of channels, 0 where no antenna is connected. */
  ghost predicate IsScattered(delays: seq<real>, mapping: seq<Antenna>, tile: nat, list: seq<real>) {
    && |list| == 1 + ADC_CHANNELS && delays != [] && list[0] == delays[0]
    && forall pair :: 0 <= pair < ANTENNAS_PER_TILE ==>
         && list[2 * pair + 1] == DelayOf(delays, LastWriter(mapping, tile, pair))
         && list[2 * pair + 2] == RateOf(delays, LastWriter(mapping, tile, pair))
  }

  /** The scatter meets no IndexError: the list has a delay for every antenna, and every antenna on a deployed tile a
      port of that tile. */
  predicate InRange(delays: seq<real>, a: Antenna, tiles: set<nat>) {
    Holds(|delays|, a.id) && (a.tpm in tiles ==> a.yChannel < ADC_CHANNELS)
  }

  /** `None` stands for an exception: an empty list, an odd number of delays and rates, or an index out of range. */
  method CalculateDelaysPerTile(delays: seq<real>, mapping: seq<Antenna>, tiles: set<nat>)
    returns (scattered: Option<map<nat, seq<real>>>)
    ensures scattered.Some?
       <==> |delays| % 2 == 1 && forall a :: a in mapping ==> InRange(delays, a, tiles)
    ensures scattered.Some? ==>
              && scattered.value.Keys == tiles
              && forall tile :: tile in tiles ==> IsScattered(delays, mapping, tile, scattered.value[tile])
  {
    if |delays| == 0 {
      return None;
    }
    var tileDelays := map tile | tile in tiles :: [delays[0]] + seq(ADC_CHANNELS, _ => 0.0);
    if (|delays| - 1) % 2 != 0 {
      return None;
    }
    for i := 0 to |mapping|
      invariant tileDelays.Keys == tiles
      invariant forall a :: a in mapping[..i] ==> InRange(delays, a, tiles)
      invariant forall tile :: tile in tiles ==> IsScattered(delays, mapping[..i], tile, tileDelays[tile])
    {
      var a := mapping[i];
      assert mapping[..i + 1] == mapping[..i] + [a];
      var first := if a.id >= 1 then 2 * (a.id - 1) else |delays| - 1 + 2 * (a.id - 1);
      assert first + 1 == DelayIndex(|delays|, a.id);
      if first < 0 || first + 1 >= |delays| - 1 || (a.tpm in tileDelays && a.yChannel >= ADC_CHANNELS) {
        assert a in mapping;
        return None;
      }
      forall tile | tile in tiles && tile != a.tpm
        ensures IsScattered(delays, mapping[..i + 1], tile, tileDelays[tile])
      {
        OtherTile(delays, mapping[..i], a, tile, tileDelays[tile]);
      }
      if a.tpm in tileDelays {
        OwnTile(delays, mapping[..i], a, tileDelays[a.tpm]);
        tileDelays := tileDelays[a.tpm := Stored(delays, a, tileDelays[a.tpm])];
      }
    }
    assert mapping[..|mapping|] == mapping;
    return Some(tileDelays);
  }

  /** The list of a tile once the delay and rate of one of its antennas are stored. */
  function Stored(delays: seq<real>, a: Antenna, list: seq<real>): seq<real>
    requires Holds(|delays|, a.id) && a.yChannel < ADC_CHANNELS && |list| == 1 + ADC_CHANNELS
  {
    var pair, first := a.yChannel / 2, DelayIndex(|delays|, a.id);
    list[2 * pair + 1 := delays[first]][2 * pair + 2 := delays[first + 1]]
  }

  lemma OwnTile(delays: seq<real>, front: seq<Antenna>, a: Antenna, list: seq<real>)
    requires Holds(|delays|, a.id) && a.yChannel < ADC_CHANNELS && IsScattered(delays, front, a.tpm, list)
    ensures IsScattered(delays, front + [a], a.tpm, Stored(delays, a, list))
  {
    assert (front + [a])[..|front|] == front;
  }

  lemma OtherTile(delays: seq<real>, front: seq<Antenna>, a: Antenna, tile: nat, list: seq<real>)
    requires IsScattered(delays, front, tile, list) && tile != a.tpm
    ensures IsScattered(delays, front + [a], tile, list)
  {
    assert (front + [a])[..|front|] == front;
  }

  /** Distinct antennas on deployed tiles are connected to distinct pairs of channels. */
  ghost predicate Injective(mapping: seq<Antenna>, tiles: set<nat>) {
    forall i, j :: 0 <= i < j < |mapping| && mapping[i].tpm in tiles ==>
      mapping[i].tpm != mapping[j].tpm || mapping[i].yChannel / 2 != mapping[j].yChannel / 2
  }

  /** The antenna found at the place an antenna is connected to is that antenna. */
  ghost predicate Recovers(mapping: seq<Antenna>, tiles: set<nat>) {
    forall a :: a in mapping && a.tpm in tiles ==> LastWriter(mapping, a.tpm, a.yChannel / 2) == Some(a.id)
  }

  ghost predicate DistinctIds(mapping: seq<Antenna>) {
    forall i, j :: 0 <= i < j < |mapping| ==> mapping[i].id != mapping[j].id
  }

  lemma {:induction false} LastWriterIsLast(mapping: seq<Antenna>, tile: nat, pair: nat)
    ensures LastWriter(mapping, tile, pair) == None
       <==> forall j :: 0 <= j < |mapping| ==> !(mapping[j].tpm == tile && mapping[j].yChannel / 2 == pair)
    ensures LastWriter(mapping, tile, pair).Some? ==>
              exists k :: && 0 <= k < |mapping| && mapping[k].tpm == tile && mapping[k].yChannel / 2 == pair
                          && LastWriter(mapping, tile, pair) == Some(mapping[k].id)
                          && forall j :: k < j < |mapping| ==>
                               !(mapping[j].tpm == tile && mapping[j].yChannel / 2 == pair)
  {
    if mapping != [] {
      var front := mapping[..|mapping| - 1];
      LastWriterIsLast(front, tile, pair);
      assert forall j :: 0 <= j < |front| ==> front[j] == mapping[j];
    }
  }

  /** Gathering the delays back from the places the antennas are connected to recovers every antenna's own delay and
      rate if and only if the map is injective on the deployed tiles. */
  lemma RecoversExactly(mapping: seq<Antenna>, tiles: set<nat>)
    requires DistinctIds(mapping)
    ensures Recovers(mapping, tiles) <==> Injective(mapping, tiles)
  {
    if Injective(mapping, tiles) {
      forall a | a in mapping && a.tpm in tiles
        ensures LastWriter(mapping, a.tpm, a.yChannel / 2) == Some(a.id)
      {
        LastWriterIsLast(mapping, a.tpm, a.yChannel / 2);
      }
    } else {
      var i, j :| 0 <= i < j < |mapping| && mapping[i].tpm in tiles && mapping[i].tpm == mapping[j].tpm
                  && mapping[i].yChannel / 2 == mapping[j].yChannel / 2;
      assert mapping[i] in mapping && mapping[j] in mapping;
    }
  }

  /** For an injective map the order of iteration does not matter. */
  lemma OrderDoesNotMatter(mapping: seq<Antenna>, other: seq<Antenna>, tiles: set<nat>, tile: nat, pair: nat)
    requires DistinctIds(mapping) && DistinctIds(other) && Injective(mapping, tiles) && Injective(other, tiles)
    requires (forall a :: a in mapping <==> a in other) && tile in tiles
    ensures LastWriter(mapping, tile, pair) == LastWriter(other, tile, pair)
  {
    RecoversExactly(mapping, tiles);
    RecoversExactly(other, tiles);
    LastWriterIsLast(mapping, tile, pair);
    LastWriterIsLast(other, tile, pair);
  }

  /** End to end: what a tile is sent for an antenna connected to it is that antenna's delay and rate. */
  lemma AntennaGetsItsDelay(delays: seq<real>, mapping: seq<Antenna>, tiles: set<nat>, a: Antenna, list: seq<real>)
    requires DistinctIds(mapping) && Injective(mapping, tiles)
    requires a in mapping && a.tpm in tiles && InRange(delays, a, tiles) && IsScattered(delays, mapping, a.tpm, list)
    ensures list[2 * (a.yChannel / 2) + 1] == delays[DelayIndex(|delays|, a.id)]
    ensures list[2 * (a.yChannel / 2) + 2] == delays[DelayIndex(|delays|, a.id) + 1]
    ensures a.id >= 1 ==> DelayIndex(|delays|, a.id) == 2 * a.id - 1
  {
    RecoversExactly(mapping, tiles);
  }

  // ---------- Bandpasses ----------

  /** The row of an antenna's data in tile and port order. */
  function RowOf(a: Antenna): nat {
    a.tpm * ANTENNAS_PER_TILE + a.xChannel / 2
  }

  /** The row that the reordering reads for antenna number `k + 1`, if that antenna is mapped into the data. */
  function ReadRow(mapping: map<nat, Antenna>, rows: nat, k: nat): Option<nat> {
    if k + 1 in mapping && RowOf(mapping[k + 1]) < rows then Some(RowOf(mapping[k + 1])) else None
  }

  /** How many antennas are handled before one is missing or out of range; the exception ends the loop there. */
  function Handled(mapping: map<nat, Antenna>, rows: nat, k: nat): (n: nat)
    requires k <= rows
    ensures k <= n <= rows
    decreases rows - k
  {
    if k < rows && ReadRow(mapping, rows, k).Some? then Handled(mapping, rows, k + 1) else k
  }

  lemma {:induction false} HandledIsFirstGap(mapping: map<nat, Antenna>, rows: nat, k: nat)
    requires k <= rows
    ensures forall j :: k <= j < Handled(mapping, rows, k) ==> ReadRow(mapping, rows, j).Some?
    ensures Handled(mapping, rows, k) < rows ==> ReadRow(mapping, rows, Handled(mapping, rows, k)) == None
    decreases rows - k
  {
    if k < rows && ReadRow(mapping, rows, k).Some? {
      HandledIsFirstGap(mapping, rows, k + 1);
    }
  }

  /** Row `k` of the result is that of antenna `k + 1`: 16 rows for every tile before its own, and one for every pair of
      ports before its X port. */
  ghost predicate IsRowOf<Row>(mapping: map<nat, Antenna>, data: seq<Row>, row: Row, k: nat) {
    && k + 1 in mapping && 16 * mapping[k + 1].tpm + mapping[k + 1].xChannel / 2 < |data|
    && row == data[16 * mapping[k + 1].tpm + mapping[k + 1].xChannel / 2]
  }

  /** Antenna `k + 1` has a row in the data. */
  predicate HasRow(mapping: map<nat, Antenna>, rows: nat, k: nat) {
    k + 1 in mapping && 16 * mapping[k + 1].tpm + mapping[k + 1].xChannel / 2 < rows
  }

  lemma ReadRowExactly(mapping: map<nat, Antenna>, rows: nat, k: nat)
    ensures ReadRow(mapping, rows, k)
         == if HasRow(mapping, rows, k) then Some(16 * mapping[k + 1].tpm + mapping[k + 1].xChannel / 2) else None
  {
  }

  /** Rows are sequences of equal length; `zero` is a row of zeros. */
  method PortToAntennaOrder<Row>(mapping: map<nat, Antenna>, data: seq<Row>, zero: Row) returns (ordered: seq<Row>)
    ensures mapping == map[] ==> ordered == data
    ensures mapping != map[] ==>
              && |ordered| == |data|
              && (forall k :: 0 <= k < Handled(mapping, |data|, 0) ==> IsRowOf(mapping, data, ordered[k], k))
              && (Handled(mapping, |data|, 0) < |data| ==> !HasRow(mapping, |data|, Handled(mapping, |data|, 0)))
              && forall k :: Handled(mapping, |data|, 0) <= k < |data| ==> ordered[k] == zero
  {
    if mapping == map[] {
      return data;
    }
    ordered := seq(|data|, _ => zero);
    for k := 0 to |data|
      invariant |ordered| == |data| && Handled(mapping, |data|, k) == Handled(mapping, |data|, 0)
      invariant forall j :: 0 <= j < k ==> IsRowOf(mapping, data, ordered[j], j)
      invariant forall j :: k <= j < |data| ==> ordered[j] == zero
    {
      ReadRowExactly(mapping, |data|, k);
      if k + 1 !in mapping || RowOf(mapping[k + 1]) >= |data| {
        assert Handled(mapping, |data|, k) == k;
        return;
      }
      ordered := ordered[k := data[RowOf(mapping[k + 1])]];
    }
  }

  /** Every antenna number up to `rows` is mapped, each to a row of its own. */
  ghost predicate MapsAll(mapping: map<nat, Antenna>, rows: nat) {
    && (forall k :: 0 <= k < rows ==> ReadRow(mapping, rows, k).Some?)
    && forall j, k :: 0 <= j < k < rows ==> ReadRow(mapping, rows, j) != ReadRow(mapping, rows, k)
  }

  /** For such a map nothing is lost: the reordering handles every antenna, and reads every row for exactly one. */
  lemma ReorderIsPermutation(mapping: map<nat, Antenna>, rows: nat, row: nat)
    requires MapsAll(mapping, rows) && row < rows
    ensures Handled(mapping, rows, 0) == rows
    ensures exists k :: 0 <= k < rows && ReadRow(mapping, rows, k) == Some(row)
                        && forall j :: 0 <= j < rows && ReadRow(mapping, rows, j) == Some(row) ==> j == k
  {
    HandledIsFirstGap(mapping, rows, 0);
    var read := seq(rows, k requires 0 <= k < rows => ReadRow(mapping, rows, k).GetOr(0));
    Pigeonhole(read, rows);
    assert row in read;
    var k :| 0 <= k < rows && read[k] == row;
    assert ReadRow(mapping, rows, k) == Some(row);
  }

  /** `n` distinct numbers below `n` are all the numbers below `n`. */
  lemma {:induction false} Pigeonhole(s: seq<nat>, n: nat)
    requires |s| == n && (forall i :: 0 <= i < n ==> s[i] < n)
    requires forall i, j :: 0 <= i < j < n ==> s[i] != s[j]
    ensures forall x :: 0 <= x < n ==> x in s
  {
    DistinctCount(s);
    assert Elements(s) <= Below(n);
    SubsetOfSameSize(Elements(s), Below(n));
    assert forall x :: 0 <= x < n ==> x in Below(n);
  }

  function Elements(s: seq<nat>): (elements: set<nat>)
    ensures forall x :: x in elements <==> x in s
  {
    if s == [] then {}
    else
      assert forall x :: x in s <==> x in s[..|s| - 1] || x == s[|s| - 1];
      Elements(s[..|s| - 1]) + {s[|s| - 1]}
  }

  function Below(n: nat): (below: set<nat>)
    ensures |below| == n && forall x :: x in below <==> 0 <= x < n
  {
    if n == 0 then {} else Below(n - 1) + {n - 1}
  }

  lemma {:induction false} DistinctCount(s: seq<nat>)
    requires forall i, j :: 0 <= i < j < |s| ==> s[i] != s[j]
    ensures |Elements(s)| == |s|
  {
    if s != [] {
      DistinctCount(s[..|s| - 1]);
      assert s[|s| - 1] !in s[..|s| - 1];
    }
  }

  lemma SubsetOfSameSize(a: set<nat>, b: set<nat>)
    requires a <= b && |a| == |b|
    ensures a == b
  {
    assert b == a + (b - a);
  }

  /** The bandpass row of an antenna is the place its pointing delay is sent to, exactly if its two ports are a pair. */
  lemma SamePlaceExactly(a: Antenna)
    requires a.xChannel < ADC_CHANNELS && a.yChannel < ADC_CHANNELS
    ensures (RowOf(a) / ANTENNAS_PER_TILE, RowOf(a) % ANTENNAS_PER_TILE) == (a.tpm, a.yChannel / 2)
       <==> a.xChannel / 2 == a.yChannel / 2
  {
  }
}
