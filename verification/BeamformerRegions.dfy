/** The frequency regions of a station beamformer: their expansion into blocks of 8 channels, the table of 48 blocks,
    and the flat list sent to the tiles. */
module BeamformerRegions {
  import opened Basics

  datatype Region = Region(
    start: int, size: int, beam: int, subarray: int, logical: int, subarrayBeam: int, substation: int, aperture: int)

  /** An entry of the beamformer table: 8 channels from `channel` on. */
  datatype Entry = Entry(
    channel: int, beam: int, subarray: int, logical: int, subarrayBeam: int, substation: int, aperture: int)

  const TABLE_SIZE := 48
  const MAX_CHANNELS := 384
  const NULL_ENTRY := Entry(0, 0, 0, 0, 0, 0, 0)
  /** Sent when the table holds no valid entry. */
  const DEFAULT_ENTRY := Entry(128, 0, 0, 0, 0, 0, 0)

  datatype Error =
    | InsufficientParameters | TooManyRegions | IncompleteRegion
    | OddStartChannel | BadRegionSize | BadBeam | TooManyChannels
    | IndexError

  datatype Result = Sent(flat: seq<int>) | Rejected(error: Error)

  // ---------- What a list of regions means ----------

  /** The assignment of one physical channel, `k` channels into a region. */
  function ChannelOf(r: Region, k: nat): Entry {
    Entry(r.start + k, r.beam, r.subarray, r.logical + k, r.subarrayBeam, r.substation, r.aperture)
  }

  function Channels(r: Region): seq<Entry> {
    if r.size <= 0 then [] else seq(r.size, k requires 0 <= k => ChannelOf(r, k))
  }

  /** Channel by channel, in order, what is beamformed and to whom. */
  function Meaning(regions: seq<Region>): seq<Entry> {
    if regions == [] then [] else Meaning(regions[..|regions| - 1]) + Channels(regions[|regions| - 1])
  }

  // ---------- Flat lists ----------

  function RegionAt(flat: seq<int>, i: nat): Region
    requires 8 * i + 8 <= |flat|
  {
    Region(flat[8 * i], flat[8 * i + 1], flat[8 * i + 2], flat[8 * i + 3], flat[8 * i + 4], flat[8 * i + 5],
           flat[8 * i + 6], flat[8 * i + 7])
  }

  function Decode(flat: seq<int>): seq<Region> {
    seq(|flat| / 8, i requires 0 <= i < |flat| / 8 => RegionAt(flat, i))
  }

  function RegionOf(e: Entry): Region {
    Region(e.channel, 8, e.beam, e.subarray, e.logical, e.subarrayBeam, e.substation, e.aperture)
  }

  function RegionsOf(entries: seq<Entry>): seq<Region> {
    seq(|entries|, i requires 0 <= i < |entries| => RegionOf(entries[i]))
  }

  function Encode(entries: seq<Entry>): seq<int> {
    if entries == [] then []
    else
      var e := entries[|entries| - 1];
      Encode(entries[..|entries| - 1])
      + [e.channel, 8, e.beam, e.subarray, e.logical, e.subarrayBeam, e.substation, e.aperture]
  }

  /** Decoding the flat list gives back the entries, each as a region of 8 channels. */
  lemma {:induction false} DecodeEncode(entries: seq<Entry>)
    ensures |Encode(entries)| == 8 * |entries|
    ensures Decode(Encode(entries)) == RegionsOf(entries)
  {
    if entries != [] {
      var front, last := entries[..|entries| - 1], entries[|entries| - 1];
      DecodeEncode(front);
      forall i | 0 <= i < |entries|
        ensures RegionAt(Encode(entries), i) == RegionOf(entries[i])
      {
        if i < |front| {
          assert RegionAt(Encode(entries), i) == RegionAt(Encode(front), i);
          assert Decode(Encode(front))[i] == RegionOf(front[i]);
        }
      }
    }
  }

  // ---------- Validation and expansion ----------

  function Total(regions: seq<Region>): int {
    if regions == [] then 0 else Total(regions[..|regions| - 1]) + regions[|regions| - 1].size
  }

  /** What is wrong with a region that brings the number of channels to `total`. */
  function CheckRegion(r: Region, total: int): seq<Error> {
    if r.start % 2 != 0 then [OddStartChannel]
    else if r.size % 8 != 0 || r.size == 0 then [BadRegionSize]
    else if r.beam < 0 || r.beam > 47 then [BadBeam]
    else if total > MAX_CHANNELS then [TooManyChannels]
    else []
  }

  /** The first thing wrong with the regions, if anything is. */
  function Check(regions: seq<Region>): (errors: seq<Error>)
    ensures |errors| <= 1 && IndexError !in errors
  {
    if regions == [] then []
    else
      var errors := Check(regions[..|regions| - 1]);
      if errors != [] then errors else CheckRegion(regions[|regions| - 1], Total(regions))
  }

  // ---------- Validation, number by number ----------

  /** The sizes of the first `n` regions of a list, together. */
  function SizesTo(argin: seq<int>, n: nat): int
    requires 8 * n <= |argin|
  {
    if n == 0 then 0 else SizesTo(argin, n - 1) + argin[8 * n - 7]
  }

  /** Region `i` starts at an even channel, has a size that is a multiple of 8 and not 0, a beam from 0 to 47, and
      brings the channels to no more than 384. */
  predicate IsFine(argin: seq<int>, i: nat)
    requires 8 * i + 8 <= |argin|
  {
    && argin[8 * i] % 2 == 0
    && argin[8 * i + 1] % 8 == 0 && argin[8 * i + 1] != 0
    && 0 <= argin[8 * i + 2] <= 47
    && SizesTo(argin, i + 1) <= 384
  }

  /** The first of these that is not so. */
  function FaultOf(argin: seq<int>, i: nat): Error
    requires 8 * i + 8 <= |argin|
  {
    if argin[8 * i] % 2 != 0 then OddStartChannel
    else if argin[8 * i + 1] % 8 != 0 || argin[8 * i + 1] == 0 then BadRegionSize
    else if argin[8 * i + 2] < 0 || argin[8 * i + 2] > 47 then BadBeam
    else TooManyChannels
  }

  /** One to 48 whole regions, all of them fine. */
  predicate IsAccepted(argin: seq<int>) {
    && 8 <= |argin| <= 384 && |argin| % 8 == 0
    && forall i :: 0 <= i < |argin| / 8 ==> IsFine(argin, i)
  }

  /** Region `i` is the first that is not fine. */
  ghost predicate FailsFirst(argin: seq<int>, i: nat) {
    i < |argin| / 8 && !IsFine(argin, i) && forall j :: 0 <= j < i ==> IsFine(argin, j)
  }

  lemma {:induction false} TotalIs(argin: seq<int>, n: nat)
    requires n <= |argin| / 8
    ensures Total(Decode(argin)[..n]) == SizesTo(argin, n)
  {
    if n > 0 {
      TotalIs(argin, n - 1);
      assert Decode(argin)[..n][..n - 1] == Decode(argin)[..n - 1];
    }
  }

  lemma CheckRegionIs(argin: seq<int>, i: nat)
    requires i < |argin| / 8
    ensures CheckRegion(RegionAt(argin, i), SizesTo(argin, i + 1))
         == if IsFine(argin, i) then [] else [FaultOf(argin, i)]
  {
  }

  lemma CheckMore(argin: seq<int>, n: nat)
    requires n < |argin| / 8
    ensures var before := Check(Decode(argin)[..n]);
      Check(Decode(argin)[..n + 1])
      == if before != [] then before else if IsFine(argin, n) then [] else [FaultOf(argin, n)]
  {
    var regions := Decode(argin)[..n + 1];
    TotalIs(argin, n + 1);
    CheckRegionIs(argin, n);
    assert regions[..n] == Decode(argin)[..n] && regions[n] == RegionAt(argin, n);
  }

  lemma {:induction false} CheckIs(argin: seq<int>, n: nat)
    requires n <= |argin| / 8
    ensures Check(Decode(argin)[..n]) == [] <==> forall j :: 0 <= j < n ==> IsFine(argin, j)
    ensures forall i: nat :: i < n && FailsFirst(argin, i) ==> Check(Decode(argin)[..n]) == [FaultOf(argin, i)]
  {
    if n > 0 {
      CheckIs(argin, n - 1);
      CheckMore(argin, n - 1);
    }
  }

  /** What the loop over the regions finds wrong, number by number. */
  lemma CheckedExactly(argin: seq<int>)
    requires 8 <= |argin| <= 384 && |argin| % 8 == 0
    ensures Check(Decode(argin)) == [] <==> IsAccepted(argin)
    ensures forall i: nat :: FailsFirst(argin, i) ==> Check(Decode(argin)) == [FaultOf(argin, i)]
  {
    CheckIs(argin, |argin| / 8);
    assert Decode(argin)[..|argin| / 8] == Decode(argin);
  }

  /** The entry of the block `8 * j` channels into a region. */
  function BlockOf(r: Region, j: nat): Entry {
    ChannelOf(r, 8 * j)
  }

  function Blocks(r: Region): seq<Entry> {
    if r.size <= 0 then [] else seq(r.size / 8, j requires 0 <= j => BlockOf(r, j))
  }

  function Expand(regions: seq<Region>): seq<Entry> {
    if regions == [] then [] else Expand(regions[..|regions| - 1]) + Blocks(regions[|regions| - 1])
  }

  lemma MeaningOfAppend(p: seq<Region>, r: Region)
    ensures Meaning(p + [r]) == Meaning(p) + Channels(r)
  {
    assert (p + [r])[..|p|] == p;
  }

  lemma {:induction false} MeaningJoins(p: seq<Region>, q: seq<Region>)
    ensures Meaning(p + q) == Meaning(p) + Meaning(q)
    decreases |q|
  {
    if q == [] {
      assert p + q == p;
    } else {
      var front, last := q[..|q| - 1], q[|q| - 1];
      MeaningJoins(p, front);
      AppendJoined(p, front, last);
      assert q == front + [last];
    }
  }

  lemma AppendJoined(p: seq<Region>, front: seq<Region>, last: Region)
    requires Meaning(p + front) == Meaning(p) + Meaning(front)
    ensures Meaning(p + (front + [last])) == Meaning(p) + Meaning(front + [last])
  {
    MeaningOfAppend(p + front, last);
    MeaningOfAppend(front, last);
    ConcatAssociates(p, front, [last]);
    ConcatAssociates(Meaning(p), Meaning(front), Channels(last));
  }

  /** The first `8 * n` channels of a region are those of its first `n` blocks. */
  lemma {:induction false} BlocksMean(r: Region, n: nat)
    requires 8 * n <= r.size
    ensures Meaning(RegionsOf(Blocks(r)[..n])) == Channels(r)[..8 * n]
  {
    if n > 0 {
      var front := RegionsOf(Blocks(r)[..n - 1]);
      BlocksMean(r, n - 1);
      assert RegionsOf(Blocks(r)[..n])[..n - 1] == front;
      var last := RegionsOf(Blocks(r)[..n])[n - 1];
      assert last == RegionOf(BlockOf(r, n - 1));
      assert Channels(last) == Channels(r)[8 * (n - 1)..8 * n];
    }
  }

  ghost predicate WholeBlocks(regions: seq<Region>) {
    forall r :: r in regions ==> r.size % 8 == 0
  }

  /** Expansion preserves the meaning of the regions. */
  lemma {:induction false} ExpandPreservesMeaning(regions: seq<Region>)
    requires WholeBlocks(regions)
    ensures Meaning(RegionsOf(Expand(regions))) == Meaning(regions)
  {
    if regions != [] {
      var front, last := regions[..|regions| - 1], regions[|regions| - 1];
      ExpandPreservesMeaning(front);
      BlocksPreserveMeaning(last);
      RegionsOfJoin(Expand(front), Blocks(last));
      MeaningJoins(RegionsOf(Expand(front)), RegionsOf(Blocks(last)));
    }
  }

  lemma BlocksPreserveMeaning(r: Region)
    requires r.size % 8 == 0
    ensures Meaning(RegionsOf(Blocks(r))) == Channels(r)
  {
    if r.size > 0 {
      BlocksMean(r, r.size / 8);
      assert Blocks(r)[..r.size / 8] == Blocks(r);
      assert Channels(r)[..r.size] == Channels(r);
    }
  }

  lemma RegionsOfJoin(p: seq<Entry>, q: seq<Entry>)
    ensures RegionsOf(p + q) == RegionsOf(p) + RegionsOf(q)
  {
  }

  // ---------- The table ----------

  /** An entry that the tiles ignore. */
  predicate Null(e: Entry) {
    e.channel == 0 && e.subarray == 0
  }

  predicate AllNull(entries: seq<Entry>) {
    forall i :: 0 <= i < |entries| ==> Null(entries[i])
  }

  /** The entries up to the last valid one. */
  function Trim(entries: seq<Entry>): seq<Entry> {
    if entries == [] || !Null(entries[|entries| - 1]) then entries else Trim(entries[..|entries| - 1])
  }

  /** The entries sent for a table that holds `entries` and then null entries. */
  function SentEntries(entries: seq<Entry>): seq<Entry> {
    if AllNull(entries) then [DEFAULT_ENTRY] else Trim(entries)
  }

  lemma {:induction false} TrimShortens(entries: seq<Entry>)
    ensures |Trim(entries)| <= |entries| && Trim(entries) == entries[..|Trim(entries)|]
    ensures Trim(entries) != [] ==> !Null(Trim(entries)[|Trim(entries)| - 1])
    ensures forall i :: |Trim(entries)| <= i < |entries| ==> Null(entries[i])
  {
    if entries != [] && Null(entries[|entries| - 1]) {
      TrimShortens(entries[..|entries| - 1]);
    }
  }

  /** A table that holds `entries` and then null entries. */
  function Padded(entries: seq<Entry>): seq<Entry>
    requires |entries| <= TABLE_SIZE
  {
    entries + seq(TABLE_SIZE - |entries|, _ => NULL_ENTRY)
  }

  /** A table without a valid entry gets the default one. */
  function WithDefault(table: seq<Entry>): seq<Entry>
    requires |table| == TABLE_SIZE
  {
    if AllNull(table) then table[0 := DEFAULT_ENTRY] else table
  }

  /** What the table holds once some entries have been set; entries that do not fit are lost. */
  function KeptTable(entries: seq<Entry>): seq<Entry> {
    if |entries| > TABLE_SIZE then entries[..TABLE_SIZE] else WithDefault(Padded(entries))
  }

  /** Null entries at the end of the table do not matter. */
  lemma {:induction false} PaddingIsIgnored(entries: seq<Entry>, n: nat)
    ensures SentEntries(entries + seq(n, _ => NULL_ENTRY)) == SentEntries(entries)
  {
    var padding := seq(n, _ => NULL_ENTRY);
    if n == 0 {
      assert entries + padding == entries;
    } else {
      var shorter := seq(n - 1, _ => NULL_ENTRY);
      PaddingIsIgnored(entries, n - 1);
      assert (entries + padding)[..|entries| + n - 1] == entries + shorter;
      assert (entries + padding)[|entries| + n - 1] == NULL_ENTRY;
      assert forall i :: 0 <= i < |entries + shorter| ==> (entries + padding)[i] == (entries + shorter)[i];
    }
  }

  const NULL_REGION := Region(0, 0, 0, 0, 0, 0, 0, 0)

  function PaddedRegions(regions: seq<Region>): seq<Region>
    requires |regions| <= TABLE_SIZE
  {
    regions + seq(TABLE_SIZE - |regions|, _ => NULL_REGION)
  }

  lemma {:induction false} NullRegionsMeanNothing(n: nat)
    ensures Meaning(seq(n, _ => NULL_REGION)) == []
  {
    if n > 0 {
      NullRegionsMeanNothing(n - 1);
      assert seq(n, _ => NULL_REGION)[..n - 1] == seq(n - 1, _ => NULL_REGION);
    }
  }

  /** The padded rows that are kept mean the same as the regions given. */
  lemma PaddedRegionsMeanTheSame(regions: seq<Region>)
    requires |regions| <= TABLE_SIZE
    ensures Meaning(PaddedRegions(regions)) == Meaning(regions)
  {
    MeaningJoins(regions, seq(TABLE_SIZE - |regions|, _ => NULL_REGION));
    NullRegionsMeanNothing(TABLE_SIZE - |regions|);
  }

  lemma {:induction false} MeaningLength(entries: seq<Entry>)
    ensures |Meaning(RegionsOf(entries))| == 8 * |entries|
    ensures entries != [] ==> Meaning(RegionsOf(entries))[0] == entries[0]
  {
    if entries != [] {
      var front := entries[..|entries| - 1];
      MeaningLength(front);
      assert RegionsOf(entries)[..|entries| - 1] == RegionsOf(front);
      assert Channels(RegionOf(entries[0]))[0] == entries[0];
    }
  }

  /** What is sent means the same as the entries if and only if there are entries and the last one is not ignored. */
  lemma SentMeansTheSameExactly(entries: seq<Entry>)
    ensures Meaning(RegionsOf(SentEntries(entries))) == Meaning(RegionsOf(entries))
       <==> entries != [] && !Null(entries[|entries| - 1])
  {
    TrimShortens(entries);
    MeaningLength(entries);
    MeaningLength(SentEntries(entries));
    if AllNull(entries) {
      if |entries| == 1 {
        assert entries[0].channel == 0;
      }
    } else if Null(entries[|entries| - 1]) {
      assert |Trim(entries)| < |entries|;
    }
  }

  /** End to end: for accepted regions that fit the table, the flat list sent to the tiles describes, channel by
      channel, the regions given, if and only if their last block is not one that the tiles ignore. */
  lemma RegionsReachTilesExactly(regions: seq<Region>)
    requires Check(regions) == []
    ensures Meaning(Decode(Encode(SentEntries(Expand(regions))))) == Meaning(regions)
       <==> Expand(regions) != [] && !Null(Expand(regions)[|Expand(regions)| - 1])
  {
    CheckedAreWhole(regions);
    DecodeEncode(SentEntries(Expand(regions)));
    ExpandPreservesMeaning(regions);
    SentMeansTheSameExactly(Expand(regions));
  }

  /** Accepted regions of which only the first reaches the tiles: the second is at channel 0 and of no subarray. */
  lemma TrailingNullIsDropped()
    ensures var regions := [Region(8, 8, 0, 1, 0, 0, 0, 0), Region(0, 8, 0, 0, 8, 0, 0, 0)];
      && Check(regions) == []
      && Decode(Encode(SentEntries(Expand(regions)))) == regions[..1]
      && Meaning(regions[..1]) != Meaning(regions)
  {
    var a, b := Region(8, 8, 0, 1, 0, 0, 0, 0), Region(0, 8, 0, 0, 8, 0, 0, 0);
    var first, second := BlockOf(a, 0), BlockOf(b, 0);
    assert [a, b][..1] == [a] && [a][..0] == [];
    assert Total([a]) == 8 && Total([a, b]) == 16 && Check([a]) == [];
    assert Blocks(a) == [first] && Blocks(b) == [second];
    assert Expand([a]) == [first] && Expand([a, b]) == [first, second];
    assert [first, second][..1] == [first];
    assert Trim([first, second]) == [first] && !AllNull([first, second]) by {
      assert !Null([first, second][0]);
    }
    DecodeEncode([first]);
    assert RegionsOf([first]) == [a];
    assert |Meaning([a])| == 8 && |Meaning([a, b])| == 16;
  }

  lemma {:induction false} CheckedAreWhole(regions: seq<Region>)
    requires Check(regions) == []
    ensures WholeBlocks(regions)
    ensures Total(regions) <= MAX_CHANNELS
  {
    if regions != [] {
      CheckedAreWhole(regions[..|regions| - 1]);
    }
  }

  /** The number of channels in regions of positive size. */
  function PositiveTotal(regions: seq<Region>): (n: nat) {
    if regions == [] then 0
    else
      var size := regions[|regions| - 1].size;
      PositiveTotal(regions[..|regions| - 1]) + if size > 0 then size else 0
  }

  /** Accepted regions fit the table of 48 blocks if and only if those of positive size hold at most 384 channels. */
  lemma FitsExactly(regions: seq<Region>)
    requires Check(regions) == []
    ensures |Expand(regions)| <= TABLE_SIZE <==> PositiveTotal(regions) <= MAX_CHANNELS
  {
    CheckedAreWhole(regions);
    CountBlocks(regions);
  }

  lemma {:induction false} CountBlocks(regions: seq<Region>)
    requires WholeBlocks(regions)
    ensures 8 * |Expand(regions)| == PositiveTotal(regions)
  {
    if regions != [] {
      CountBlocks(regions[..|regions| - 1]);
    }
  }

  /** Regions of positive size that are accepted always fit. */
  lemma {:induction false} PositiveRegionsFit(regions: seq<Region>)
    requires Check(regions) == [] && forall r :: r in regions ==> r.size > 0
    ensures PositiveTotal(regions) == Total(regions) && |Expand(regions)| <= TABLE_SIZE
  {
    if regions != [] {
      PositiveRegionsFit(regions[..|regions| - 1]);
    }
    CheckedAreWhole(regions);
    CountBlocks(regions);
  }

  /** The validation does not reject negative sizes, and with one of those accepted regions can overflow the table. */
  lemma NegativeSizeOverflows()
    ensures var regions :=
        [Region(0, -8, 0, 1, 0, 0, 0, 0), Region(0, 384, 0, 1, 0, 0, 0, 0), Region(400, 8, 0, 1, 0, 0, 0, 0)];
      Check(regions) == [] && |Expand(regions)| > TABLE_SIZE
  {
    var a, b, c := Region(0, -8, 0, 1, 0, 0, 0, 0), Region(0, 384, 0, 1, 0, 0, 0, 0), Region(400, 8, 0, 1, 0, 0, 0, 0);
    assert [a, b, c][..2] == [a, b] && [a, b][..1] == [a] && [a][..0] == [];
    assert Total([a]) == -8 && Total([a, b]) == 376 && Total([a, b, c]) == 384;
    assert Check([a]) == [] && Check([a, b]) == [];
    assert |Expand([a])| == 0 && |Expand([a, b])| == 48 && |Expand([a, b, c])| == 49;
  }

  // ---------- The station ----------

  class Station {
    const desiredTable: array<Entry>
    /** The regions as they were last given, padded to 48 rows. */
    var beamformerRegions: seq<Region>

    constructor ()
      ensures desiredTable.Length == TABLE_SIZE && fresh(desiredTable)
      ensures beamformerRegions == PaddedRegions([])
    {
      beamformerRegions := PaddedRegions([]);
      desiredTable := new Entry[TABLE_SIZE](i => if i == 0 then DEFAULT_ENTRY else NULL_ENTRY);
    }

    /** Whatever the table held before, what is sent depends on the regions alone. */
    method SetBeamFormerRegions(argin: seq<int>) returns (result: Result)
      requires desiredTable.Length == TABLE_SIZE
      modifies desiredTable, this`beamformerRegions
      ensures |argin| < 8 ==> result == Rejected(InsufficientParameters)
      ensures |argin| > 8 * TABLE_SIZE ==> result == Rejected(TooManyRegions)
      ensures 8 <= |argin| <= 8 * TABLE_SIZE && |argin| % 8 != 0 ==> result == Rejected(IncompleteRegion)
      ensures 8 <= |argin| <= 8 * TABLE_SIZE && |argin| % 8 == 0 ==>
        forall i: nat :: FailsFirst(argin, i) ==> result == Rejected(FaultOf(argin, i))
      ensures IsAccepted(argin) <==> result.Sent? || result == Rejected(IndexError)
      ensures IsAccepted(argin) ==>
        var table := Expand(Decode(argin));
        result == if |table| > TABLE_SIZE then Rejected(IndexError) else Sent(Encode(SentEntries(table)))
      ensures IsAccepted(argin) ==> desiredTable[..] == KeptTable(Expand(Decode(argin)))
      ensures IsAccepted(argin) ==> beamformerRegions == PaddedRegions(Decode(argin))
      ensures !IsAccepted(argin) ==>
                desiredTable[..] == old(desiredTable[..]) && beamformerRegions == old(beamformerRegions)
    {
      if |argin| < 8 {
        return Rejected(InsufficientParameters);
      }
      if |argin| > 48 * 8 {
        return Rejected(TooManyRegions);
      }
      if |argin| % 8 != 0 {
        return Rejected(IncompleteRegion);
      }
      CheckedExactly(argin);
      var table, error := ExpandRegions(argin);
      if error != [] {
        return Rejected(error[0]);
      }
      beamformerRegions := PaddedRegions(Decode(argin));
      result := SetBeamformerTable(table);
    }

    /** The loop over the regions: the table they expand to, or the first error. */
    static method ExpandRegions(argin: seq<int>) returns (table: seq<Entry>, error: seq<Error>)
      ensures error == Check(Decode(argin))
      ensures error == [] ==> table == Expand(Decode(argin))
    {
      ghost var regions := Decode(argin);
      var totalChan := 0;
      table, error := [], [];
      for i := 0 to |argin| / 8
        invariant error == Check(regions[..i]) == [] && totalChan == Total(regions[..i])
        invariant table == Expand(regions[..i])
      {
        assert regions[..i + 1][..i] == regions[..i];
        PrefixDecides(regions, i + 1);
        var region := RegionAt(argin, i);
        totalChan := totalChan + region.size;
        error := RegionError(region, totalChan);
        if error != [] {
          return;
        }
        var blocks := BlocksOfRegion(region);
        table := table + blocks;
      }
      assert regions[..|argin| / 8] == regions;
    }

    /** The checks on one region, in order; `total` includes its size. */
    static method RegionError(region: Region, total: int) returns (error: seq<Error>)
      ensures error == CheckRegion(region, total)
    {
      if region.start % 2 != 0 {
        return [OddStartChannel];
      }
      if region.size % 8 != 0 || region.size == 0 {
        return [BadRegionSize];
      }
      if region.beam < 0 || region.beam > 47 {
        return [BadBeam];
      }
      if total > 384 {
        return [TooManyChannels];
      }
      return [];
    }

    /** The inner loop over the blocks of a region. */
    static method BlocksOfRegion(region: Region) returns (blocks: seq<Entry>)
      ensures region.size % 8 == 0 ==> blocks == Blocks(region)
    {
      blocks := [];
      var logical := region.logical;
      var channel := region.start;
      while channel < region.start + region.size
        invariant channel == region.start + 8 * |blocks| && logical == region.logical + 8 * |blocks|
        invariant region.size % 8 == 0 ==> |blocks| == 0 || 8 * |blocks| <= region.size
        invariant forall j :: 0 <= j < |blocks| ==> blocks[j] == BlockOf(region, j)
        decreases region.start + region.size - channel
      {
        blocks := blocks
          + [Entry(channel, region.beam, region.subarray, logical, region.subarrayBeam, region.substation,
                   region.aperture)];
        logical := logical + 8;
        channel := channel + 8;
      }
    }

    /** Storing past the end of the table raises IndexError, after the 48 entries before that are stored. */
    method SetBeamformerTable(table: seq<Entry>) returns (result: Result)
      requires desiredTable.Length == TABLE_SIZE
      modifies desiredTable
      ensures result == if |table| > TABLE_SIZE then Rejected(IndexError) else Sent(Encode(SentEntries(table)))
      ensures desiredTable[..] == KeptTable(table)
    {
      var stored := StoreTable(table);
      if !stored {
        return Rejected(IndexError);
      }
      PaddingIsIgnored(table, TABLE_SIZE - |table|);
      PaddingIsNull(table, TABLE_SIZE - |table|);
      var flat := SendTable();
      return Sent(flat);
    }

    method StoreTable(table: seq<Entry>) returns (stored: bool)
      requires desiredTable.Length == TABLE_SIZE
      modifies desiredTable
      ensures stored == (|table| <= TABLE_SIZE)
      ensures desiredTable[..] == if stored then Padded(table) else table[..TABLE_SIZE]
    {
      for i := 0 to |table|
        invariant i <= TABLE_SIZE && desiredTable[..i] == table[..i]
      {
        if i == TABLE_SIZE {
          return false;
        }
        desiredTable[i] := table[i];
      }
      for i := |table| to 48
        invariant desiredTable[..|table|] == table
        invariant forall k :: |table| <= k < i ==> desiredTable[k] == NULL_ENTRY
      {
        desiredTable[i] := NULL_ENTRY;
      }
      stored := true;
    }

    method SendTable() returns (flat: seq<int>)
      requires desiredTable.Length == TABLE_SIZE
      modifies desiredTable
      ensures flat == Encode(SentEntries(old(desiredTable[..])))
      ensures desiredTable[..] == WithDefault(old(desiredTable[..]))
    {
      if forall i :: 0 <= i < desiredTable.Length ==> Null(desiredTable[i]) {
        desiredTable[0] := DEFAULT_ENTRY;
      }
      ghost var table := desiredTable[..];
      var lastEntry := 0;
      for i := 0 to desiredTable.Length
        invariant lastEntry < desiredTable.Length
        invariant forall k :: lastEntry < k < i ==> Null(table[k])
        invariant lastEntry == 0 || !Null(table[lastEntry])
        invariant lastEntry == 0 && i > 0 && Null(table[0]) ==> forall k :: 0 <= k < i ==> Null(table[k])
      {
        if desiredTable[i].channel != 0 || desiredTable[i].subarray != 0 {
          lastEntry := i;
        }
      }
      flat := [];
      for i := 0 to lastEntry + 1
        invariant flat == Encode(table[..i])
      {
        var e := desiredTable[i];
        assert table[..i + 1][..i] == table[..i];
        flat := flat + [e.channel, 8, e.beam, e.subarray, e.logical, e.subarrayBeam, e.substation, e.aperture];
      }
      TrimIs(table, lastEntry);
    }
  }

  lemma PaddingIsNull(entries: seq<Entry>, n: nat)
    ensures AllNull(entries + seq(n, _ => NULL_ENTRY)) <==> AllNull(entries)
  {
    var all := entries + seq(n, _ => NULL_ENTRY);
    assert forall i :: 0 <= i < |entries| ==> all[i] == entries[i];
  }

  lemma TrimIs(table: seq<Entry>, last: nat)
    requires last < |table| && !Null(table[last]) && forall k :: last < k < |table| ==> Null(table[k])
    ensures Trim(table) == table[..last + 1]
  {
    TrimShortens(table);
  }

  /** The first error in a prefix is the first error in all. */
  lemma {:induction false} PrefixDecides(regions: seq<Region>, n: nat)
    requires n <= |regions|
    ensures Check(regions[..n]) != [] ==> Check(regions) == Check(regions[..n])
    decreases |regions|
  {
    if n < |regions| {
      PrefixDecides(regions[..|regions| - 1], n);
      assert regions[..|regions| - 1][..n] == regions[..n];
    } else {
      assert regions[..n] == regions;
    }
  }
}
