/** What beamformer regions mean and what is sent for them, number by number. */
module BeamformerNumbers {
  import opened Basics
  import opened BeamformerRegions

  /** The element is at the place. */
  ghost predicate Holds<T>(s: seq<T>, place: nat, x: T) {
    place < |s| && s[place] == x
  }

  lemma HoldsInFront<T>(front: seq<T>, back: seq<T>, place: nat, x: T)
    requires Holds(front, place, x)
    ensures Holds(front + back, place, x)
  {
  }

  lemma HoldsInBack<T>(front: seq<T>, back: seq<T>, place: nat, x: T)
    requires Holds(back, place, x)
    ensures Holds(front + back, |front| + place, x)
  {
  }

  // ---------- Meaning ----------

  lemma ChannelAt(r: Region, k: nat)
    requires k < r.size
    ensures Holds(Channels(r), k, ChannelOf(r, k))
  {
  }

  lemma {:induction false} MeaningLong(regions: seq<Region>)
    ensures |Meaning(regions)| == PositiveTotal(regions)
  {
    if regions != [] {
      MeaningLong(regions[..|regions| - 1]);
    }
  }

  lemma {:induction false} SlotHolds(regions: seq<Region>, i: nat, k: nat)
    requires i < |regions| && k < regions[i].size
    ensures Holds(Meaning(regions), PositiveTotal(regions[..i]) + k, ChannelOf(regions[i], k))
    decreases |regions|
  {
    var front, last := regions[..|regions| - 1], regions[|regions| - 1];
    if i < |regions| - 1 {
      SlotHolds(front, i, k);
      assert front[..i] == regions[..i];
      HoldsInFront(Meaning(front), Channels(last), PositiveTotal(regions[..i]) + k, ChannelOf(regions[i], k));
    } else {
      MeaningLong(front);
      ChannelAt(last, k);
      HoldsInBack(Meaning(front), Channels(last), k, ChannelOf(last, k));
    }
  }

  /** Channel `k` of region `i` is in the slot after those of the regions before; there the physical and the logical
      channel have advanced by `k`, and the rest is as the region says. */
  lemma SlotIs(regions: seq<Region>, i: nat, k: nat)
    requires i < |regions| && k < regions[i].size
    ensures var slot, r := PositiveTotal(regions[..i]) + k, regions[i];
      && slot < |Meaning(regions)|
      && Meaning(regions)[slot]
         == Entry(r.start + k, r.beam, r.subarray, r.logical + k, r.subarrayBeam, r.substation, r.aperture)
  {
    SlotHolds(regions, i, k);
  }

  // ---------- The list sent ----------

  lemma BlockAt(r: Region, j: nat)
    requires j < r.size / 8
    ensures Holds(Blocks(r), j, BlockOf(r, j))
  {
  }

  lemma {:induction false} BlockHolds(regions: seq<Region>, i: nat, j: nat)
    requires WholeBlocks(regions) && i < |regions| && j < regions[i].size / 8
    ensures Holds(Expand(regions), PositiveTotal(regions[..i]) / 8 + j, BlockOf(regions[i], j))
    decreases |regions|
  {
    var front, last := regions[..|regions| - 1], regions[|regions| - 1];
    if i < |regions| - 1 {
      BlockHolds(front, i, j);
      assert front[..i] == regions[..i];
      HoldsInFront(Expand(front), Blocks(last), PositiveTotal(regions[..i]) / 8 + j, BlockOf(regions[i], j));
    } else {
      CountBlocks(front);
      BlockAt(last, j);
      HoldsInBack(Expand(front), Blocks(last), j, BlockOf(last, j));
    }
  }

  /** The channels of the first `n` regions of a list. */
  function ChannelsTo(argin: seq<int>, n: nat): (c: nat)
    requires 8 * n <= |argin|
  {
    if n == 0 then 0 else ChannelsTo(argin, n - 1) + if argin[8 * n - 7] > 0 then argin[8 * n - 7] else 0
  }

  lemma {:induction false} ChannelsAre(argin: seq<int>, n: nat)
    requires n <= |argin| / 8
    ensures PositiveTotal(Decode(argin)[..n]) == ChannelsTo(argin, n)
  {
    if n > 0 {
      ChannelsAre(argin, n - 1);
      assert Decode(argin)[..n][..n - 1] == Decode(argin)[..n - 1];
      assert Decode(argin)[n - 1] == RegionAt(argin, n - 1);
    }
  }

  /** The sizes are multiples of 8, as they are in an accepted list. */
  ghost predicate HasWholeBlocks(argin: seq<int>) {
    |argin| % 8 == 0 && forall i :: 0 <= i < |argin| / 8 ==> argin[8 * i + 1] % 8 == 0
  }

  /** Block `j` of region `i`: the physical and the logical channel have advanced by 8 for each block before. */
  function GivenBlock(argin: seq<int>, i: nat, j: nat): Entry
    requires 8 * i + 8 <= |argin|
  {
    Entry(argin[8 * i] + 8 * j, argin[8 * i + 2], argin[8 * i + 3], argin[8 * i + 4] + 8 * j, argin[8 * i + 5],
          argin[8 * i + 6], argin[8 * i + 7])
  }

  lemma GivenBlockIs(argin: seq<int>, i: nat, j: nat)
    requires 8 * i + 8 <= |argin|
    ensures BlockOf(RegionAt(argin, i), j) == GivenBlock(argin, i, j)
  {
  }

  lemma BlockIs(argin: seq<int>, i: nat, j: nat)
    requires HasWholeBlocks(argin) && i < |argin| / 8 && j < argin[8 * i + 1] / 8
    ensures Holds(Expand(Decode(argin)), ChannelsTo(argin, i) / 8 + j, GivenBlock(argin, i, j))
  {
    var regions := Decode(argin);
    forall r | r in regions
      ensures r.size % 8 == 0
    {
      var m :| 0 <= m < |regions| && regions[m] == r;
      assert r.size == argin[8 * m + 1];
    }
    BlockHolds(regions, i, j);
    ChannelsAre(argin, i);
    GivenBlockIs(argin, i, j);
    assert regions[i] == RegionAt(argin, i);
  }

  lemma EncodedAt(entries: seq<Entry>, b: nat)
    requires b < |entries|
    ensures 8 * b + 8 <= |Encode(entries)|
    ensures RegionAt(Encode(entries), b) == RegionOf(entries[b])
  {
    DecodeEncode(entries);
    assert Decode(Encode(entries))[b] == RegionOf(entries[b]);
  }

  lemma SentIsPrefix(entries: seq<Entry>)
    ensures var sent := SentEntries(entries);
      if forall i :: 0 <= i < |entries| ==> entries[i].channel == 0 && entries[i].subarray == 0 then
        sent == [Entry(128, 0, 0, 0, 0, 0, 0)]
      else
        && 0 < |sent| <= |entries| && sent == entries[..|sent|]
        && (sent[|sent| - 1].channel != 0 || sent[|sent| - 1].subarray != 0)
        && forall i :: |sent| <= i < |entries| ==> entries[i].channel == 0 && entries[i].subarray == 0
  {
    TrimShortens(entries);
    if !AllNull(entries) {
      var i :| 0 <= i < |entries| && !Null(entries[i]);
      assert i < |Trim(entries)|;
    }
  }

  /** The eight numbers of an entry, at its place in the list. */
  ghost predicate IsSentAt(flat: seq<int>, b: nat, e: Entry) {
    && 8 * b + 8 <= |flat|
    && flat[8 * b] == e.channel && flat[8 * b + 1] == 8 && flat[8 * b + 2] == e.beam && flat[8 * b + 3] == e.subarray
    && flat[8 * b + 4] == e.logical && flat[8 * b + 5] == e.subarrayBeam && flat[8 * b + 6] == e.substation
    && flat[8 * b + 7] == e.aperture
  }

  lemma EntryIsSent(entries: seq<Entry>, b: nat)
    requires b < |entries|
    ensures IsSentAt(Encode(entries), b, entries[b])
  {
    EncodedAt(entries, b);
  }

  lemma DefaultIs(entries: seq<Entry>)
    requires entries == [Entry(128, 0, 0, 0, 0, 0, 0)]
    ensures Encode(entries) == [128, 8, 0, 0, 0, 0, 0, 0]
  {
    assert entries[..0] == [];
    assert Encode([]) == [];
  }

  /** The block is at its place, or it is at channel 0 of subarray 0 and either behind the end or the default block is
      sent in place of all. */
  ghost predicate IsSentOrNull(flat: seq<int>, b: nat, e: Entry) {
    || IsSentAt(flat, b, e)
    || (e.channel == 0 && e.subarray == 0 && (8 * b >= |flat| || flat == [128, 8, 0, 0, 0, 0, 0, 0]))
  }

  lemma EntryOrNull(table: seq<Entry>, b: nat, e: Entry)
    requires Holds(table, b, e)
    ensures IsSentOrNull(Encode(SentEntries(table)), b, e)
  {
    var sent := SentEntries(table);
    SentIsPrefix(table);
    DecodeEncode(sent);
    if AllNull(table) {
      DefaultIs(sent);
    } else if b < |sent| {
      EntryIsSent(sent, b);
    }
  }

  /** What is sent for a list: the eight numbers of each block of each region, one after the other. Left out are blocks
      at channel 0 of subarray 0 after the last other one; if there are no others, a default block is sent. */
  lemma SentNumbers(argin: seq<int>, i: nat, j: nat)
    requires HasWholeBlocks(argin) && i < |argin| / 8 && j < argin[8 * i + 1] / 8
    ensures IsSentOrNull(Encode(SentEntries(Expand(Decode(argin)))), ChannelsTo(argin, i) / 8 + j,
                         GivenBlock(argin, i, j))
  {
    var b, table := ChannelsTo(argin, i) / 8 + j, Expand(Decode(argin));
    BlockIs(argin, i, j);
    EntryOrNull(table, b, GivenBlock(argin, i, j));
  }

  /** The list sent for a table ends with a block that is not at channel 0 of subarray 0. */
  lemma SentEndsValid(table: seq<Entry>)
    ensures var flat := Encode(SentEntries(table));
      |flat| >= 8 && |flat| % 8 == 0 && (flat[|flat| - 8] != 0 || flat[|flat| - 5] != 0)
  {
    var sent := SentEntries(table);
    SentIsPrefix(table);
    DecodeEncode(sent);
    EntryIsSent(sent, |sent| - 1);
  }
}
