/** The spread of the PPS delays of the synchronised tiles of a station, kept up to date by tile events. */
module PpsDelaySpread {
  import opened Basics

  /** What reaches the station: an attribute event of a tile, or the end of communication. An event of invalid quality
      carries no value; only that of a PPS delay has an effect, and the others count as `OtherAttribute`. */
  datatype Event =
    | PpsDelay(tile: nat, delay: int)
    | InvalidPpsDelay(tile: nat)
    | ProgrammingState(tile: nat, state: TpmStatus)
    | OtherAttribute(tile: nat)
    | StopCommunicating

  const MAX_TILES := 16

  /** The state has dropped below Initialised. */
  predicate Dropped(state: TpmStatus) {
    state != Initialised && state != Synchronised
  }

  /** Events after which the spread is computed again. */
  predicate Fires(e: Event) {
    e.PpsDelay? || e.InvalidPpsDelay? || e.ProgrammingState?
  }

  /** Events that make the delay of tile `i` unknown. */
  predicate Forgets(e: Event, i: nat) {
    match e
    case InvalidPpsDelay(t) => t == i
    case ProgrammingState(t, state) => t == i && Dropped(state)
    case StopCommunicating => true
    case _ => false
  }

  predicate Reports(e: Event, i: nat) {
    e.PpsDelay? && e.tile == i
  }

  // ---------- The history and what it says ----------

  /** The delay of tile `i`, if the last event that bears on it reported one. */
  function LastDelay(h: seq<Event>, i: nat): Option<int> {
    if h == [] then None
    else
      var e := h[|h| - 1];
      if Reports(e, i) then Some(e.delay) else if Forgets(e, i) then None else LastDelay(h[..|h| - 1], i)
  }

  function LastState(h: seq<Event>, i: nat): TpmStatus {
    if h == [] then Unknown
    else
      var e := h[|h| - 1];
      if e.ProgrammingState? && e.tile == i then e.state else LastState(h[..|h| - 1], i)
  }

  /** Event `k` reported delay `v` of tile `i`, and nothing since has reported another, declared it invalid, shown the
      tile below Initialised, or ended communication. */
  ghost predicate FreshAt(h: seq<Event>, i: nat, v: int, k: nat) {
    && k < |h| && h[k] == PpsDelay(i, v)
    && forall j :: k < j < |h| ==> !Reports(h[j], i) && !Forgets(h[j], i)
  }

  lemma FreshEarlier(h: seq<Event>, i: nat, v: int, k: nat)
    requires k < |h| - 1
    ensures FreshAt(h, i, v, k)
       <==> FreshAt(h[..|h| - 1], i, v, k) && !Reports(h[|h| - 1], i) && !Forgets(h[|h| - 1], i)
  {
    var front := h[..|h| - 1];
    assert forall j :: 0 <= j < |front| ==> front[j] == h[j];
  }

  /** A delay counts exactly when it is fresh. */
  lemma {:induction false} LastDelayIsFresh(h: seq<Event>, i: nat, v: int)
    ensures LastDelay(h, i) == Some(v) <==> exists k: nat :: FreshAt(h, i, v, k)
  {
    if h != [] {
      var front := h[..|h| - 1];
      LastDelayIsFresh(front, i, v);
      if exists k: nat :: FreshAt(h, i, v, k) {
        var k: nat :| FreshAt(h, i, v, k);
        if k < |h| - 1 {
          FreshEarlier(h, i, v, k);
        }
      }
      if LastDelay(h, i) == Some(v) {
        if Reports(h[|h| - 1], i) {
          assert FreshAt(h, i, v, |h| - 1);
        } else {
          var k: nat :| FreshAt(front, i, v, k);
          FreshEarlier(h, i, v, k);
        }
      }
    }
  }

  /** The delays of the first `n` tiles that are known and whose tile is Synchronised. */
  function Contributing(h: seq<Event>, n: nat): seq<int> {
    if n == 0 then []
    else
      Contributing(h, n - 1)
      + if LastDelay(h, n - 1).Some? && LastState(h, n - 1) == Synchronised then [LastDelay(h, n - 1).value] else []
  }

  function MaxOf(s: seq<int>): (m: int)
    requires s != []
    ensures m in s && forall k :: 0 <= k < |s| ==> s[k] <= m
  {
    if |s| == 1 then s[0]
    else
      var m := MaxOf(s[1..]);
      if s[0] > m then s[0] else m
  }

  function MinOf(s: seq<int>): (m: int)
    requires s != []
    ensures m in s && forall k :: 0 <= k < |s| ==> m <= s[k]
  {
    if |s| == 1 then s[0]
    else
      var m := MinOf(s[1..]);
      if s[0] < m then s[0] else m
  }

  function SpreadOf(delays: seq<int>): (spread: int) {
    if delays == [] then 0 else MaxOf(delays) - MinOf(delays)
  }

  /** The spread is the largest difference between two of the delays, and 0 if there are none. */
  lemma SpreadIsLargestDifference(delays: seq<int>, spread: int)
    ensures delays == [] ==> SpreadOf(delays) == 0
    ensures delays != [] ==>
              (SpreadOf(delays) == spread
               <==> (forall x, y :: x in delays && y in delays ==> x - y <= spread)
                    && exists x, y :: x in delays && y in delays && x - y == spread)
  {
    if delays != [] {
      var m, n := MaxOf(delays), MinOf(delays);
      assert m in delays && n in delays;
    }
  }

  /** The spread a station of `n` tiles stores after a history: that of the last event that fired. */
  function Stored(h: seq<Event>, n: nat): int {
    if h == [] then 0
    else if Fires(h[|h| - 1]) then SpreadOf(Contributing(h, n))
    else Stored(h[..|h| - 1], n)
  }

  lemma {:induction false} ContributingDependsOn(h: seq<Event>, g: seq<Event>, n: nat)
    requires forall i :: 0 <= i < n ==> LastDelay(h, i) == LastDelay(g, i) && LastState(h, i) == LastState(g, i)
    ensures Contributing(h, n) == Contributing(g, n)
  {
    if n > 0 {
      ContributingDependsOn(h, g, n - 1);
    }
  }

  /** Communication has stopped since the spread was last computed. */
  predicate StoppedSinceFired(h: seq<Event>) {
    h != [] && (h[|h| - 1].StopCommunicating? || (!Fires(h[|h| - 1]) && StoppedSinceFired(h[..|h| - 1])))
  }

  /** After every history, the stored spread is that of the known delays of the Synchronised tiles at that moment if and
      only if communication has not stopped since it was last computed, or it is 0 anyway. */
  lemma {:induction false} StoredIsCurrentExactly(h: seq<Event>, n: nat)
    ensures Stored(h, n) == SpreadOf(Contributing(h, n)) <==> !StoppedSinceFired(h) || Stored(h, n) == 0
    ensures StoppedSinceFired(h) ==> Contributing(h, n) == []
  {
    if h == [] {
      NoneContributes(h, n);
    } else if h[|h| - 1].StopCommunicating? {
      NoneContributes(h, n);
    } else if !Fires(h[|h| - 1]) {
      StoredIsCurrentExactly(h[..|h| - 1], n);
      ContributingDependsOn(h, h[..|h| - 1], n);
    }
  }

  lemma {:induction false} NoneContributes(h: seq<Event>, n: nat)
    requires forall i :: 0 <= i < n ==> LastDelay(h, i) == None
    ensures Contributing(h, n) == []
  {
    if n > 0 {
      NoneContributes(h, n - 1);
    }
  }

  lemma TwoReports(h: seq<Event>)
    requires h == [ProgrammingState(0, Synchronised), ProgrammingState(1, Synchronised)]
    ensures Stored(h + [PpsDelay(0, 5)] + [PpsDelay(1, 7)], 2) == 2
  {
    var h3 := h + [PpsDelay(0, 5)];
    var h4 := h3 + [PpsDelay(1, 7)];
    TwoStates(h);
    AppendEvent(h, PpsDelay(0, 5));
    assert LastDelay(h3, 0) == Some(5) && LastState(h3, 0) == Synchronised && LastState(h3, 1) == Synchronised;
    AppendEvent(h3, PpsDelay(1, 7));
    assert LastDelay(h4, 0) == Some(5) && LastState(h4, 0) == Synchronised;
    assert LastDelay(h4, 1) == Some(7) && LastState(h4, 1) == Synchronised;
    TwoDelays(h4);
    assert h4[|h4| - 1] == PpsDelay(1, 7);
  }

  lemma TwoDelays(h: seq<Event>)
    requires LastDelay(h, 0) == Some(5) && LastState(h, 0) == Synchronised
    requires LastDelay(h, 1) == Some(7) && LastState(h, 1) == Synchronised
    ensures SpreadOf(Contributing(h, 2)) == 2
  {
    assert Contributing(h, 0) == [];
    assert Contributing(h, 1) == [5];
    assert Contributing(h, 2) == [5, 7];
    assert MaxOf([5, 7]) == 7 && MinOf([5, 7]) == 5;
  }

  lemma TwoStates(h: seq<Event>)
    requires h == [ProgrammingState(0, Synchronised), ProgrammingState(1, Synchronised)]
    ensures LastState(h, 0) == Synchronised && LastState(h, 1) == Synchronised
  {
    var first := ProgrammingState(0, Synchronised);
    AppendEvent([], first);
    AppendEvent([] + [first], ProgrammingState(1, Synchronised));
    assert h == [] + [first] + [ProgrammingState(1, Synchronised)];
  }

  /** A history after which the stored spread is not that of the known delays: both tiles are Synchronised and have
      reported, and then communication stops. */
  lemma StopLeavesStaleSpread()
    ensures var h :=
        [ProgrammingState(0, Synchronised), ProgrammingState(1, Synchronised), PpsDelay(0, 5), PpsDelay(1, 7),
         StopCommunicating];
      Stored(h, 2) == 2 && SpreadOf(Contributing(h, 2)) == 0
  {
    var h2 := [ProgrammingState(0, Synchronised), ProgrammingState(1, Synchronised)];
    var h4 := h2 + [PpsDelay(0, 5)] + [PpsDelay(1, 7)];
    TwoReports(h2);
    AppendEvent(h4, StopCommunicating);
    NoneContributes(h4 + [StopCommunicating], 2);
    assert h4 + [StopCommunicating]
        == [ProgrammingState(0, Synchronised), ProgrammingState(1, Synchronised), PpsDelay(0, 5), PpsDelay(1, 7),
            StopCommunicating];
  }

  /** In a run of tile events alone the stored spread is current after every event. */
  lemma StoredIsCurrent(h: seq<Event>, n: nat)
    requires StopCommunicating !in h
    ensures Stored(h, n) == SpreadOf(Contributing(h, n))
  {
    NeverStopped(h);
    StoredIsCurrentExactly(h, n);
  }

  lemma {:induction false} NeverStopped(h: seq<Event>)
    requires StopCommunicating !in h
    ensures !StoppedSinceFired(h)
  {
    if h != [] {
      assert h[|h| - 1] in h;
      NeverStopped(h[..|h| - 1]);
    }
  }

  /** What one more event changes. */
  lemma AppendEvent(h: seq<Event>, e: Event)
    ensures forall i: nat {:trigger LastDelay(h + [e], i)} :: LastDelay(h + [e], i)
              == if Reports(e, i) then Some(e.delay) else if Forgets(e, i) then None else LastDelay(h, i)
    ensures forall i: nat {:trigger LastState(h + [e], i)} :: LastState(h + [e], i)
              == if e.ProgrammingState? && e.tile == i then e.state else LastState(h, i)
    ensures !Fires(e) ==> forall n: nat :: Stored(h + [e], n) == Stored(h, n)
  {
    assert (h + [e])[..|h|] == h;
  }

  // ---------- The spread, told by the events ----------

  /** Tile `i` reported delay `v`, and has since reported no other and declared none invalid, has only shown states
      Initialised and Synchronised, and communication has not stopped. */
  ghost predicate IsKnown(h: seq<Event>, i: nat, v: int) {
    exists k: nat :: k < |h| && h[k] == PpsDelay(i, v) && forall j :: k < j < |h| ==>
      && !(h[j].PpsDelay? && h[j].tile == i) && h[j] != InvalidPpsDelay(i) && h[j] != StopCommunicating
      && !(h[j].ProgrammingState? && h[j].tile == i && h[j].state !in {Initialised, Synchronised})
  }

  /** The last state that tile `i` has shown is Synchronised. */
  ghost predicate IsSynchronised(h: seq<Event>, i: nat) {
    exists k: nat :: k < |h| && h[k] == ProgrammingState(i, Synchronised)
                     && forall j :: k < j < |h| ==> !(h[j].ProgrammingState? && h[j].tile == i)
  }

  lemma KnownIsLast(h: seq<Event>, i: nat, v: int)
    ensures IsKnown(h, i, v) <==> LastDelay(h, i) == Some(v)
  {
    LastDelayIsFresh(h, i, v);
    if IsKnown(h, i, v) {
      var k: nat :| k < |h| && h[k] == PpsDelay(i, v) && forall j :: k < j < |h| ==>
        && !(h[j].PpsDelay? && h[j].tile == i) && h[j] != InvalidPpsDelay(i) && h[j] != StopCommunicating
        && !(h[j].ProgrammingState? && h[j].tile == i && h[j].state !in {Initialised, Synchronised});
      assert FreshAt(h, i, v, k);
    }
    if LastDelay(h, i) == Some(v) {
      var k: nat :| FreshAt(h, i, v, k);
      assert k < |h| && h[k] == PpsDelay(i, v);
    }
  }

  lemma {:induction false} SynchronisedIsLast(h: seq<Event>, i: nat)
    ensures IsSynchronised(h, i) <==> LastState(h, i) == Synchronised
  {
    if h != [] {
      var front, last := h[..|h| - 1], h[|h| - 1];
      SynchronisedIsLast(front, i);
      assert forall j :: 0 <= j < |front| ==> front[j] == h[j];
      if last.ProgrammingState? && last.tile == i {
        assert last == ProgrammingState(i, Synchronised) ==> IsSynchronised(h, i);
      } else if IsSynchronised(front, i) {
        var k: nat :| k < |front| && front[k] == ProgrammingState(i, Synchronised)
                      && forall j :: k < j < |front| ==> !(front[j].ProgrammingState? && front[j].tile == i);
        assert h[k] == ProgrammingState(i, Synchronised);
      }
    }
  }

  /** The delay counts: it is known, and its tile is Synchronised. */
  ghost predicate Counts(h: seq<Event>, i: nat, v: int) {
    IsKnown(h, i, v) && IsSynchronised(h, i)
  }

  lemma CountsIs(h: seq<Event>, i: nat, v: int)
    ensures Counts(h, i, v) <==> LastDelay(h, i) == Some(v) && LastState(h, i) == Synchronised
  {
    KnownIsLast(h, i, v);
    SynchronisedIsLast(h, i);
  }

  /** One of the first `n` tiles has that delay, and it counts. */
  ghost predicate HasDelay(h: seq<Event>, n: nat, v: int) {
    exists i: nat :: i < n && Counts(h, i, v)
  }

  lemma HasDelayMore(h: seq<Event>, n: nat, v: int)
    ensures HasDelay(h, n + 1, v) <==> HasDelay(h, n, v) || Counts(h, n, v)
  {
    if HasDelay(h, n, v) {
      var i: nat :| i < n && Counts(h, i, v);
      assert i < n + 1;
    }
    if Counts(h, n, v) {
      assert n < n + 1;
    }
  }

  lemma {:induction false} ContributingIs(h: seq<Event>, n: nat, v: int)
    ensures v in Contributing(h, n) <==> HasDelay(h, n, v)
  {
    if n > 0 {
      ContributingIs(h, n - 1, v);
      HasDelayMore(h, n - 1, v);
      CountsIs(h, n - 1, v);
    }
  }

  /** Over every run of tile events, the stored spread is the largest difference between two delays that count, and 0 if
      none does. */
  lemma SpreadExactly(h: seq<Event>, n: nat)
    requires StopCommunicating !in h
    ensures forall v, w :: HasDelay(h, n, v) && HasDelay(h, n, w) ==> v - w <= Stored(h, n)
    ensures (exists v :: HasDelay(h, n, v)) ==>
              exists v, w :: HasDelay(h, n, v) && HasDelay(h, n, w) && v - w == Stored(h, n)
    ensures (forall v :: !HasDelay(h, n, v)) ==> Stored(h, n) == 0
  {
    var delays, spread := Contributing(h, n), Stored(h, n);
    StoredIsCurrent(h, n);
    SpreadIsLargestDifference(delays, spread);
    forall v ensures v in delays <==> HasDelay(h, n, v) {
      ContributingIs(h, n, v);
    }
    if delays != [] {
      assert delays[0] in delays;
    }
  }

  /** What a station of `n` tiles keeps of a history. */
  ghost predicate Tracks(h: seq<Event>, n: nat, delays: seq<int>, states: seq<TpmStatus>, reported: set<nat>) {
    && n <= MAX_TILES && |delays| == MAX_TILES && |states| == n
    && forall i :: 0 <= i < n ==>
         && states[i] == LastState(h, i)
         && LastDelay(h, i) == if i in reported then Some(delays[i]) else None
  }

  lemma TracksReport(
    h: seq<Event>, n: nat, delays: seq<int>, states: seq<TpmStatus>, reported: set<nat>, tile: nat, delay: int)
    requires Tracks(h, n, delays, states, reported) && tile < n
    ensures Tracks(h + [PpsDelay(tile, delay)], n, delays[tile := delay], states, reported + {tile})
  {
    AppendEvent(h, PpsDelay(tile, delay));
  }

  lemma TracksInvalid(h: seq<Event>, n: nat, delays: seq<int>, states: seq<TpmStatus>, reported: set<nat>, tile: nat)
    requires Tracks(h, n, delays, states, reported) && tile < n
    ensures Tracks(h + [InvalidPpsDelay(tile)], n, delays, states, reported - {tile})
  {
    AppendEvent(h, InvalidPpsDelay(tile));
  }

  lemma TracksState(
    h: seq<Event>, n: nat, delays: seq<int>, states: seq<TpmStatus>, reported: set<nat>, tile: nat, state: TpmStatus)
    requires Tracks(h, n, delays, states, reported) && tile < n
    ensures Tracks(h + [ProgrammingState(tile, state)], n, delays, states[tile := state],
                   if Dropped(state) then reported - {tile} else reported)
  {
    AppendEvent(h, ProgrammingState(tile, state));
  }

  lemma TracksOther(h: seq<Event>, n: nat, delays: seq<int>, states: seq<TpmStatus>, reported: set<nat>, tile: nat)
    requires Tracks(h, n, delays, states, reported)
    ensures Tracks(h + [OtherAttribute(tile)], n, delays, states, reported)
    ensures Stored(h + [OtherAttribute(tile)], n) == Stored(h, n)
  {
    AppendEvent(h, OtherAttribute(tile));
  }

  // ---------- The station ----------

  class Station {
    const numberOfTiles: nat
    var ppsDelays: seq<int>
    var programmingState: seq<TpmStatus>
    var reported: set<nat>
    var spread: int
    ghost var history: seq<Event>

    ghost predicate Valid()
      reads this
    {
      && Tracks(history, numberOfTiles, ppsDelays, programmingState, reported)
      && spread == Stored(history, numberOfTiles)
    }

    constructor (numberOfTiles: nat)
      requires numberOfTiles <= MAX_TILES
      ensures Valid() && history == [] && this.numberOfTiles == numberOfTiles
    {
      this.numberOfTiles := numberOfTiles;
      ppsDelays := seq(MAX_TILES, _ => 0);
      programmingState := seq(numberOfTiles, _ => Unknown);
      reported, spread, history := {}, 0, [];
    }

    /** The stored spread follows the history: `Valid` ties it to the event just handled. */
    method OnTileAttributeChange(e: Event)
      requires Valid() && !e.StopCommunicating? && e.tile < numberOfTiles
      modifies this
      ensures Valid() && history == old(history) + [e]
    {
      match e {
        case InvalidPpsDelay(tile) => OnInvalidPpsDelay(tile);
        case PpsDelay(tile, delay) => OnPpsDelay(tile, delay);
        case ProgrammingState(tile, state) => OnProgrammingState(tile, state);
        case OtherAttribute(tile) =>
          TracksOther(history, numberOfTiles, ppsDelays, programmingState, reported, tile);
          history := history + [e];
      }
    }

    method OnInvalidPpsDelay(tile: nat)
      requires Valid() && tile < numberOfTiles
      modifies this
      ensures Valid() && history == old(history) + [InvalidPpsDelay(tile)]
    {
      TracksInvalid(history, numberOfTiles, ppsDelays, programmingState, reported, tile);
      history := history + [InvalidPpsDelay(tile)];
      reported := reported - {tile};
      FirePpsDelaySpread();
    }

    method OnPpsDelay(tile: nat, delay: int)
      requires Valid() && tile < numberOfTiles
      modifies this
      ensures Valid() && history == old(history) + [PpsDelay(tile, delay)]
    {
      TracksReport(history, numberOfTiles, ppsDelays, programmingState, reported, tile, delay);
      history := history + [PpsDelay(tile, delay)];
      ppsDelays := ppsDelays[tile := delay];
      reported := reported + {tile};
      FirePpsDelaySpread();
    }

    method OnProgrammingState(tile: nat, state: TpmStatus)
      requires Valid() && tile < numberOfTiles
      modifies this
      ensures Valid() && history == old(history) + [ProgrammingState(tile, state)]
    {
      TracksState(history, numberOfTiles, ppsDelays, programmingState, reported, tile, state);
      history := history + [ProgrammingState(tile, state)];
      programmingState := programmingState[tile := state];
      if state != Initialised && state != Synchronised {
        reported := reported - {tile};
      }
      FirePpsDelaySpread();
    }

    method FirePpsDelaySpread()
      requires Tracks(history, numberOfTiles, ppsDelays, programmingState, reported)
      requires history != [] && Fires(history[|history| - 1])
      modifies this`spread
      ensures spread == Stored(history, numberOfTiles)
    {
      var reportedSync: seq<int> := [];
      for i := 0 to numberOfTiles
        invariant reportedSync == Contributing(history, i)
      {
        if i in reported && programmingState[i] == Synchronised {
          reportedSync := reportedSync + [ppsDelays[i]];
        }
      }
      spread := if reportedSync != [] then MaxOf(reportedSync) - MinOf(reportedSync) else 0;
    }

    method Stop()
      requires Valid()
      modifies this`reported, this`history
      ensures Valid() && history == old(history) + [StopCommunicating]
    {
      history := history + [StopCommunicating];
      assert history[..|history| - 1] == old(history);
      reported := {};
    }
  }
}
