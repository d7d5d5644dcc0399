/** The tables of polled attributes the tile ships with. */
module PolledTables {
  import opened Basics
  import opened TpmPolling
  import opened RequestRuns

  function UnconnectedPolled(): seq<Attribute> {
    [Connect, CheckAlarmStatus]
  }

  function OffPolled(): seq<Attribute> {
    [Connect]
  }

  function UnknownPolled(): seq<Attribute> {
    [Connect, CheckAlarmStatus]
  }

  function UnprogrammedPolled(): seq<Attribute> {
    [
      CheckAlarmStatus, Temperatures, Voltages, Alarms, AdcSysrefCounter, AdcPllStatus,
      AdcSysrefTimingRequirements, Timing]
  }

  function ProgrammedPolled(): seq<Attribute> {
    [
      CheckAlarmStatus, IsProgrammed, PllLocked, Temperatures, Voltages, Currents, Alarms, AdcSysrefCounter,
      AdcPllStatus, AdcSysrefTimingRequirements, Timing, Io, Dsp]
  }

  function InitialisedPolled(): seq<Attribute> {
    BeamPolled() + (ClockPolled() + BoardPolled())
  }

  function BeamPolled(): seq<Attribute> {
    [AdcRms, BeamformerTable, CheckAlarmStatus, FpgaCurrentFrame, FpgaReferenceTime, FpgasTime,
     IsBeamformerRunning, IsProgrammed, PendingDataRequests]
  }

  function ClockPolled(): seq<Attribute> {
    [PhaseTerminalCount, PllLocked, PpsDelay, PpsDelayCorrection, PpsDrift, PreaduLevels, RfiCount,
     TileBeamformerFrame]
  }

  function BoardPolled(): seq<Attribute> {
    [Temperatures, Voltages, Currents, Alarms, AdcSysrefCounter, AdcPllStatus,
     AdcSysrefTimingRequirements, Timing, Io, Dsp, FortyGPacketCount]
  }

  function SynchronisedPolled(): seq<Attribute> {
    InitialisedPolled() + [PointingDelays]
  }

  function Polled(status: TpmStatus): (attributes: seq<Attribute>)
    ensures |attributes| > 0
  {
    match status
    case Unknown => UnknownPolled()
    case Off => OffPolled()
    case Unconnected => UnconnectedPolled()
    case Unprogrammed => UnprogrammedPolled()
    case Programmed => ProgrammedPolled()
    case Initialised => InitialisedPolled()
    case Synchronised => SynchronisedPolled()
  }

  function DefaultTables(): Tables {
    map status: TpmStatus :: Polled(status)
  }

  /** A rank under which every shipped table is listed in ascending order. */
  function Rank(a: Attribute): nat {
    match a
    case Connect => 0 case AdcRms => 1 case BeamformerTable => 2 case CheckAlarmStatus => 3
    case FpgaCurrentFrame => 4 case FpgaReferenceTime => 5 case FpgasTime => 6 case IsBeamformerRunning => 7
    case IsProgrammed => 8 case PendingDataRequests => 9 case PhaseTerminalCount => 10 case PllLocked => 11
    case PpsDelay => 12 case PpsDelayCorrection => 13 case PpsDrift => 14 case PreaduLevels => 15
    case RfiCount => 16 case TileBeamformerFrame => 17 case Temperatures => 18 case Voltages => 19
    case Currents => 20 case Alarms => 21 case AdcSysrefCounter => 22 case AdcPllStatus => 23
    case AdcSysrefTimingRequirements => 24 case Timing => 25 case Io => 26 case Dsp => 27
    case FortyGPacketCount => 28 case PointingDelays => 29
  }

  ghost predicate Ascending(s: seq<Attribute>) {
    forall i {:trigger s[i]} :: 0 <= i < |s| - 1 ==> Rank(s[i]) < Rank(s[i + 1])
  }

  /** Ascending, with first rank `lo` and last rank `hi`. */
  ghost predicate Spans(s: seq<Attribute>, lo: nat, hi: nat) {
    |s| > 0 && Rank(s[0]) == lo && Rank(s[|s| - 1]) == hi && Ascending(s)
  }

  lemma {:induction false} AscendingCountsOnce(s: seq<Attribute>, a: Attribute)
    requires Ascending(s)
    ensures multiset(s)[a] <= 1
    ensures |s| > 0 && Rank(s[|s| - 1]) < Rank(a) ==> multiset(s)[a] == 0
  {
    if |s| > 0 {
      var front := s[..|s| - 1];
      assert s == front + [s[|s| - 1]];
      AscendingCountsOnce(front, a);
    }
  }

  lemma SmallTablesAscend()
    ensures Ascending(UnknownPolled()) && Ascending(OffPolled()) && Ascending(UnconnectedPolled())
    ensures Ascending(UnprogrammedPolled())
  {
  }

  lemma ProgrammedAscends()
    ensures Ascending(ProgrammedPolled())
  {
  }

  lemma SpansJoin(s: seq<Attribute>, t: seq<Attribute>, lo: nat, mid: nat, mid': nat, hi: nat)
    requires Spans(s, lo, mid) && Spans(t, mid', hi) && mid < mid'
    ensures Spans(s + t, lo, hi)
  {
  }

  lemma BeamSpans()
    ensures Spans(BeamPolled(), 1, 9)
  {
  }

  lemma ClockSpans()
    ensures Spans(ClockPolled(), 10, 17)
  {
  }

  lemma BoardSpans()
    ensures Spans(BoardPolled(), 18, 28)
  {
  }

  lemma InitialisedSpans()
    ensures Spans(InitialisedPolled(), 1, 28)
  {
    var beam, clock, board := BeamPolled(), ClockPolled(), BoardPolled();
    assert Spans(beam + (clock + board), 1, 28) by {
      BeamSpans();
      ClockSpans();
      BoardSpans();
      SpansJoin(clock, board, 10, 17, 18, 28);
      SpansJoin(beam, clock + board, 1, 9, 10, 28);
    }
  }

  lemma SynchronisedSpans()
    ensures Spans(SynchronisedPolled(), 1, 29)
  {
    InitialisedSpans();
    SpansJoin(InitialisedPolled(), [PointingDelays], 1, 28, 29, 29);
  }

  lemma TablesAscend(status: TpmStatus)
    ensures Ascending(DefaultTables()[status])
  {
    match status
    case Programmed => ProgrammedAscends();
    case Initialised => InitialisedSpans();
    case Synchronised => SynchronisedSpans();
    case Unknown => SmallTablesAscend();
    case Off => SmallTablesAscend();
    case Unconnected => SmallTablesAscend();
    case Unprogrammed => SmallTablesAscend();
  }

  /** No shipped table lists an attribute twice. */
  lemma AllowedListsOnce(status: TpmStatus, a: Attribute)
    ensures multiset(DefaultTables()[status])[a] <= 1
  {
    TablesAscend(status);
    AscendingCountsOnce(DefaultTables()[status], a);
  }

  lemma ShippedTablesListOnce()
    ensures ListsOnce(DefaultTables())
  {
    forall status, a | a in DefaultTables()[status]
      ensures multiset(DefaultTables()[status])[a] == 1
    {
      AllowedListsOnce(status, a);
    }
  }
}
