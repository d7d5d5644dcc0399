/** The iterator that hands out, in rotation, the attributes a tile may be polled for in its TPM status. */
module TpmPolling {

  import opened Basics

  datatype Attribute =
    | Connect | CheckAlarmStatus | IsProgrammed | PllLocked | Temperatures | Voltages | Currents | Alarms
    | AdcSysrefCounter | AdcPllStatus | AdcSysrefTimingRequirements | Timing | Io | Dsp
    | AdcRms | BeamformerTable | FpgaCurrentFrame | FpgaReferenceTime | FpgasTime | IsBeamformerRunning
    | PendingDataRequests | PhaseTerminalCount | PpsDelay | PpsDelayCorrection | PpsDrift | PreaduLevels
    | RfiCount | TileBeamformerFrame | FortyGPacketCount | PointingDelays

  /** The attributes to poll in each status: the iterator's `allowed_attributes` dictionary. */
  type Tables = t: map<TpmStatus, seq<Attribute>> | forall s: TpmStatus :: s in t && |t[s]| > 0
    witness map s: TpmStatus :: [Connect]

  function AllowedSet(tables: Tables, status: TpmStatus): set<Attribute> {
    set a | a in tables[status]
  }

  /** The attributes no longer polled once the status changes from `state`; `None` stands for cleaning up. */
  function StaleAttributes(tables: Tables, state: TpmStatus, newStatus: Option<TpmStatus>): set<Attribute> {
    match newStatus
    case None => AllowedSet(tables, state)
    case Some(status) => AllowedSet(tables, state) - AllowedSet(tables, status)
  }

  /** The remainder `i % n`, by repeated subtraction (`WrapIsMod`). */
  function Wrap(i: nat, n: nat): (r: nat)
    requires n > 0
    ensures r < n
    ensures i < n ==> r == i
    decreases i
  {
    if i < n then i else Wrap(i - n, n)
  }

  lemma {:induction false} WrapIsMod(i: nat, n: nat)
    requires n > 0
    ensures Wrap(i, n) == i % n
    decreases i
  {
    if i >= n {
      WrapIsMod(i - n, n);
      AddPeriod(i - n, n);
    }
  }

  lemma MulAtLeast(a: int, n: int)
    requires n > 0
    ensures a >= 1 ==> n * a >= n
    ensures a <= -1 ==> n * a <= -n
  {
  }

  lemma AddPeriod(i: nat, n: nat)
    requires n > 0
    ensures (i + n) % n == i % n
  {
    var extra := (i + n) / n - i / n - 1;
    var (q, r) := (i / n, i % n);
    var (q', r') := ((i + n) / n, (i + n) % n);
    assert i == n * q + r && i + n == n * q' + r';
    assert n * extra == n * q' - n * q - n;
    MulAtLeast(extra, n);
  }

  /** The next `n` elements handed out from index `index` of a table. */
  function Rotation<T>(table: seq<T>, index: nat, n: nat): (r: seq<T>)
    requires |table| > 0
    decreases n
  {
    if n == 0 then [] else [table[Wrap(index, |table|)]] + Rotation(table, index + 1, n - 1)
  }

  lemma RotationUnfolds<T>(table: seq<T>, index: nat, n: nat)
    requires |table| > 0 && n > 0
    ensures Rotation(table, index, n) == [table[Wrap(index, |table|)]] + Rotation(table, index + 1, n - 1)
  {
  }

  lemma {:induction false} RotationSplit<T>(table: seq<T>, index: nat, m: nat, n: nat)
    requires |table| > 0
    ensures Rotation(table, index, m + n) == Rotation(table, index, m) + Rotation(table, index + m, n)
    decreases m
  {
    if m == 0 {
      assert Rotation(table, index, 0) == [];
    } else {
      var first, second := Rotation(table, index + 1, m - 1), Rotation(table, index + m, n);
      assert index + 1 + (m - 1) == index + m;
      RotationSplit(table, index + 1, m - 1, n);
      RotationUnfolds(table, index, m);
      RotationUnfolds(table, index, m + n);
      ConcatAssociates([table[Wrap(index, |table|)]], first, second);
    }
  }

  lemma {:induction false} RotationIndex<T>(table: seq<T>, index: nat, n: nat)
    requires |table| > 0 && index + n <= |table|
    ensures |Rotation(table, index, n)| == n
    ensures forall k :: 0 <= k < n ==> Rotation(table, index, n)[k] == table[index + k]
    decreases n
  {
    if n > 0 {
      RotationIndex(table, index + 1, n - 1);
    }
  }

  lemma TurnFromStart<T>(table: seq<T>)
    requires |table| > 0
    ensures Rotation(table, 0, |table|) == table
  {
    RotationIndex(table, 0, |table|);
  }

  /** An index one turn later hands out the same element. */
  lemma SameNextTurn<T>(table: seq<T>, index: nat)
    requires |table| > 0
    ensures Rotation(table, index + |table|, 1) == [table[Wrap(index, |table|)]]
  {
    assert Wrap(index + |table|, |table|) == Wrap(index, |table|);
    assert Rotation(table, index + |table| + 1, 0) == [];
  }

  lemma TurnEnds<T>(table: seq<T>, index: nat, n: nat)
    requires n == |table| > 0
    ensures var first, middle := [table[Wrap(index, n)]], Rotation(table, index + 1, n - 1);
      Rotation(table, index, n) == first + middle && Rotation(table, index + 1, n) == middle + first
  {
    RotationUnfolds(table, index, n);
    assert index + 1 + (n - 1) == index + n && n - 1 + 1 == n;
    RotationSplit(table, index + 1, n - 1, 1);
    SameNextTurn(table, index);
  }

  /** Starting a full turn one index later hands out the same elements. */
  lemma TurnSlides<T>(table: seq<T>, index: nat)
    requires |table| > 0
    ensures multiset(Rotation(table, index + 1, |table|)) == multiset(Rotation(table, index, |table|))
  {
    var first, middle := [table[Wrap(index, |table|)]], Rotation(table, index + 1, |table| - 1);
    TurnEnds(table, index, |table|);
    EitherEnd(first, middle);
  }

  lemma EitherEnd<T>(first: seq<T>, middle: seq<T>)
    ensures multiset(middle + first) == multiset(first + middle)
  {
  }

  /** A full turn from any index hands out exactly the table. */
  lemma {:induction false} FullTurn<T>(table: seq<T>, index: nat)
    requires |table| > 0
    ensures multiset(Rotation(table, index, |table|)) == multiset(table)
    decreases index
  {
    if index == 0 {
      TurnFromStart(table);
    } else {
      FullTurn(table, index - 1);
      TurnSlides(table, index - 1);
    }
  }

  lemma TurnThenRest<T>(table: seq<T>, index: nat, rest: nat)
    requires |table| > 0
    ensures multiset(Rotation(table, index, |table| + rest))
         == multiset(table) + multiset(Rotation(table, index + |table|, rest))
  {
    FullTurn(table, index);
    RotationSplit(table, index, |table|, rest);
  }

  /** The product `k * n`, by repeated addition. */
  function Total(k: nat, n: nat): (t: nat) {
    if k == 0 then 0 else n + Total(k - 1, n)
  }

  lemma {:induction false} TotalIsProduct(k: nat, n: nat)
    ensures Total(k, n) == k * n
  {
    if k > 0 {
      TotalIsProduct(k - 1, n);
    }
  }

  lemma {:induction false} RotationTotals<T>(table: seq<T>, index: nat, turns: nat, a: T)
    requires |table| > 0
    ensures multiset(Rotation(table, index, Total(turns, |table|)))[a] == Total(turns, multiset(table)[a])
    decreases turns
  {
    if turns > 0 {
      TurnThenRest(table, index, Total(turns - 1, |table|));
      RotationTotals(table, index + |table|, turns - 1, a);
    }
  }

  /** Fairness: `turns` full turns from any index hand out each element `turns` times as often as the
      table lists it. */
  lemma RotationIsFair<T>(table: seq<T>, index: nat, turns: nat, a: T)
    requires |table| > 0
    ensures multiset(Rotation(table, index, turns * |table|))[a] == turns * multiset(table)[a]
  {
    RotationTotals(table, index, turns, a);
    TotalIsProduct(turns, |table|);
    TotalIsProduct(turns, multiset(table)[a]);
  }

  class RequestIterator {
    const allowedAttributes: Tables
    var idx: nat
    var state: TpmStatus

    constructor (tables: Tables)
      ensures idx == 0 && state == Unknown && allowedAttributes == tables
    {
      allowedAttributes := tables;
      idx := 0;
      state := Unknown;
    }

    function Polled(status: TpmStatus): seq<Attribute>
      ensures Polled(status) == allowedAttributes[status]
      ensures |Polled(status)| > 0
    {
      allowedAttributes[status]
    }

    /** The setter of the `state` property: a new status restarts the rotation. */
    method SetState(newState: TpmStatus)
      modifies this
      ensures state == newState
      ensures idx == if newState == old(state) then old(idx) else 0
    {
      if newState != state {
        idx := 0;
        state := newState;
      }
    }

    method Next() returns (item: Attribute)
      modifies this`idx
      ensures item == Polled(state)[Wrap(old(idx), |Polled(state)|)] && idx == old(idx) + 1
    {
      var table := Polled(state);
      WrapIsMod(idx, |table|);
      item := table[idx % |table|];
      idx := idx + 1;
    }
  }
}
