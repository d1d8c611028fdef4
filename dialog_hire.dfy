/**
 * The hire dialog (Dialog_Hire) without its drawing: the selection it keeps
 * while open, the accept step that pays in silver and produces one pawn per
 * requested unit, and the Confirm button that refuses when the price is
 * above the silver available.
 *
 * The price is an input: `costFinal` is the dialog's final price and `cost`
 * its rounding to an integer. A generated pawn is represented by its kind.
 */
module DialogHire {

  import opened Wrappers
  import opened SilverPayment
  import opened HireSelection

  /** Upper bound the count adjuster of the day count is given. */
  const MaxDays := 60

  /** What is handed to the contract tracker when a hire goes through. */
  datatype Contract = Contract(days: int, pawns: seq<PawnKind>, faction: Option<FactionName>, cost: int)

  /**
   * How accepting ends: nothing to do, the silver ran out before the cost was
   * covered (`First` throws), or the pawns were hired under a contract.
   */
  datatype AcceptResult = Skipped | PaymentFailed | Hired(contract: Contract)

  datatype ConfirmResult = Rejected | Accepted(result: AcceptResult)

  /** `hireData.Any(kvp => kvp.Value.First > 0)`. */
  predicate AnyRequested(hireData: map<PawnKind, Entry>)
  {
    exists k :: k in hireData && hireData[k].count > 0
  }

  /** The guard of the accept step: some days and some unit requested. */
  predicate Proceeds(days: int, hireData: map<PawnKind, Entry>)
  {
    days > 0 && AnyRequested(hireData)
  }

  /** Sum of the requested counts of `kinds`. */
  function Requested(kinds: seq<PawnKind>, hireData: map<PawnKind, Entry>): int
    requires forall k :: k in kinds ==> k in hireData
  {
    if kinds == [] then 0
    else Requested(kinds[..|kinds| - 1], hireData) + hireData[kinds[|kinds| - 1]].count
  }

  /** `n` pawns of one kind (none when `n` is not positive). */
  function Repeat(kind: PawnKind, n: int): seq<PawnKind>
  {
    if n <= 0 then [] else Repeat(kind, n - 1) + [kind]
  }

  /** The pawns the accept step generates, kind by kind in dictionary order. */
  function Roster(kinds: seq<PawnKind>, hireData: map<PawnKind, Entry>): seq<PawnKind>
    requires forall k :: k in kinds ==> k in hireData
  {
    if kinds == [] then []
    else Roster(kinds[..|kinds| - 1], hireData) + Repeat(kinds[|kinds| - 1], hireData[kinds[|kinds| - 1]].count)
  }

  lemma {:induction false} RepeatCounts(kind: PawnKind, n: int, other: PawnKind)
    ensures multiset(Repeat(kind, n))[kind] == if n <= 0 then 0 else n
    ensures other != kind ==> multiset(Repeat(kind, n))[other] == 0
  {
    if n > 0 {
      RepeatCounts(kind, n - 1, other);
    }
  }

  /** With non-negative counts, one pawn is generated per requested unit. */
  lemma {:induction false} RosterSize(kinds: seq<PawnKind>, hireData: map<PawnKind, Entry>)
    requires forall k :: k in kinds ==> k in hireData && hireData[k].count >= 0
    ensures |Roster(kinds, hireData)| == Requested(kinds, hireData)
  {
    if kinds != [] {
      var last := kinds[|kinds| - 1];
      RosterSize(kinds[..|kinds| - 1], hireData);
      RepeatSize(last, hireData[last].count);
    }
  }

  lemma {:induction false} RepeatSize(kind: PawnKind, n: int)
    ensures |Repeat(kind, n)| == if n <= 0 then 0 else n
  {
    if n > 0 {
      RepeatSize(kind, n - 1);
    }
  }

  /**
   * Each kind listed once gets exactly as many pawns as its requested count;
   * a kind not listed gets none.
   */
  lemma {:induction false} RosterCounts(kinds: seq<PawnKind>, hireData: map<PawnKind, Entry>, k: PawnKind)
    requires NoDuplicates(kinds)
    requires forall p :: p in kinds ==> p in hireData && hireData[p].count >= 0
    ensures multiset(Roster(kinds, hireData))[k] == if k in kinds then hireData[k].count else 0
  {
    if kinds != [] {
      var front, last := kinds[..|kinds| - 1], kinds[|kinds| - 1];
      assert NoDuplicates(front);
      RosterCounts(front, hireData, k);
      RepeatCounts(last, hireData[last].count, k);
      assert kinds == front + [last];
      assert k in kinds <==> k in front || k == last;
      assert last !in front;
    }
  }

  /** When the accept step proceeds, at least one pawn is requested. */
  lemma {:induction false} ProceedsRequestsPawns(kinds: seq<PawnKind>, hireData: map<PawnKind, Entry>)
    requires forall k :: k in hireData <==> k in kinds
    requires forall k :: k in hireData ==> hireData[k].count >= 0
    requires AnyRequested(hireData)
    ensures Requested(kinds, hireData) > 0
  {
    var k :| k in hireData && hireData[k].count > 0;
    RequestedCoversEach(kinds, hireData, k);
  }

  lemma {:induction false} RequestedCoversEach(kinds: seq<PawnKind>, hireData: map<PawnKind, Entry>, k: PawnKind)
    requires forall p :: p in kinds ==> p in hireData && hireData[p].count >= 0
    requires k in kinds
    ensures Requested(kinds, hireData) >= hireData[k].count
  {
    var front, last := kinds[..|kinds| - 1], kinds[|kinds| - 1];
    assert kinds == front + [last];
    if k != last {
      RequestedCoversEach(front, hireData, k);
    }
    RequestedNonNegative(front, hireData);
  }

  lemma {:induction false} RequestedNonNegative(kinds: seq<PawnKind>, hireData: map<PawnKind, Entry>)
    requires forall p :: p in kinds ==> p in hireData && hireData[p].count >= 0
    ensures Requested(kinds, hireData) >= 0
  {
    if kinds != [] {
      RequestedNonNegative(kinds[..|kinds| - 1], hireData);
    }
  }

  /** `Mathf.RoundToInt`: `cost` is within one half of `costFinal`. */
  predicate RoundsTo(costFinal: real, cost: int)
  {
    cost as real - 0.5 <= costFinal <= cost as real + 0.5
  }

  /**
   * The outcome of the accept step from the selection `s` and `days`, with
   * the silver stacks `before` and `after` it.
   */
  ghost predicate AcceptOutcome(hireable: seq<FactionDef>, s: Selection, days: int,
                                before: seq<nat>, after: seq<nat>, cost: int, r: AcceptResult)
    requires forall k :: k in AllKinds(hireable) ==> k in s.hireData
  {
    if !Proceeds(days, s.hireData) then
      r == Skipped && after == before
    else if cost <= Sum(before) then
      after == Drain(before, cost) && r == Hired(Contract(days, Roster(AllKinds(hireable), s.hireData), s.curFaction, cost))
    else
      after == Drain(before, cost) && r == PaymentFailed
  }

  /** Nothing is spent and nothing is hired unless some days and some unit are requested. */
  lemma NothingWithoutRequest(hireable: seq<FactionDef>, s: Selection, days: int,
                              before: seq<nat>, after: seq<nat>, cost: int, r: AcceptResult)
    requires forall k :: k in AllKinds(hireable) ==> k in s.hireData
    requires AcceptOutcome(hireable, s, days, before, after, cost, r)
    requires days <= 0 || AllZero(s.hireData)
    ensures r == Skipped && after == before
  {
  }

  /**
   * A hire that goes through pays exactly the rounded cost (nothing when it
   * is not positive), produces one pawn
   * per requested unit (at least one), every pawn of a kind of the locked
   * faction, and records that faction in the contract.
   */
  lemma HiredAsRequested(hireable: seq<FactionDef>, s: Selection, days: int,
                         before: seq<nat>, after: seq<nat>, cost: int, c: Contract)
    requires WellFormed(hireable) && Coherent(hireable, s)
    requires AcceptOutcome(hireable, s, days, before, after, cost, Hired(c))
    ensures c.cost == cost
    ensures Sum(before) - Sum(after) == if cost <= 0 then 0 else cost
    ensures forall i :: 0 <= i < |after| ==> after[i] <= before[i]
    ensures c.days == days > 0
    ensures |c.pawns| == Requested(AllKinds(hireable), s.hireData) > 0
    ensures forall k :: k in s.hireData ==> multiset(c.pawns)[k] == s.hireData[k].count
    ensures c.faction.Some?
    ensures forall p :: p in c.pawns ==> Offers(hireable, c.faction.value, p)
  {
    var kinds := AllKinds(hireable);
    assert Proceeds(days, s.hireData) && cost <= Sum(before);
    assert after == Drain(before, cost);
    assert c == Contract(days, Roster(kinds, s.hireData), s.curFaction, cost);
    DrainRemovesCost(before, cost);
    CoherentRoster(hireable, s);
    ProceedsRequestsPawns(kinds, s.hireData);
  }

  /**
   * From a coherent selection, the roster has one pawn per requested unit,
   * and only kinds with a nonzero count appear in it.
   */
  lemma CoherentRoster(hireable: seq<FactionDef>, s: Selection)
    requires WellFormed(hireable) && Coherent(hireable, s)
    ensures |Roster(AllKinds(hireable), s.hireData)| == Requested(AllKinds(hireable), s.hireData)
    ensures forall k :: k in s.hireData ==> multiset(Roster(AllKinds(hireable), s.hireData))[k] == s.hireData[k].count
    ensures forall p :: p in Roster(AllKinds(hireable), s.hireData) ==> p in s.hireData && s.hireData[p].count != 0
  {
    var kinds := AllKinds(hireable);
    var roster := Roster(kinds, s.hireData);
    RosterSize(kinds, s.hireData);
    forall k | k in s.hireData
      ensures multiset(roster)[k] == s.hireData[k].count
    {
      RosterCounts(kinds, s.hireData, k);
    }
    forall p | p in roster
      ensures p in s.hireData && s.hireData[p].count != 0
    {
      RosterCounts(kinds, s.hireData, p);
    }
  }

  /** The accept step fails to pay only when the stacks hold less than the cost, and then they are emptied. */
  lemma PaymentFailsOnShortfall(hireable: seq<FactionDef>, s: Selection, days: int,
                                before: seq<nat>, after: seq<nat>, cost: int)
    requires forall k :: k in AllKinds(hireable) ==> k in s.hireData
    requires AcceptOutcome(hireable, s, days, before, after, cost, PaymentFailed)
    ensures Proceeds(days, s.hireData) && cost > Sum(before)
    ensures forall i :: 0 <= i < |after| ==> after[i] == 0
  {
    DrainRemovesCost(before, cost);
    SumZero(after);
  }

  lemma {:induction false} SumZero(stacks: seq<nat>)
    requires Sum(stacks) == 0
    ensures forall i :: 0 <= i < |stacks| ==> stacks[i] == 0
  {
    if stacks != [] {
      SumZero(stacks[1..]);
      assert forall i :: 1 <= i < |stacks| ==> stacks[i] == stacks[1..][i - 1];
    }
  }

  /**
   * A price that passes the Confirm check is covered by the silver: if the
   * final price is at most the available silver and the stacks still hold
   * that much, the rounded cost does not exceed what the stacks hold.
   */
  lemma ConfirmedPriceIsCovered(costFinal: real, cost: int, availableSilver: nat, stacks: seq<nat>)
    requires RoundsTo(costFinal, cost)
    requires costFinal <= availableSilver as real
    requires Sum(stacks) >= availableSilver
    ensures cost <= Sum(stacks)
  {
  }

  class Dialog {
    /** The factions on offer. */
    const hireable: seq<FactionDef>
    /** The silver counted when the dialog opened. */
    const availableSilver: nat
    var hireData: map<PawnKind, Entry>
    var curFaction: Option<FactionName>
    var daysAmount: int

    ghost predicate Valid()
      reads this
    {
      && WellFormed(hireable)
      && Coherent(hireable, Selection(hireData, curFaction))
      && 0 <= daysAmount <= MaxDays
    }

    function Current(): Selection
      reads this
    {
      Selection(hireData, curFaction)
    }

    /** Opens the dialog: every kind of every faction at 0, no lock, no days. */
    constructor (hireable: seq<FactionDef>, availableSilver: nat)
      requires WellFormed(hireable)
      ensures Valid()
      ensures this.hireable == hireable && this.availableSilver == availableSilver
      ensures Current() == Initial(hireable) && daysAmount == 0
    {
      this.hireable := hireable;
      this.availableSilver := availableSilver;
      hireData := map k | k in AllKinds(hireable) :: Entry(0, "");
      curFaction := None;
      daysAmount := 0;
      InitialIsCoherent(hireable);
    }

    /**
     * One pawn-kind row of `def` drawn with the player's input: the count
     * adjuster (disabled while another faction is locked) yields an entry;
     * a changed entry is stored and may take or release the lock.
     */
    method Edit(def: FactionDef, kind: PawnKind, typed: int, text: string)
      requires Valid()
      requires def in hireable && kind in def.pawnKinds
      modifies this
      ensures Valid()
      ensures forall k :: k in def.pawnKinds ==> k in old(hireData)
      ensures Current() == RowStep(old(Current()), RowInput(def, kind, typed, text))
      ensures daysAmount == old(daysAmount)
    {
      ListedKinds(hireable, def);
      RowStepKeepsCoherent(hireable, Current(), RowInput(def, kind, typed, text));
      var data := hireData[kind];
      var e := Adjust(Enabled(Current(), def), data, typed, text, 0, MaxUnits);
      if e.count != data.count || e.buffer != data.buffer {
        hireData := hireData[kind := e];
        if e.count > 0 && curFaction.None? {
          curFaction := Some(def.name);
        }
        if e.count == 0 && curFaction == Some(def.name) && forall pk :: pk in def.pawnKinds ==> hireData[pk].count == 0 {
          curFaction := None;
        }
      }
    }

    /** The day-count adjuster: the typed number of days, clamped to 0..60. */
    method SetDays(typed: int)
      requires Valid()
      modifies this
      ensures Valid()
      ensures daysAmount == Clamp(typed, 0, MaxDays)
      ensures Current() == old(Current())
    {
      daysAmount := Clamp(typed, 0, MaxDays);
    }

    /** The nested loops that generate one pawn per requested unit, kind by kind. */
    method GeneratePawns() returns (pawns: seq<PawnKind>)
      requires Valid()
      ensures pawns == Roster(AllKinds(hireable), hireData)
      ensures |pawns| == Requested(AllKinds(hireable), hireData)
    {
      var kinds := AllKinds(hireable);
      pawns := [];
      var n := 0;
      while n < |kinds|
        invariant 0 <= n <= |kinds|
        invariant pawns == Roster(kinds[..n], hireData)
      {
        var kind := kinds[n];
        var i := 0;
        while i < hireData[kind].count
          invariant 0 <= i <= hireData[kind].count
          invariant pawns == Roster(kinds[..n], hireData) + Repeat(kind, i)
        {
          pawns := pawns + [kind];
          i := i + 1;
        }
        assert kinds[..n + 1][..n] == kinds[..n];
        n := n + 1;
      }
      assert kinds[..n] == kinds;
      RosterSize(kinds, hireData);
    }

    /**
     * The accept step: unless no days or no unit are requested, pay the
     * rounded cost from the silver stacks, then generate the pawns and record
     * the contract. Running out of silver while paying ends the step.
     */
    method Accept(silver: array<nat>, cost: int) returns (r: AcceptResult)
      requires Valid()
      modifies silver
      ensures forall k :: k in AllKinds(hireable) ==> k in hireData
      ensures AcceptOutcome(hireable, Current(), daysAmount, old(silver[..]), silver[..], cost, r)
    {
      if Proceeds(daysAmount, hireData) {
        var paid := PaySilver(silver, cost);
        if !paid {
          return PaymentFailed;
        }
        var pawns := GeneratePawns();
        r := Hired(Contract(daysAmount, pawns, curFaction, cost));
      } else {
        r := Skipped;
      }
    }

    /**
     * The Confirm button: with a final price above the silver counted when
     * the dialog opened, the hire is rejected and nothing changes; otherwise
     * the accept step runs.
     */
    method Confirm(silver: array<nat>, costFinal: real, cost: int) returns (r: ConfirmResult)
      requires Valid()
      requires RoundsTo(costFinal, cost)
      modifies silver
      ensures forall k :: k in AllKinds(hireable) ==> k in hireData
      ensures r.Rejected? <==> costFinal > availableSilver as real
      ensures r.Rejected? ==> silver[..] == old(silver[..])
      ensures r.Accepted? ==> AcceptOutcome(hireable, Current(), daysAmount, old(silver[..]), silver[..], cost, r.result)
    {
      if costFinal > availableSilver as real {
        r := Rejected;
      } else {
        var result := Accept(silver, cost);
        r := Accepted(result);
      }
    }
  }
}
