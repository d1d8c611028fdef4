/**
 * The selection state of the hire dialog (Dialog_Hire): `hireData`, which maps
 * every offered pawn kind to its requested count and the text of its count
 * field, and `curFaction`, the faction whose kinds the player is currently
 * hiring. Editing a count may take or release that lock; while another
 * faction holds it, a row's count adjuster is disabled.
 *
 * Defs are identified by their defName.
 */
module HireSelection {

  import opened Wrappers

  type PawnKind = string
  type FactionName = string

  /** Upper bound the count adjuster of each pawn-kind row is given. */
  const MaxUnits := 999

  /** A hireable faction as the dialog lists it: its name and its pawn kinds, in order. */
  datatype FactionDef = FactionDef(name: FactionName, pawnKinds: seq<PawnKind>)

  /** One value of `hireData`: the requested count and the count field's text buffer. */
  datatype Entry = Entry(count: int, buffer: string)

  /** The mutable part of the dialog that the pawn-kind rows edit. */
  datatype Selection = Selection(hireData: map<PawnKind, Entry>, curFaction: Option<FactionName>)

  predicate NoDuplicates<T(==)>(s: seq<T>)
  {
    forall i, j :: 0 <= i < j < |s| ==> s[i] != s[j]
  }

  /** Every pawn kind of every faction, faction by faction (`hireable.SelectMany(def => def.pawnKinds)`). */
  function AllKinds(hireable: seq<FactionDef>): (r: seq<PawnKind>)
    ensures forall i, k :: 0 <= i < |hireable| && k in hireable[i].pawnKinds ==> k in r
  {
    if hireable == [] then [] else hireable[0].pawnKinds + AllKinds(hireable[1..])
  }

  /**
   * What the dialog takes for granted about the factions it is given: the
   * dictionary built from all their kinds has no duplicate key (otherwise
   * `ToDictionary` throws), and distinct defs have distinct names.
   */
  predicate WellFormed(hireable: seq<FactionDef>)
  {
    && NoDuplicates(AllKinds(hireable))
    && forall i, j :: 0 <= i < j < |hireable| ==> hireable[i].name != hireable[j].name
  }

  /** The faction named `name` offers `kind`. */
  predicate Offers(hireable: seq<FactionDef>, name: FactionName, kind: PawnKind)
  {
    exists i :: 0 <= i < |hireable| && hireable[i].name == name && kind in hireable[i].pawnKinds
  }

  predicate AllZero(hireData: map<PawnKind, Entry>)
  {
    forall k :: k in hireData ==> hireData[k].count == 0
  }

  /**
   * The lock is unset exactly when no count is nonzero, and every kind with
   * a nonzero count is offered by the locked faction.
   */
  predicate LockInvariant(hireable: seq<FactionDef>, s: Selection)
  {
    && (s.curFaction.None? <==> AllZero(s.hireData))
    && (s.curFaction.Some? ==>
          forall k :: k in s.hireData && s.hireData[k].count != 0 ==> Offers(hireable, s.curFaction.value, k))
  }

  /**
   * The selection the dialog can be in: one entry per offered kind, every
   * count within the adjuster's bounds, and the lock invariant.
   */
  ghost predicate Coherent(hireable: seq<FactionDef>, s: Selection)
  {
    && (forall k :: k in s.hireData <==> k in AllKinds(hireable))
    && (forall k :: k in s.hireData ==> 0 <= s.hireData[k].count <= MaxUnits)
    && LockInvariant(hireable, s)
  }

  /** The selection right after the dialog opens: every kind at 0 with an empty buffer, no lock. */
  function Initial(hireable: seq<FactionDef>): Selection
  {
    Selection(map k | k in AllKinds(hireable) :: Entry(0, ""), None)
  }

  lemma InitialIsCoherent(hireable: seq<FactionDef>)
    ensures Coherent(hireable, Initial(hireable))
    ensures AllZero(Initial(hireable).hireData)
  {
  }

  /** The adjuster of `def`'s rows is enabled unless a different faction holds the lock. */
  predicate Enabled(s: Selection, def: FactionDef)
  {
    s.curFaction.None? || s.curFaction == Some(def.name)
  }

  function Clamp(x: int, lo: int, hi: int): int
    requires lo <= hi
  {
    if x < lo then lo else if x > hi then hi else x
  }

  /**
   * The assumed behaviour of the count adjuster widget, which is not part of
   * this model: disabled, it hands back the entry it was given; enabled, it
   * yields the count the player asked for, clamped to [lo, hi], with the
   * text typed into it.
   */
  function Adjust(enabled: bool, current: Entry, typed: int, text: string, lo: int, hi: int): (e: Entry)
    requires lo <= hi
    ensures !enabled ==> e == current
    ensures enabled ==> lo <= e.count <= hi && e.buffer == text
    ensures enabled && lo <= typed <= hi ==> e.count == typed
  {
    if enabled then Entry(Clamp(typed, lo, hi), text) else current
  }

  /**
   * What a row for `kind` of faction `def` does with the adjuster's result
   * `e`: if it differs from the stored entry, store it; a positive count
   * taken while nothing is locked locks `def`; a zero count while `def` is
   * locked releases the lock when all of `def`'s kinds are at 0.
   */
  function EditStep(s: Selection, def: FactionDef, kind: PawnKind, e: Entry): (r: Selection)
    requires kind in def.pawnKinds
    requires forall k :: k in def.pawnKinds ==> k in s.hireData
    ensures r.hireData.Keys == s.hireData.Keys
  {
    if e == s.hireData[kind] then s
    else
      var d := s.hireData[kind := e];
      var locked := if e.count > 0 && s.curFaction.None? then Some(def.name) else s.curFaction;
      var released :=
        if e.count == 0 && locked == Some(def.name) && forall pk :: pk in def.pawnKinds ==> d[pk].count == 0
        then None else locked;
      Selection(d, released)
  }

  /** One frame of input on one pawn-kind row: the faction, the kind and what the player entered. */
  datatype RowInput = RowInput(def: FactionDef, kind: PawnKind, typed: int, text: string)

  predicate RowOf(hireable: seq<FactionDef>, input: RowInput)
  {
    input.def in hireable && input.kind in input.def.pawnKinds
  }

  /** A row drawn with the player's input: the adjuster (enabled or not) feeds the edit. */
  function RowStep(s: Selection, input: RowInput): (r: Selection)
    requires input.kind in input.def.pawnKinds
    requires forall k :: k in input.def.pawnKinds ==> k in s.hireData
    ensures r.hireData.Keys == s.hireData.Keys
  {
    var e := Adjust(Enabled(s, input.def), s.hireData[input.kind], input.typed, input.text, 0, MaxUnits);
    EditStep(s, input.def, input.kind, e)
  }

  /** A sequence of row inputs, applied one after the other. */
  function Replay(hireable: seq<FactionDef>, s: Selection, inputs: seq<RowInput>): (r: Selection)
    requires forall input :: input in inputs ==> RowOf(hireable, input)
    requires forall k :: k in AllKinds(hireable) ==> k in s.hireData
    ensures r.hireData.Keys == s.hireData.Keys
    decreases |inputs|
  {
    if inputs == [] then s
    else
      assert inputs[0] in inputs;
      assert RowOf(hireable, inputs[0]);
      ListedKinds(hireable, inputs[0].def);
      Replay(hireable, RowStep(s, inputs[0]), inputs[1..])
  }

  /** The kinds of a listed faction are among all kinds. */
  lemma ListedKinds(hireable: seq<FactionDef>, def: FactionDef)
    requires def in hireable
    ensures forall k :: k in def.pawnKinds ==> k in AllKinds(hireable)
  {
  }

  /** Under the lock invariant, a kind with a nonzero count while `def` is locked is one of `def`'s. */
  lemma LockedKindBelongsToDef(hireable: seq<FactionDef>, s: Selection, def: FactionDef, k: PawnKind)
    requires WellFormed(hireable) && def in hireable
    requires LockInvariant(hireable, s)
    requires s.curFaction == Some(def.name)
    requires k in s.hireData && s.hireData[k].count != 0
    ensures k in def.pawnKinds
  {
  }

  /**
   * Every row input keeps the selection coherent: counts stay within
   * 0..999, and the lock is unset exactly when every count is 0 and
   * otherwise belongs to the faction of every nonzero kind.
   */
  lemma RowStepKeepsCoherent(hireable: seq<FactionDef>, s: Selection, input: RowInput)
    requires WellFormed(hireable) && RowOf(hireable, input)
    requires Coherent(hireable, s)
    ensures forall k :: k in input.def.pawnKinds ==> k in s.hireData
    ensures Coherent(hireable, RowStep(s, input))
  {
  }

  /** An edit changes the edited kind's entry and no other. */
  lemma RowStepTouchesOnlyItsKind(s: Selection, input: RowInput, k: PawnKind)
    requires input.kind in input.def.pawnKinds
    requires forall k :: k in input.def.pawnKinds ==> k in s.hireData
    requires k in s.hireData && k != input.kind
    ensures RowStep(s, input).hireData[k] == s.hireData[k]
  {
  }

  /** While another faction holds the lock, a row changes nothing. */
  lemma DisabledRowChangesNothing(s: Selection, input: RowInput)
    requires input.kind in input.def.pawnKinds
    requires forall k :: k in input.def.pawnKinds ==> k in s.hireData
    requires !Enabled(s, input.def)
    ensures RowStep(s, input) == s
  {
  }

  /** Asking for a positive count while nothing is locked locks the edited kind's faction. */
  lemma PositiveCountTakesLock(hireable: seq<FactionDef>, s: Selection, input: RowInput)
    requires input.kind in input.def.pawnKinds
    requires forall k :: k in input.def.pawnKinds ==> k in s.hireData
    requires LockInvariant(hireable, s)
    requires s.curFaction.None? && input.typed > 0
    ensures RowStep(s, input).curFaction == Some(input.def.name)
    ensures RowStep(s, input).hireData[input.kind].count == if input.typed > MaxUnits then MaxUnits else input.typed
  {
  }

  /**
   * Setting a kind of the locked faction to 0 releases the lock exactly when
   * all of that faction's kinds are then at 0; otherwise the lock stays.
   */
  lemma ZeroCountReleasesLock(hireable: seq<FactionDef>, s: Selection, input: RowInput)
    requires WellFormed(hireable) && RowOf(hireable, input)
    requires Coherent(hireable, s)
    requires s.curFaction == Some(input.def.name) && input.typed <= 0
    ensures forall k :: k in input.def.pawnKinds ==> k in s.hireData
    ensures var r := RowStep(s, input);
            (r.curFaction.None? <==> forall pk :: pk in input.def.pawnKinds ==> r.hireData[pk].count == 0)
            && (r.curFaction.Some? ==> r.curFaction == s.curFaction)
  {
  }

  /**
   * After any sequence of row inputs, the lock invariant still holds: every
   * kind with a nonzero count belongs to the one locked faction.
   */
  lemma {:induction false} ReplayKeepsCoherent(hireable: seq<FactionDef>, s: Selection, inputs: seq<RowInput>)
    requires WellFormed(hireable)
    requires forall input :: input in inputs ==> RowOf(hireable, input)
    requires Coherent(hireable, s)
    ensures Coherent(hireable, Replay(hireable, s, inputs))
    decreases |inputs|
  {
    if inputs != [] {
      RowStepKeepsCoherent(hireable, s, inputs[0]);
      ReplayKeepsCoherent(hireable, RowStep(s, inputs[0]), inputs[1..]);
    }
  }

  /** A faction has requests when one of its kinds has a nonzero count. */
  predicate HasRequests(def: FactionDef, hireData: map<PawnKind, Entry>)
  {
    exists k :: k in def.pawnKinds && k in hireData && hireData[k].count != 0
  }

  lemma NoDuplicatesSplit<T>(head: seq<T>, tail: seq<T>, x: T)
    requires NoDuplicates(head + tail) && x in head
    ensures x !in tail
  {
    var p :| 0 <= p < |head| && head[p] == x;
    forall q | 0 <= q < |tail|
      ensures tail[q] != x
    {
      assert (head + tail)[|head| + q] == tail[q];
      assert (head + tail)[p] == x;
    }
  }

  /** With no duplicate kinds, a kind is offered by one faction only. */
  lemma {:induction false} OneFactionPerKind(hireable: seq<FactionDef>, i: nat, j: nat, k: PawnKind)
    requires NoDuplicates(AllKinds(hireable))
    requires i < |hireable| && j < |hireable|
    requires k in hireable[i].pawnKinds && k in hireable[j].pawnKinds
    ensures i == j
  {
    var head, tail := hireable[0].pawnKinds, AllKinds(hireable[1..]);
    assert AllKinds(hireable) == head + tail;
    if i > 0 && j > 0 {
      assert NoDuplicates(tail) by {
        forall p, q | 0 <= p < q < |tail| ensures tail[p] != tail[q] {
          assert tail[p] == AllKinds(hireable)[|head| + p];
          assert tail[q] == AllKinds(hireable)[|head| + q];
        }
      }
      OneFactionPerKind(hireable[1..], i - 1, j - 1, k);
    } else if i != j {
      var m := if i == 0 then j else i;
      assert k in head && k in hireable[1..][m - 1].pawnKinds;
      assert k in tail;
      NoDuplicatesSplit(head, tail, k);
    }
  }

  /** In a coherent selection, at most one faction has requests. */
  lemma AtMostOneFactionRequested(hireable: seq<FactionDef>, s: Selection, i: nat, j: nat)
    requires WellFormed(hireable) && Coherent(hireable, s)
    requires i < |hireable| && j < |hireable|
    requires HasRequests(hireable[i], s.hireData) && HasRequests(hireable[j], s.hireData)
    ensures i == j
  {
    var ki :| ki in hireable[i].pawnKinds && ki in s.hireData && s.hireData[ki].count != 0;
    var kj :| kj in hireable[j].pawnKinds && kj in s.hireData && s.hireData[kj].count != 0;
    var i' :| 0 <= i' < |hireable| && hireable[i'].name == s.curFaction.value && ki in hireable[i'].pawnKinds;
    var j' :| 0 <= j' < |hireable| && hireable[j'].name == s.curFaction.value && kj in hireable[j'].pawnKinds;
    OneFactionPerKind(hireable, i, i', ki);
    OneFactionPerKind(hireable, j, j', kj);
  }
}
