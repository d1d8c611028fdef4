/**
 * Settling a hire in silver (Dialog_Hire.OnAcceptKeyPressed): the rounded
 * cost is taken greedily from the list of silver stacks, always from the
 * first stack that still holds silver, until the cost is covered.
 *
 * A stack is represented by its stack count. Splitting `num` items off a
 * stack and destroying them is taken to lower that count by `num`.
 */
module SilverPayment {

  import opened Wrappers

  function Min(a: int, b: int): int
  {
    if a <= b then a else b
  }

  /** Total silver held by a list of stacks. */
  function Sum(stacks: seq<nat>): nat
  {
    if stacks == [] then 0 else stacks[0] + Sum(stacks[1..])
  }

  /** Replacing one stack count changes the total by the difference. */
  lemma {:induction false} SumUpdate(stacks: seq<nat>, i: nat, v: nat)
    requires i < |stacks|
    ensures Sum(stacks[i := v]) == Sum(stacks) - stacks[i] + v
  {
    if i > 0 {
      SumUpdate(stacks[1..], i - 1, v);
      assert stacks[i := v][1..] == stacks[1..][i - 1 := v];
    }
  }

  /**
   * The stack that `silverList.First(t => t.stackCount > 0)` selects, as an
   * index; None where `First` finds no such stack and throws.
   */
  function FirstNonEmpty(stacks: seq<nat>): (r: Option<nat>)
    ensures r.Some? ==> r.value < |stacks| && stacks[r.value] > 0
    ensures r.Some? ==> forall j :: 0 <= j < r.value ==> stacks[j] == 0
    ensures r.None? ==> forall j :: 0 <= j < |stacks| ==> stacks[j] == 0
    ensures r.None? <==> Sum(stacks) == 0
  {
    if stacks == [] then None
    else if stacks[0] > 0 then Some(0)
    else
      match FirstNonEmpty(stacks[1..])
      case None => None
      case Some(i) => Some(i + 1)
  }

  /**
   * The stack counts left after `cost` silver has been taken greedily from
   * the front of the list: the first stack gives `min(cost, stack)`, the rest
   * of the cost is taken from the stacks after it.
   */
  function Drain(stacks: seq<nat>, cost: int): (r: seq<nat>)
    ensures |r| == |stacks|
    ensures cost <= 0 ==> r == stacks
  {
    if cost <= 0 || stacks == [] then stacks
    else
      var take := Min(cost, stacks[0]);
      [stacks[0] - take] + Drain(stacks[1..], cost - take)
  }

  /** Unfolds Drain once on a non-empty list with a positive cost. */
  lemma DrainHead(stacks: seq<nat>, cost: int)
    requires cost > 0 && stacks != []
    ensures Drain(stacks, cost)
            == [stacks[0] - Min(cost, stacks[0])] + Drain(stacks[1..], cost - Min(cost, stacks[0]))
  {
  }

  /** No stack goes negative or grows, and the total removed is the cost, or all there was. */
  lemma {:induction false} DrainRemovesCost(stacks: seq<nat>, cost: int)
    ensures forall i :: 0 <= i < |stacks| ==> Drain(stacks, cost)[i] <= stacks[i]
    ensures Sum(stacks) - Sum(Drain(stacks, cost)) == if cost <= 0 then 0 else Min(cost, Sum(stacks))
  {
    if cost > 0 && stacks != [] {
      var take := Min(cost, stacks[0]);
      var rest := Drain(stacks[1..], cost - take);
      DrainRemovesCost(stacks[1..], cost - take);
      DrainHead(stacks, cost);
      assert Drain(stacks, cost)[1..] == rest;
    }
  }

  /** Greedy in list order: a stack is drawn from only once every earlier stack is empty. */
  lemma {:induction false} DrainIsGreedy(stacks: seq<nat>, cost: int, i: nat, j: nat)
    requires i < j < |stacks|
    requires Drain(stacks, cost)[j] < stacks[j]
    ensures Drain(stacks, cost)[i] == 0
  {
    var take := Min(cost, stacks[0]);
    DrainHead(stacks, cost);
    var rest := Drain(stacks[1..], cost - take);
    assert rest[j - 1] < stacks[1..][j - 1];
    if i > 0 {
      DrainIsGreedy(stacks[1..], cost - take, i - 1, j - 1);
    }
  }

  /**
   * One turn of the payment loop: taking `min(remaining, stack)` from the
   * first non-empty stack leaves the greedy outcome unchanged.
   */
  lemma {:induction false} DrainFromFirstNonEmpty(stacks: seq<nat>, remaining: int, i: nat)
    requires remaining > 0
    requires FirstNonEmpty(stacks) == Some(i)
    ensures i < |stacks|
    ensures Drain(stacks[i := stacks[i] - Min(remaining, stacks[i])], remaining - Min(remaining, stacks[i]))
            == Drain(stacks, remaining)
  {
    var num := Min(remaining, stacks[i]);
    var after := stacks[i := stacks[i] - num];
    if i == 0 {
      DrainHead(stacks, remaining);
      assert after[1..] == stacks[1..];
      if remaining - num > 0 {
        assert after[0] == 0;
        DrainHead(after, remaining - num);
      } else {
        assert after == [stacks[0] - num] + stacks[1..];
      }
    } else {
      assert FirstNonEmpty(stacks[1..]) == Some(i - 1);
      DrainFromFirstNonEmpty(stacks[1..], remaining, i - 1);
      assert after[1..] == stacks[1..][i - 1 := stacks[i] - num];
      DrainHead(stacks, remaining);
      if remaining - num > 0 {
        DrainHead(after, remaining - num);
      } else {
        assert after == [0] + after[1..];
      }
    }
  }

  /**
   * The `while (remainingCost > 0)` loop: repeatedly split
   * `min(remainingCost, stackCount)` off the first stack that still holds
   * silver. `paid` is false where `First` would throw because every stack is
   * empty; the silver removed before that point stays removed.
   */
  method PaySilver(stacks: array<nat>, cost: int) returns (paid: bool)
    modifies stacks
    ensures stacks[..] == Drain(old(stacks[..]), cost)
    ensures paid <==> cost <= Sum(old(stacks[..]))
  {
    var remaining := cost;
    while remaining > 0
      invariant remaining == cost || 0 <= remaining
      invariant Drain(stacks[..], remaining) == Drain(old(stacks[..]), cost)
      invariant Sum(old(stacks[..])) - Sum(stacks[..]) == cost - remaining
      decreases remaining
    {
      var first := FirstNonEmpty(stacks[..]);
      if first.None? {
        ghost var now := stacks[..];
        DrainRemovesCost(now, remaining);
        assert Drain(now, remaining) == now;
        return false;
      }
      var i := first.value;
      var num := Min(remaining, stacks[i]);
      DrainFromFirstNonEmpty(stacks[..], remaining, i);
      SumUpdate(stacks[..], i, stacks[i] - num);
      stacks[i] := stacks[i] - num;
      remaining := remaining - num;
    }
    return true;
  }
}
