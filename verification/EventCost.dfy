/** Cost vectors in place (callgrind/events.c): arrays of event counts, allocated on first use. These methods stand
    alone: CallStack holds its costs as values and updates them with the functions of CallModel that the loops here
    are proved against. */
module EventCost {
  import opened CallModel

  /** What a lazily allocated vector stands for: nothing yet is all zeros. */
  ghost function ValueOf(cost: array?<nat>, n: nat): Cost
    reads cost
  {
    if cost == null then Zeros(n) else cost[..]
  }

  method InitCost(cost: array?<nat>)
    modifies cost
    ensures cost != null ==> cost[..] == Zeros(cost.Length)
  {
    if cost == null {
      return;
    }
    for i := 0 to cost.Length
      invariant forall k :: 0 <= k < i ==> cost[k] == 0
    {
      cost[i] := 0;
    }
  }

  method IsZeroCost(cost: array?<nat>, n: nat) returns (zero: bool)
    requires cost != null ==> cost.Length == n
    ensures zero <==> ValueOf(cost, n) == Zeros(n)
  {
    if cost == null {
      return true;
    }
    for i := 0 to n
      invariant forall k :: 0 <= k < i ==> cost[k] == 0
    {
      if cost[i] != 0 {
        assert cost[..][i] != Zeros(n)[i];
        return false;
      }
    }
    return true;
  }

  /** copy_cost_lz: dst takes the value of src, where there is one; with no source, dst is zeroed. */
  method CopyCostLz(pdst: array?<nat>, src: array?<nat>, n: nat) returns (dst: array?<nat>)
    requires pdst != null ==> pdst.Length == n
    requires src != null ==> src.Length == n && src != pdst
    modifies pdst
    ensures pdst != null ==> dst == pdst
    ensures dst != null ==> dst.Length == n && (dst == pdst || fresh(dst))
    ensures ValueOf(dst, n) == ValueOf(src, n)
    ensures src != null ==> dst != null && src[..] == old(src[..])
  {
    dst := pdst;
    if src == null {
      InitCost(dst);
      return;
    }
    if dst == null {
      dst := new nat[n];
    }
    for i := 0 to n
      invariant forall k :: 0 <= k < i ==> dst[k] == src[k]
      invariant src[..] == old(src[..])
    {
      dst[i] := src[i];
    }
  }

  /** add_diff_cost_lz: what newCost is ahead of since is added to the vector, since catches up with
      newCost, and the result says whether anything was added. */
  method AddDiffCostLz(pdst: array?<nat>, since: array<nat>, newCost: array<nat>) returns (dst: array<nat>, changed: bool)
    requires pdst != null ==> pdst.Length == since.Length && pdst != since && pdst != newCost
    requires since != newCost && AtMost(since[..], newCost[..])
    modifies pdst, since
    ensures dst.Length == since.Length && (dst == pdst || (pdst == null && fresh(dst)))
    ensures dst[..] == AddDiff(old(ValueOf(pdst, since.Length)), old(since[..]), newCost[..])
    ensures since[..] == newCost[..] == old(newCost[..])
    ensures changed <==> old(since[..]) != newCost[..]
  {
    var n := since.Length;
    if pdst == null {
      dst := new nat[n];
      InitCost(dst);
    } else {
      dst := pdst;
    }
    ghost var before := dst[..];
    ghost var was := since[..];
    assert before == old(ValueOf(pdst, n));
    changed := false;
    for i := 0 to n
      invariant newCost[..] == old(newCost[..]) && AtMost(was, newCost[..])
      invariant forall k :: 0 <= k < i ==> dst[k] == before[k] + (newCost[k] - was[k]) && since[k] == newCost[k]
      invariant forall k :: i <= k < n ==> dst[k] == before[k] && since[k] == was[k]
      invariant changed <==> exists k :: 0 <= k < i && was[k] != newCost[k]
    {
      if newCost[i] == since[i] {
        continue;
      }
      assert was[i] <= newCost[..][i];
      dst[i] := dst[i] + (newCost[i] - since[i]);
      since[i] := newCost[i];
      changed := true;
    }
    assert dst[..] == AddDiff(before, was, newCost[..]);
    if !changed {
      assert was == newCost[..];
    } else {
      ghost var k :| 0 <= k < n && was[k] != newCost[k];
      assert was[k] != newCost[..][k];
    }
  }
}
