/** `ensure_unique_priority`: a priority that no candidate of the component has. */
module UniquePriority {
  import opened SeqNum

  /** The number of values that a priority may have: zero is not one of them. */
  const VALUES: int := MODULUS - 1

  /** The value reached from the non-zero `x` after `n` steps down, over the non-zero values. */
  function Down(x: u32, n: nat): (r: u32)
    requires x != 0
    ensures r != 0
  {
    (x - 1 - n) % VALUES + 1
  }

  lemma DownSteps(x: u32, n: nat)
    requires x != 0
    ensures Down(x, 0) == x
    ensures Down(x, n + 1) == if Down(x, n) == 1 then VALUES else Down(x, n) - 1
  {
  }

  lemma DownIsNew(x: u32, i: nat, n: nat)
    requires x != 0 && i < n < VALUES
    ensures Down(x, i) != Down(x, n)
  {
  }

  /** The non-zero values that are taken. */
  function Taken(local: seq<u32>, prflx: seq<u32>): set<u32> {
    (set i | 0 <= i < |local| :: local[i]) + (set i | 0 <= i < |prflx| :: prflx[i]) - {0}
  }

  /** `local`: the priorities of the local candidates; `prflx`: the prflx_priority of the pairs of
      the component.  The result is the first free non-zero value, cyclically down from `start`.
      When all are taken there is none, and the code does not return. */
  method EnsureUnique(local: seq<u32>, prflx: seq<u32>, start: u32) returns (priority: u32, ghost steps: nat)
    requires |Taken(local, prflx)| < VALUES
    ensures priority != 0 && priority !in local && priority !in prflx
    ensures var first := if start == 0 then VALUES else start;
            && priority == Down(first, steps)
            && forall i :: 0 <= i < steps ==> Down(first, i) in Taken(local, prflx)
  {
    ghost var first: u32 := if start == 0 then VALUES else start;
    ghost var taken := Taken(local, prflx);
    ghost var seen: set<u32> := {};
    priority, steps := start, 0;
    DownSteps(first, 0);
    while true
      invariant first == if start == 0 then VALUES else start
      invariant priority == Down(first, steps) || (priority == 0 && Down(first, steps) == VALUES)
      invariant seen <= taken && |seen| == steps <= |taken|
      invariant forall i :: 0 <= i < steps ==> Down(first, i) in taken
      invariant forall y :: y in seen ==> exists i :: 0 <= i < steps && Down(first, i) == y
      decreases |taken| - steps
    {
      if priority == 0 {
        priority := VALUES;
      }
      if priority !in local && priority !in prflx {
        return;
      }
      assert priority in taken;
      assert priority !in seen by {
        if priority in seen {
          var i :| 0 <= i < steps && Down(first, i) == priority;
          DownIsNew(first, i, steps);
        }
      }
      Cardinality(seen + {priority}, taken);
      DownSteps(first, steps);
      seen, steps, priority := seen + {priority}, steps + 1, priority - 1;
    }
  }

  lemma {:induction false} Cardinality(a: set<u32>, b: set<u32>)
    requires a <= b
    ensures |a| <= |b|
  {
    assert b == a + (b - a);
  }
}
