/** The priority of a candidate pair: `nice_candidate_pair_priority`, in 32- and 64-bit arithmetic. */
module PairPriority {
  import opened SeqNum

  const TWO64: int := MODULUS * MODULUS

  function Max32(a: u32, b: u32): u32 {
    if a > b then a else b
  }

  function Min32(a: u32, b: u32): u32 {
    if a < b then a else b
  }

  /** `2 * max` is a 32-bit product; the sum is a 64-bit one. */
  function Priority(o: u32, a: u32): nat {
    (MODULUS * Min32(o, a) + Wrap(2 * Max32(o, a)) + if o > a then 1 else 0) % TWO64
  }

  /** The formula of section 5.7.2 of RFC 5245. */
  function Formula(o: u32, a: u32): nat {
    if o > a then 0x1_0000_0000 * a + 2 * o + 1 else 0x1_0000_0000 * o + 2 * a
  }

  lemma PriorityValue(o: u32, a: u32)
    ensures Priority(o, a) == MODULUS * Min32(o, a) + Wrap(2 * Max32(o, a)) + if o > a then 1 else 0
  {
  }

  /** The code computes the formula exactly when both priorities are below 2^31. */
  lemma PriorityIsFormula(o: u32, a: u32)
    ensures Priority(o, a) == Formula(o, a) <==> Max32(o, a) < HALF
  {
  }

  /** Below 2^31 the priority tells which pair it is of. */
  lemma PriorityIsInjective(o: u32, a: u32, o': u32, a': u32)
    requires o < HALF && a < HALF && o' < HALF && a' < HALF
    requires Priority(o, a) == Priority(o', a')
    ensures o == o' && a == a'
  {
    PriorityValue(o, a);
    PriorityValue(o', a');
    var m: int, m': int := Min32(o, a), Min32(o', a');
    var low, low' := 2 * Max32(o, a) + (if o > a then 1 else 0), 2 * Max32(o', a') + (if o' > a' then 1 else 0);
    assert MODULUS * (m - m') == low' - low;
    assert m == m' && low == low';
  }

  /** From 2^31 on it does not: adding 2^31 to the larger priority changes nothing. */
  lemma PriorityCollides(o: u32, a: u32)
    requires a < o < HALF
    ensures Priority(o + HALF, a) == Priority(o, a)
  {
    PriorityValue(o, a);
    PriorityValue(o + HALF, a);
    assert Wrap(2 * (o + HALF)) == Wrap(2 * o);
  }

  /** The order that RFC 5245 gives: by the smaller priority, then by the larger, then the
      controlling side's. */
  predicate Above(o: u32, a: u32, o': u32, a': u32) {
    || Min32(o, a) > Min32(o', a')
    || (Min32(o, a) == Min32(o', a') && Max32(o, a) > Max32(o', a'))
    || (Min32(o, a) == Min32(o', a') && Max32(o, a) == Max32(o', a') && o > a && o' <= a')
  }

  lemma PriorityOrders(o: u32, a: u32, o': u32, a': u32)
    requires o < HALF && a < HALF && o' < HALF && a' < HALF
    ensures Priority(o, a) > Priority(o', a') <==> Above(o, a, o', a')
  {
    PriorityValue(o, a);
    PriorityValue(o', a');
    var m: int, m': int := Min32(o, a), Min32(o', a');
    var low, low' := 2 * Max32(o, a) + (if o > a then 1 else 0), 2 * Max32(o', a') + (if o' > a' then 1 else 0);
    assert Priority(o, a) - Priority(o', a') == MODULUS * (m - m') + low - low';
    if m > m' {
      assert MODULUS * (m - m') >= MODULUS;
    } else if m < m' {
      assert MODULUS * (m - m') <= -MODULUS;
    }
  }

  /** `agent_candidate_pair_priority`: the controlling agent's candidate comes first. */
  function OfPair(controlling: bool, local: u32, remote: u32): nat {
    if controlling then Priority(local, remote) else Priority(remote, local)
  }

  /** Below 2^31 it is the formula with G the controlling agent's candidate and D the controlled one's. */
  lemma OfPairIsFormula(local: u32, remote: u32)
    requires local < HALF && remote < HALF
    ensures OfPair(true, local, remote) == Formula(local, remote) && OfPair(false, local, remote) == Formula(remote, local)
  {
    PriorityIsFormula(local, remote);
    PriorityIsFormula(remote, local);
  }

  /** Two agents in opposite roles give the two views of a pair the same priority, whatever the
      priorities of its candidates. */
  lemma MirroredPairsAgree(controlling: bool, mine: u32, theirs: u32)
    ensures OfPair(controlling, mine, theirs) == OfPair(!controlling, theirs, mine)
  {
  }
}
