/** Money amounts and pools of amounts, one signed number per currency.

  A pool is kept as the map of its entries. The entries of value zero that the
  source leaves in a pool are entries of the map too; comparing two pools is
  pointwise (`Same`), so that an absent entry and a zero entry compare equal.
  CurrencyPoolList.dfy has the sorted list the source keeps and shows that its
  loops compute the functions below.
 */
module Currency {
  import opened Common

  /** A currency code is its 32-bit number; pools are sorted by it. */
  type Code = nat

  const CC_NONE: Code := 0x4E4F4E45
  const CC_USD: Code := 0x55534400
  const CC_EUR: Code := 0x45555200
  const CC_IMP: Code := 0x494D5000
  const CC_CLK: Code := 0x434C4B00

  datatype Amount = Amount(code: Code, value: int)

  const NOTHING := Amount(CC_NONE, 0)

  /** The difference of two amounts; None when two nonzero amounts of different
      currencies are subtracted, which the source refuses with an assertion. */
  function Minus(a: Amount, b: Amount): Option<Amount> {
    if b.value == 0 then Some(a)
    else if a.value == 0 then Some(Amount(b.code, -b.value))
    else if a.code != b.code then None
    else Some(Amount(a.code, a.value - b.value))
  }

  type Pool = map<Code, int>

  function At(p: Pool, c: Code): int {
    if c in p then p[c] else 0
  }

  /** What an amount contributes to currency c. */
  function Share(a: Amount, c: Code): int {
    if a.code == c then a.value else 0
  }

  function Single(a: Amount): (r: Pool)
    ensures forall c {:trigger At(r, c)} :: At(r, c) == Share(a, c)
  {
    if a.value == 0 then map[] else map[a.code := a.value]
  }

  function AddAmount(p: Pool, a: Amount): (r: Pool)
    ensures forall c {:trigger At(r, c)} :: At(r, c) == At(p, c) + Share(a, c)
  {
    if a.value == 0 then p else p[a.code := At(p, a.code) + a.value]
  }

  function SubAmount(p: Pool, a: Amount): (r: Pool)
    ensures forall c {:trigger At(r, c)} :: At(r, c) == At(p, c) - Share(a, c)
  {
    AddAmount(p, Amount(a.code, -a.value))
  }

  function Add(p: Pool, q: Pool): (r: Pool)
    ensures forall c {:trigger At(r, c)} :: At(r, c) == At(p, c) + At(q, c)
  {
    map c | c in p.Keys + q.Keys && (c in p || q[c] != 0) :: At(p, c) + At(q, c)
  }

  function Sub(p: Pool, q: Pool): (r: Pool)
    ensures forall c {:trigger At(r, c)} :: At(r, c) == At(p, c) - At(q, c)
  {
    map c | c in p.Keys + q.Keys && (c in p || q[c] != 0) :: At(p, c) - At(q, c)
  }

  /** `other` capped by p, over the entries of `other` only. */
  function Limit(p: Pool, other: Pool): (r: Pool)
    ensures forall c {:trigger At(r, c)} :: At(r, c) == if c in other then Min(At(p, c), other[c]) else 0
  {
    map c | c in other && Min(At(p, c), other[c]) != 0 :: Min(At(p, c), other[c])
  }

  function NonNegative(p: Pool): (r: Pool)
    ensures forall c {:trigger At(r, c)} :: At(r, c) == Max(At(p, c), 0)
  {
    map c | c in p && p[c] >= 0 :: p[c]
  }

  predicate IsNonNegative(p: Pool) {
    forall c | c in p :: p[c] >= 0
  }

  lemma NonNegativeAt(p: Pool)
    ensures IsNonNegative(p) <==> forall c :: At(p, c) >= 0
  {
    if forall c :: At(p, c) >= 0 {
      forall c | c in p ensures p[c] >= 0 {
        assert At(p, c) >= 0;
      }
    }
  }

  ghost predicate Same(p: Pool, q: Pool) {
    forall c :: At(p, c) == At(q, c)
  }

  /** `operator ==`: the entries of either side agree with the other side. */
  predicate Equal(p: Pool, q: Pool)
    ensures Equal(p, q) <==> Same(p, q)
  {
    assert Same(p, q) ==> forall c | c in p :: At(q, c) == At(p, c);
    assert Same(p, q) ==> forall c | c in q :: At(p, c) == At(q, c);
    (forall c | c in p :: At(q, c) == p[c]) && (forall c | c in q :: At(p, c) == q[c])
  }

  predicate HasAvailable(p: Pool, a: Amount) {
    At(p, a.code) >= a.value
  }

  /** `isSameOrPastVersion`: no entry of p is below the other pool's. Entries of
      the other pool that p lacks are not looked at. */
  predicate Covers(p: Pool, other: Pool) {
    forall c | c in p :: p[c] >= At(other, c)
  }

  /** A pool written to JSON and read back loses its zero entries. */
  function Normal(p: Pool): (r: Pool)
    ensures forall c {:trigger At(r, c)} :: At(r, c) == At(p, c)
  {
    map c | c in p && p[c] != 0 :: p[c]
  }
}
