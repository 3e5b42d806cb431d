/** Small datatypes and sequence facts shared by the other modules. */
module Common {

  datatype Option<+T> = None | Some(value: T)

  datatype Result<+T, +E> = Ok(value: T) | Err(error: E)

  function Max(a: int, b: int): int { if a < b then b else a }

  function Min(a: int, b: int): int { if b < a then b else a }

  predicate NoDup<T(==)>(s: seq<T>) {
    forall i, j | 0 <= i < j < |s| :: s[i] != s[j]
  }

  lemma MulSucc(n: int, d: int)
    ensures (n + 1) * d == n * d + d
  {
  }

  lemma {:induction false} MulNonNegative(n: nat, d: nat)
    ensures n * d >= 0
  {
  }

  lemma MultipleOutside(k: int, d: nat)
    ensures k >= 1 ==> k * d >= d
    ensures k <= -1 ==> k * d + d <= 0
  {
    if k >= 1 {
      MulNonNegative(k - 1, d);
      MulSucc(k - 1, d);
    } else if k <= -1 {
      MulNonNegative(-k - 1, d);
      MulSucc(-k - 1, d);
    }
  }

  /** Quotient and remainder are determined by x = q * d + r with 0 <= r < d. */
  lemma DivisionIs(x: int, d: nat, q: int, r: nat)
    requires r < d && x == q * d + r
    ensures x / d == q && x % d == r
  {
    MultipleOutside(x / d - q, d);
    assert (x / d - q) * d == (x / d) * d - q * d;
  }

  /** `s[:n]`. */
  function Cut(s: string, n: nat): string { if |s| <= n then s else s[..n] }

  lemma SubsetSize<T>(a: set<T>, b: set<T>)
    requires a <= b
    ensures |a| <= |b| && (|a| == |b| <==> a == b)
  {
    assert b == a + (b - a);
    assert |b| == |a| + |b - a|;
  }
}
