// Optional values, the smaller and larger of two numbers, sequences put together, and places on a wheel.
module Basics {

  datatype Option<+T> = None | Some(value: T)

  function Min(a: nat, b: nat): nat { if a < b then a else b }

  function Max(a: nat, b: nat): nat { if a > b then a else b }

  lemma Reassociate<T>(a: seq<T>, b: seq<T>, c: seq<T>)
    ensures (a + b) + c == a + (b + c)
  {
  }

  // ------------------------------------------------------------------ places on a wheel of m buckets

  lemma SpotMod(k: nat, d: nat, m: nat)
    requires k < m && d <= m
    ensures (k + d) % m == if k + d < m then k + d else k + d - m
  {
    if k + d >= m {
      ModSub(k + d - m, m);
    }
  }

  lemma ModSub(r: nat, m: nat)
    requires r < m
    ensures (r + m) % m == r
  {
  }

  /** The bucket at offset d from bucket k. */
  function Spot(k: nat, d: nat, m: nat): (i: nat)
    requires k < m && d <= m
    ensures i < m
  {
    if k + d < m then k + d else k + d - m
  }

  /** After a drain every bucket is one step nearer, and the one just drained is the farthest. */
  lemma SpotNext(k: nat, m: nat, j: nat)
    requires k < m && 2 <= m && j < m
    ensures Spot(Spot(k, 1, m), j, m) == if j == m - 1 then k else Spot(k, j + 1, m)
  {
  }
}
