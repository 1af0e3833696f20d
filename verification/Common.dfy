/** Definitions and arithmetic that several modules use. */
module Common {
  datatype Option<T> = None | Some(value: T)

  const TWO64: nat := 0x1_0000_0000_0000_0000

  function Min(a: nat, b: nat): nat {
    if a < b then a else b
  }

  function Max(a: nat, b: nat): nat {
    if a < b then b else a
  }

  function Repeat<T>(x: T, n: nat): (s: seq<T>)
    ensures |s| == n && forall i | 0 <= i < n :: s[i] == x
  {
    if n == 0 then [] else Repeat(x, n - 1) + [x]
  }

  /** The bytes with src in place of those from `at` on. */
  function Patch(bytes: seq<nat>, at: nat, src: seq<nat>): (s: seq<nat>)
    requires at + |src| <= |bytes|
    ensures |s| == |bytes|
    ensures forall k | 0 <= k < |s| :: s[k] == if at <= k < at + |src| then src[k - at] else bytes[k]
  {
    bytes[..at] + src + bytes[at + |src|..]
  }

  function Pow2(n: nat): (p: nat)
    ensures p > 0
  {
    if n == 0 then 1 else 2 * Pow2(n - 1)
  }

  lemma {:induction false} Pow2Add(a: nat, b: nat)
    ensures Pow2(a + b) == Pow2(a) * Pow2(b)
  {
    if a > 0 {
      Pow2Add(a - 1, b);
      Double(Pow2(a - 1), Pow2(b));
    }
  }

  lemma Double(x: nat, y: nat)
    ensures (2 * x) * y == 2 * (x * y)
  {
  }

  lemma {:induction false} Pow2Mono(a: nat, b: nat)
    requires a <= b
    ensures Pow2(a) <= Pow2(b)
    decreases b - a
  {
    if a < b {
      Pow2Mono(a, b - 1);
    }
  }

  lemma MulMono(a: nat, b: nat, c: nat)
    requires a <= b
    ensures a * c <= b * c
  {
    assert b * c == a * c + (b - a) * c;
  }

  lemma MulAtLeast(d: int, b: int)
    requires b > 0
    ensures d >= 1 ==> d * b >= b
    ensures d <= -1 ==> d * b <= -b
  {
  }

  /** Quotient and remainder are what they have to be. */
  lemma DivUnique(a: nat, b: nat, q: nat, r: nat)
    requires b > 0 && r < b && a == q * b + r
    ensures a / b == q && a % b == r
  {
    var d := q - a / b;
    assert d * b == a % b - r;
    MulAtLeast(d, b);
  }

  function RoundDown(a: nat, b: nat): nat
    requires b > 0
  {
    a / b * b
  }

  lemma RoundDownIs(a: nat, b: nat)
    requires b > 0
    ensures RoundDown(a, b) % b == 0 && RoundDown(a, b) <= a < RoundDown(a, b) + b
  {
    DivUnique(RoundDown(a, b), b, a / b, 0);
  }

  lemma CardUnion<T>(s: set<T>, t: set<T>)
    ensures |s + t| <= |s| + |t|
  {
    assert s + t == s + (t - s) && |s + (t - s)| == |s| + |t - s| && |t - s| <= |t| by {
      assert t == (t - s) + (t * s);
    }
  }

  lemma {:induction false} RangeCard(s: set<nat>, lo: nat, n: nat)
    requires forall b | b in s :: lo <= b < lo + n
    ensures |s| <= n
  {
    if n > 0 {
      RangeCard(s - {lo + n - 1}, lo, n - 1);
      CardUnion(s - {lo + n - 1}, {lo + n - 1});
      assert s <= s - {lo + n - 1} + {lo + n - 1};
      CardSubset(s, s - {lo + n - 1} + {lo + n - 1});
    } else {
      assert s == {};
    }
  }

  lemma CardSubset<T>(s: set<T>, t: set<T>)
    requires s <= t
    ensures |s| <= |t|
  {
    assert t == s + (t - s);
  }
}
