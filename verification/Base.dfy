/** Names shared by every module: identifiers, optional values and Go's integer division. */
module Base {

  /** A uuid.UUID; 0 stands for uuid.Nil. */
  type Uuid = nat

  const NIL: Uuid := 0

  type Byte = x: int | 0 <= x < 256
  type Bytes = seq<Byte>

  datatype Option<+T> = None | Some(value: T)

  /** Nanoseconds in a millisecond and in a second: every clock reading is in nanoseconds. */
  const MILLI: int := 1_000_000
  const SECOND: int := 1_000_000_000

  /** Go's `/` on integers: the quotient is truncated toward zero. */
  function TruncDiv(a: int, b: int): int
    requires b > 0
  {
    if a >= 0 then a / b else -((-a) / b)
  }

  ghost predicate NoDup<T>(s: seq<T>) {
    forall i, j :: 0 <= i < j < |s| ==> s[i] != s[j]
  }

  function Elements<T(==)>(s: seq<T>): set<T> {
    set x | x in s
  }

  lemma {:induction false} NoDupSize<T>(s: seq<T>)
    requires NoDup(s)
    ensures |Elements(s)| == |s|
  {
    if s != [] {
      var n := |s| - 1;
      NoDupSize(s[..n]);
      assert s == s[..n] + [s[n]];
      assert Elements(s) == Elements(s[..n]) + {s[n]};
    }
  }

  lemma {:induction false} CountOnce<T>(s: seq<T>, x: T)
    requires NoDup(s)
    ensures multiset(s)[x] == if x in s then 1 else 0
  {
    if s != [] {
      var n := |s| - 1;
      CountOnce(s[..n], x);
      assert s == s[..n] + [s[n]];
    }
  }

  /** Lists without repeats that have the same elements are permutations of each other. */
  lemma SameElements<T>(a: seq<T>, b: seq<T>)
    requires NoDup(a) && NoDup(b) && Elements(a) == Elements(b)
    ensures multiset(a) == multiset(b)
  {
    forall x
      ensures multiset(a)[x] == multiset(b)[x]
    {
      CountOnce(a, x);
      CountOnce(b, x);
      assert x in a <==> x in Elements(a);
      assert x in b <==> x in Elements(b);
    }
  }

  // ----- division -----

  lemma AtLeastOnce(p: int, n: nat)
    requires p >= 1
    ensures p * n >= n
  {
    assert (p - 1) * n >= 0;
  }

  lemma Factor(p: int, q: int, n: int)
    ensures p * n - q * n == (p - q) * n
  {
  }

  lemma Quotient(a: nat, n: nat, q: nat, m: nat)
    requires m < n && a == q * n + m
    ensures a / n == q && a % n == m
  {
    var p, r := a / n, a % n;
    assert a == p * n + r;
    Factor(p, q, n);
    if p > q {
      AtLeastOnce(p - q, n);
    } else if p < q {
      Factor(q, p, n);
      AtLeastOnce(q - p, n);
    }
  }
}
