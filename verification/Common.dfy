/** Shared vocabulary: optional values, the gRPC status codes the handlers return,
    Go's 64-bit arithmetic and sums over finite maps. */
module Common {

  type Bytes = seq<bv8>

  datatype Option<+T> = None | Some(value: T)

  /** The status codes the handlers answer with; `Panic` is a nil dereference in the Go code. */
  datatype Status = InvalidArgument | NotFound | PermissionDenied | Internal | Panic

  datatype Result<+T> = Ok(value: T) | Err(status: Status)

  const TWO_63 := 0x8000_0000_0000_0000
  const MAX_INT64 := TWO_63 - 1

  predicate IsInt64(x: int) {
    -TWO_63 <= x < TWO_63
  }

  /** Go's wrap-around of an integer result to int64. */
  function Wrap64(x: int): (r: int)
    ensures IsInt64(r)
    ensures IsInt64(x) ==> r == x
  {
    (x + TWO_63) % (2 * TWO_63) - TWO_63
  }

  /** A stored Redis key together with the last millisecond at which it can be read. */
  datatype Cell<+T> = Cell(value: T, expiry: int)

  /** Redis removes a key once the clock is strictly past its expiry. */
  predicate Alive(now: int, expiry: int) {
    now <= expiry
  }

  function Take<T>(s: seq<T>, n: nat): (r: seq<T>)
    ensures |r| <= n && r <= s
    ensures |r| == n || r == s
  {
    if |s| <= n then s else s[..n]
  }

  function Iterate<T>(f: T -> T, x: T, k: nat): T {
    if k == 0 then x else f(Iterate(f, x, k - 1))
  }

  /** Iterating `f` from `g(0)` follows `g`, if each step of `f` does. */
  lemma {:induction false} IterateFollows<T>(f: T -> T, g: nat -> T, k: nat)
    requires forall j: nat {:trigger f(g(j))} :: f(g(j)) == g(j + 1)
    ensures Iterate(f, g(0), k) == g(k)
  {
    if k > 0 {
      IterateFollows(f, g, k - 1);
    }
  }

  /** The sum of the values of a finite map. */
  ghost function Sum(m: map<string, int>): int {
    if m == map[] then 0
    else
      var k :| k in m;
      m[k] + Sum(m - {k})
  }

  lemma {:induction false} SumRemove(m: map<string, int>, k: string)
    requires k in m
    ensures Sum(m) == m[k] + Sum(m - {k})
    decreases |m|
  {
    var p :| p in m && Sum(m) == m[p] + Sum(m - {p});
    if p != k {
      SumRemove(m - {p}, k);
      SumRemove(m - {k}, p);
      assert m - {p} - {k} == m - {k} - {p};
    }
  }

  lemma SumUpdate(m: map<string, int>, k: string, v: int)
    ensures Sum(m[k := v]) == Sum(m) + v - (if k in m then m[k] else 0)
  {
    SumRemove(m[k := v], k);
    assert m[k := v] - {k} == m - {k};
    if k in m {
      SumRemove(m, k);
    } else {
      assert m - {k} == m;
    }
  }

  lemma {:induction false} SumMonotone(a: map<string, int>, b: map<string, int>)
    requires a.Keys == b.Keys
    requires forall k :: k in a ==> a[k] <= b[k]
    ensures Sum(a) <= Sum(b)
    decreases |a|
  {
    if a == map[] {
      assert b.Keys == {};
      assert b == map[];
    } else {
      var k :| k in a;
      SumRemove(a, k);
      SumRemove(b, k);
      SumMonotone(a - {k}, b - {k});
    }
  }
}
