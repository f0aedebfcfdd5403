/** Types shared by every module of the model. */
module Common {

  /** A value that may be absent: SQL NULL, a missing row, Go's nil pointer. */
  datatype Option<+T> = None | Some(value: T)

  const MAX_INT64: int := 0x7fff_ffff_ffff_ffff
  const MIN_INT64: int := -0x8000_0000_0000_0000

  /** Two's-complement wrap-around of Go's 64-bit integers. */
  function Wrap64(n: int): (r: int)
    ensures MIN_INT64 <= r <= MAX_INT64
    ensures MIN_INT64 <= n <= MAX_INT64 ==> r == n
  {
    (n - MIN_INT64) % 0x1_0000_0000_0000_0000 + MIN_INT64
  }
}

/**
 Instants are nanoseconds since the Unix epoch, as in Go's time.Time; what the
 database stores is the instant floored to whole seconds.
 */
module Clock {
  const SECOND: int := 1_000_000_000

  /** time.Time.Unix: the floor, also for instants before the epoch. */
  function Unix(t: int): int { t / SECOND }

  /** A later floored second proves a later instant. */
  lemma UnixReflectsOrder(a: int, b: int)
    requires Unix(a) < Unix(b)
    ensures a < b
  {
  }

  lemma UnixMonotone(a: int, b: int)
    requires a <= b
    ensures Unix(a) <= Unix(b)
  {
  }
}

/** Sequences seen as sets. */
module Sequences {

  predicate Distinct<T(==)>(s: seq<T>) {
    forall i, j | 0 <= i < j < |s| :: s[i] != s[j]
  }

  function Elements<T>(s: seq<T>): set<T> { set x | x in s }

  lemma ElementsSnoc<T>(s: seq<T>, x: T)
    ensures Elements(s + [x]) == Elements(s) + {x}
  {
  }

  lemma ElementsConcat<T>(a: seq<T>, b: seq<T>)
    ensures Elements(a + b) == Elements(a) + Elements(b)
  {
  }

  lemma {:induction false} DistinctSize<T>(s: seq<T>)
    requires Distinct(s)
    ensures |Elements(s)| == |s|
  {
    if s != [] {
      var front, x := s[..|s| - 1], s[|s| - 1];
      assert s == front + [x];
      ElementsSnoc(front, x);
      DistinctSize(front);
      assert x !in Elements(front);
    }
  }

  /** Splitting a listing without repetitions splits its elements. */
  lemma DistinctSplit<T>(s: seq<T>, k: nat)
    requires Distinct(s) && k <= |s|
    ensures Elements(s) - Elements(s[..k]) == Elements(s[k..])
    ensures |Elements(s[k..])| == |s| - k
  {
    assert s == s[..k] + s[k..];
    ElementsConcat(s[..k], s[k..]);
    forall x | x in Elements(s[k..]) ensures x !in Elements(s[..k]) {
      var j :| k <= j < |s| && s[j] == x;
    }
    DistinctSize(s[k..]);
  }

  lemma SubsetSmaller<T>(a: set<T>, b: set<T>)
    requires a <= b
    ensures |a| <= |b|
  {
    assert b == a + (b - a);
  }

  /** A number above every one in the set. */
  lemma {:induction false} FreshNat(ids: set<nat>) returns (id: nat)
    ensures id !in ids && forall x | x in ids :: x < id
    decreases ids
  {
    if x :| x in ids {
      var y := FreshNat(ids - {x});
      assert forall z | z in ids :: z == x || z in ids - {x};
      id := if x < y then y else x + 1;
    } else {
      id := 0;
    }
  }

  /** Some listing of a set; the order the database would sort by is not modelled. */
  method Listing<T(==)>(items: set<T>) returns (out: seq<T>)
    ensures Distinct(out) && Elements(out) == items
  {
    out := [];
    var rest := items;
    while rest != {}
      invariant rest <= items && Distinct(out) && Elements(out) == items - rest
      decreases rest
    {
      var c :| c in rest;
      ElementsSnoc(out, c);
      out, rest := out + [c], rest - {c};
    }
  }
}
