// Machine-width integers, byte strings and the two wrapper types shared by every module.

module Prelude {

  newtype u8 = x: int | 0 <= x < 0x100
  type u32 = x: int | 0 <= x < 0x1_0000_0000
  type u64 = x: int | 0 <= x < 0x1_0000_0000_0000_0000

  type bytes = seq<u8>

  datatype Option<+T> = None | Some(value: T)

  datatype Result<+T, +E> = Ok(value: T) | Err(error: E)

  // ---------------------------------------------------------------------
  // Concatenation of a sequence of parts
  // ---------------------------------------------------------------------

  function Concat<T>(parts: seq<seq<T>>): seq<T> {
    if parts == [] then [] else parts[0] + Concat(parts[1..])
  }

  lemma {:induction false} ConcatAppend<T>(a: seq<seq<T>>, b: seq<seq<T>>)
    ensures Concat(a + b) == Concat(a) + Concat(b)
  {
    if a == [] {
      assert a + b == b;
    } else {
      ConcatAppend(a[1..], b);
      var c := a + b;
      assert c[0] == a[0] && c[1..] == a[1..] + b;
      calc {
        Concat(c);
        a[0] + Concat(c[1..]);
        a[0] + (Concat(a[1..]) + Concat(b));
        (a[0] + Concat(a[1..])) + Concat(b);
      }
    }
  }

  lemma {:induction false} ConcatSnoc<T>(a: seq<seq<T>>, x: seq<T>)
    ensures Concat(a + [x]) == Concat(a) + x
  {
    ConcatAppend(a, [x]);
    assert Concat([x]) == x + Concat([x][1..]) == x;
  }

  lemma ConcatCons<T>(x: seq<T>, xs: seq<seq<T>>)
    ensures Concat([x] + xs) == x + Concat(xs)
  {
    assert ([x] + xs)[1..] == xs;
  }

  // The results of `f` on each element, joined in order.
  function FlatMap<S, T>(f: S -> seq<T>, xs: seq<S>): seq<T> {
    if xs == [] then [] else f(xs[0]) + FlatMap(f, xs[1..])
  }

  lemma {:induction false} FlatMapAppend<S, T>(f: S -> seq<T>, a: seq<S>, b: seq<S>)
    ensures FlatMap(f, a + b) == FlatMap(f, a) + FlatMap(f, b)
  {
    if a == [] {
      assert a + b == b;
    } else {
      var c := a + b;
      assert c[0] == a[0] && c[1..] == a[1..] + b;
      FlatMapAppend(f, a[1..], b);
      Assoc(f(a[0]), FlatMap(f, a[1..]), FlatMap(f, b));
    }
  }

  lemma FlatMapOne<S, T>(f: S -> seq<T>, x: S)
    ensures FlatMap(f, [x]) == f(x)
  {
    assert [x][1..] == [];
    assert f(x) + [] == f(x);
  }

  lemma Assoc<T>(a: seq<T>, b: seq<T>, c: seq<T>)
    ensures (a + b) + c == a + (b + c)
  {}

  function Iterate<T>(f: T -> T, x: T, n: nat): T {
    if n == 0 then x else f(Iterate(f, x, n - 1))
  }

  lemma {:induction false} IterateSum<T>(f: T -> T, x: T, a: nat, b: nat)
    ensures Iterate(f, Iterate(f, x, a), b) == Iterate(f, x, a + b)
    decreases b
  {
    if b > 0 {
      IterateSum(f, x, a, b - 1);
    }
  }

  // `xs` are the successive iterates from `start`, and `next` is the one after them.
  ghost predicate Chain<T(!new)>(f: T -> T, start: T, xs: seq<T>, next: T) {
    && next == Iterate(f, start, |xs|)
    && forall k :: 0 <= k < |xs| ==> xs[k] == Iterate(f, start, k)
  }

  lemma ChainAppend<T(!new)>(f: T -> T, start: T, a: seq<T>, mid: T, b: seq<T>, next: T)
    requires Chain(f, start, a, mid) && Chain(f, mid, b, next)
    ensures Chain(f, start, a + b, next)
  {
    IterateSum(f, start, |a|, |b|);
    forall k | |a| <= k < |a + b| ensures (a + b)[k] == Iterate(f, start, k) {
      IterateSum(f, start, |a|, k - |a|);
    }
  }

  // ---------------------------------------------------------------------
  // Fixed-width unsigned integers on the wire
  // ---------------------------------------------------------------------

  datatype Endian = Little | Big

  function Pow256(k: nat): (p: nat)
    ensures p > 0
  {
    if k == 0 then 1 else 256 * Pow256(k - 1)
  }

  // The low `k` bytes of `n`.
  function EncodeUInt(e: Endian, n: nat, k: nat): (b: bytes)
    ensures |b| == k
  {
    if k == 0 then []
    else if e.Little? then [(n % 256) as u8] + EncodeUInt(e, n / 256, k - 1)
    else EncodeUInt(e, n / 256, k - 1) + [(n % 256) as u8]
  }

  function DecodeUInt(e: Endian, b: bytes): nat {
    if b == [] then 0
    else if e.Little? then b[0] as int + 256 * DecodeUInt(e, b[1..])
    else b[|b| - 1] as int + 256 * DecodeUInt(e, b[..|b| - 1])
  }

  // `n` without its lowest `i` bytes.
  function Shifted(n: nat, i: nat): nat {
    if i == 0 then n else Shifted(n / 256, i - 1)
  }

  // Which byte of a number stands where: the lowest first, or last.
  lemma {:induction false} ByteOf(e: Endian, n: nat, k: nat, i: nat)
    requires i < k
    ensures var at := if e.Little? then i else k - 1 - i;
            EncodeUInt(e, n, k)[at] as int == Shifted(n, i) % 256
  {
    if i > 0 {
      ByteOf(e, n / 256, k - 1, i - 1);
    }
  }

  lemma {:induction false} DecodeUIntBound(e: Endian, b: bytes)
    ensures DecodeUInt(e, b) < Pow256(|b|)
  {
    if b != [] {
      DecodeUIntBound(e, if e.Little? then b[1..] else b[..|b| - 1]);
    }
  }

  // A value that fits its width survives the trip in either byte order.
  lemma {:induction false} UIntRoundTrip(e: Endian, n: nat, k: nat)
    requires n < Pow256(k)
    ensures DecodeUInt(e, EncodeUInt(e, n, k)) == n
  {
    if k > 0 {
      var b := EncodeUInt(e, n, k);
      UIntRoundTrip(e, n / 256, k - 1);
      if e.Little? {
        assert b[1..] == EncodeUInt(e, n / 256, k - 1);
      } else {
        assert b[..|b| - 1] == EncodeUInt(e, n / 256, k - 1);
      }
    }
  }

  lemma Pow256Small()
    ensures Pow256(1) == 0x100
    ensures Pow256(2) == 0x1_0000
    ensures Pow256(4) == 0x1_0000_0000
    ensures Pow256(8) == 0x1_0000_0000_0000_0000
  {
    assert Pow256(0) == 1;
    assert Pow256(3) == 256 * Pow256(2);
    assert Pow256(5) == 256 * Pow256(4);
    assert Pow256(6) == 256 * Pow256(5);
    assert Pow256(7) == 256 * Pow256(6);
  }
}
