/** Shared vocabulary of the model: outcomes, the fixed-width integers of the
    source, and sequences built by concatenating one piece per element. */
module Common {

  /** An operation that either produces a value or fails with a reason. */
  datatype Result<+T, +E> = Ok(value: T) | Err(error: E)

  datatype Option<+T> = None | Some(value: T)

  /** An operation that either completes or fails with a reason. */
  datatype Outcome<+E> = Pass | Fail(error: E)

  /** Rust's fixed-width integer types. */
  newtype u32 = x: int | 0 <= x < 0x1_0000_0000
  newtype i32 = x: int | -0x8000_0000 <= x < 0x8000_0000
  newtype u64 = x: int | 0 <= x < 0x1_0000_0000_0000_0000

  /** Rust's `x as u32` on an unsigned value: keeps the low 32 bits, that is,
      the one `u32` that differs from `x` by a multiple of 2^32. */
  function TruncateU32(x: nat): (r: u32)
    ensures (x - r as int) % 0x1_0000_0000 == 0
    ensures x < 0x1_0000_0000 ==> r as int == x
  {
    (x % 0x1_0000_0000) as u32
  }

  /** The concatenation of `f(s[0]) + f(s[1]) + ...`, built from the last element
      backwards so that it matches a loop that appends one piece per element. */
  function ConcatMap<T, U>(s: seq<T>, f: T -> seq<U>): seq<U>
  {
    if s == [] then [] else ConcatMap(s[..|s| - 1], f) + f(s[|s| - 1])
  }

  /** A prefix one longer is the shorter prefix and the next element. */
  lemma {:induction false} PrefixSnoc<T>(s: seq<T>, i: nat)
    requires i < |s|
    ensures s[..i + 1] == s[..i] + [s[i]]
  {
  }

  /** Extending the input by one element extends the output by that element's piece. */
  lemma {:induction false} ConcatMapSnoc<T, U>(s: seq<T>, x: T, f: T -> seq<U>)
    ensures ConcatMap(s + [x], f) == ConcatMap(s, f) + f(x)
  {
    assert (s + [x])[..|s + [x]| - 1] == s;
  }

  /** Concatenation distributes over splitting the input. */
  lemma {:induction false} ConcatMapAppend<T, U>(a: seq<T>, b: seq<T>, f: T -> seq<U>)
    ensures ConcatMap(a + b, f) == ConcatMap(a, f) + ConcatMap(b, f)
    decreases |b|
  {
    if b == [] {
      assert a + b == a;
    } else {
      var b' := b[..|b| - 1];
      var x := b[|b| - 1];
      assert b == b' + [x];
      assert a + b == (a + b') + [x];
      ConcatMapSnoc(a + b', x, f);
      ConcatMapAppend(a, b', f);
      ConcatMapSnoc(b', x, f);
    }
  }

  /** The piece of element `i` sits, unchanged, right after the pieces of the
      elements before it. */
  lemma {:induction false} ConcatMapPiece<T, U>(s: seq<T>, i: nat, f: T -> seq<U>)
    requires i < |s|
    ensures var p := |ConcatMap(s[..i], f)|;
      p + |f(s[i])| <= |ConcatMap(s, f)| &&
      ConcatMap(s, f)[p .. p + |f(s[i])|] == f(s[i])
  {
    assert s == s[..i] + [s[i]] + s[i + 1..];
    ConcatMapAppend(s[..i] + [s[i]], s[i + 1..], f);
    ConcatMapSnoc(s[..i], s[i], f);
  }

  /** Every element of the output lies in the piece of some input element. */
  lemma {:induction false} ConcatMapOrigin<T, U>(s: seq<T>, f: T -> seq<U>, k: nat)
    requires k < |ConcatMap(s, f)|
    ensures exists i :: 0 <= i < |s| && ConcatMap(s, f)[k] in f(s[i])
    decreases |s|
  {
    var s' := s[..|s| - 1];
    if k < |ConcatMap(s', f)| {
      ConcatMapOrigin(s', f, k);
      var i :| 0 <= i < |s'| && ConcatMap(s', f)[k] in f(s'[i]);
      assert s'[i] == s[i];
    } else {
      assert ConcatMap(s, f)[k] == f(s[|s| - 1])[k - |ConcatMap(s', f)|];
    }
  }

  /** The output splits around the piece of element `i`. */
  lemma {:induction false} ConcatMapAround<T, U>(s: seq<T>, i: nat, f: T -> seq<U>)
    requires i < |s|
    ensures ConcatMap(s, f) == ConcatMap(s[..i], f) + f(s[i]) + ConcatMap(s[i + 1..], f)
  {
    var a, x, c := s[..i], s[i], s[i + 1..];
    assert s == (a + [x]) + c;
    ConcatMapAppend(a + [x], c, f);
    ConcatMapSnoc(a, x, f);
  }
}
