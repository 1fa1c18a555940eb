/** Values shared by the decoder and the protocol client: bytes, optional
    values, and the conversion of a list of integers to bytes that Python's
    `bytes(...)` performs. */
module Base {

  /** One octet, as held by a Python `bytes`/`bytearray`. */
  newtype byte = x: int | 0 <= x < 256

  datatype Option<+T> = None | Some(value: T)

  /** The concatenation of a sequence of byte strings. */
  function Flatten(parts: seq<seq<byte>>): (r: seq<byte>)
  {
    if parts == [] then [] else parts[0] + Flatten(parts[1..])
  }

  /** The concatenation of `f(x)` over the elements `x` of `xs`, in order. */
  function Gather<T, U>(xs: seq<T>, f: T -> seq<U>): seq<U>
  {
    if xs == [] then [] else Gather(xs[..|xs| - 1], f) + f(xs[|xs| - 1])
  }

  lemma GatherSnoc<T, U>(xs: seq<T>, x: T, f: T -> seq<U>)
    ensures Gather(xs + [x], f) == Gather(xs, f) + f(x)
  {
    assert (xs + [x])[..|xs|] == xs;
  }

  lemma {:induction false} GatherAppend<T, U>(a: seq<T>, b: seq<T>, f: T -> seq<U>)
    ensures Gather(a + b, f) == Gather(a, f) + Gather(b, f)
    decreases |b|
  {
    if b == [] {
      assert a + b == a;
    } else {
      var front, last := b[..|b| - 1], b[|b| - 1];
      assert b == front + [last];
      assert a + b == (a + front) + [last];
      GatherAppend(a, front, f);
      GatherSnoc(a + front, last, f);
      GatherSnoc(front, last, f);
    }
  }

  /** When every `f(x)` has at most one element, so has the result per element of `xs`. */
  lemma {:induction false} GatherAtMostOne<T, U>(xs: seq<T>, f: T -> seq<U>)
    requires forall x :: |f(x)| <= 1
    ensures |Gather(xs, f)| <= |xs|
    decreases |xs|
  {
    if xs != [] {
      GatherAtMostOne(xs[..|xs| - 1], f);
    }
  }

  predicate IsByte(x: int) { 0 <= x < 256 }

  /** Python's `bytes(xs)` for a list of integers: it succeeds exactly when
      every element lies in 0..255 and then keeps every value in order;
      otherwise it raises `ValueError` (here: None). */
  function ToBytes(xs: seq<int>): (r: Option<seq<byte>>)
    ensures r.Some? <==> forall i :: 0 <= i < |xs| ==> IsByte(xs[i])
    ensures r.Some? ==> |r.value| == |xs| && forall i :: 0 <= i < |xs| ==> r.value[i] as int == xs[i]
  {
    if xs == [] then Some([])
    else if !IsByte(xs[0]) then None
    else match ToBytes(xs[1..])
      case None => None
      case Some(tail) => Some([xs[0] as byte] + tail)
  }
}
