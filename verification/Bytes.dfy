/** Bytes and the big-endian two's-complement integers made of them. */
module Bytes {

  type byte = n: int | 0 <= n < 256

  /** 256 to the power `w`. */
  function Span(w: nat): (n: nat)
    ensures n > 0 && (w > 0 ==> n % 2 == 0)
  {
    if w == 0 then 1 else 256 * Span(w - 1)
  }

  function Unsigned(bytes: seq<byte>): (n: nat)
    ensures n < Span(|bytes|)
  {
    if bytes == [] then 0
    else Unsigned(bytes[..|bytes| - 1]) * 256 + bytes[|bytes| - 1]
  }

  /** The value of `|bytes|` bytes, most significant first. */
  function Signed(bytes: seq<byte>): int {
    var n := Unsigned(bytes);
    if 2 * n < Span(|bytes|) then n else n - Span(|bytes|)
  }

  predicate Fits(x: int, w: nat) {
    0 - Span(w) <= 2 * x < Span(w)
  }

  function EncodeUnsigned(n: nat, w: nat): (bytes: seq<byte>)
    ensures |bytes| == w
  {
    if w == 0 then [] else EncodeUnsigned(n / 256, w - 1) + [n % 256]
  }

  function Encode(x: int, w: nat): (bytes: seq<byte>)
    requires Fits(x, w)
    ensures |bytes| == w
  {
    EncodeUnsigned(if x >= 0 then x else x + Span(w), w)
  }

  lemma {:induction false} UnsignedOfEncode(n: nat, w: nat)
    requires n < Span(w)
    ensures Unsigned(EncodeUnsigned(n, w)) == n
  {
    if w > 0 {
      UnsignedOfEncode(n / 256, w - 1);
      var bytes := EncodeUnsigned(n, w);
      assert bytes[..w - 1] == EncodeUnsigned(n / 256, w - 1);
    }
  }

  /** Reading what was written gives the number back, negative numbers included. */
  lemma SignedOfEncode(x: int, w: nat)
    requires Fits(x, w)
    ensures Signed(Encode(x, w)) == x
  {
    UnsignedOfEncode(if x >= 0 then x else x + Span(w), w);
  }

  /** The first byte counts most. */
  lemma {:induction false} MostSignificantFirst(bytes: seq<byte>)
    requires bytes != []
    ensures Unsigned(bytes) == bytes[0] * Span(|bytes| - 1) + Unsigned(bytes[1..])
  {
    if |bytes| > 1 {
      var init, last := bytes[..|bytes| - 1], bytes[|bytes| - 1];
      MostSignificantFirst(init);
      assert bytes[1..][..|bytes| - 2] == init[1..];
      Shift(bytes[0], Span(|init| - 1), Unsigned(init[1..]), last);
    }
  }

  lemma Shift(first: int, span: int, middle: int, last: int)
    ensures (first * span + middle) * 256 + last == first * (256 * span) + (middle * 256 + last)
  {
  }

  /** A sequence of byte strings, one after the other. */
  function Concat(chunks: seq<seq<byte>>): seq<byte> {
    if chunks == [] then [] else Concat(chunks[..|chunks| - 1]) + chunks[|chunks| - 1]
  }

  lemma {:induction false} ConcatLength(chunks: seq<seq<byte>>, w: nat)
    requires forall i | 0 <= i < |chunks| :: |chunks[i]| == w
    ensures |Concat(chunks)| == w * |chunks|
  {
    if chunks != [] {
      ConcatLength(chunks[..|chunks| - 1], w);
    }
  }

  /** The byte strings before the `i`-th one take `w * i` bytes. */
  lemma {:induction false} ChunkIs(chunks: seq<seq<byte>>, w: nat, i: nat)
    requires i < |chunks| && forall j | 0 <= j < |chunks| :: |chunks[j]| == w
    ensures 0 <= w * i <= w * i + w <= |Concat(chunks)|
    ensures Concat(chunks)[w * i..w * i + w] == chunks[i]
  {
    var n := |chunks| - 1;
    if i < n {
      ChunkIs(chunks[..n], w, i);
    } else {
      ConcatLength(chunks[..n], w);
    }
  }

  lemma ChunkAt(chunks: seq<seq<byte>>, w: nat)
    requires forall i | 0 <= i < |chunks| :: |chunks[i]| == w
    ensures |Concat(chunks)| == w * |chunks|
    ensures forall i | 0 <= i < |chunks| :: 0 <= w * i <= w * i + w <= |Concat(chunks)|
              && Concat(chunks)[w * i..w * i + w] == chunks[i]
  {
    ConcatLength(chunks, w);
    hide Concat;
    forall i | 0 <= i < |chunks|
      ensures 0 <= w * i <= w * i + w <= |Concat(chunks)| && Concat(chunks)[w * i..w * i + w] == chunks[i]
    {
      ChunkIs(chunks, w, i);
    }
  }
}
