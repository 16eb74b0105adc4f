/**
 * One-dimensional "valid" convolution, computed by hand and by the library.
 *
 * The hand-rolled version allocates an output of len(f) - 2*width slots and
 * fills slot i with the dot product of the reversed kernel and the window of
 * f centred at i + width. The library reference is numpy's convolve in
 * 'valid' mode: (f * h)[n] = sum over m of f[m] * h[n - m], kept only where
 * the kernel lies entirely inside the signal. Samples are integers here; the
 * script's samples are small integers, so its floating-point output is exact.
 */
module Convolution {

  function Sum(s: seq<int>): int {
    if s == [] then 0 else s[0] + Sum(s[1..])
  }

  lemma {:induction false} SumAppend(a: seq<int>, b: seq<int>)
    ensures Sum(a + b) == Sum(a) + Sum(b)
  {
    if a == [] {
      assert a + b == b;
    } else {
      assert (a + b)[1..] == a[1..] + b;
      SumAppend(a[1..], b);
    }
  }

  lemma {:induction false} SumOfZeros(s: seq<int>)
    requires forall k :: 0 <= k < |s| ==> s[k] == 0
    ensures Sum(s) == 0
  {
    if s != [] {
      SumOfZeros(s[1..]);
    }
  }

  function Reversed(s: seq<int>): seq<int> {
    seq(|s|, j requires 0 <= j < |s| => s[|s| - 1 - j])
  }

  /** The dot product of two equally long vectors (numpy's dot on 1-D arrays). */
  function Dot(a: seq<int>, b: seq<int>): int
    requires |a| == |b|
  {
    Sum(seq(|a|, j requires 0 <= j < |a| => a[j] * b[j]))
  }

  /** Entry n of the full convolution of f with h: the sum over every m of
      f[m] * h[n - m], where a term whose kernel index is outside h is zero. */
  function FullAt(f: seq<int>, h: seq<int>, n: int): int {
    Sum(seq(|f|, m requires 0 <= m < |f| => if 0 <= n - m < |h| then f[m] * h[n - m] else 0))
  }

  /** numpy's convolve(f, h, mode='valid') for a kernel no longer than the
      signal: the entries of the full convolution where h overlaps f entirely. */
  function ConvolveValid(f: seq<int>, h: seq<int>): seq<int>
    requires 1 <= |h| <= |f|
  {
    seq(|f| - |h| + 1, i requires 0 <= i < |f| - |h| + 1 => FullAt(f, h, i + |h| - 1))
  }

  /** The reversed kernel dotted with the window f[i .. i + |h|] is the library's
      valid-mode entry i: the reversal is what turns a correlation into a
      convolution, and the terms outside the window are all zero. */
  lemma SlotMatchesLibrary(f: seq<int>, h: seq<int>, i: nat)
    requires 1 <= |h| && i + |h| <= |f|
    ensures Dot(Reversed(h), f[i..i + |h|]) == FullAt(f, h, i + |h| - 1)
  {
    var n := i + |h| - 1;
    var terms := seq(|f|, m requires 0 <= m < |f| => if 0 <= n - m < |h| then f[m] * h[n - m] else 0);
    var window := f[i..i + |h|];
    var products := seq(|h|, j requires 0 <= j < |h| => Reversed(h)[j] * window[j]);
    assert terms == terms[..i] + terms[i..i + |h|] + terms[i + |h|..];
    SumOfZeros(terms[..i]);
    SumOfZeros(terms[i + |h|..]);
    assert terms[i..i + |h|] == products by {
      forall j | 0 <= j < |h| ensures terms[i..i + |h|][j] == products[j] {
        assert terms[i + j] == f[i + j] * h[|h| - 1 - j];
        assert Reversed(h)[j] == h[|h| - 1 - j] && window[j] == f[i + j];
      }
    }
    SumAppend(terms[..i] + terms[i..i + |h|], terms[i + |h|..]);
    SumAppend(terms[..i], terms[i..i + |h|]);
  }

  /** With the difference kernel [1, 0, -1], slot i is f[i + 2] - f[i]. */
  lemma DifferenceKernel(f: seq<int>, i: nat)
    requires i + 3 <= |f|
    ensures ConvolveValid(f, [1, 0, -1])[i] == f[i + 2] - f[i]
  {
    var h := [1, 0, -1];
    SlotMatchesLibrary(f, h, i);
    var products := seq(3, j requires 0 <= j < 3 => Reversed(h)[j] * f[i..i + 3][j]);
    assert products == [-f[i], 0, f[i + 2]];
    assert Sum([f[i + 2]]) == f[i + 2] + Sum([]);
    assert Sum([0, f[i + 2]]) == 0 + Sum([f[i + 2]]) by { assert [0, f[i + 2]][1..] == [f[i + 2]]; }
    assert Sum(products) == -f[i] + Sum([0, f[i + 2]]) by { assert products[1..] == [0, f[i + 2]]; }
    assert ConvolveValid(f, h)[i] == FullAt(f, h, i + 2);
  }

  /** The hand-rolled loop: result has len(f) - 2*width slots, slot i is the
      reversed kernel dotted with the window centred at i + width, so no slot
      keeps the 1 it was allocated with; when the kernel is no longer than the
      signal this is numpy's valid-mode convolution. f and h are only read. */
  method ConvolveByHand(f: array<int>, h: array<int>, width: nat) returns (result: array<int>)
    requires 2 * width <= f.Length
    requires h.Length == 2 * width + 1
    ensures fresh(result)
    ensures result.Length == f.Length - 2 * width
    ensures forall i :: 0 <= i < result.Length ==> result[i] == Dot(Reversed(h[..]), f[i..i + 2 * width + 1])
    ensures h.Length <= f.Length ==> result[..] == ConvolveValid(f[..], h[..])
  {
    result := new int[f.Length - 2 * width](_ => 1);
    for i := 0 to result.Length
      invariant forall k :: 0 <= k < i ==> result[k] == Dot(Reversed(h[..]), f[k..k + 2 * width + 1])
    {
      var centre := i + width;
      result[i] := Dot(Reversed(h[..]), f[centre - width..centre + width + 1]);
    }
    if h.Length <= f.Length {
      forall i | 0 <= i < result.Length
        ensures result[i] == ConvolveValid(f[..], h[..])[i]
      {
        assert f[..][i..i + h.Length] == f[i..i + 2 * width + 1];
        SlotMatchesLibrary(f[..], h[..], i);
      }
    }
  }

  /** The script itself: f = [1, 3, 4, 1, 10, 3, 0, 1], h = [1, 0, -1],
      width 1, whose convolution is the difference f[i + 2] - f[i]. */
  method ScriptExample() returns (r: seq<int>)
    ensures r == [3, -2, 6, 2, -10, -2]
  {
    var f := new int[8] [1, 3, 4, 1, 10, 3, 0, 1];
    var h := new int[3] [1, 0, -1];
    var result := ConvolveByHand(f, h, 1);
    assert h[..] == [1, 0, -1];
    forall i | 0 <= i < 6 ensures result[i] == f[i + 2] - f[i] {
      DifferenceKernel(f[..], i);
    }
    r := result[..];
  }
}
