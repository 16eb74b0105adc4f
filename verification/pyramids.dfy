/**
 * Gaussian and Laplacian image pyramids as lists of levels.
 *
 * The image operations are OpenCV's pyrDown (smooth and halve), pyrUp
 * (double and smooth) and subtract; the pyramid code never looks inside an
 * image, so here Image is a type parameter and the three operations are
 * function parameters `down`, `up` and `sub`. Their pixel semantics are not
 * modelled, but they are total: `sub` always yields an image, whereas
 * OpenCV's subtract fails on two images of different sizes. What is modelled
 * is the list structure of runs in which every operation succeeds: how many
 * levels, in which order, and which operation produced each one.
 */
module Pyramids {

  datatype Option<T> = None | Some(value: T)

  /** The Python exceptions the as-written Laplacian code can raise. */
  datatype PyError = NameError | IndexError

  datatype Result<T> = Ok(value: T) | Err(error: PyError)

  /** The default number of reductions of gen_gaussian_pyramid. */
  const DefaultLevels := 6

  /** The image after k applications of `down`. */
  function Reduced<Image>(down: Image -> Image, image: Image, k: nat): Image {
    if k == 0 then image else down(Reduced(down, image, k - 1))
  }

  /** gen_gaussian_pyramid: level 0 is the image itself, each further level is
      `down` of the one before, and there are levels + 1 of them, finest
      first. A negative level count gives the one-element list, as
      range(levels) is then empty. */
  method GaussianPyramid<Image>(image: Image, levels: int, down: Image -> Image) returns (gpI: seq<Image>)
    ensures |gpI| == (if levels < 0 then 0 else levels) + 1
    ensures gpI[0] == image
    ensures forall k :: 0 <= k < |gpI| ==> gpI[k] == Reduced(down, image, k)
    ensures forall k :: 0 <= k < |gpI| - 1 ==> gpI[k + 1] == down(gpI[k])
  {
    var g := image;
    gpI := [g];
    var i := 0;
    while i < levels
      invariant 0 <= i && (i <= levels || i == 0)
      invariant |gpI| == i + 1
      invariant g == Reduced(down, image, i)
      invariant forall k :: 0 <= k <= i ==> gpI[k] == Reduced(down, image, k)
    {
      g := down(g);
      gpI := gpI + [g];
      i := i + 1;
    }
  }

  /** gen_gaussian_pyramid called without a level count: seven levels. */
  method GaussianPyramidDefault<Image>(image: Image, down: Image -> Image) returns (gpI: seq<Image>)
    ensures |gpI| == DefaultLevels + 1
    ensures forall k :: 0 <= k < |gpI| ==> gpI[k] == Reduced(down, image, k)
  {
    gpI := GaussianPyramid(image, DefaultLevels, down);
  }

  /** The Laplacian list of a Gaussian pyramid, coarsest first: the coarsest
      level, then for each finer level the difference between it and the
      expansion of the level just coarser. */
  function Laplacian<Image>(gp: seq<Image>, up: Image -> Image, sub: (Image, Image) -> Image): (lp: seq<Image>)
    requires |gp| >= 1
    ensures |lp| == |gp|
    ensures lp[0] == gp[|gp| - 1]
  {
    if |gp| == 1 then [gp[0]] else Laplacian(gp[1..], up, sub) + [sub(gp[0], up(gp[1]))]
  }

  /** Entry j >= 1 of the Laplacian list is the residual of Gaussian level
      N - j against the expansion of level N - j + 1, where N = |gp| - 1. */
  lemma {:induction false} LaplacianAt<Image>(gp: seq<Image>, up: Image -> Image, sub: (Image, Image) -> Image, j: nat)
    requires 1 <= j < |gp|
    ensures Laplacian(gp, up, sub)[j] == sub(gp[|gp| - 1 - j], up(gp[|gp| - j]))
  {
    if j < |gp| - 1 {
      LaplacianAt(gp[1..], up, sub, j);
    }
  }

  /** gen_laplacian_pyramid, reading the Gaussian pyramid gpI it is given: the
      loop runs i = N, N - 1, ..., 1 and appends sub(gpI[i - 1], up(gpI[i])),
      so the list has one entry per Gaussian level, coarsest first. */
  method LaplacianPyramid<Image>(gpI: seq<Image>, up: Image -> Image, sub: (Image, Image) -> Image)
    returns (lpI: seq<Image>)
    requires |gpI| >= 1
    ensures lpI == Laplacian(gpI, up, sub)
    ensures |lpI| == |gpI| && lpI[0] == gpI[|gpI| - 1]
    ensures forall j :: 1 <= j < |gpI| ==> lpI[j] == sub(gpI[|gpI| - 1 - j], up(gpI[|gpI| - j]))
  {
    var numLevels := |gpI| - 1;
    lpI := [gpI[numLevels]];
    var i := numLevels;
    while i > 0
      invariant 0 <= i <= numLevels
      invariant lpI == Laplacian(gpI[i..], up, sub)
    {
      var expanded := up(gpI[i]);
      var residual := sub(gpI[i - 1], expanded);
      assert gpI[i - 1..][1..] == gpI[i..];
      lpI := lpI + [residual];
      i := i - 1;
    }
    assert gpI[0..] == gpI;
    forall j | 1 <= j < |gpI| ensures lpI[j] == sub(gpI[|gpI| - 1 - j], up(gpI[|gpI| - j])) {
      LaplacianAt(gpI, up, sub, j);
    }
  }

  /** When gpI really is a Gaussian pyramid of some image, each residual is a
      Gaussian level minus the expansion of its own reduction. */
  lemma ResidualsOfGaussianPyramid<Image>(gp: seq<Image>, image: Image, down: Image -> Image,
                                          up: Image -> Image, sub: (Image, Image) -> Image)
    requires |gp| >= 1
    requires forall k :: 0 <= k < |gp| ==> gp[k] == Reduced(down, image, k)
    ensures forall j :: 1 <= j < |gp| ==>
              Laplacian(gp, up, sub)[j] == sub(gp[|gp| - 1 - j], up(down(gp[|gp| - 1 - j])))
  {
    forall j | 1 <= j < |gp|
      ensures Laplacian(gp, up, sub)[j] == sub(gp[|gp| - 1 - j], up(down(gp[|gp| - 1 - j])))
    {
      LaplacianAt(gp, up, sub, j);
      assert gp[|gp| - j] == Reduced(down, image, |gp| - j);
    }
  }

  /** Collapsing a Laplacian list: the base band, then each next residual
      added to the expansion of the level rebuilt so far. */
  function Rebuilt<Image>(lp: seq<Image>, up: Image -> Image, add: (Image, Image) -> Image, k: nat): Image
    requires k < |lp|
  {
    if k == 0 then lp[0] else add(lp[k], up(Rebuilt(lp, up, add, k - 1)))
  }

  /** The Laplacian list loses nothing: whenever `add` undoes the subtraction
      of an expanded image, collapsing its first k + 1 entries gives back
      Gaussian level N - k, and in particular the finest level when k = N.
      (OpenCV's saturating subtract makes no such promise; the lemma is about
      the list structure.) */
  lemma {:induction false} LaplacianReconstructs<Image>(gp: seq<Image>, up: Image -> Image,
                                                       sub: (Image, Image) -> Image,
                                                       add: (Image, Image) -> Image, k: nat)
    requires k < |gp|
    requires forall a, c :: add(sub(a, up(c)), up(c)) == a
    ensures Rebuilt(Laplacian(gp, up, sub), up, add, k) == gp[|gp| - 1 - k]
  {
    if k > 0 {
      var lp, n := Laplacian(gp, up, sub), |gp| - 1;
      LaplacianReconstructs(gp, up, sub, add, k - 1);
      LaplacianAt(gp, up, sub, k);
      assert Rebuilt(lp, up, add, k) == add(sub(gp[n - k], up(gp[n - k + 1])), up(gp[n - k + 1]));
    }
  }

  /** gen_laplacian_pyramid exactly as written: its loop body reads gpA, a name
      the function never binds, so Python looks it up among the module's
      globals when the loop body first runs. `globalA` is that global, None
      when there is none. A one-level pyramid never enters the loop and comes
      back unchanged; otherwise the call raises NameError without a global,
      IndexError when the global is too short, and else returns gpI's coarsest
      level followed by the residuals of the global's levels. It agrees with
      LaplacianPyramid only when the global is the argument itself. */
  method LaplacianPyramidAsWritten<Image>(gpI: seq<Image>, globalA: Option<seq<Image>>,
                                          up: Image -> Image, sub: (Image, Image) -> Image)
    returns (r: Result<seq<Image>>)
    requires |gpI| >= 1
    ensures r.Err? <==> |gpI| >= 2 && (globalA.None? || |globalA.value| < |gpI|)
    ensures r.Err? ==> r.error == (if globalA.None? then NameError else IndexError)
    ensures r.Ok? && |gpI| == 1 ==> r.value == gpI
    ensures r.Ok? && |gpI| >= 2 ==>
              r.value == [gpI[|gpI| - 1]] + Laplacian(globalA.value[..|gpI|], up, sub)[1..]
    ensures globalA == Some(gpI) ==> r == Ok(Laplacian(gpI, up, sub))
  {
    var numLevels := |gpI| - 1;
    var lpI := [gpI[numLevels]];
    var i := numLevels;
    while i > 0
      invariant 0 <= i <= numLevels
      invariant i < numLevels ==> globalA.Some? && numLevels < |globalA.value|
      invariant i == numLevels ==> lpI == [gpI[numLevels]]
      invariant i < numLevels ==>
                  lpI == [gpI[numLevels]] + Laplacian(globalA.value[i..numLevels + 1], up, sub)[1..]
    {
      if globalA.None? {
        return Err(NameError);
      }
      var gpA := globalA.value;
      if i >= |gpA| {
        return Err(IndexError);
      }
      var expanded := up(gpA[i]);
      var residual := sub(gpA[i - 1], expanded);
      ghost var before := Laplacian(gpA[i..numLevels + 1], up, sub);
      assert gpA[i - 1..numLevels + 1][1..] == gpA[i..numLevels + 1];
      assert Laplacian(gpA[i - 1..numLevels + 1], up, sub)[1..] == before[1..] + [residual];
      lpI := lpI + [residual];
      i := i - 1;
    }
    r := Ok(lpI);
    if numLevels > 0 {
      assert globalA.value[0..numLevels + 1] == globalA.value[..|gpI|];
      assert globalA == Some(gpI) ==> r == Ok(Laplacian(gpI, up, sub)) by {
        var lp := Laplacian(gpI, up, sub);
        assert gpI[..|gpI|] == gpI;
        assert lp == [lp[0]] + lp[1..];
      }
    }
  }

  /** The script's two failure modes on the two-level integer pyramid [5, 2],
      with `up` the identity and `sub` subtraction: without a global gpA the
      as-written code raises NameError; with a stale global gpA = [0, 0] it
      returns [2, 0]; the intended list is [2, 3]. */
  method AsWrittenCounterexample() returns (noGlobal: Result<seq<int>>, staleGlobal: Result<seq<int>>,
                                            intended: seq<int>)
    ensures noGlobal == Err(NameError)
    ensures staleGlobal == Ok([2, 0])
    ensures intended == [2, 3]
  {
    var up := (x: int) => x;
    var sub := (a: int, b: int) => a - b;
    noGlobal := LaplacianPyramidAsWritten([5, 2], None, up, sub);
    staleGlobal := LaplacianPyramidAsWritten([5, 2], Some([0, 0]), up, sub);
    assert [0, 0][..2] == [0, 0] && [0, 0][1..] == [0];
    assert sub(0, up(0)) == 0;
    assert Laplacian([0, 0], up, sub) == [0] + [0];
    assert Laplacian([0, 0], up, sub)[1..] == [0];
    assert staleGlobal.Ok?;
    assert staleGlobal.value == [[5, 2][1]] + Laplacian([0, 0][..2], up, sub)[1..] == [2] + [0];
    assert [2] + [0] == [2, 0];
    assert staleGlobal == Ok([2, 0]);
    intended := LaplacianPyramid([5, 2], up, sub);
    assert [5, 2][1..] == [2];
  }
}
