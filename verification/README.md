# Computer-vision exercise solutions: a Dafny model of their own logic

The repository is a set of short exercise scripts for a computer-vision course.
Most of them hand their work to OpenCV, SciPy or matplotlib. Four pieces have
logic of their own, and this project models those four and proves what they
promise:

- **Homogeneous coordinates** (`solutions/01/solution_01.py`,
  `solutions/01/solution_02.py`). The line through two points, and the
  meeting point of two lines, is the cross product of their homogeneous
  vectors. The scripts check that the result is incident with both inputs.
  Module `Homogeneous` works over integer vectors, so those checks hold as
  exact zeros.
- **Hand-rolled 1-D convolution** (`solutions/03/solution_01.py`). A
  preallocated array of `len(f) - 2*width` ones is filled slot by slot. Slot
  `i` holds the reversed kernel dotted with the window of `f` centred at
  `i + width`. Module `Convolution` proves that this is numpy's
  `convolve(f, h, mode='valid')` (`solutions/03/solution_02.py`).
- **Sliding-window median filter** (`solutions/10/solution-02.py`). The
  result is a copy of `x` in which positions `s .. e-1` are overwritten with
  the median of an odd window read from the original `x`. Module
  `MedianFiltering` defines the median by sorting. It proves that the median
  is a sample of its window, that it is the window's middle order statistic,
  and that it is the only value of that rank.
- **Gaussian and Laplacian pyramids** (`solutions/04/gen_gaussian_pyramid.py`,
  `solutions/04/gen_laplacian_pyramid.py`). One function builds a list of
  repeatedly reduced images. The other builds a coarsest-first list of
  residuals. Module `Pyramids` keeps OpenCV's `pyrDown`, `pyrUp` and
  `subtract` abstract: they are function parameters `down`, `up` and `sub`
  over a type parameter `Image`. It proves the length, order and content of
  both lists, and that the Laplacian list can be collapsed back into the
  Gaussian levels whenever `add` undoes `sub`.

The scripts work in place. So the model does too: the convolution and the
median filter fill an `array` in a loop, and the pyramid builders grow a list
in a loop. Each of these methods is proved against a specification function,
and the properties are proved as lemmas about that function.

Edge cases of the pyramid code, as it behaves:

- A negative `levels` gives `[I]`, because `range(levels)` is empty.
- A one-level `gpI` gives back `[gpI[0]]`.
- The Laplacian list puts the coarsest level first.
- Image shapes, border handling and reconstruction tolerance are left to
  OpenCV, and the code states none of them.

## Model

| member | source | states |
|---|---|---|
| `Homogeneous.Cross` | solutions/01/solution_01.py:5-8 | The cross product is orthogonal to both inputs: the line `l` passes through `a` and through `b`, with the dot products exactly zero. |
| `Homogeneous.CrossZeroIffProportional` | solutions/01/solution_01.py:5 | The cross product is the zero vector exactly when the two inputs are proportional, so a line is defined iff the two points differ. |
| `Homogeneous.DistinctPointsSpanLine` | solutions/01/solution_01.py:2-5 | Two distinct finite points `(x, y, 1)` give a non-zero line vector. |
| `Homogeneous.IncidentWithBothIsProportional` | solutions/01/solution_02.py:5-9 | Every vector incident with both inputs is proportional to their cross product, so the line through two distinct points (or the meeting point of two distinct lines) is unique up to scale. When `a` and `b` are proportional, the cross product is zero and the statement is vacuous. |
| `Homogeneous.AtInfinityIffParallel` | solutions/01/solution_02.py:7 | The homogeneous component `w = p[2]` of the intersection is zero exactly when the two lines' normals are proportional, that is when the lines are parallel. |
| `Homogeneous.LineThroughExample` | solutions/01/solution_01.py:2-5 | For the points (1,2,1) and (4,3,1), the line is (-1, 3, -5). |
| `Homogeneous.IntersectionExample` | solutions/01/solution_02.py:2-7 | The lines (3,-1,7) and (3,-1,-3) meet at (10, 30, 0), a point at infinity (`w = 0`). |
| `Convolution.ConvolveByHand` | solutions/03/solution_01.py:5-8 | The output has `len(f) - 2*width` slots. Each slot `i` is the reversed kernel dotted with `f[i .. i + 2*width]`, so none of the initial ones survive. When the kernel is no longer than the signal, the output equals numpy's valid-mode convolution. `f` and `h` are only read. |
| `Convolution.SlotMatchesLibrary` | solutions/03/solution_02.py:4 | The reversed kernel dotted with window `i` equals entry `i` of `np.convolve(f, h, mode='valid')`, defined as the sum over all `m` of `f[m] * h[n - m]`. |
| `Convolution.DifferenceKernel` | solutions/03/solution_01.py:3-8 | With the kernel `[1, 0, -1]`, slot `i` of the valid convolution is `f[i+2] - f[i]`. |
| `Convolution.ScriptExample` | solutions/03/solution_01.py:2-8 | The script's own inputs `f = [1,3,4,1,10,3,0,1]`, `h = [1,0,-1]`, `width = 1` give `[3, -2, 6, 2, -10, -2]`. |
| `MedianFiltering.MedianFilter` | solutions/10/solution-02.py:3-6 | The result is a new array as long as `x`. Positions outside `[s, e)` keep `x`'s value. Position `i` in `[s, e)` holds the median of the `2*halfWidth + 1` samples of the original `x` centred at `i`, so the filter is non-recursive. `x` is not modified. |
| `MedianFiltering.MedianInWindow` | solutions/10/solution-02.py:6 | The median of an odd window is one of the window's samples. |
| `MedianFiltering.MedianRank` | solutions/10/solution-02.py:5-6 | In a window of `2h + 1` samples, at least `h + 1` samples (the median among them) are at most the median, and at least `h + 1` are at least it. |
| `MedianFiltering.MedianIsOnlyValueOfThatRank` | solutions/10/solution-02.py:6 | A value has more than `h` window samples at most it and more than `h` at least it if and only if it is the median. |
| `Pyramids.GaussianPyramid` | solutions/04/gen_gaussian_pyramid.py:1-7 | The list has `levels + 1` elements (one when `levels <= 0`). Element 0 is the input image. Element `k` is `down` applied `k` times, and each element is `down` of the one before, finest first. |
| `Pyramids.GaussianPyramidDefault` | solutions/04/gen_gaussian_pyramid.py:1 | With the default `levels = 6`, the list has 7 elements, element `k` being `down` applied `k` times. |
| `Pyramids.Laplacian` | solutions/04/gen_laplacian_pyramid.py:3-4 | The Laplacian list is as long as the Gaussian list, and its element 0 is the coarsest Gaussian level `gpI[N]`. |
| `Pyramids.LaplacianAt` | solutions/04/gen_laplacian_pyramid.py:5-8 | For `1 <= j <= N`, element `j` is `sub(gpI[N-j], up(gpI[N-j+1]))`, so the list runs coarsest to finest. |
| `Pyramids.LaplacianPyramid` | solutions/04/gen_laplacian_pyramid.py:1-9 | The loop over `i = N .. 1` returns exactly the Laplacian list: same length as `gpI`, `gpI[N]` first, then the residuals. A one-level input comes back unchanged. `gpI` is only read. |
| `Pyramids.ResidualsOfGaussianPyramid` | solutions/04/gen_laplacian_pyramid.py:2 | When `gpI` is a Gaussian pyramid, as the docstring requires, each residual is a level minus the expansion of its own reduction. |
| `Pyramids.LaplacianReconstructs` | solutions/04/gen_laplacian_pyramid.py:4-8 | When `add` undoes the subtraction of an expanded image, collapsing the first `k + 1` entries gives back Gaussian level `N - k`. With `k = N`, that is the finest image. |
| `Pyramids.LaplacianPyramidAsWritten` | solutions/04/gen_laplacian_pyramid.py:3-9 | The code as written reads the unbound name `gpA`. A one-level input returns `[gpI[0]]`. A longer one raises NameError without a global `gpA`, or IndexError when the global is too short. Otherwise it returns `gpI[N]` followed by the global's residuals. It equals the intended list when the global is `gpI`. |
| `Pyramids.AsWrittenCounterexample` | solutions/04/gen_laplacian_pyramid.py:6-7 | On `[5, 2]`, the as-written code raises NameError without a global and returns `[2, 0]` with a stale global `[0, 0]`. The intended list is `[2, 3]`. |

## Left out

- `ConvolveByHand`: the model requires `2*width <= len(f)`, because `np.ones` raises on a negative length. It also requires `len(h) == 2*width + 1`, because `np.dot` raises on a length mismatch. The source raises only when the loop runs, so with `len(f) == 2*width` a wrong-length kernel is excluded here although the source would return `[]`.
- `ConvolveByHand`: agreement with `np.convolve` is stated only when the kernel is no longer than the signal. For a longer kernel, `np.convolve` swaps its arguments: with `len(f) == 2*width` it returns two entries where the hand-rolled loop returns none.
- `MedianFilter`: when the range is not empty (`s < e`), requires `halfWidth <= s` and `e + halfWidth <= len(x)`. Outside those bounds, Python's negative indices wrap and slices past the end shrink, which the script does not intend. An empty range (`s >= e`) needs no bound and returns the copy unchanged.
- `LaplacianPyramid` and `LaplacianPyramidAsWritten`: require a non-empty `gpI`. On an empty list, `gpI[-1]` raises IndexError, and the docstring's Gaussian pyramid always has at least one level.
- Number representation: the model computes with unbounded integers throughout, for all inputs. It does not model numpy's int64 wrap-around in `np.cross` and `np.dot`, nor float64 rounding. That rounding covers the float output of `np.ones`, the float64 result of `np.median` (exact only below 2^53 in magnitude) and the `math.isclose(..., 0.0)` checks.
- `LaplacianPyramid`: `sub` is total in the model, so the result always has `len(gpI)` entries. `cv.subtract` raises `cv2.error` when its two images differ in size. `cv.pyrDown` rounds odd sizes up, so `cv.pyrUp` of a reduced odd-sized level is one row or column too large (a 7x9 level comes back 8x10), and the call then raises. The model describes only runs in which every subtraction succeeds. The same holds for `LaplacianPyramidAsWritten` and `LaplacianReconstructs`.
- The pixel semantics of `cv.pyrDown`, `cv.pyrUp` and `cv.subtract` (kernel, border mode, output size, uint8 saturation) are not modelled. They are total function parameters, and no law about them is assumed except the one `LaplacianReconstructs` states as its hypothesis.
- `I.copy()` in `gen_gaussian_pyramid`: images are values here, so the copy is the image itself, and aliasing between levels is not modelled.
- All printing (`print`, f-strings, `np.set_printoptions`) and plotting.
- The other scripts are not part of this model. They are library calls over floats, file I/O or plotting: `solutions/01/solution_06.py` (RQ, SVD, null space), `solutions/02/*` (image loading, chessboard detection), `solutions/03/solution_03.py` (2-D convolution with an undefined kernel), `solutions/04/solution_01.py` (blur and stride-2 slice), `solutions/07/*` (Sobel, Harris), `solutions/09/*` (pairwise distances, KD-tree).

## Findings

| source | as written | input that shows it | evidently intended | confidence | as-written member | corrected member |
|---|---|---|---|---|---|---|
| solutions/04/gen_laplacian_pyramid.py:6-7 | The loop reads `gpA[i]` and `gpA[i-1]`, a name the function never binds. Python looks it up among the globals. | `gpI = [5, 2]` (`up` the identity, `sub` subtraction). Without a global `gpA`, the call raises NameError. With a leftover global `gpA = [0, 0]`, it returns `[2, 0]`. | Read the argument: `gpI[i]` and `gpI[i-1]`, giving `[2, 3]` (the docstring names `gpI` as the Gaussian pyramid). | high; not executed | `Pyramids.LaplacianPyramidAsWritten` (shown by `Pyramids.AsWrittenCounterexample`) | `Pyramids.LaplacianPyramid` |
