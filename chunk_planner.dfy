/**
 * The chunk planner of `pyspim.interp.affine`: `_pad_amount` and
 * `_calculate_array_chunks`, which cut a (Z, Y, X) output shape into
 * half-open windows no wider than a chunk, for chunk-by-chunk processing.
 *
 * A window is a sequence of `Slice(start, stop)` values, one per axis, as the
 * source's `slice(l, r)`. The specification functions below are stated for
 * any number of axes; the source, and the methods, use three.
 */
module ChunkPlanner {
  import opened Errors
  import opened Cartesian

  /** Python's `slice(start, stop)`: the half-open index range `[start, stop)`. */
  datatype Slice = Slice(start: int, stop: int)

  /** One slice per axis. */
  type Window = seq<Slice>

  /** The `chunk_shape` argument: a single int used on every axis, or one size per axis. */
  datatype ChunkShape = Uniform(size: int) | PerAxis(z: int, y: int, x: int)

  /** The per-axis chunk sizes; an int is repeated on all three axes. */
  function Expand(cs: ChunkShape): (r: seq<int>)
    ensures |r| == 3
    ensures cs.Uniform? ==> r[0] == r[1] == r[2] == cs.size
    ensures cs.PerAxis? ==> r == [cs.z, cs.y, cs.x]
  {
    match cs
    case Uniform(n) => [n, n, n]
    case PerAxis(z, y, x) => [z, y, x]
  }

  predicate PositiveSizes(chunk: seq<int>)
  {
    forall d :: 0 <= d < |chunk| ==> chunk[d] > 0
  }

  /** A shape and chunk sizes the planner can work on: same rank, non-negative extents, positive chunks. */
  predicate ValidPlan(shape: seq<int>, chunk: seq<int>)
  {
    |shape| == |chunk| && PositiveSizes(chunk) && forall d :: 0 <= d < |shape| ==> shape[d] >= 0
  }

  /** Every axis holds at least one whole chunk (what `_pad_amount` asserts). */
  predicate Fits(shape: seq<int>, chunk: seq<int>)
    requires |shape| == |chunk|
  {
    forall d :: 0 <= d < |shape| ==> shape[d] >= chunk[d]
  }

  /**
   * Every axis that `_calculate_array_chunks` reaches (all earlier axes fit)
   * is no longer than its chunk (so `_pad_amount` fails its assert or returns
   * 0 at once) or has a positive chunk.
   */
  predicate PositiveWhereReached(shape: seq<int>, chunk: seq<int>)
    requires |shape| == |chunk|
  {
    forall d :: 0 <= d < |shape| && (forall e :: 0 <= e < d ==> shape[e] >= chunk[e]) ==>
      shape[d] <= chunk[d] || chunk[d] > 0
  }

  /** The loop of `_calculate_array_chunks` reaches axis `i` with a chunk that is positive or at least the axis. */
  lemma ReachedAxis(shape: seq<int>, chunk: seq<int>, i: int)
    requires |shape| == |chunk| && PositiveWhereReached(shape, chunk)
    requires 0 <= i < |shape| && forall e :: 0 <= e < i ==> shape[e] >= chunk[e]
    ensures shape[i] <= chunk[i] || chunk[i] > 0
  {
  }

  /** `d` is the first axis whose chunk does not fit. */
  predicate FirstMisfit(shape: seq<int>, chunk: seq<int>, d: int)
    requires |shape| == |chunk|
  {
    0 <= d < |shape| && shape[d] < chunk[d] && forall e :: 0 <= e < d ==> shape[e] >= chunk[e]
  }

  function Min(a: int, b: int): int
  {
    if a <= b then a else b
  }

  // ---------------------------------------------------------------------------
  // Integer facts used below

  lemma MulMono(a: int, b: int, c: int)
    requires a <= b && c >= 0
    ensures a * c <= b * c
  {
    assert b * c - a * c == (b - a) * c;
  }

  /** Strict order of multiples of a positive number reflects the order of the factors. */
  lemma MulLessInv(a: int, b: int, c: int)
    requires c > 0 && a * c < b * c
    ensures a < b
  {
    if a >= b {
      MulMono(b, a, c);
    }
  }

  lemma MultipleDivMod(k: int, c: int)
    requires c > 0
    ensures (k * c) / c == k && (k * c) % c == 0
  {
    var q, rem := (k * c) / c, (k * c) % c;
    assert k * c == q * c + rem && 0 <= rem < c;
    assert rem == (k - q) * c;
    if k - q >= 1 {
      MulMono(1, k - q, c);
    } else if k - q <= -1 {
      MulMono(k - q, -1, c);
    }
  }

  /** Two chunks of size `c` containing the same coordinate `x` are the same chunk. */
  lemma SameChunk(a: int, b: int, c: int, x: int)
    requires c > 0
    requires a * c <= x < a * c + c && b * c <= x < b * c + c
    ensures a == b
  {
    if a < b {
      MulMono(a + 1, b, c);
    } else if b < a {
      MulMono(b + 1, a, c);
    }
  }

  // ---------------------------------------------------------------------------
  // Padding and chunk counts

  /** `ceil(dim / c)`: the number of chunks of size `c` needed along an axis of length `dim`. */
  function ChunkCount(dim: int, c: int): nat
    requires dim >= 0 && c > 0
  {
    (dim + c - 1) / c
  }

  /** The padding that brings `dim` up to `ChunkCount(dim, c)` whole chunks. */
  function Padding(dim: int, c: int): int
    requires dim >= 0 && c > 0
  {
    ChunkCount(dim, c) * c - dim
  }

  predicate IsMultiple(n: int, c: int)
    requires c > 0
  {
    n % c == 0
  }

  /** `p` is the least non-negative amount that makes `dim + p` a multiple of `c`. */
  predicate IsLeastPadding(dim: int, c: int, p: int)
    requires c > 0
  {
    p >= 0 && IsMultiple(dim + p, c) && forall n :: dim <= n < dim + p ==> !IsMultiple(n, c)
  }

  /** `ChunkCount(dim, c)` chunks cover `dim`, and one chunk fewer does not. */
  lemma ChunkCountBounds(dim: int, c: int)
    requires dim >= 0 && c > 0
    ensures (ChunkCount(dim, c) - 1) * c < dim <= ChunkCount(dim, c) * c
  {
    var q, rem := (dim + c - 1) / c, (dim + c - 1) % c;
    assert dim + c - 1 == q * c + rem && 0 <= rem < c;
    assert (q - 1) * c == q * c - c;
  }

  /** The only `n` with `(n - 1) * c < dim <= n * c` is `ChunkCount(dim, c)`. */
  lemma CeilUnique(dim: int, c: int, n: int)
    requires dim >= 0 && c > 0
    requires (n - 1) * c < dim <= n * c
    ensures n == ChunkCount(dim, c)
  {
    var k := ChunkCount(dim, c);
    ChunkCountBounds(dim, c);
    if n < k {
      MulMono(n, k - 1, c);
    } else if k < n {
      MulMono(k, n - 1, c);
    }
  }

  /** No multiple of `c` lies strictly between `(k - 1) * c` and `k * c`. */
  lemma NoMultipleBetween(k: int, c: int, n: int)
    requires c > 0 && (k - 1) * c < n < k * c
    ensures !IsMultiple(n, c)
  {
    if n % c == 0 {
      var j := n / c;
      assert n == j * c;
      MulLessInv(k - 1, j, c);
      MulLessInv(j, k, c);
    }
  }

  /**
   * `dim + Padding(dim, c)` is the smallest multiple of `c` that is at least
   * `dim`: the padding is below one chunk, and it is zero exactly when `dim`
   * is already a multiple of `c`.
   */
  lemma PaddingIsLeast(dim: int, c: int)
    requires dim >= 0 && c > 0
    ensures IsLeastPadding(dim, c, Padding(dim, c))
    ensures Padding(dim, c) < c
    ensures Padding(dim, c) == 0 <==> IsMultiple(dim, c)
  {
    var k := ChunkCount(dim, c);
    var p := k * c - dim;
    ChunkCountBounds(dim, c);
    MultipleDivMod(k, c);
    assert IsMultiple(dim + p, c);
    forall n | dim <= n < dim + p ensures !IsMultiple(n, c) {
      NoMultipleBetween(k, c, n);
    }
  }

  /** The number of chunks the source derives from the padded extent. */
  lemma PaddedChunkCount(dim: int, c: int)
    requires dim >= 0 && c > 0
    ensures (dim + Padding(dim, c)) / c == ChunkCount(dim, c)
  {
    MultipleDivMod(ChunkCount(dim, c), c);
  }

  // ---------------------------------------------------------------------------
  // The windows, as a specification

  /** Chunks per axis. */
  function Counts(shape: seq<int>, chunk: seq<int>): (r: seq<nat>)
    requires ValidPlan(shape, chunk)
    ensures |r| == |shape|
  {
    seq(|shape|, d requires 0 <= d < |shape| => ChunkCount(shape[d], chunk[d]))
  }

  /** The chunk-index tuples, in the order `itertools.product` yields them. */
  function ChunkIndices(shape: seq<int>, chunk: seq<int>): seq<seq<nat>>
    requires ValidPlan(shape, chunk)
  {
    Product(Counts(shape, chunk))
  }

  /** The window of chunk-index tuple `m`: `[m*c, m*c + c)` on each axis, cut off at the shape. */
  function WindowAt(shape: seq<int>, chunk: seq<int>, m: seq<nat>): Window
    requires |shape| == |chunk| == |m|
  {
    seq(|m|, d requires 0 <= d < |m| => Slice(m[d] * chunk[d], Min(m[d] * chunk[d] + chunk[d], shape[d])))
  }

  /** The windows `_calculate_array_chunks` returns for a shape it accepts. */
  function Windows(shape: seq<int>, chunk: seq<int>): seq<Window>
    requires ValidPlan(shape, chunk)
  {
    var ms := ChunkIndices(shape, chunk);
    seq(|ms|, t requires 0 <= t < |ms| => WindowAt(shape, chunk, ms[t]))
  }

  /** The voxel `v` lies inside window `w`. */
  predicate Contains(w: Window, v: seq<int>)
  {
    |w| == |v| && forall d :: 0 <= d < |v| ==> w[d].start <= v[d] < w[d].stop
  }

  /** The voxel `v` lies inside the shape. */
  predicate InShape(v: seq<int>, shape: seq<int>)
  {
    |v| == |shape| && forall d :: 0 <= d < |v| ==> 0 <= v[d] < shape[d]
  }

  /** The lower corner of a window. */
  function Starts(w: Window): (r: seq<int>)
    ensures |r| == |w|
  {
    seq(|w|, d requires 0 <= d < |w| => w[d].start)
  }

  /** Each coordinate of `m` times the chunk size of its axis. */
  function Scale(m: seq<nat>, chunk: seq<int>): (r: seq<int>)
    requires |m| == |chunk|
    ensures |r| == |m|
  {
    seq(|m|, d requires 0 <= d < |m| => m[d] * chunk[d])
  }

  // ---------------------------------------------------------------------------
  // What the windows satisfy

  /** For a 3-D shape there are `ceil(z/cz) * ceil(y/cy) * ceil(x/cx)` windows. */
  lemma WindowCount(shape: seq<int>, chunk: seq<int>)
    requires ValidPlan(shape, chunk) && |shape| == 3
    ensures |Windows(shape, chunk)|
         == ChunkCount(shape[0], chunk[0]) * ChunkCount(shape[1], chunk[1]) * ChunkCount(shape[2], chunk[2])
  {
    var ns := Counts(shape, chunk);
    ProductLength(ns);
    var a, b, c := ns[0], ns[1], ns[2];
    assert ns[2..][1..] == [];
    assert Prod(ns[2..]) == c;
    assert ns[1..][1..] == ns[2..];
    assert Prod(ns[1..]) == b * c;
    assert Prod(ns) == a * (b * c);
  }

  /**
   * On every axis a window starts at its chunk index times the chunk size,
   * ends at the chunk's end cut off at the shape, is non-empty, lies inside
   * the shape and is no wider than the chunk.
   */
  lemma WindowBounds(shape: seq<int>, chunk: seq<int>, t: int, d: int)
    requires ValidPlan(shape, chunk)
    requires 0 <= t < |Windows(shape, chunk)| && 0 <= d < |shape|
    ensures |Windows(shape, chunk)[t]| == |shape|
    ensures var m, s := ChunkIndices(shape, chunk)[t][d], Windows(shape, chunk)[t][d];
      && s.start == m * chunk[d]
      && s.stop == Min(s.start + chunk[d], shape[d])
      && 0 <= s.start < s.stop <= shape[d]
      && s.stop - s.start <= chunk[d]
  {
    var ms := ChunkIndices(shape, chunk);
    assert InRanges(ms[t], Counts(shape, chunk));
    var m := ms[t][d];
    ChunkCountBounds(shape[d], chunk[d]);
    MulMono(m, ChunkCount(shape[d], chunk[d]) - 1, chunk[d]);
  }

  /** The chunk holding coordinate `x` of an axis of length `dim`. */
  lemma ChunkOfCoordinate(dim: int, c: int, x: int)
    requires c > 0 && 0 <= x < dim
    ensures x / c < ChunkCount(dim, c)
    ensures (x / c) * c <= x < (x / c) * c + c
  {
    assert x == (x / c) * c + x % c;
    ChunkCountBounds(dim, c);
    MulLessInv(x / c, ChunkCount(dim, c), c);
  }

  /** Every voxel of the shape lies in some window. */
  lemma WindowsCover(shape: seq<int>, chunk: seq<int>, v: seq<int>)
    requires ValidPlan(shape, chunk) && InShape(v, shape)
    ensures exists t :: 0 <= t < |Windows(shape, chunk)| && Contains(Windows(shape, chunk)[t], v)
  {
    var ms := ChunkIndices(shape, chunk);
    var counts := Counts(shape, chunk);
    var p: seq<nat> := seq(|v|, d requires 0 <= d < |v| => v[d] / chunk[d]);
    forall d | 0 <= d < |v|
      ensures p[d] < counts[d] && p[d] * chunk[d] <= v[d] < p[d] * chunk[d] + chunk[d]
    {
      ChunkOfCoordinate(shape[d], chunk[d], v[d]);
    }
    ProductComplete(counts, p);
    var t :| 0 <= t < |ms| && ms[t] == p;
    var w := WindowAt(shape, chunk, p);
    assert Windows(shape, chunk)[t] == w;
    forall d | 0 <= d < |v| ensures w[d].start <= v[d] < w[d].stop {
      assert w[d] == Slice(p[d] * chunk[d], Min(p[d] * chunk[d] + chunk[d], shape[d]));
    }
    assert Contains(w, v);
  }

  /** A voxel in any window lies inside the shape. */
  lemma WindowsInsideShape(shape: seq<int>, chunk: seq<int>, v: seq<int>, t: int)
    requires ValidPlan(shape, chunk)
    requires 0 <= t < |Windows(shape, chunk)| && Contains(Windows(shape, chunk)[t], v)
    ensures InShape(v, shape)
  {
    forall d | 0 <= d < |v| ensures 0 <= v[d] < shape[d] {
      WindowBounds(shape, chunk, t, d);
    }
  }

  /** No voxel is in two windows: the windows are pairwise disjoint. */
  lemma WindowsDisjoint(shape: seq<int>, chunk: seq<int>, v: seq<int>, t1: int, t2: int)
    requires ValidPlan(shape, chunk)
    requires 0 <= t1 < |Windows(shape, chunk)| && 0 <= t2 < |Windows(shape, chunk)|
    requires Contains(Windows(shape, chunk)[t1], v) && Contains(Windows(shape, chunk)[t2], v)
    ensures t1 == t2
  {
    var ws := Windows(shape, chunk);
    var ms := ChunkIndices(shape, chunk);
    assert InRanges(ms[t1], Counts(shape, chunk)) && InRanges(ms[t2], Counts(shape, chunk));
    forall d | 0 <= d < |shape| ensures ms[t1][d] == ms[t2][d] {
      WindowBounds(shape, chunk, t1, d);
      WindowBounds(shape, chunk, t2, d);
      SameChunk(ms[t1][d], ms[t2][d], chunk[d], v[d]);
    }
    assert ms[t1] == ms[t2];
    ProductIncreasing(Counts(shape, chunk));
    IncreasingDistinct(ms, t1, t2);
  }

  /** The chunk indices are exactly the in-range index tuples. */
  lemma ChunkIndicesComplete(shape: seq<int>, chunk: seq<int>, p: seq<nat>)
    requires ValidPlan(shape, chunk)
    ensures p in ChunkIndices(shape, chunk) <==> InRanges(p, Counts(shape, chunk))
  {
    if InRanges(p, Counts(shape, chunk)) {
      ProductComplete(Counts(shape, chunk), p);
    }
  }

  lemma {:induction false} ScaleLexLess(a: seq<nat>, b: seq<nat>, chunk: seq<int>)
    requires |a| == |b| == |chunk| && PositiveSizes(chunk)
    requires LexLess(a, b)
    ensures LexLess(Scale(a, chunk), Scale(b, chunk))
    decreases |a|
  {
    if a[0] < b[0] {
      MulMono(a[0] + 1, b[0], chunk[0]);
    } else {
      assert Scale(a, chunk)[1..] == Scale(a[1..], chunk[1..]);
      assert Scale(b, chunk)[1..] == Scale(b[1..], chunk[1..]);
      ScaleLexLess(a[1..], b[1..], chunk[1..]);
    }
  }

  /**
   * Windows are listed in row-major order: their chunk-index tuples, and so
   * their lower corners, increase lexicographically, the Z index varying
   * slowest and the X index fastest.
   */
  lemma WindowsRowMajor(shape: seq<int>, chunk: seq<int>, t1: int, t2: int)
    requires ValidPlan(shape, chunk)
    requires 0 <= t1 < t2 < |Windows(shape, chunk)|
    ensures LexLess(ChunkIndices(shape, chunk)[t1], ChunkIndices(shape, chunk)[t2])
    ensures LexLess(Starts(Windows(shape, chunk)[t1]), Starts(Windows(shape, chunk)[t2]))
  {
    var ms := ChunkIndices(shape, chunk);
    var ws := Windows(shape, chunk);
    ProductIncreasing(Counts(shape, chunk));
    assert InRanges(ms[t1], Counts(shape, chunk)) && InRanges(ms[t2], Counts(shape, chunk));
    assert Starts(ws[t1]) == Scale(ms[t1], chunk);
    assert Starts(ws[t2]) == Scale(ms[t2], chunk);
    ScaleLexLess(ms[t1], ms[t2], chunk);
  }

  /** A 10-voxel cube in chunks of 4 gives 27 windows. */
  lemma TenCubeCount(shape: seq<int>, chunk: seq<int>)
    requires shape == [10, 10, 10] && chunk == [4, 4, 4]
    ensures ValidPlan(shape, chunk)
    ensures |Windows(shape, chunk)| == 27
  {
    WindowCount(shape, chunk);
    assert ChunkCount(10, 4) == 3;
  }

  /** Each of those windows cuts every axis into [0,4), [4,8) or [8,10). */
  lemma TenCubeSlices(shape: seq<int>, chunk: seq<int>, t: int, d: int)
    requires shape == [10, 10, 10] && chunk == [4, 4, 4]
    requires 0 <= t < |Windows(shape, chunk)| && 0 <= d < 3
    ensures Windows(shape, chunk)[t][d] in [Slice(0, 4), Slice(4, 8), Slice(8, 10)]
  {
    WindowBounds(shape, chunk, t, d);
    var m := ChunkIndices(shape, chunk)[t][d];
    assert InRanges(ChunkIndices(shape, chunk)[t], Counts(shape, chunk));
    assert m < ChunkCount(10, 4) == 3;
  }

  // ---------------------------------------------------------------------------
  // The source's procedures

  /**
   * `_pad_amount`: fails its assertion when the chunk is larger than the
   * axis; otherwise counts chunks up until they reach `dim` and returns the
   * padding, the least amount that makes `dim` a whole number of chunks.
   * An axis exactly one chunk long needs no padding, whatever the chunk.
   */
  method PadAmount(dim: int, chunkDim: int) returns (r: Result<int>)
    requires dim <= chunkDim || chunkDim > 0
    ensures r.Err? <==> dim < chunkDim
    ensures r.Err? ==> r.error == ChunkExceedsDim(dim, chunkDim)
    ensures r.Ok? && dim == chunkDim ==> r.value == 0
    ensures r.Ok? && chunkDim > 0 ==> r.value == Padding(dim, chunkDim)
    ensures r.Ok? && chunkDim > 0 ==> IsLeastPadding(dim, chunkDim, r.value) && r.value < chunkDim
  {
    if dim < chunkDim {
      return Err(ChunkExceedsDim(dim, chunkDim));
    }
    var n := 1;
    while chunkDim * n < dim
      invariant n >= 1
      invariant n == 1 || chunkDim * (n - 1) < dim
      invariant chunkDim <= 0 ==> n == 1
      decreases dim - chunkDim * n
    {
      n := n + 1;
    }
    if chunkDim > 0 {
      CeilUnique(dim, chunkDim, n);
      PaddingIsLeast(dim, chunkDim);
    }
    return Ok(chunkDim * n - dim);
  }

  /**
   * The list `[_pad_amount(s, cs) for s, cs in zip(shape, chunk_shape)]`:
   * the padding of every axis, or the assertion error of the first axis whose
   * chunk does not fit. An axis whose chunk equals it gets 0 even when the
   * chunk is zero or negative.
   */
  method PadSizes(shape: seq<int>, chunk: seq<int>) returns (res: Result<seq<int>>)
    requires |shape| == |chunk| && PositiveWhereReached(shape, chunk)
    ensures res.Err? <==> !Fits(shape, chunk)
    ensures res.Err? ==>
      exists d :: FirstMisfit(shape, chunk, d) && res.error == ChunkExceedsDim(shape[d], chunk[d])
    ensures res.Ok? ==> |res.value| == |shape|
    ensures res.Ok? ==> forall e :: 0 <= e < |shape| && shape[e] == chunk[e] ==> res.value[e] == 0
    ensures res.Ok? ==> forall e :: 0 <= e < |shape| && chunk[e] > 0 ==> res.value[e] == Padding(shape[e], chunk[e])
    ensures res.Ok? && PositiveSizes(chunk) ==> ValidPlan(shape, chunk)
  {
    var padSize: seq<int> := [];
    for i := 0 to |shape|
      invariant |padSize| == i
      invariant forall e :: 0 <= e < i ==> shape[e] >= chunk[e]
      invariant forall e :: 0 <= e < i && shape[e] == chunk[e] ==> padSize[e] == 0
      invariant forall e :: 0 <= e < i && chunk[e] > 0 ==> padSize[e] == Padding(shape[e], chunk[e])
    {
      ReachedAxis(shape, chunk, i);
      var p := PadAmount(shape[i], chunk[i]);
      if p.Err? {
        assert FirstMisfit(shape, chunk, i);
        return Err(p.error);
      }
      padSize := padSize + [p.value];
    }
    return Ok(padSize);
  }

  /**
   * The loop of `_calculate_array_chunks` over `product(*[range(n) for n in
   * n_chunk])`: one window per chunk-index tuple, in the order yielded.
   */
  method CollectWindows(shape: seq<int>, chunk: seq<int>, nChunk: seq<nat>) returns (windows: seq<Window>)
    requires ValidPlan(shape, chunk) && nChunk == Counts(shape, chunk)
    ensures windows == Windows(shape, chunk)
  {
    var mults := Product(nChunk);
    windows := [];
    for t := 0 to |mults|
      invariant |windows| == t
      invariant forall k :: 0 <= k < t ==> windows[k] == WindowAt(shape, chunk, mults[k])
    {
      var m := mults[t];
      assert InRanges(m, nChunk);
      var idxs: Window := [];
      for d := 0 to |shape|
        invariant idxs == WindowAt(shape, chunk, m)[..d]
      {
        var left := m[d] * chunk[d];
        var i1 := left + chunk[d];
        var right := if i1 > shape[d] then shape[d] else i1;
        idxs := idxs + [Slice(left, right)];
      }
      windows := windows + [idxs];
    }
  }

  /**
   * `_calculate_array_chunks`: pads each axis up to whole chunks, walks the
   * chunk-index tuples in `itertools.product` order and appends, for each,
   * the window of that chunk cut off at the true shape. Fails, as
   * `_pad_amount` does, at the first axis whose chunk does not fit.
   */
  method CalculateArrayChunks(z: int, r: int, c: int, chunkShape: ChunkShape)
    returns (res: Result<seq<Window>>)
    requires PositiveWhereReached([z, r, c], Expand(chunkShape))
    requires Fits([z, r, c], Expand(chunkShape)) ==> PositiveSizes(Expand(chunkShape))
    ensures res.Err? <==> !Fits([z, r, c], Expand(chunkShape))
    ensures res.Err? ==>
      exists d :: FirstMisfit([z, r, c], Expand(chunkShape), d)
               && res.error == ChunkExceedsDim([z, r, c][d], Expand(chunkShape)[d])
    ensures res.Ok? ==>
      ValidPlan([z, r, c], Expand(chunkShape)) && res.value == Windows([z, r, c], Expand(chunkShape))
  {
    var shape := [z, r, c];
    var chunk := Expand(chunkShape);
    var pads := PadSizes(shape, chunk);
    if pads.Err? {
      return Err(pads.error);
    }
    var padSize := pads.value;
    var nChunk: seq<nat> := [];
    for d := 0 to 3
      invariant |nChunk| == d
      invariant forall e :: 0 <= e < d ==> nChunk[e] == ChunkCount(shape[e], chunk[e])
    {
      PaddedChunkCount(shape[d], chunk[d]);
      var padded := shape[d] + padSize[d];
      nChunk := nChunk + [padded / chunk[d]];
    }
    assert nChunk == Counts(shape, chunk);

    var windows := CollectWindows(shape, chunk, nChunk);
    return Ok(windows);
  }
}
