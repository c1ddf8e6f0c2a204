# pyspim affine resampling: chunk planning and kernel dispatch

This project models the integer and dispatch logic of `pyspim.interp.affine`.
That module resamples 3-D microscopy volumes under affine transforms on a GPU
and fuses several views into one volume. The model covers two parts:

- **The chunk planner** (`_pad_amount`, `_calculate_array_chunks`). It pads
  each axis of a (Z, Y, X) output shape up to whole chunks. Then it lists one
  half-open window per chunk, in `itertools.product` order, with each window cut
  off at the true shape. Both are modelled as methods with loops
  (`ChunkPlanner.PadAmount`, `ChunkPlanner.CalculateArrayChunks`). Each is
  proved equal to a specification function (`Padding`, `Windows`). The
  properties of those functions are proved as lemmas:
  - the padding is the least one that reaches a multiple of the chunk;
  - the number of windows is the product of the per-axis ceilings;
  - every window is non-empty, lies inside the shape and is no wider than a chunk;
  - the windows cover every voxel exactly once;
  - the windows come in row-major order.
  `itertools.product` itself is modelled in module `Cartesian`.
- **Kernel and dtype dispatch** (`_get_kernel`, the residency and output-dtype
  rules of `transform`, and the kernel choice of `maxblend_into_existing` and
  `meanblend_into_existing`). These are pure functions over enumerations
  (module `Dispatch`). A kernel is the CUDA module it was compiled into plus its
  name expression. The contracts pin down three things:
  - which inputs raise and which return None;
  - that every returned kernel was compiled into its module;
  - that each trilinear or cubic B-spline kernel reads the input dtype and
    writes the dtype `transform` allocates.

  The last point uses the kernels' naming convention (`ResamplingSignature`),
  because the `.cu` sources are not part of this model.

Module `Errors` holds the exceptions the code raises, as values.

Behaviours of the code the model keeps, though one might expect otherwise:

- `_get_kernel` with 'nearest' never raises. With `preserve_dtype` it returns
  the `unsigned short` kernel for every dtype, float32 included. Without the flag
  and with an unrecognised dtype, it returns None. `transform` then fails only
  when it calls that None (`NoneNotCallable`).
- The blend functions do not compare the shapes of their operands. Both shapes
  are passed to the kernel, and the model records them as launch arguments.
- `maxblend_into_existing` accepts every method. Any method other than 'linear'
  uses the cubic B-spline module.
- An oversized chunk fails an `assert` (`ChunkExceedsDim`). The code checks it
  axis by axis, so the error names the first axis that does not fit.

## Model

| member | source | states |
|---|---|---|
| Cartesian.Product | src/pyspim/interp/affine.py:238 | every tuple that `product(*[range(n) for n in n_chunk])` yields has one index per axis, each below that axis's count |
| Cartesian.ProductLength | src/pyspim/interp/affine.py:237-238 | the product yields exactly the product of the range sizes, so one tuple per chunk |
| Cartesian.ProductComplete | src/pyspim/interp/affine.py:238 | every tuple of in-range indices is yielded |
| Cartesian.ProductIncreasing | src/pyspim/interp/affine.py:238-240 | the tuples come in strictly increasing lexicographic order, the first axis slowest, so none repeats |
| ChunkPlanner.Expand | src/pyspim/interp/affine.py:233-234 | an integer chunk shape becomes the same size on all three axes; a tuple is kept as given |
| ChunkPlanner.PaddingIsLeast | src/pyspim/interp/affine.py:221-227 | `dim + Padding(dim, c)` is the least multiple of `c` that is at least `dim`; the padding is below `c`, and it is 0 exactly when `dim` is already a multiple |
| ChunkPlanner.PadAmount | src/pyspim/interp/affine.py:221-227 | fails, with both sizes, exactly when `dim < chunk_dim`; an axis exactly one chunk long gets 0, whatever the chunk; otherwise, for a positive chunk, the loop returns `Padding(dim, chunk_dim)`, the least padding that reaches a multiple of the chunk, and it is below one chunk |
| ChunkPlanner.PaddedChunkCount | src/pyspim/interp/affine.py:235-237 | the padded extent divided by the chunk is `ceil(dim / chunk)` |
| ChunkPlanner.PadSizes | src/pyspim/interp/affine.py:235 | pads the axes in order; fails, with the sizes of the first axis whose chunk does not fit, exactly when some axis is shorter than its chunk; otherwise gives 0 on every axis equal to its chunk and `Padding(dim, chunk)` on every axis with a positive chunk, and the plan is valid when all chunks are positive |
| ChunkPlanner.CollectWindows | src/pyspim/interp/affine.py:238-249 | the loop over the product appends exactly `Windows(shape, chunk)`, one window per chunk-index tuple in the order yielded |
| ChunkPlanner.CalculateArrayChunks | src/pyspim/interp/affine.py:230-250 | fails exactly when some axis is shorter than its chunk, with the error of the first such axis, zero or negative chunks on equal axes included; otherwise returns exactly `Windows(shape, chunk)` |
| ChunkPlanner.WindowCount | src/pyspim/interp/affine.py:233-238 | the number of windows is `ceil(z/cz) * ceil(y/cy) * ceil(x/cx)` |
| ChunkPlanner.WindowBounds | src/pyspim/interp/affine.py:241-247 | on every axis a window starts at chunk index times chunk size and ends at `min(start + chunk, shape)`, with `0 <= start < stop <= shape` and width at most the chunk |
| ChunkPlanner.WindowsCover | src/pyspim/interp/affine.py:235-250 | every voxel of the shape lies in some window |
| ChunkPlanner.WindowsInsideShape | src/pyspim/interp/affine.py:244-247 | every voxel of every window lies inside the shape |
| ChunkPlanner.WindowsDisjoint | src/pyspim/interp/affine.py:235-250 | no voxel lies in two different windows |
| ChunkPlanner.ChunkIndicesComplete | src/pyspim/interp/affine.py:237-238 | a tuple is a chunk index of the plan if and only if each entry is below the chunk count of its axis |
| ChunkPlanner.WindowsRowMajor | src/pyspim/interp/affine.py:238-240 | later windows have lexicographically larger chunk indices and lower corners: Z varies slowest, X fastest |
| ChunkPlanner.TenCubeCount | src/pyspim/interp/affine.py:230-250 | a 10x10x10 shape in chunks of 4 gives 27 windows |
| ChunkPlanner.TenCubeSlices | src/pyspim/interp/affine.py:241-248 | each of those windows cuts every axis into [0,4), [4,8) or [8,10) |
| Dispatch.GetKernel | src/pyspim/interp/affine.py:58-85 | an unknown method raises 'invalid interpolation method'; linear/cubspl raise 'invalid datatype' exactly for dtypes other than uint16/float32; nearest returns None exactly for an unknown dtype without preserve_dtype; every kernel returned is compiled into the method's module; a linear/cubspl kernel reads the input dtype and writes float32, or uint16 when preserving uint16; a nearest kernel is the `unsigned short` one when preserve_dtype is set, else the input dtype's |
| Dispatch.ResamplingKernelUnique | src/pyspim/interp/affine.py:32-52 | within one module, a compiled resampling kernel is determined by the element types it reads and writes, so GetKernel's contract fixes its linear/cubspl result |
| Dispatch.NearestKernelUnique | src/pyspim/interp/affine.py:20-23 | a compiled nearest kernel is determined by its element type |
| Dispatch.NearestPreserveOverridesFloat | src/pyspim/interp/affine.py:79-83 | `transform` of a float32 device volume with nearest and preserve_dtype launches the `unsigned short` kernel on a float32 output buffer, a different launch than without the flag; for linear and cubspl the flag changes nothing on float32 |
| Dispatch.Transform | src/pyspim/interp/affine.py:164-181 | a host array raises 'only works on cupy arrays'; on the device the call succeeds exactly when the kernel lookup found a kernel, and otherwise propagates its error or fails calling None; the output is zero-filled, of the given shape or else the bounding shape, with the input dtype when preserving it and float32 otherwise; the launched linear/cubspl kernel reads the input dtype and writes the output dtype; float32 input gives float32 output |
| Dispatch.MaxBlendIntoExisting | src/pyspim/interp/affine.py:253-263 | never raises; launches the compiled `affineTransformMaxBlend` of the linear module for 'linear' and of the cubspl module for any other method, with both arrays' shapes |
| Dispatch.MeanBlendIntoExisting | src/pyspim/interp/affine.py:266-279 | raises 'invalid interpolation method' exactly for methods other than 'linear' and 'cubspl'; otherwise launches that method's compiled `affineTransformMeanBlend` with both arrays' shapes |
| Dispatch.BlendModulesAgree | src/pyspim/interp/affine.py:256-275 | for 'linear' and 'cubspl', max-blend, mean-blend and resampling use kernels of the same module |

## Left out

- `decompose_transform` (Cholesky factorisation, inverse and determinant), `output_shape_for_transform` and `output_shape_for_inv_transform`: floating-point linear algebra. `Transform` takes the bounding shape `output_shape_for_transform` computes as the parameter `boundingShape`.
- Reading and compiling the CUDA sources at import time: I/O and GPU compilation. The compiled name lists are kept as constants, and the kernels are opaque names.
- The kernels themselves, the cast of the transform matrix to float32, and `launch_params_for_volume`: GPU code and a helper that is not part of this model.
- Transform: describes the launch (kernel, zero-filled output buffer, integer arguments) but not the voxel values the kernel writes, because those come from CUDA code outside the model.
- MaxBlendIntoExisting: describes the kernel launch only. The per-voxel maximum happens in CUDA code outside the model.
- MeanBlendIntoExisting: describes the kernel launch only. The running sum and count happen in CUDA code outside the model.
- `_transform_distributed` and `_transform_chunk`: process pool, manager queue, zarr storage and device discovery. The chunk task is also unfinished and raises `NotImplementedError`.
- The CPU interpolation code inside the module's trailing string literal: it is not live code.
- PadAmount: requires a positive chunk unless the chunk is at least the axis; both the assertion error and the zero padding of an axis equal to a zero or negative chunk are modelled. An axis longer than a chunk of zero or less is excluded: the source loops forever there.
- PadSizes: requires, on every axis reached with all earlier axes fitting, a positive chunk or one at least the axis, for the reason given for PadAmount. So shape (0, 3, 3) with chunks (0, 1, 1) gives `[0, 0, 0]`, and with chunks (0, 4, 4) the assertion error of axis 1.
- CalculateArrayChunks: requires what PadSizes requires, so an earlier misfit, such as shape (3, 3, 3) with chunks (4, 0, 1) or (0, 3, 3) with chunks (0, 4, 4), is modelled as the assertion error of the first misfitting axis. It also requires all chunks positive when every axis fits: there a zero chunk divides by zero and a negative one yields windows that run backwards, which `Windows` does not describe.
- CalculateArrayChunks: takes exactly three chunk sizes. A chunk tuple of another length, which the source's `zip` silently truncates to the shorter of the two, is not modelled.
- GetKernel: takes all three arguments. The defaults of `_get_kernel` (`method='linear'`, `preserve_dtype=False`, src/pyspim/interp/affine.py:58) are not modelled, since every call in the module passes all three.
- Running Python with `-O`, which removes the `assert` in `_pad_amount`: not modelled.
