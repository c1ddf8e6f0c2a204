/**
 * Kernel and element-type dispatch of `pyspim.interp.affine`: which compiled
 * CUDA kernel `_get_kernel` picks for an (element type, interpolation method,
 * preserve-dtype) triple, what output buffer `transform` allocates and
 * launches that kernel on, and which blend kernel `maxblend_into_existing` /
 * `meanblend_into_existing` launch.
 *
 * Kernels are opaque: a kernel is the CUDA module it was compiled into and its
 * name expression. What a resampling kernel reads and writes is read off its
 * name, as the source's allocations use it (see ResamplingSignature).
 */
module Dispatch {
  import opened Errors

  /** The input array's dtype: `cupy.uint16`, `cupy.float32`, or anything else. */
  datatype DType = UInt16 | Float32 | OtherDType

  /** The `interp_method` string: 'nearest', 'linear', 'cubspl', or anything else. */
  datatype Interp = Nearest | Linear | CubSpl | OtherInterp

  /** The three `RawModule`s compiled at import time, from nearest.cu, linear.cu and cubspl.cu. */
  datatype CudaModule = NearestModule | LinearModule | CubSplModule

  /** `module.get_function(name)`. */
  datatype Kernel = Kernel(source: CudaModule, name: string)

  /** What `_get_kernel` does: return a kernel, raise, or fall off its end and return None. */
  datatype Lookup = Found(kernel: Kernel) | Raised(error: Error) | NoneReturned

  /** The name expressions each module is compiled with. */
  const NearestKerNames: seq<string> :=
    ["affineTransformNearest<unsigned short>", "affineTransformNearest<float>"]
  const LinearKerNames: seq<string> :=
    ["affineTransformLerp<unsigned short>", "affineTransformLerp<float>", "affineTransformLerpUShort",
     "affineTransformMaxBlend", "affineTransformMeanBlend"]
  const CubSplKerNames: seq<string> :=
    ["affineTransformCubSpl<unsigned short>", "affineTransformCubSpl<float>", "affineTransformCubSplUShort",
     "affineTransformMaxBlend", "affineTransformMeanBlend"]

  function CompiledNames(m: CudaModule): seq<string>
  {
    match m
    case NearestModule => NearestKerNames
    case LinearModule => LinearKerNames
    case CubSplModule => CubSplKerNames
  }

  /** The kernel was compiled into its module, so `get_function` finds it. */
  predicate IsCompiled(k: Kernel)
  {
    k.name in CompiledNames(k.source)
  }

  /** The module holding the resampling kernels of an interpolation method. */
  function ModuleFor(interp: Interp): CudaModule
    requires interp != OtherInterp
  {
    match interp
    case Nearest => NearestModule
    case Linear => LinearModule
    case CubSpl => CubSplModule
  }

  /** The output dtype `transform` allocates: the input's when preserving it, else float32. */
  function OutputDType(input: DType, preserve: bool): DType
  {
    if preserve then input else Float32
  }

  /** The element types a resampling kernel reads from its input and writes to its output. */
  datatype Signature = Signature(input: DType, output: DType)

  /**
   * The signature of the trilinear and cubic B-spline resampling kernels, by
   * their naming convention: the template argument is the input element type
   * and the output is float; the `UShort` variants read and write uint16.
   * Names that are not such kernels have none.
   */
  function ResamplingSignature(name: string): Option<Signature>
  {
    if name == "affineTransformLerp<unsigned short>" || name == "affineTransformCubSpl<unsigned short>" then
      Some(Signature(UInt16, Float32))
    else if name == "affineTransformLerp<float>" || name == "affineTransformCubSpl<float>" then
      Some(Signature(Float32, Float32))
    else if name == "affineTransformLerpUShort" || name == "affineTransformCubSplUShort" then
      Some(Signature(UInt16, UInt16))
    else
      None
  }

  /** The element type a nearest-neighbour kernel is instantiated for (its template argument). */
  function NearestElementType(name: string): Option<DType>
  {
    if name == "affineTransformNearest<unsigned short>" then Some(UInt16)
    else if name == "affineTransformNearest<float>" then Some(Float32)
    else None
  }

  /**
   * `_get_kernel`. An unknown method raises; trilinear and cubic B-spline
   * raise on an unknown dtype and otherwise pick the compiled kernel that
   * reads the input dtype and writes the dtype `transform` allocates.
   * Nearest never raises: preserve-dtype or uint16 input selects the
   * `unsigned short` kernel, float32 input without the flag the `float` one,
   * and any other dtype without the flag falls through to None.
   */
  function GetKernel(dtype: DType, interp: Interp, preserve: bool): (r: Lookup)
    ensures r.Raised? <==> interp == OtherInterp || (interp != Nearest && dtype.OtherDType?)
    ensures r.Raised? ==>
      r.error == (if interp == OtherInterp then InvalidInterpolationMethod else InvalidDatatype)
    ensures r.NoneReturned? <==> interp == Nearest && dtype.OtherDType? && !preserve
    ensures r.Found? ==> interp != OtherInterp && r.kernel.source == ModuleFor(interp) && IsCompiled(r.kernel)
    ensures r.Found? && interp != Nearest ==>
      ResamplingSignature(r.kernel.name) == Some(Signature(dtype, OutputDType(dtype, preserve)))
    ensures r.Found? && interp == Nearest ==>
      NearestElementType(r.kernel.name) == Some(if preserve then UInt16 else dtype)
  {
    match interp
    case Linear =>
      if dtype.UInt16? then
        if preserve then Found(Kernel(LinearModule, LinearKerNames[2]))
        else Found(Kernel(LinearModule, LinearKerNames[0]))
      else if dtype.Float32? then Found(Kernel(LinearModule, LinearKerNames[1]))
      else Raised(InvalidDatatype)
    case CubSpl =>
      if dtype.UInt16? then
        if preserve then Found(Kernel(CubSplModule, CubSplKerNames[2]))
        else Found(Kernel(CubSplModule, CubSplKerNames[0]))
      else if dtype.Float32? then Found(Kernel(CubSplModule, CubSplKerNames[1]))
      else Raised(InvalidDatatype)
    case Nearest =>
      if dtype.UInt16? || preserve then Found(Kernel(NearestModule, NearestKerNames[0]))
      else if dtype.Float32? then Found(Kernel(NearestModule, NearestKerNames[1]))
      else NoneReturned
    case OtherInterp =>
      Raised(InvalidInterpolationMethod)
  }

  /**
   * Within one module, a compiled resampling kernel is determined by what it
   * reads and writes; so GetKernel's contract fixes the kernel it returns
   * for trilinear and cubic B-spline.
   */
  lemma ResamplingKernelUnique(k1: Kernel, k2: Kernel)
    requires IsCompiled(k1) && IsCompiled(k2) && k1.source == k2.source
    requires ResamplingSignature(k1.name).Some?
    requires ResamplingSignature(k1.name) == ResamplingSignature(k2.name)
    ensures k1 == k2
  {
    assert k1.source != NearestModule;
  }

  /** Likewise a compiled nearest-neighbour kernel is determined by its element type. */
  lemma NearestKernelUnique(k1: Kernel, k2: Kernel)
    requires IsCompiled(k1) && IsCompiled(k2) && k1.source == k2.source == NearestModule
    requires NearestElementType(k1.name) == NearestElementType(k2.name)
    ensures k1 == k2
  {
  }

  // ---------------------------------------------------------------------------
  // transform

  /** Where an array lives: a `cupy.ndarray` on the device, or anything else. */
  datatype Residency = Device | Host

  /** The input array, as far as dispatch sees it: residency, dtype and (Z, Y, X) shape. */
  datatype Volume = Volume(residency: Residency, dtype: DType, shape: seq<int>)

  /** `cupy.zeros(shape, dtype=dtype)`. */
  datatype Zeros = Zeros(dtype: DType, shape: seq<int>)

  /** The kernel call: the kernel, the output buffer and the trailing integer arguments `*out_shp, *A.shape`. */
  datatype Launch = Launch(kernel: Kernel, out: Zeros, dims: seq<int>)

  /**
   * `transform`: rejects a host array; otherwise looks the kernel up
   * (propagating its ValueError, and failing when the lookup gave None and
   * the call is made on it), allocates a zero-filled output of `out_shp`, or
   * of `boundingShape` when none is given, and launches the kernel on it.
   * `boundingShape` stands for `output_shape_for_transform(T, A.shape)`.
   */
  function Transform(a: Volume, interp: Interp, preserve: bool, outShp: Option<seq<int>>, boundingShape: seq<int>)
    : (r: Result<Launch>)
    ensures a.residency == Host ==> r == Err(NotCupyArray)
    ensures r.Ok? <==> a.residency == Device && GetKernel(a.dtype, interp, preserve).Found?
    ensures a.residency == Device && GetKernel(a.dtype, interp, preserve).Raised? ==>
      r == Err(GetKernel(a.dtype, interp, preserve).error)
    ensures a.residency == Device && GetKernel(a.dtype, interp, preserve).NoneReturned? ==>
      r == Err(NoneNotCallable)
    ensures r.Ok? ==> r.value.kernel == GetKernel(a.dtype, interp, preserve).kernel
    ensures r.Ok? ==> r.value.out.dtype == (if preserve then a.dtype else Float32)
    ensures r.Ok? ==> r.value.out.shape == (if outShp.Some? then outShp.value else boundingShape)
    ensures r.Ok? ==> r.value.dims == r.value.out.shape + a.shape
    ensures r.Ok? && interp != Nearest ==>
      ResamplingSignature(r.value.kernel.name) == Some(Signature(a.dtype, r.value.out.dtype))
    ensures r.Ok? && a.dtype.Float32? ==> r.value.out.dtype.Float32?
  {
    if a.residency == Device then
      match GetKernel(a.dtype, interp, preserve)
      case Raised(e) => Err(e)
      case NoneReturned => Err(NoneNotCallable)
      case Found(kernel) =>
        var shp := if outShp.Some? then outShp.value else boundingShape;
        var out := Zeros(OutputDType(a.dtype, preserve), shp);
        Ok(Launch(kernel, out, out.shape + a.shape))
    else
      Err(NotCupyArray)
  }

  /**
   * Nearest with preserve-dtype on a float32 volume launches the `unsigned
   * short` kernel on the float32 buffer `transform` allocates; trilinear and
   * cubic B-spline ignore the flag for float32.
   */
  lemma NearestPreserveOverridesFloat(s: seq<int>, outShp: Option<seq<int>>, boundingShape: seq<int>)
    ensures var r := Transform(Volume(Device, Float32, s), Nearest, true, outShp, boundingShape);
      r.Ok? && NearestElementType(r.value.kernel.name) == Some(UInt16) && r.value.out.dtype.Float32?
    ensures Transform(Volume(Device, Float32, s), Linear, true, outShp, boundingShape)
         == Transform(Volume(Device, Float32, s), Linear, false, outShp, boundingShape)
    ensures Transform(Volume(Device, Float32, s), CubSpl, true, outShp, boundingShape)
         == Transform(Volume(Device, Float32, s), CubSpl, false, outShp, boundingShape)
    ensures Transform(Volume(Device, Float32, s), Nearest, true, outShp, boundingShape)
         != Transform(Volume(Device, Float32, s), Nearest, false, outShp, boundingShape)
  {
  }

  // ---------------------------------------------------------------------------
  // Blending into an existing buffer

  /** A blend kernel call: the kernel and the trailing integer arguments (the two arrays' shapes). */
  datatype BlendLaunch = BlendLaunch(kernel: Kernel, dims: seq<int>)

  /**
   * `maxblend_into_existing`: the linear module's max-blend kernel for
   * 'linear' and the cubic B-spline module's for every other method,
   * including 'nearest' and unknown ones; it never raises.
   */
  function MaxBlendIntoExisting(e: Volume, n: Volume, interp: Interp): (l: BlendLaunch)
    ensures IsCompiled(l.kernel) && l.kernel.name == "affineTransformMaxBlend"
    ensures l.kernel.source == (if interp == Linear then LinearModule else CubSplModule)
    ensures l.dims == e.shape + n.shape
  {
    var kernel := if interp == Linear then Kernel(LinearModule, "affineTransformMaxBlend")
                  else Kernel(CubSplModule, "affineTransformMaxBlend");
    assert LinearKerNames[3] == CubSplKerNames[3] == kernel.name;
    BlendLaunch(kernel, e.shape + n.shape)
  }

  /**
   * `meanblend_into_existing`: the mean-blend kernel of the method's own
   * module for 'linear' and 'cubspl'; any other method raises.
   */
  function MeanBlendIntoExisting(s: Volume, c: Volume, n: Volume, interp: Interp): (r: Result<BlendLaunch>)
    ensures r.Err? <==> interp != Linear && interp != CubSpl
    ensures r.Err? ==> r.error == InvalidInterpolationMethod
    ensures r.Ok? ==>
      IsCompiled(r.value.kernel) && r.value.kernel.name == "affineTransformMeanBlend"
      && r.value.kernel.source == ModuleFor(interp)
    ensures r.Ok? ==> r.value.dims == s.shape + n.shape
  {
    assert LinearKerNames[4] == CubSplKerNames[4] == "affineTransformMeanBlend";
    if interp == Linear then Ok(BlendLaunch(Kernel(LinearModule, "affineTransformMeanBlend"), s.shape + n.shape))
    else if interp == CubSpl then Ok(BlendLaunch(Kernel(CubSplModule, "affineTransformMeanBlend"), s.shape + n.shape))
    else Err(InvalidInterpolationMethod)
  }

  /**
   * For 'linear' and 'cubspl', max-blend, mean-blend and resampling all use
   * the kernels of the same module.
   */
  lemma BlendModulesAgree(e: Volume, s: Volume, c: Volume, n: Volume, interp: Interp, dtype: DType, preserve: bool)
    requires interp == Linear || interp == CubSpl
    ensures MeanBlendIntoExisting(s, c, n, interp).Ok?
    ensures MaxBlendIntoExisting(e, n, interp).kernel.source == MeanBlendIntoExisting(s, c, n, interp).value.kernel.source
    ensures GetKernel(dtype, interp, preserve).Found? ==>
      GetKernel(dtype, interp, preserve).kernel.source == MaxBlendIntoExisting(e, n, interp).kernel.source
  {
  }
}
