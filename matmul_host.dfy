/**
 * The matrix-multiply module: the host binds n, A, B and C (C starting as a copy of A), launches
 * an (n / 64) x (n / 64) grid of the tiled kernel, reads C back, and recomputes a sample of
 * its cells with the naive triple loop, stopping at the first wrong one.
 */
module MatmulHost {
  import opened Wrappers
  import opened Matrix
  import TiledMatmul
  import opened WebGpu
  import opened KernelCall

  /** The bindings the host sets up: n, A and B read-only, C writable. */
  const MatmulBindings: seq<Binding> := [Binding(0, false), Binding(1, false), Binding(2, false), Binding(3, true)]

  /** The workgroup counts of the host's launch for side n: `runKernel(..., n / 64, n / 64)`. */
  function MatmulDims(n: nat): (d: Dims)
    ensures d.x == n / 64 && d.z == 1
    ensures n >= 64 ==> d.y == n / 64
    ensures n < 64 ==> d.y == 1
  {
    DispatchDims(n / 64, Some(n / 64), None)
  }

  /**
   * The launches the kernel is described for: binding 0 holds a side n (read as `u32`) that is
   * a multiple of 64, A and B are n x n, C has n * n elements, and the grid is the host's.
   */
  predicate Launchable(dims: Dims, bound: seq<seq<int>>)
  {
    |bound| == 4 && |bound[0]| >= 1 &&
    var n := U32(bound[0][0]);
    n % 64 == 0 && dims == MatmulDims(n) &&
    IsSquare(bound[1], n) && IsSquare(bound[2], n) && |bound[3]| == n * n
  }

  /**
   * The compiled tiled kernel: on a launch it is described for, C becomes A B. It writes only
   * C (binding 3) and keeps every binding's length.
   */
  function MatmulKernel(): (k: Kernel)
    ensures forall dims, bound :: |k(dims, bound)| == |bound|
    ensures forall dims, bound, i :: 0 <= i < |bound| ==> |k(dims, bound)[i]| == |bound[i]|
    ensures forall dims, bound, i :: 0 <= i < |bound| && i != 3 ==> k(dims, bound)[i] == bound[i]
  {
    (dims: Dims, bound: seq<seq<int>>) =>
      if Launchable(dims, bound)
      then [bound[0], bound[1], bound[2], Product(bound[1], bound[2], U32(bound[0][0]))]
      else bound
  }

  /**
   * The tiled workgroups, run over the grid on a copy of C: their result is what the kernel
   * is taken to compute, so the tiled algorithm is the naive product.
   */
  method TiledKernel(dims: Dims, bound: seq<seq<int>>) returns (r: seq<seq<int>>)
    ensures r == MatmulKernel()(dims, bound)
  {
    if !Launchable(dims, bound) {
      return bound;
    }
    var n := U32(bound[0][0]);
    var matC := new int[n * n](i requires 0 <= i < n * n => bound[3][i]);
    TiledMatmul.Dispatch(bound[1], bound[2], n, matC);
    r := [bound[0], bound[1], bound[2], matC[..]];
  }

  /**
   * Launched as the host launches it, on n, A, B and a C of the right size, the kernel leaves
   * the product A B in C.
   */
  lemma {:induction false} MatmulDispatch(buffers: seq<GpuBuffer>, matA: seq<int>, matB: seq<int>, size: nat)
    requires |buffers| == 4 && size < 0x1_0000_0000 && size % 64 == 0
    requires IsSquare(matA, size) && IsSquare(matB, size)
    requires forall k :: 0 <= k < 4 ==> buffers[k].usage.storage
    requires buffers[0].contents == [size] && buffers[1].contents == matA && buffers[2].contents == matB
    requires |buffers[3].contents| == size * size
    ensures BindingsValid(buffers, MatmulBindings)
    ensures Dispatched(buffers, MatmulKernel(), MatmulBindings, MatmulDims(size))[3].contents == Product(matA, matB, size)
  {
    var bindings := MatmulBindings;
    assert BindingsValid(buffers, bindings);
    var bound := Bound(buffers, bindings);
    assert bound == [[size], matA, matB, buffers[3].contents];
    assert U32(size) == size;
    assert Launchable(MatmulDims(size), bound);
    DispatchedBuffers(buffers, MatmulKernel(), bindings, MatmulDims(size));
    assert bindings[3].buffer == 3;
  }

  /** The first three `addBufferArgument` calls of `run`, on a fresh call object with a new device: n, A and B. */
  method BindInputs(util: ComputeKernelCall, count: array<int>, arrA: array<int>, arrB: array<int>)
    requires util.Valid() && util.device == Some(NewDevice())
    requires util.bindGroupLayout == [] && util.bindGroup == [] && util.outputBuffers == [] && util.arguments == []
    modifies util
    ensures util.Valid() && util.device.Some?
    ensures util.device.value.buffers ==
              [GpuBuffer(ArgumentUsage(false), count[..]), GpuBuffer(ArgumentUsage(false), arrA[..]),
               GpuBuffer(ArgumentUsage(false), arrB[..])]
    ensures util.outputBuffers == []
    ensures util.arguments == [Argument(count, false, 0), Argument(arrA, false, 1), Argument(arrB, false, 2)]
  {
    util.AddBufferArgument(count, false);
    util.AddBufferArgument(arrA, false);
    util.AddBufferArgument(arrB, false);
  }

  /** The four `addBufferArgument` calls of `run`: n, A and B as inputs, then C as the output. */
  method BindArguments(util: ComputeKernelCall, count: array<int>, arrA: array<int>, arrB: array<int>, arrC: array<int>)
    requires util.Valid() && util.device == Some(NewDevice())
    requires util.bindGroupLayout == [] && util.bindGroup == [] && util.outputBuffers == [] && util.arguments == []
    modifies util
    ensures util.Valid() && util.device.Some?
    ensures util.device.value.buffers ==
              [GpuBuffer(ArgumentUsage(false), count[..]), GpuBuffer(ArgumentUsage(false), arrA[..]),
               GpuBuffer(ArgumentUsage(false), arrB[..]), GpuBuffer(ArgumentUsage(true), arrC[..])]
    ensures util.outputBuffers == [OutputInfo(3, arrC)]
    ensures BindingsOf(util.bindGroupLayout, util.bindGroup) == MatmulBindings
  {
    BindInputs(util, count, arrA, arrB);
    util.AddBufferArgument(arrC, true);
    ghost var args := [Argument(count, false, 0), Argument(arrA, false, 1), Argument(arrB, false, 2), Argument(arrC, true, 3)];
    assert util.arguments == args;
    assert util.outputBuffers == OutputsOf(args);
    ArgumentBindings(util.bindGroupLayout, util.bindGroup, util.outputBuffers, args, util.device.value.buffers);
  }

  /**
   * The kernel call of `run` on a fresh call object with a new device: bind n, A, B and C,
   * launch the (n / 64) x (n / 64) grid and read C back.
   */
  method CallKernel(util: ComputeKernelCall, matA: seq<int>, matB: seq<int>, size: nat, count: array<int>,
                    arrA: array<int>, arrB: array<int>, arrC: array<int>, errors: seq<(ErrorFilter, string)>)
    returns (outcome: Outcome)
    requires util.Valid() && util.device == Some(NewDevice())
    requires util.bindGroupLayout == [] && util.bindGroup == [] && util.outputBuffers == [] && util.arguments == []
    requires size < 0x1_0000_0000 && size % 64 == 0 && IsSquare(matA, size) && IsSquare(matB, size)
    requires count[..] == [size] && arrA[..] == matA && arrB[..] == matB && arrC.Length == size * size
    modifies util, arrC
    ensures outcome.Pass? <==> errors == []
    ensures outcome.Pass? ==> arrC[..] == Product(matA, matB, size)
  {
    BindArguments(util, count, arrA, arrB, arrC);
    ghost var buffers := util.device.value.buffers;
    MatmulDispatch(buffers, matA, matB, size);
    assert util.outputBuffers[0].host == arrC;
    assert util.OutputArrays() == {arrC};
    outcome := util.RunKernel(MatmulKernel(), size / 64, Some(size / 64), None, errors);
    if outcome.Pass? {
      assert LastWithArray(util.outputBuffers, 0);
    }
  }

  /** Cell (i, j) is reported: it was sampled and differs from the dot product the host recomputes. */
  predicate Wrong(a: seq<int>, b: seq<int>, c: seq<int>, size: nat, sampled: (nat, nat) -> bool, i: nat, j: nat)
    requires IsSquare(a, size) && IsSquare(b, size) && IsSquare(c, size) && i < size && j < size
  {
    sampled(i, j) && Entry(c, size, i, j) != Dot(a, b, size, i, j, size)
  }

  /** No sampled cell before (i, j) in row-major order is wrong. */
  predicate RightBefore(a: seq<int>, b: seq<int>, c: seq<int>, size: nat, sampled: (nat, nat) -> bool, i: nat, j: nat)
    requires IsSquare(a, size) && IsSquare(b, size) && IsSquare(c, size)
  {
    forall i': nat, j': nat :: i' < size && j' < size && (i' < i || (i' == i && j' < j)) ==>
      !Wrong(a, b, c, size, sampled, i', j')
  }

  /** The host's recomputation of cell (i, j): `sum += A[i * n + k] * B[j + n * k]` for k = 0 .. n - 1. */
  method CellSum(a: seq<int>, b: seq<int>, size: nat, i: nat, j: nat) returns (sum: int)
    requires IsSquare(a, size) && IsSquare(b, size) && i < size && j < size
    ensures sum == Dot(a, b, size, i, j, size)
  {
    sum := 0;
    for k := 0 to size
      invariant sum == Dot(a, b, size, i, j, k)
    {
      FlatIndex(size, i, k);
      FlatIndex(size, k, j);
      sum := sum + a[i * size + k] * b[j + size * k];
    }
  }

  /**
   * The sampled check: `sampled(i, j)` stands for the random draw that decides whether cell
   * (i, j) is recomputed. The first wrong sampled cell in row-major order is reported and the
   * check stops; otherwise nothing is reported.
   */
  method SampledCheck(a: seq<int>, b: seq<int>, c: seq<int>, size: nat, sampled: (nat, nat) -> bool)
    returns (m: Option<(nat, nat)>)
    requires IsSquare(a, size) && IsSquare(b, size) && IsSquare(c, size)
    ensures m.None? <==> RightBefore(a, b, c, size, sampled, size, 0)
    ensures m.Some? ==> m.value.0 < size && m.value.1 < size &&
                        Wrong(a, b, c, size, sampled, m.value.0, m.value.1) &&
                        RightBefore(a, b, c, size, sampled, m.value.0, m.value.1)
  {
    m := None;
    var i := 0;
    while i < size
      invariant i <= size
      invariant m.None? ==> RightBefore(a, b, c, size, sampled, i, 0)
      invariant m.Some? ==> i == size && m.value.0 < size && m.value.1 < size &&
                            Wrong(a, b, c, size, sampled, m.value.0, m.value.1) &&
                            RightBefore(a, b, c, size, sampled, m.value.0, m.value.1)
    {
      var j := 0;
      while j < size
        invariant j <= size && m.None?
        invariant RightBefore(a, b, c, size, sampled, i, j)
      {
        if !sampled(i, j) {
          j := j + 1;
          continue;
        }
        var sum := CellSum(a, b, size, i, j);
        FlatIndex(size, i, j);
        if c[i * size + j] != sum {
          m := Some((i, j));
          i := size;
          break;
        }
        j := j + 1;
      }
      if m.None? {
        i := i + 1;
      }
    }
  }

  /**
   * `Matmul.run` for side `size`, on random matrices A and B: with no adapter it fails; the
   * kernel call fails exactly when some error is raised; otherwise C read back is A B and the
   * sampled check reports nothing, whichever cells it samples.
   */
  method Run(matA: seq<int>, matB: seq<int>, size: nat, adapterAvailable: bool, errors: seq<(ErrorFilter, string)>,
             sampled: (nat, nat) -> bool) returns (outcome: Outcome, result: seq<int>, mismatch: Option<(nat, nat)>)
    requires IsSquare(matA, size) && IsSquare(matB, size) && size % 64 == 0 && size < 0x8000_0000
    ensures !adapterAvailable ==> outcome == Fail(AdapterError)
    ensures adapterAvailable ==> (outcome.Pass? <==> errors == [])
    ensures outcome.Pass? ==> result == Product(matA, matB, size)
    ensures mismatch == None
  {
    result, mismatch := [], None;
    var arrA := new int[|matA|](i requires 0 <= i < |matA| => matA[i]);
    var arrB := new int[|matB|](i requires 0 <= i < |matB| => matB[i]);
    var arrC := new int[|matA|](i requires 0 <= i < |matA| => matA[i]);
    var util := new ComputeKernelCall();
    outcome := util.CreateDevice(adapterAvailable);
    if outcome.Fail? {
      return;
    }
    var count := new int[1](_ => size);
    assert count[..] == [size] && arrA[..] == matA && arrB[..] == matB;
    outcome := CallKernel(util, matA, matB, size, count, arrA, arrB, arrC, errors);
    if outcome.Fail? {
      return;
    }
    result := arrC[..];
    mismatch := SampledCheck(matA, matB, result, size, sampled);
    if mismatch.Some? {
      ProductEntry(matA, matB, size, mismatch.value.0, mismatch.value.1);
      assert false;
    }
  }
}
