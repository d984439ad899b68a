/**
 * The element-wise square-root module: a kernel of 256-wide workgroups in which invocation x
 * writes `outputs[x] := sqrt(inputs[x])` when x is below the input count, and the host that
 * binds the count, the inputs and the outputs, launches one invocation per element rounded up
 * to whole workgroups, reads the outputs back and looks for the first wrong one.
 */
module Elemwise {
  import opened Wrappers
  import opened WebGpu
  import opened KernelCall

  /** `@workgroup_size(256)`. */
  const WorkgroupSize: nat := 256

  /** The number of inputs the host builds. */
  const InputCount: nat := 1000000

  /** `Math.ceil(n / 256)`: the workgroups the host launches for n elements. */
  function WorkgroupCount(n: nat): (c: nat)
    ensures n <= 256 * c < n + 256
  {
    (n + 255) / 256
  }

  /** The output element invocation x writes, if any: its own, when it is below the count. */
  function WriteTarget(x: nat, numInputs: nat): (t: Option<nat>)
    ensures t.Some? <==> x < numInputs
    ensures t.Some? ==> t.value == x
  {
    if x < numInputs then Some(x) else None
  }

  /** One invocation of the kernel, at `position.x == x`, on the outputs as the earlier ones left them. */
  function Invocation(x: nat, numInputs: nat, inputs: seq<int>, outputs: seq<int>, sqrt: int -> int): (r: seq<int>)
    ensures |r| == |outputs|
    ensures forall i :: 0 <= i < |r| && i != x ==> r[i] == outputs[i]
    ensures x < numInputs && x < |inputs| && x < |outputs| ==> r[x] == sqrt(inputs[x])
    ensures x >= numInputs ==> r == outputs
  {
    match WriteTarget(x, numInputs)
    case None => outputs
    case Some(i) => if i < |inputs| && i < |outputs| then outputs[i := sqrt(inputs[i])] else outputs
  }

  /**
   * The invocations of a grid with `count` invocations along x, run one after the other. They
   * do not read what others write, so any order gives the same result.
   */
  function Grid(numInputs: nat, inputs: seq<int>, outputs: seq<int>, sqrt: int -> int, count: nat): (r: seq<int>)
    ensures |r| == |outputs|
    decreases count
  {
    if count == 0 then outputs
    else Invocation(count - 1, numInputs, inputs, Grid(numInputs, inputs, outputs, sqrt, count - 1), sqrt)
  }

  /** The invocations among the first `count` that write output element i. */
  function Writers(numInputs: nat, count: nat, i: nat): set<nat>
  {
    set x: nat | x < count && WriteTarget(x, numInputs) == Some(i)
  }

  /**
   * With at least as many invocations as inputs, every element below the count is written by
   * exactly one invocation, and no element at or beyond it by any.
   */
  lemma ExactlyOnce(numInputs: nat, count: nat)
    requires numInputs <= count
    ensures forall i: nat :: i < numInputs ==> Writers(numInputs, count, i) == {i}
    ensures forall i: nat :: i >= numInputs ==> Writers(numInputs, count, i) == {}
  {
    forall i: nat | i < numInputs
      ensures Writers(numInputs, count, i) == {i}
    {
      assert i in Writers(numInputs, count, i);
    }
  }

  /**
   * After the first `count` invocations, element i holds `sqrt(inputs[i])` when some invocation
   * wrote it, and what it held before otherwise.
   */
  lemma {:induction false} GridValue(numInputs: nat, inputs: seq<int>, outputs: seq<int>, sqrt: int -> int, count: nat)
    ensures forall i :: 0 <= i < |outputs| ==>
              Grid(numInputs, inputs, outputs, sqrt, count)[i] ==
                if i < count && i < numInputs && i < |inputs| then sqrt(inputs[i]) else outputs[i]
    decreases count
  {
    if count > 0 {
      GridValue(numInputs, inputs, outputs, sqrt, count - 1);
    }
  }

  /** The bindings the host sets up: the count and the inputs read-only, the outputs writable. */
  const ElemwiseBindings: seq<Binding> := [Binding(0, false), Binding(1, false), Binding(2, true)]

  /**
   * The compiled kernel: binding 0 holds the count, read as `u32`, binding 1 the inputs and
   * binding 2 the outputs; the grid has 256 invocations along x per workgroup. It writes only
   * the outputs and keeps every binding's length; a bind group of another shape leaves
   * everything as it was.
   */
  function ElemwiseKernel(sqrt: int -> int): (k: Kernel)
    ensures forall dims, bound :: |k(dims, bound)| == |bound|
    ensures forall dims, bound, i :: 0 <= i < |bound| ==> |k(dims, bound)[i]| == |bound[i]|
    ensures forall dims, bound, i :: 0 <= i < |bound| && i != 2 ==> k(dims, bound)[i] == bound[i]
  {
    (dims: Dims, bound: seq<seq<int>>) =>
      if |bound| == 3 && |bound[0]| >= 1
      then [bound[0], bound[1], Grid(U32(bound[0][0]), bound[1], bound[2], sqrt, WorkgroupSize * dims.x)]
      else bound
  }

  /**
   * Launched as the host launches it, with the count equal to the number of inputs and enough
   * workgroups, the kernel leaves the square root of each input in the outputs.
   */
  lemma {:induction false} ElemwiseDispatch(sqrt: int -> int, buffers: seq<GpuBuffer>, inputs: seq<int>, dims: Dims)
    requires |buffers| == 3 && |inputs| < 0x1_0000_0000 && |inputs| <= 256 * dims.x
    requires forall k :: 0 <= k < 3 ==> buffers[k].usage.storage
    requires buffers[0].contents == [|inputs|] && buffers[1].contents == inputs && |buffers[2].contents| == |inputs|
    ensures BindingsValid(buffers, ElemwiseBindings)
    ensures var r := Dispatched(buffers, ElemwiseKernel(sqrt), ElemwiseBindings, dims)[2].contents;
            |r| == |inputs| && forall i :: 0 <= i < |inputs| ==> r[i] == sqrt(inputs[i])
  {
    var bindings := ElemwiseBindings;
    assert BindingsValid(buffers, bindings);
    var bound := Bound(buffers, bindings);
    assert bound == [[|inputs|], inputs, buffers[2].contents];
    var results := ElemwiseKernel(sqrt)(dims, bound);
    var n := |inputs|;
    assert U32(n) == n;
    GridValue(n, inputs, buffers[2].contents, sqrt, 256 * dims.x);
    assert results[2] == Grid(n, inputs, buffers[2].contents, sqrt, 256 * dims.x);
    DispatchedBuffers(buffers, ElemwiseKernel(sqrt), bindings, dims);
    assert bindings[2].buffer == 2;
  }

  /** The first input values: 0, 1, ..., n - 1, pushed one at a time. */
  method Iota(n: nat) returns (inputs: seq<int>)
    ensures |inputs| == n && forall i :: 0 <= i < n ==> inputs[i] == i
  {
    inputs := [];
    for i := 0 to n
      invariant |inputs| == i && forall j :: 0 <= j < i ==> inputs[j] == j
    {
      inputs := inputs + [i];
    }
  }

  /** Element i is reported: it was read back and differs from the square root of its input. */
  predicate Mismatch(inputs: seq<int>, output: seq<int>, sqrt: int -> int, i: nat)
    requires i < |inputs|
  {
    i < |output| && output[i] != sqrt(inputs[i])
  }

  /** The check loop: the lowest mismatching index, if there is one; it stops there. */
  method FirstMismatch(inputs: seq<int>, output: seq<int>, sqrt: int -> int) returns (m: Option<nat>)
    ensures m.None? <==> forall i :: 0 <= i < |inputs| ==> !Mismatch(inputs, output, sqrt, i)
    ensures m.Some? ==> m.value < |inputs| && Mismatch(inputs, output, sqrt, m.value) &&
                        forall j :: 0 <= j < m.value ==> !Mismatch(inputs, output, sqrt, j)
  {
    m := None;
    var i := 0;
    while i < |inputs|
      invariant 0 <= i <= |inputs|
      invariant forall j :: 0 <= j < i ==> !Mismatch(inputs, output, sqrt, j)
    {
      if Mismatch(inputs, output, sqrt, i) {
        m := Some(i);
        break;
      }
      i := i + 1;
    }
  }

  /** The three `addBufferArgument` calls of `run`, on a fresh call object with a new device: the count, the inputs, the outputs. */
  method BindArguments(util: ComputeKernelCall, count: array<int>, input: array<int>, output: array<int>)
    requires util.Valid() && util.device == Some(NewDevice())
    requires util.bindGroupLayout == [] && util.bindGroup == [] && util.outputBuffers == [] && util.arguments == []
    modifies util
    ensures util.Valid() && util.device.Some?
    ensures util.device.value.buffers ==
              [GpuBuffer(ArgumentUsage(false), count[..]), GpuBuffer(ArgumentUsage(false), input[..]),
               GpuBuffer(ArgumentUsage(true), output[..])]
    ensures util.outputBuffers == [OutputInfo(2, output)]
    ensures BindingsOf(util.bindGroupLayout, util.bindGroup) == ElemwiseBindings
  {
    util.AddBufferArgument(count, false);
    util.AddBufferArgument(input, false);
    util.AddBufferArgument(output, true);
    ghost var args := [Argument(count, false, 0), Argument(input, false, 1), Argument(output, true, 2)];
    assert util.arguments == args;
    assert util.outputBuffers == OutputsOf(args);
    ArgumentBindings(util.bindGroupLayout, util.bindGroup, util.outputBuffers, args, util.device.value.buffers);
  }

  /**
   * The kernel call of `run` on a fresh call object with a new device: bind the count, the
   * inputs and the outputs, launch `ceil(n / 256)` workgroups and read the outputs back.
   */
  method CallKernel(util: ComputeKernelCall, sqrt: int -> int, inputs: seq<int>, count: array<int>, input: array<int>,
                    output: array<int>, errors: seq<(ErrorFilter, string)>) returns (outcome: Outcome)
    requires util.Valid() && util.device == Some(NewDevice())
    requires util.bindGroupLayout == [] && util.bindGroup == [] && util.outputBuffers == [] && util.arguments == []
    requires |inputs| < 0x1_0000_0000 && count[..] == [|inputs|] && input[..] == inputs && output.Length == |inputs|
    modifies util, output
    ensures outcome.Pass? <==> errors == []
    ensures outcome.Pass? ==> forall i :: 0 <= i < |inputs| ==> output[i] == sqrt(inputs[i])
  {
    BindArguments(util, count, input, output);
    ghost var buffers := util.device.value.buffers;
    var dims := DispatchDims(WorkgroupCount(|inputs|), None, None);
    ElemwiseDispatch(sqrt, buffers, inputs, dims);
    assert util.outputBuffers[0].host == output;
    assert util.OutputArrays() == {output};
    outcome := util.RunKernel(ElemwiseKernel(sqrt), WorkgroupCount(|inputs|), None, None, errors);
    if outcome.Pass? {
      assert LastWithArray(util.outputBuffers, 0);
      assert output[..] == Dispatched(buffers, ElemwiseKernel(sqrt), ElemwiseBindings, dims)[2].contents;
    }
  }

  /**
   * `ElemwiseSqrt.run`: with no adapter it fails; the kernel call fails exactly when some
   * error is raised; otherwise the outputs read back are the square roots of 0 .. 999999 and
   * the check reports nothing.
   */
  method Run(sqrt: int -> int, adapterAvailable: bool, errors: seq<(ErrorFilter, string)>)
    returns (outcome: Outcome, results: seq<int>, mismatch: Option<nat>)
    ensures !adapterAvailable ==> outcome == Fail(AdapterError)
    ensures adapterAvailable ==> (outcome.Pass? <==> errors == [])
    ensures outcome.Pass? ==> |results| == InputCount && forall i :: 0 <= i < InputCount ==> results[i] == sqrt(i)
    ensures mismatch == None
  {
    results, mismatch := [], None;
    var inputs := Iota(InputCount);
    var input := new int[|inputs|](i requires 0 <= i < |inputs| => inputs[i]);
    var output := new int[|inputs|](i requires 0 <= i < |inputs| => inputs[i]);
    var util := new ComputeKernelCall();
    outcome := util.CreateDevice(adapterAvailable);
    if outcome.Fail? {
      return;
    }
    var count := new int[1](_ => |inputs|);
    assert count[..] == [|inputs|] && input[..] == inputs;
    outcome := CallKernel(util, sqrt, inputs, count, input, output, errors);
    if outcome.Fail? {
      return;
    }
    results := output[..];
    mismatch := FirstMismatch(inputs, results, sqrt);
  }
}
