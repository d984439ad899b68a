/**
 * The host-side helper that binds buffer arguments and runs one compute kernel: three
 * in-place growing lists (layout entries, bind-group entries, output buffers), a three-deep
 * error-scope stack popped until the first error, and read-back through staging buffers.
 */
module KernelCall {
  import opened Wrappers
  import opened WebGpu

  const AdapterError: string := "failed to get WebGPU adapter"
  const KernelErrorPrefix: string := "error from kernel call: "

  /** The `buffer.type` of a bind-group-layout entry. */
  datatype BindingKind = Storage | ReadOnlyStorage

  /** A bind-group-layout entry; every entry is visible to the compute stage. */
  datatype LayoutEntry = LayoutEntry(binding: nat, kind: BindingKind)

  /** A bind-group entry: the binding number and the buffer bound there. */
  datatype GroupEntry = GroupEntry(binding: nat, buffer: nat)

  /** An output: its device buffer and the host array the results are read back into. */
  datatype OutputInfo = OutputInfo(buffer: nat, host: array<int>)

  /** An added argument: the host array, whether it is an output, and the buffer created for it. */
  datatype Argument = Argument(host: array<int>, output: bool, buffer: nat)

  /** Outputs are bound writable, inputs read-only. */
  function KindOf(output: bool): (k: BindingKind)
    ensures k == Storage <==> output
  {
    if output then Storage else ReadOnlyStorage
  }

  /** An argument buffer is always STORAGE, and COPY_SRC exactly when it is an output. */
  function ArgumentUsage(output: bool): (u: Usage)
    ensures u.storage && (u.copySrc <==> output) && !u.copyDst && !u.mapRead
  {
    Usage(true, output, false, false)
  }

  /** The usage of a staging buffer: COPY_DST | MAP_READ. */
  const StagingUsage: Usage := Usage(false, false, true, true)

  /** JavaScript's `v || 1` for a grid size: a missing or zero size becomes 1. */
  function OrOne(v: Option<nat>): (r: nat)
    ensures r >= 1
    ensures v.Some? && v.value != 0 ==> r == v.value
    ensures v.None? || v.value == 0 ==> r == 1
  {
    if v.Some? && v.value != 0 then v.value else 1
  }

  /** The workgroup counts `runKernel` dispatches: X as given, Y and Z defaulting to 1. */
  function DispatchDims(x: nat, y: Option<nat>, z: Option<nat>): (d: Dims)
    ensures d.x == x && d.y >= 1 && d.z >= 1
    ensures y.Some? && y.value != 0 ==> d.y == y.value
    ensures z.Some? && z.value != 0 ==> d.z == z.value
  {
    Dims(x, OrOne(y), OrOne(z))
  }

  /** The output entries of the arguments: those added as outputs, in the order they were added. */
  function OutputsOf(args: seq<Argument>): seq<OutputInfo>
  {
    OutputsBelow(args, |args|)
  }

  /** The output entries of the first n arguments. */
  function OutputsBelow(args: seq<Argument>, n: nat): seq<OutputInfo>
    requires n <= |args|
    decreases n
  {
    if n == 0 then []
    else
      var last := args[n - 1];
      OutputsBelow(args, n - 1) + if last.output then [OutputInfo(last.buffer, last.host)] else []
  }

  /** Arguments added later do not change the output entries of the earlier ones. */
  lemma {:induction false} OutputsBelowPrefix(args: seq<Argument>, more: seq<Argument>, n: nat)
    requires n <= |args|
    ensures OutputsBelow(args + more, n) == OutputsBelow(args, n)
    decreases n
  {
    if n > 0 {
      OutputsBelowPrefix(args, more, n - 1);
      assert (args + more)[n - 1] == args[n - 1];
    }
  }

  /**
   * The output entries are exactly the arguments added as outputs, in add order: `pos` lists
   * their positions, increasing, and every output argument is listed.
   */
  lemma {:induction false} OutputPositions(args: seq<Argument>, n: nat) returns (pos: seq<nat>)
    requires n <= |args|
    ensures |pos| == |OutputsBelow(args, n)|
    ensures forall k :: 0 <= k < |pos| ==>
              pos[k] < n && args[pos[k]].output &&
              OutputsBelow(args, n)[k] == OutputInfo(args[pos[k]].buffer, args[pos[k]].host)
    ensures forall j, k :: 0 <= j < k < |pos| ==> pos[j] < pos[k]
    ensures forall i :: 0 <= i < n && args[i].output ==> i in pos
    decreases n
  {
    if n == 0 {
      return [];
    }
    var prev := OutputPositions(args, n - 1);
    var earlier := OutputsBelow(args, n - 1);
    var last := args[n - 1];
    if !last.output {
      assert OutputsBelow(args, n) == earlier + [];
      return prev;
    }
    pos := prev + [n - 1];
    assert OutputsBelow(args, n) == earlier + [OutputInfo(last.buffer, last.host)];
    forall k | 0 <= k < |pos|
      ensures pos[k] < n && args[pos[k]].output && OutputsBelow(args, n)[k] == OutputInfo(args[pos[k]].buffer, args[pos[k]].host)
    {
      if k < |prev| {
        assert pos[k] == prev[k] && OutputsBelow(args, n)[k] == earlier[k];
      }
    }
    forall i | 0 <= i < n && args[i].output
      ensures i in pos
    {
      if i < n - 1 {
        assert i in prev;
      }
    }
  }

  /** The layout, group and output lists as the added arguments determine them. */
  ghost predicate Consistent(layout: seq<LayoutEntry>, group: seq<GroupEntry>, outputs: seq<OutputInfo>, args: seq<Argument>)
  {
    |layout| == |args| && |group| == |args| &&
    (forall k :: 0 <= k < |args| ==>
       layout[k] == LayoutEntry(k, KindOf(args[k].output)) && group[k] == GroupEntry(k, args[k].buffer)) &&
    outputs == OutputsOf(args) &&
    (forall j, k :: 0 <= j < k < |args| ==> BufferOf(args, j) < BufferOf(args, k))
  }

  /** The buffer argument k was given; arguments are given buffers in the order they are added. */
  function BufferOf(args: seq<Argument>, k: nat): nat
    requires k < |args|
  {
    args[k].buffer
  }

  /** The argument's buffer exists, has the argument's usage and holds one word per array element. */
  predicate Live(buffers: seq<GpuBuffer>, a: Argument)
  {
    a.buffer < |buffers| && buffers[a.buffer].usage == ArgumentUsage(a.output) &&
    |buffers[a.buffer].contents| == a.host.Length
  }

  predicate AllLive(buffers: seq<GpuBuffer>, args: seq<Argument>)
  {
    forall k :: 0 <= k < |args| ==> Live(buffers, args[k])
  }

  /**
   * The bindings the pipeline sees: entry k of the bind group bound as layout entry k says.
   * Both lists carry binding k at position k, so pairing by position pairs by binding number.
   */
  function BindingsOf(layout: seq<LayoutEntry>, group: seq<GroupEntry>): seq<Binding>
    requires |layout| == |group|
  {
    seq(|group|, k requires 0 <= k < |group| => Binding(group[k].buffer, layout[k].kind == Storage))
  }

  /** Consistent lists bind argument k's own buffer at binding k, writable iff it is an output. */
  lemma {:induction false} ArgumentBindings(layout: seq<LayoutEntry>, group: seq<GroupEntry>, outputs: seq<OutputInfo>,
                         args: seq<Argument>, buffers: seq<GpuBuffer>)
    requires Consistent(layout, group, outputs, args) && AllLive(buffers, args)
    ensures |BindingsOf(layout, group)| == |args|
    ensures BindingsValid(buffers, BindingsOf(layout, group))
    ensures forall k :: 0 <= k < |args| ==> BindingsOf(layout, group)[k] == Binding(args[k].buffer, args[k].output)
  {
    var b := BindingsOf(layout, group);
    forall k | 0 <= k < |args|
      ensures b[k] == Binding(args[k].buffer, args[k].output) && b[k].buffer < |buffers| && buffers[b[k].buffer].usage.storage
    {
      assert Live(buffers, args[k]);
    }
  }

  /** Consistent lists never bind one buffer twice: every argument has a buffer of its own. */
  lemma {:induction false} ArgumentBuffersDistinct(layout: seq<LayoutEntry>, group: seq<GroupEntry>, outputs: seq<OutputInfo>,
                                args: seq<Argument>)
    requires Consistent(layout, group, outputs, args)
    ensures forall j, k :: 0 <= j < k < |args| ==> BindingsOf(layout, group)[j].buffer != BindingsOf(layout, group)[k].buffer
  {
    forall j, k | 0 <= j < k < |args|
      ensures BindingsOf(layout, group)[j].buffer != BindingsOf(layout, group)[k].buffer
    {
      assert BufferOf(args, j) < BufferOf(args, k);
    }
  }

  /** Every output entry names a live buffer, created with COPY_SRC, one word per element of its array. */
  lemma {:induction false} OutputsLive(args: seq<Argument>, buffers: seq<GpuBuffer>)
    requires AllLive(buffers, args)
    ensures Readable(buffers, OutputsOf(args))
  {
    var outputs := OutputsOf(args);
    var pos := OutputPositions(args, |args|);
    forall k | 0 <= k < |outputs|
      ensures OutputReadable(buffers, outputs[k])
    {
      assert Live(buffers, args[pos[k]]);
    }
  }

  /** The call's lists can be launched: their bindings are valid and every output can be read back. */
  lemma {:induction false} CallLaunchable(layout: seq<LayoutEntry>, group: seq<GroupEntry>, outputs: seq<OutputInfo>,
                       args: seq<Argument>, buffers: seq<GpuBuffer>)
    requires Consistent(layout, group, outputs, args) && AllLive(buffers, args)
    ensures BindingsValid(buffers, BindingsOf(layout, group)) && Readable(buffers, outputs)
  {
    ArgumentBindings(layout, group, outputs, args, buffers);
    OutputsLive(args, buffers);
  }

  /** Liveness only depends on usages and lengths, which running commands and creating buffers keep. */
  lemma {:induction false} LiveKept(b: seq<GpuBuffer>, extra: seq<GpuBuffer>, b': seq<GpuBuffer>, args: seq<Argument>)
    requires AllLive(b, args) && SameShape(b + extra, b')
    ensures AllLive(b', args)
  {
    forall k | 0 <= k < |args|
      ensures Live(b', args[k])
    {
      assert Live(b, args[k]);
      assert (b + extra)[args[k].buffer] == b[args[k].buffer];
    }
  }

  /**
   * Adding an argument whose buffer is created after all the others keeps the lists consistent
   * and every argument live.
   */
  lemma {:induction false} ArgumentAdded(layout: seq<LayoutEntry>, group: seq<GroupEntry>, outputs: seq<OutputInfo>,
                      args: seq<Argument>, buffers: seq<GpuBuffer>, buffers': seq<GpuBuffer>, a: Argument)
    requires Consistent(layout, group, outputs, args) && AllLive(buffers, args)
    requires a.buffer == |buffers| && |buffers'| == |buffers| + 1 && buffers'[..|buffers|] == buffers && Live(buffers', a)
    ensures Consistent(layout + [LayoutEntry(|layout|, KindOf(a.output))], group + [GroupEntry(|layout|, a.buffer)],
                       outputs + (if a.output then [OutputInfo(a.buffer, a.host)] else []), args + [a])
    ensures AllLive(buffers', args + [a])
  {
    var args' := args + [a];
    OutputsBelowPrefix(args, [a], |args|);
    forall k | 0 <= k < |args|
      ensures args[k].buffer < a.buffer && Live(buffers', args[k])
    {
      assert Live(buffers, args[k]);
      assert buffers'[args[k].buffer] == buffers[args[k].buffer];
    }
    forall j, k | 0 <= j < k < |args'|
      ensures BufferOf(args', j) < BufferOf(args', k)
    {
      if k < |args| {
        assert BufferOf(args, j) < BufferOf(args, k);
      }
    }
  }

  /** The scope stack after the three pushes of a kernel call and the errors raised inside it. */
  function ScopesBeforePops(scopes: seq<ErrorScope>, errors: seq<(ErrorFilter, string)>): (r: seq<ErrorScope>)
    ensures |r| == |scopes| + 3
    ensures r[|scopes|].filter == Validation && r[|scopes| + 1].filter == Internal && r[|scopes| + 2].filter == OutOfMemory
  {
    RaiseAll(scopes + Scopes3(None, None, None), errors)
  }

  /**
   * Pops up to `n` scopes, stopping at the first one that holds an error: what is left is a
   * prefix of the stack, every scope popped before the last one was clean, and the error
   * reported is the last popped scope's; with no error all `n` are popped.
   */
  function PopUntilError(scopes: seq<ErrorScope>, n: nat): (r: (seq<ErrorScope>, Option<string>))
    requires n <= |scopes|
    ensures |scopes| - n <= |r.0| <= |scopes| && r.0 == scopes[..|r.0|]
    ensures forall i :: |r.0| < i < |scopes| ==> scopes[i].error.None?
    ensures r.1.Some? ==> |r.0| < |scopes| && r.1 == scopes[|r.0|].error
    ensures r.1.None? ==> |r.0| == |scopes| - n && forall i :: |r.0| <= i < |scopes| ==> scopes[i].error.None?
    decreases n
  {
    if n == 0 then (scopes, None)
    else
      var top := scopes[|scopes| - 1];
      if top.error.Some? then (scopes[..|scopes| - 1], top.error)
      else PopUntilError(scopes[..|scopes| - 1], n - 1)
  }

  /**
   * The pops of a kernel call run last-pushed first: out-of-memory, then internal, then
   * validation. The first one holding an error ends them, and the scopes under it stay pushed;
   * each scope holds the first error of its own kind.
   */
  lemma {:induction false} PopsStopAtFirstError(base: seq<ErrorScope>, errors: seq<(ErrorFilter, string)>)
    ensures |ScopesBeforePops(base, errors)| == |base| + 3
    ensures var ev, ei, eo := FirstOf(errors, Validation), FirstOf(errors, Internal), FirstOf(errors, OutOfMemory);
            PopUntilError(ScopesBeforePops(base, errors), 3) ==
              if eo.Some? then (base + [ErrorScope(Validation, ev), ErrorScope(Internal, ei)], eo)
              else if ei.Some? then (base + [ErrorScope(Validation, ev)], ei)
              else if ev.Some? then (base, ev)
              else (base, None)
  {
    var ev, ei, eo := FirstOf(errors, Validation), FirstOf(errors, Internal), FirstOf(errors, OutOfMemory);
    RaiseIntoThree(base, None, None, None, errors);
    var s := base + Scopes3(ev, ei, eo);
    assert s[..|s| - 1] == base + [ErrorScope(Validation, ev), ErrorScope(Internal, ei)];
    assert s[..|s| - 1][..|s| - 2] == base + [ErrorScope(Validation, ev)];
    assert s[..|s| - 1][..|s| - 2][..|s| - 3] == base;
  }

  /** Every error is of one of the three kinds scoped, so the call is clean exactly when nothing was raised. */
  lemma {:induction false} CleanIffNoErrors(errors: seq<(ErrorFilter, string)>)
    ensures errors == [] <==>
              FirstOf(errors, Validation).None? && FirstOf(errors, Internal).None? && FirstOf(errors, OutOfMemory).None?
  {
    if errors != [] {
      assert errors[0].0 == Validation || errors[0].0 == Internal || errors[0].0 == OutOfMemory;
    }
  }

  /** What `runKernel` does with the error popped first, if any: throw it, or go on to read back. */
  function KernelOutcome(err: Option<string>): Outcome
  {
    if err.None? then Pass else Fail(KernelErrorPrefix + err.value)
  }

  /** The three pops of a kernel call, each ending the loop when its scope holds an error. */
  method PopScopes(d: Device) returns (d': Device, err: Option<string>)
    requires |d.scopes| >= 3
    ensures d'.buffers == d.buffers
    ensures (d'.scopes, err) == PopUntilError(d.scopes, 3)
  {
    d' := d;
    var i := 0;
    while i < 3
      invariant 0 <= i <= 3 && d'.buffers == d.buffers && |d'.scopes| == |d.scopes| - i
      invariant PopUntilError(d.scopes, 3) == PopUntilError(d'.scopes, 3 - i)
    {
      var popped := PopErrorScope(d');
      d' := popped.0;
      if popped.1.Some? {
        return d', popped.1;
      }
      i := i + 1;
    }
    err := None;
  }

  /** An output's buffer exists, can be copied from, and holds one word per element of its array. */
  predicate OutputReadable(buffers: seq<GpuBuffer>, out: OutputInfo)
  {
    out.buffer < |buffers| && buffers[out.buffer].usage.copySrc && |buffers[out.buffer].contents| == out.host.Length
  }

  predicate Readable(buffers: seq<GpuBuffer>, outputs: seq<OutputInfo>)
  {
    forall k :: 0 <= k < |outputs| ==> OutputReadable(buffers, outputs[k])
  }

  /** The staging buffer of each output: zero-filled, COPY_DST | MAP_READ, its array's size. */
  function StagingBuffers(outputs: seq<OutputInfo>): (r: seq<GpuBuffer>)
    ensures |r| == |outputs|
  {
    seq(|outputs|, k requires 0 <= k < |outputs| => GpuBuffer(StagingUsage, seq(outputs[k].host.Length, _ => 0)))
  }

  /** The copy of output k's buffer into the k-th staging buffer, created at position `base + k`. */
  function StagingCopies(outputs: seq<OutputInfo>, base: nat): (r: seq<Copy>)
    ensures |r| == |outputs|
  {
    seq(|outputs|, k requires 0 <= k < |outputs| => Copy(outputs[k].buffer, base + k, 4 * outputs[k].host.Length))
  }

  /** One more output extends both lists by its own buffer and copy. */
  lemma {:induction false} StagingStep(outputs: seq<OutputInfo>, k: nat, base: nat)
    requires k < |outputs|
    ensures StagingBuffers(outputs[..k + 1]) ==
              StagingBuffers(outputs[..k]) + [GpuBuffer(StagingUsage, seq(outputs[k].host.Length, _ => 0))]
    ensures StagingCopies(outputs[..k + 1], base) ==
              StagingCopies(outputs[..k], base) + [Copy(outputs[k].buffer, base + k, 4 * outputs[k].host.Length)]
  {
  }

  /** With every output buffer live and COPY_SRC, the staging copies are whole-buffer copies upward. */
  lemma {:induction false} StagingCopiesUp(buffers: seq<GpuBuffer>, outputs: seq<OutputInfo>)
    requires Readable(buffers, outputs)
    ensures CopiesUp(buffers + StagingBuffers(outputs), StagingCopies(outputs, |buffers|), |buffers|)
  {
  }

  /**
   * The command buffer of a kernel call, submitted on the argument buffers followed by the
   * staging buffers: the argument buffers end as the dispatch left them, and staging buffer k
   * holding what the dispatch left in output k's buffer.
   */
  lemma {:induction false} SubmitStaged(buffers: seq<GpuBuffer>, outputs: seq<OutputInfo>, kernel: Kernel, bindings: seq<Binding>, dims: Dims)
    requires BindingsValid(buffers, bindings)
    requires Readable(buffers, outputs)
    ensures BindingsValid(buffers + StagingBuffers(outputs), bindings)
    ensures CopiesValid(buffers + StagingBuffers(outputs), StagingCopies(outputs, |buffers|))
    ensures var r := Submit(buffers + StagingBuffers(outputs), kernel, bindings, dims, StagingCopies(outputs, |buffers|));
            |r| == |buffers| + |outputs| && r[..|buffers|] == Dispatched(buffers, kernel, bindings, dims) &&
            forall i :: |buffers| <= i < |r| ==>
              r[i].contents == Dispatched(buffers, kernel, bindings, dims)[outputs[i - |buffers|].buffer].contents
  {
    var copies := StagingCopies(outputs, |buffers|);
    StagingCopiesUp(buffers, outputs);
    SubmitDispatchThenCopies(buffers, StagingBuffers(outputs), kernel, bindings, dims, copies);
    SubmitKeepsBelow(buffers, StagingBuffers(outputs), kernel, bindings, dims, copies);
    var r := Submit(buffers + StagingBuffers(outputs), kernel, bindings, dims, copies);
    var dispatched := Dispatched(buffers, kernel, bindings, dims);
    forall i | |buffers| <= i < |r|
      ensures r[i].contents == dispatched[outputs[i - |buffers|].buffer].contents
    {
      var k := i - |buffers|;
      assert copies[k].source == outputs[k].buffer;
      assert r[|buffers| + k].contents == dispatched[copies[k].source].contents;
    }
  }

  /**
   * The staging buffers of `runKernel`: for each output, in order, a zero-filled COPY_DST |
   * MAP_READ buffer the size of its array, and the copy of the output's buffer into it.
   */
  method StageOutputs(d: Device, outputs: seq<OutputInfo>) returns (staged: Device, copies: seq<Copy>)
    ensures staged == d.(buffers := d.buffers + StagingBuffers(outputs))
    ensures copies == StagingCopies(outputs, |d.buffers|)
  {
    staged, copies := d, [];
    for k := 0 to |outputs|
      invariant staged == d.(buffers := d.buffers + StagingBuffers(outputs[..k]))
      invariant copies == StagingCopies(outputs[..k], |d.buffers|)
    {
      var out := outputs[k];
      var size := 4 * out.host.Length;
      var created := CreateBuffer(staged, size, StagingUsage);
      copies := copies + [Copy(out.buffer, created.1, size)];
      staged := created.0;
      StagingStep(outputs, k, |d.buffers|);
    }
    assert outputs[..|outputs|] == outputs;
  }

  /**
   * The device's buffers after a kernel call on `before`: on a clean call the argument buffers
   * as the dispatch left them (`dispatched`) and after them staging buffer k holding output k's
   * dispatched contents; after an error the argument buffers unchanged and the staging buffers
   * zero-filled.
   */
  ghost predicate CallBuffers(before: seq<GpuBuffer>, after: seq<GpuBuffer>, outputs: seq<OutputInfo>, clean: bool,
                              dispatched: seq<GpuBuffer>)
  {
    if clean then
      |after| == |before| + |outputs| && after[..|before|] == dispatched &&
      forall k :: 0 <= k < |outputs| && outputs[k].buffer < |dispatched| ==>
        after[|before| + k].contents == dispatched[outputs[k].buffer].contents
    else after == before + StagingBuffers(outputs)
  }

  /**
   * The part of `runKernel` before the pops: push the three scopes, raise `errors` while the
   * pipeline is built, create the staging buffers and encode the copies, and submit.
   * The submitted work runs only when nothing was raised.
   */
  method Launch(before: Device, kernel: Kernel, dims: Dims, outputs: seq<OutputInfo>, bindings: seq<Binding>,
                errors: seq<(ErrorFilter, string)>) returns (d: Device)
    requires BindingsValid(before.buffers, bindings) && Readable(before.buffers, outputs)
    ensures d.scopes == ScopesBeforePops(before.scopes, errors)
    ensures SameShape(before.buffers + StagingBuffers(outputs), d.buffers)
    ensures CallBuffers(before.buffers, d.buffers, outputs, errors == [], Dispatched(before.buffers, kernel, bindings, dims))
  {
    d := PushErrorScope(before, Validation);
    d := PushErrorScope(d, Internal);
    d := PushErrorScope(d, OutOfMemory);
    assert d.scopes == before.scopes + Scopes3(None, None, None);
    d := d.(scopes := RaiseAll(d.scopes, errors));
    var copies;
    d, copies := StageOutputs(d, outputs);
    SubmitStaged(before.buffers, outputs, kernel, bindings, dims);
    if errors == [] {
      d := d.(buffers := Submit(d.buffers, kernel, bindings, dims, copies));
    }
  }

  /**
   * The device side of `runKernel`: launch, then pop the three scopes until the first error.
   * The call is clean, and the scopes are back as they were, exactly when nothing was raised.
   */
  method Execute(before: Device, kernel: Kernel, dims: Dims, outputs: seq<OutputInfo>, bindings: seq<Binding>,
                 errors: seq<(ErrorFilter, string)>) returns (d: Device, err: Option<string>)
    requires BindingsValid(before.buffers, bindings) && Readable(before.buffers, outputs)
    ensures (d.scopes, err) == PopUntilError(ScopesBeforePops(before.scopes, errors), 3)
    ensures err.None? <==> errors == []
    ensures err.None? ==> d.scopes == before.scopes
    ensures SameShape(before.buffers + StagingBuffers(outputs), d.buffers)
    ensures CallBuffers(before.buffers, d.buffers, outputs, errors == [], Dispatched(before.buffers, kernel, bindings, dims))
  {
    d := Launch(before, kernel, dims, outputs, bindings, errors);
    PopsStopAtFirstError(before.scopes, errors);
    CleanIffNoErrors(errors);
    d, err := PopScopes(d);
  }

  /**
   * `Execute` on the call's lists, with the bindings they determine: the buffers keep their
   * shapes, so every argument stays live, and one staging buffer per output follows them, which
   * on a clean call holds what the dispatch left in that output's buffer.
   */
  method ExecuteCall(before: Device, kernel: Kernel, dims: Dims, layout: seq<LayoutEntry>, group: seq<GroupEntry>,
                     outputs: seq<OutputInfo>, ghost args: seq<Argument>, errors: seq<(ErrorFilter, string)>)
    returns (d: Device, err: Option<string>)
    requires Consistent(layout, group, outputs, args) && AllLive(before.buffers, args)
    ensures (d.scopes, err) == PopUntilError(ScopesBeforePops(before.scopes, errors), 3)
    ensures err.None? <==> errors == []
    ensures err.None? ==> d.scopes == before.scopes
    ensures BindingsValid(before.buffers, BindingsOf(layout, group))
    ensures forall k :: 0 <= k < |outputs| ==> outputs[k].buffer < |before.buffers|
    ensures AllLive(d.buffers, args)
    ensures |d.buffers| == |before.buffers| + |outputs|
    ensures forall k :: 0 <= k < |outputs| ==> |d.buffers[|before.buffers| + k].contents| == outputs[k].host.Length
    ensures CallBuffers(before.buffers, d.buffers, outputs, errors == [], Dispatched(before.buffers, kernel, BindingsOf(layout, group), dims))
  {
    CallLaunchable(layout, group, outputs, args, before.buffers);
    d, err := Execute(before, kernel, dims, outputs, BindingsOf(layout, group), errors);
    LiveKept(before.buffers, StagingBuffers(outputs), d.buffers, args);
    StagedLengths(before.buffers, outputs, d.buffers);
  }

  lemma {:induction false} StagedLengths(buffers: seq<GpuBuffer>, outputs: seq<OutputInfo>, b': seq<GpuBuffer>)
    requires SameShape(buffers + StagingBuffers(outputs), b')
    ensures |b'| == |buffers| + |outputs|
    ensures forall i :: |buffers| <= i < |b'| ==> |b'[i].contents| == outputs[i - |buffers|].host.Length
  {
    var all := buffers + StagingBuffers(outputs);
    forall i | |buffers| <= i < |b'|
      ensures |b'[i].contents| == outputs[i - |buffers|].host.Length
    {
      assert all[i] == StagingBuffers(outputs)[i - |buffers|];
    }
  }

  /** No later output entry reads back into the same array as entry k in `outputs[..n]`. */
  predicate LastWithArrayBelow(outputs: seq<OutputInfo>, k: nat, n: nat)
    requires k < n <= |outputs|
  {
    forall j :: k < j < n ==> outputs[j].host != outputs[k].host
  }

  predicate LastWithArray(outputs: seq<OutputInfo>, k: nat)
    requires k < |outputs|
  {
    LastWithArrayBelow(outputs, k, |outputs|)
  }

  /** `TypedArray.prototype.set` at offset 0 with data of the array's length: the array takes the data. */
  method SetAll(a: array<int>, data: seq<int>)
    requires |data| == a.Length
    modifies a
    ensures a[..] == data
  {
    forall i | 0 <= i < a.Length {
      a[i] := data[i];
    }
  }

  class ComputeKernelCall {
    var device: Option<Device>
    var bindGroupLayout: seq<LayoutEntry>
    var bindGroup: seq<GroupEntry>
    var outputBuffers: seq<OutputInfo>
    /** The arguments added so far, in order, with the buffer each was given. */
    ghost var arguments: seq<Argument>

    ghost predicate Valid()
      reads this
    {
      Consistent(bindGroupLayout, bindGroup, outputBuffers, arguments) &&
      (device.Some? ==> AllLive(device.value.buffers, arguments))
    }

    /** The host arrays results are read back into. */
    function OutputArrays(): set<array<int>>
      reads this
    {
      set k | 0 <= k < |outputBuffers| :: outputBuffers[k].host
    }

    constructor ()
      ensures Valid() && device.None?
      ensures bindGroupLayout == [] && bindGroup == [] && outputBuffers == [] && arguments == []
    {
      device := None;
      bindGroupLayout := [];
      bindGroup := [];
      outputBuffers := [];
      arguments := [];
    }

    /** `createDevice`: with no adapter it throws and the device stays as it was. */
    method CreateDevice(adapterAvailable: bool) returns (outcome: Outcome)
      modifies this
      ensures !adapterAvailable ==> outcome == Fail(AdapterError) && device == old(device)
      ensures adapterAvailable ==> outcome == Pass && device == Some(NewDevice())
      ensures bindGroupLayout == old(bindGroupLayout) && bindGroup == old(bindGroup)
      ensures outputBuffers == old(outputBuffers) && arguments == old(arguments)
      ensures old(Valid()) && (outcome.Fail? || arguments == []) ==> Valid()
    {
      if !adapterAvailable {
        return Fail(AdapterError);
      }
      device := Some(NewDevice());
      outcome := Pass;
    }

    /**
     * `addBufferArgument`: a new buffer the size of the array, holding a copy of it; binding
     * number = the number of arguments added before; outputs are also listed for read-back.
     */
    method AddBufferArgument(host: array<int>, output: bool)
      requires Valid() && device.Some?
      modifies this
      ensures Valid() && device.Some?
      ensures arguments == old(arguments) + [Argument(host, output, |old(device.value.buffers)|)]
      ensures bindGroupLayout == old(bindGroupLayout) + [LayoutEntry(|old(bindGroupLayout)|, KindOf(output))]
      ensures bindGroup == old(bindGroup) + [GroupEntry(|old(bindGroupLayout)|, |old(device.value.buffers)|)]
      ensures outputBuffers == old(outputBuffers) + (if output then [OutputInfo(|old(device.value.buffers)|, host)] else [])
      ensures device.value.buffers == old(device.value.buffers) + [GpuBuffer(ArgumentUsage(output), host[..])]
      ensures ByteSize(device.value.buffers[|old(device.value.buffers)|]) == 4 * host.Length
      ensures device.value.scopes == old(device.value.scopes)
    {
      var before := device.value;
      var created := CreateBuffer(before, 4 * host.Length, ArgumentUsage(output));
      var d := WriteMappedRange(created.0, created.1, host[..]);
      var id := created.1;
      var a := Argument(host, output, id);
      assert d.buffers == before.buffers + [GpuBuffer(ArgumentUsage(output), host[..])];
      ArgumentAdded(bindGroupLayout, bindGroup, outputBuffers, arguments, before.buffers, d.buffers, a);
      device := Some(d);
      var binding := |bindGroupLayout|;
      bindGroupLayout := bindGroupLayout + [LayoutEntry(binding, KindOf(output))];
      bindGroup := bindGroup + [GroupEntry(binding, id)];
      if output {
        outputBuffers := outputBuffers + [OutputInfo(id, host)];
      }
      arguments := arguments + [a];
    }

    /** The read-back loop: output k's array takes the contents of the k-th staging buffer, from `base` on. */
    method ReadBack(base: nat)
      requires device.Some? && base + |outputBuffers| <= |device.value.buffers|
      requires forall k :: 0 <= k < |outputBuffers| ==>
                 |device.value.buffers[base + k].contents| == outputBuffers[k].host.Length
      modifies OutputArrays()
      ensures forall k :: 0 <= k < |outputBuffers| && LastWithArray(outputBuffers, k) ==>
                outputBuffers[k].host[..] == device.value.buffers[base + k].contents
    {
      for k := 0 to |outputBuffers|
        invariant forall j :: 0 <= j < k && LastWithArrayBelow(outputBuffers, j, k) ==>
                    outputBuffers[j].host[..] == device.value.buffers[base + j].contents
      {
        SetAll(outputBuffers[k].host, device.value.buffers[base + k].contents);
      }
    }

    /**
     * `runKernel`: push the validation, internal and out-of-memory scopes; build the pipeline
     * (raising `errors`); encode the dispatch and the copies to staging buffers; submit; pop the
     * scopes until the first error, throwing it; otherwise read every output back.
     * The submitted work runs only when nothing was raised: a failed creation step leaves an
     * invalid pipeline or buffer, whose command buffer the device does not execute.
     */
    method RunKernel(kernel: Kernel, gridSizeX: nat, gridSizeY: Option<nat>, gridSizeZ: Option<nat>,
                     errors: seq<(ErrorFilter, string)>) returns (outcome: Outcome)
      requires Valid() && device.Some?
      modifies this, OutputArrays()
      ensures Valid() && device.Some?
      ensures bindGroupLayout == old(bindGroupLayout) && bindGroup == old(bindGroup)
      ensures outputBuffers == old(outputBuffers) && arguments == old(arguments)
      ensures var (rest, err) := PopUntilError(ScopesBeforePops(old(device.value.scopes), errors), 3);
              device.value.scopes == rest && outcome == KernelOutcome(err)
      ensures outcome.Pass? <==> errors == []
      ensures outcome.Pass? ==> device.value.scopes == old(device.value.scopes)
      ensures outcome.Fail? ==> forall k :: 0 <= k < |outputBuffers| ==> outputBuffers[k].host[..] == old(outputBuffers[k].host[..])
      ensures BindingsValid(old(device.value.buffers), BindingsOf(bindGroupLayout, bindGroup))
      ensures forall k :: 0 <= k < |outputBuffers| ==> outputBuffers[k].buffer < |old(device.value.buffers)|
      ensures CallBuffers(old(device.value.buffers), device.value.buffers, outputBuffers, outcome.Pass?,
                          Dispatched(old(device.value.buffers), kernel, BindingsOf(bindGroupLayout, bindGroup),
                                     DispatchDims(gridSizeX, gridSizeY, gridSizeZ)))
      ensures outcome.Pass? ==> forall k :: 0 <= k < |outputBuffers| && LastWithArray(outputBuffers, k) ==>
                outputBuffers[k].host[..] ==
                  Dispatched(old(device.value.buffers), kernel, BindingsOf(bindGroupLayout, bindGroup),
                             DispatchDims(gridSizeX, gridSizeY, gridSizeZ))[outputBuffers[k].buffer].contents
    {
      var before := device.value;
      var bindings := BindingsOf(bindGroupLayout, bindGroup);
      var d, err := ExecuteCall(before, kernel, DispatchDims(gridSizeX, gridSizeY, gridSizeZ), bindGroupLayout, bindGroup,
                                outputBuffers, arguments, errors);
      device := Some(d);
      if err.Some? {
        return Fail(KernelErrorPrefix + err.value);
      }
      var base := |before.buffers|;
      ghost var dispatched := Dispatched(before.buffers, kernel, bindings, DispatchDims(gridSizeX, gridSizeY, gridSizeZ));
      ReadBack(base);
      forall k | 0 <= k < |outputBuffers| && LastWithArray(outputBuffers, k)
        ensures outputBuffers[k].host[..] == dispatched[outputBuffers[k].buffer].contents
      {
        assert outputBuffers[k].host[..] == d.buffers[base + k].contents;
      }
      outcome := Pass;
    }
  }
}
