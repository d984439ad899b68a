/**
 * An abstract WebGPU device, as far as the host code relies on it: buffers with their usage
 * flags, the error-scope stack, and the execution of a submitted command buffer. A compute
 * pipeline is an oracle from the launch grid and the contents of its bound buffers, in
 * binding order, to their new contents.
 */
module WebGpu {
  import opened Wrappers

  /** The filters of `pushErrorScope`. */
  datatype ErrorFilter = Validation | Internal | OutOfMemory

  /** A pushed error scope and the first error it captured, if any. */
  datatype ErrorScope = ErrorScope(filter: ErrorFilter, error: Option<string>)

  /** The GPUBufferUsage flags the hosts use. */
  datatype Usage = Usage(storage: bool, copySrc: bool, copyDst: bool, mapRead: bool)

  /** A buffer of 4-byte words, the element size of the Int32Array and Float32Array the hosts bind. */
  datatype GpuBuffer = GpuBuffer(usage: Usage, contents: seq<int>)

  /** Buffers are named by their position in `buffers`; `scopes` is the error-scope stack, top last. */
  datatype Device = Device(buffers: seq<GpuBuffer>, scopes: seq<ErrorScope>)

  /** The workgroup counts of a dispatch. */
  datatype Dims = Dims(x: nat, y: nat, z: nat)

  /** One entry of a bind group: the buffer bound, and whether the pipeline may write it. */
  datatype Binding = Binding(buffer: nat, writable: bool)

  /** A compiled compute pipeline: new contents of the bound buffers from the grid and their contents. */
  type Kernel = (Dims, seq<seq<int>>) -> seq<seq<int>>

  /** `copyBufferToBuffer(source, 0, destination, 0, size)`; sizes are in bytes. */
  datatype Copy = Copy(source: nat, destination: nat, size: nat)

  function ByteSize(b: GpuBuffer): nat
  {
    4 * |b.contents|
  }

  /** A JavaScript `Int32Array` word read by a shader as `u32`. */
  function U32(v: int): nat
  {
    v % 0x1_0000_0000
  }

  /** The device `requestDevice` hands out: no buffers, no scopes. */
  function NewDevice(): Device
  {
    Device([], [])
  }

  /** `createBuffer`: a new zero-filled buffer of `size` bytes, named by the next free position. */
  function CreateBuffer(d: Device, size: nat, usage: Usage): (r: (Device, nat))
    requires size % 4 == 0
    ensures r.1 == |d.buffers| && |r.0.buffers| == |d.buffers| + 1
    ensures r.0.buffers[..r.1] == d.buffers && r.0.scopes == d.scopes
    ensures r.0.buffers[r.1].usage == usage && ByteSize(r.0.buffers[r.1]) == size
    ensures forall i :: 0 <= i < |r.0.buffers[r.1].contents| ==> r.0.buffers[r.1].contents[i] == 0
  {
    (d.(buffers := d.buffers + [GpuBuffer(usage, seq(size / 4, _ => 0))]), |d.buffers|)
  }

  /** Writing a buffer through the range mapped at creation: its contents become `data`, nothing else changes. */
  function WriteMappedRange(d: Device, id: nat, data: seq<int>): (r: Device)
    requires id < |d.buffers| && |data| == |d.buffers[id].contents|
    ensures |r.buffers| == |d.buffers| && r.scopes == d.scopes
    ensures r.buffers[id] == GpuBuffer(d.buffers[id].usage, data)
    ensures forall i :: 0 <= i < |d.buffers| && i != id ==> r.buffers[i] == d.buffers[i]
  {
    d.(buffers := d.buffers[id := d.buffers[id].(contents := data)])
  }

  /** `pushErrorScope(filter)`: a new empty scope on top of the stack. */
  function PushErrorScope(d: Device, filter: ErrorFilter): (r: Device)
    ensures r.buffers == d.buffers && |r.scopes| == |d.scopes| + 1
    ensures r.scopes[..|d.scopes|] == d.scopes && r.scopes[|d.scopes|] == ErrorScope(filter, None)
  {
    d.(scopes := d.scopes + [ErrorScope(filter, None)])
  }

  /** `popErrorScope()`: removes the top scope and yields the error it captured, if any. */
  function PopErrorScope(d: Device): (r: (Device, Option<string>))
    requires |d.scopes| > 0
    ensures r.0.buffers == d.buffers && r.0.scopes == d.scopes[..|d.scopes| - 1]
    ensures r.1 == d.scopes[|d.scopes| - 1].error
  {
    (d.(scopes := d.scopes[..|d.scopes| - 1]), d.scopes[|d.scopes| - 1].error)
  }

  /** Popping right after a push gives the device back and reports no error. */
  lemma {:induction false} PushThenPop(d: Device, filter: ErrorFilter)
    ensures PopErrorScope(PushErrorScope(d, filter)) == (d, None)
  {
    assert PushErrorScope(d, filter).scopes[..|d.scopes|] == d.scopes;
  }

  /**
   * An error of kind `filter` raised while `scopes` are pushed: the topmost scope with that
   * filter keeps it unless it already holds an earlier error; with no such scope the error is
   * not captured at all.
   */
  function Capture(scopes: seq<ErrorScope>, filter: ErrorFilter, message: string): (r: seq<ErrorScope>)
    ensures |r| == |scopes|
    ensures forall i :: 0 <= i < |scopes| ==> r[i].filter == scopes[i].filter
    ensures forall i, j :: 0 <= i < j < |scopes| && r[i] != scopes[i] ==> r[j] == scopes[j]
    decreases |scopes|
  {
    if scopes == [] then []
    else
      var top := scopes[|scopes| - 1];
      if top.filter == filter then
        scopes[..|scopes| - 1] + [if top.error.None? then top.(error := Some(message)) else top]
      else
        Capture(scopes[..|scopes| - 1], filter, message) + [top]
  }

  /** Capture changes the topmost scope with the error's filter, and only that one. */
  lemma {:induction false} CaptureTopmost(scopes: seq<ErrorScope>, filter: ErrorFilter, message: string, t: nat)
    requires t < |scopes| && scopes[t].filter == filter
    requires forall i :: t < i < |scopes| ==> scopes[i].filter != filter
    ensures Capture(scopes, filter, message)[t] ==
              if scopes[t].error.None? then ErrorScope(filter, Some(message)) else scopes[t]
    ensures forall i :: 0 <= i < |scopes| && i != t ==> Capture(scopes, filter, message)[i] == scopes[i]
    decreases |scopes|
  {
    var n := |scopes| - 1;
    if t < n {
      CaptureTopmost(scopes[..n], filter, message, t);
    }
  }

  /** An error whose filter no pushed scope has leaves the stack as it is. */
  lemma {:induction false} CaptureUncaught(scopes: seq<ErrorScope>, filter: ErrorFilter, message: string)
    requires forall i :: 0 <= i < |scopes| ==> scopes[i].filter != filter
    ensures Capture(scopes, filter, message) == scopes
    decreases |scopes|
  {
    if scopes != [] {
      var n := |scopes| - 1;
      CaptureUncaught(scopes[..n], filter, message);
      assert scopes[..n] + [scopes[n]] == scopes;
    }
  }

  /** The errors `errors` raised one after another, in order. */
  function RaiseAll(scopes: seq<ErrorScope>, errors: seq<(ErrorFilter, string)>): (r: seq<ErrorScope>)
    ensures |r| == |scopes|
    ensures forall i :: 0 <= i < |scopes| ==> r[i].filter == scopes[i].filter
    decreases |errors|
  {
    if errors == [] then scopes
    else RaiseAll(Capture(scopes, errors[0].0, errors[0].1), errors[1..])
  }

  /** The message of the first error of kind `filter` among `errors`. */
  function FirstOf(errors: seq<(ErrorFilter, string)>, filter: ErrorFilter): (r: Option<string>)
    ensures r.None? <==> forall i :: 0 <= i < |errors| ==> errors[i].0 != filter
    ensures r.Some? ==> exists i :: 0 <= i < |errors| && errors[i] == (filter, r.value) &&
                          forall j :: 0 <= j < i ==> errors[j].0 != filter
    decreases |errors|
  {
    if errors == [] then None
    else if errors[0].0 == filter then Some(errors[0].1)
    else
      var rest := FirstOf(errors[1..], filter);
      assert forall i :: 1 <= i < |errors| ==> errors[i] == errors[1..][i - 1];
      rest
  }

  /** The first of two optional errors, the earlier one winning. */
  function Earlier(first: Option<string>, second: Option<string>): Option<string>
  {
    if first.Some? then first else second
  }

  /** The three scopes of a kernel call, in the order they are pushed. */
  function Scopes3(ev: Option<string>, ei: Option<string>, eo: Option<string>): seq<ErrorScope>
  {
    [ErrorScope(Validation, ev), ErrorScope(Internal, ei), ErrorScope(OutOfMemory, eo)]
  }

  /** One error lands in the one scope of the three with its filter; everything below them is untouched. */
  lemma {:induction false} CaptureIntoThree(base: seq<ErrorScope>, ev: Option<string>, ei: Option<string>, eo: Option<string>,
                         filter: ErrorFilter, message: string)
    ensures Capture(base + Scopes3(ev, ei, eo), filter, message) ==
              base + Scopes3(if filter == Validation then Earlier(ev, Some(message)) else ev,
                             if filter == Internal then Earlier(ei, Some(message)) else ei,
                             if filter == OutOfMemory then Earlier(eo, Some(message)) else eo)
  {
    var s := base + Scopes3(ev, ei, eo);
    var n := |base|;
    var t := if filter == Validation then n else if filter == Internal then n + 1 else n + 2;
    CaptureTopmost(s, filter, message, t);
    var r := Capture(s, filter, message);
    var expected := base + Scopes3(if filter == Validation then Earlier(ev, Some(message)) else ev,
                                   if filter == Internal then Earlier(ei, Some(message)) else ei,
                                   if filter == OutOfMemory then Earlier(eo, Some(message)) else eo);
    assert forall i :: 0 <= i < |s| ==> r[i] == expected[i];
  }

  /**
   * With the three scopes of a kernel call on top, every raised error is captured by one of
   * them: each ends up holding the first error of its kind, and the scopes below are untouched.
   */
  lemma {:induction false} RaiseIntoThree(base: seq<ErrorScope>, ev: Option<string>, ei: Option<string>, eo: Option<string>,
                                          errors: seq<(ErrorFilter, string)>)
    ensures RaiseAll(base + Scopes3(ev, ei, eo), errors) ==
              base + Scopes3(Earlier(ev, FirstOf(errors, Validation)),
                             Earlier(ei, FirstOf(errors, Internal)),
                             Earlier(eo, FirstOf(errors, OutOfMemory)))
    decreases |errors|
  {
    if errors != [] {
      var (f, m) := errors[0];
      CaptureIntoThree(base, ev, ei, eo, f, m);
      RaiseIntoThree(base, if f == Validation then Earlier(ev, Some(m)) else ev,
                     if f == Internal then Earlier(ei, Some(m)) else ei,
                     if f == OutOfMemory then Earlier(eo, Some(m)) else eo, errors[1..]);
    }
  }

  /** Buffers with the same usages and lengths as `b`: what running commands preserves. */
  predicate SameShape(b: seq<GpuBuffer>, b': seq<GpuBuffer>)
  {
    |b| == |b'| && forall i :: 0 <= i < |b| ==> b'[i].usage == b[i].usage && |b'[i].contents| == |b[i].contents|
  }

  /** Every bound buffer exists and was created with STORAGE usage. */
  predicate BindingsValid(buffers: seq<GpuBuffer>, bindings: seq<Binding>)
  {
    forall k :: 0 <= k < |bindings| ==> bindings[k].buffer < |buffers| && buffers[bindings[k].buffer].usage.storage
  }

  /** The validation rules of a buffer-to-buffer copy. */
  predicate CopyValid(buffers: seq<GpuBuffer>, c: Copy)
  {
    c.source < |buffers| && c.destination < |buffers| && c.source != c.destination &&
    buffers[c.source].usage.copySrc && buffers[c.destination].usage.copyDst &&
    c.size % 4 == 0 && c.size <= ByteSize(buffers[c.source]) && c.size <= ByteSize(buffers[c.destination])
  }

  predicate CopiesValid(buffers: seq<GpuBuffer>, copies: seq<Copy>)
  {
    forall k :: 0 <= k < |copies| ==> CopyValid(buffers, copies[k])
  }

  /** The contents of the bound buffers, in binding order: what the pipeline reads. */
  function Bound(buffers: seq<GpuBuffer>, bindings: seq<Binding>): (r: seq<seq<int>>)
    requires BindingsValid(buffers, bindings)
    ensures |r| == |bindings|
    ensures forall k :: 0 <= k < |bindings| ==> r[k] == buffers[bindings[k].buffer].contents
  {
    seq(|bindings|, k requires 0 <= k < |bindings| => buffers[bindings[k].buffer].contents)
  }

  /**
   * What a dispatch leaves in buffer `id`, scanning the first `n` bindings: the result of the
   * last writable binding of it whose result has the buffer's length, else `before`.
   * (A shader cannot resize a buffer; a result of another length is not written.)
   */
  function Written(id: nat, before: seq<int>, bindings: seq<Binding>, results: seq<seq<int>>, n: nat): (r: seq<int>)
    requires n <= |bindings|
    ensures |r| == |before|
  {
    if n == 0 then before
    else if bindings[n - 1].buffer == id && bindings[n - 1].writable && n - 1 < |results| && |results[n - 1]| == |before|
    then results[n - 1]
    else Written(id, before, bindings, results, n - 1)
  }

  /** The results of binding k, if the kernel may write it and it has the length of `before`; else `before`. */
  function Fitted(before: seq<int>, binding: Binding, results: seq<seq<int>>, k: nat): seq<int>
  {
    if binding.writable && k < |results| && |results[k]| == |before| then results[k] else before
  }

  /** With each buffer bound once, binding k alone decides what its buffer holds after a dispatch. */
  lemma {:induction false} WrittenOnce(before: seq<int>, bindings: seq<Binding>, results: seq<seq<int>>, n: nat, k: nat)
    requires k < n <= |bindings|
    requires forall j :: 0 <= j < n && j != k ==> bindings[j].buffer != bindings[k].buffer
    ensures Written(bindings[k].buffer, before, bindings, results, n) == Fitted(before, bindings[k], results, k)
  {
    if k < n - 1 {
      WrittenOnce(before, bindings, results, n - 1, k);
    } else {
      WrittenUnbound(bindings[k].buffer, before, bindings, results, k);
    }
  }

  /** A buffer that none of the first n bindings names keeps its contents. */
  lemma {:induction false} WrittenUnbound(id: nat, before: seq<int>, bindings: seq<Binding>, results: seq<seq<int>>, n: nat)
    requires n <= |bindings|
    requires forall j :: 0 <= j < n ==> bindings[j].buffer != id
    ensures Written(id, before, bindings, results, n) == before
  {
    if n > 0 {
      WrittenUnbound(id, before, bindings, results, n - 1);
    }
  }

  /** A dispatch: the pipeline runs once over the grid and its writable bindings take its results. */
  function Dispatched(buffers: seq<GpuBuffer>, kernel: Kernel, bindings: seq<Binding>, dims: Dims): (r: seq<GpuBuffer>)
    requires BindingsValid(buffers, bindings)
    ensures SameShape(buffers, r)
  {
    var results := kernel(dims, Bound(buffers, bindings));
    seq(|buffers|, i requires 0 <= i < |buffers| =>
      buffers[i].(contents := Written(i, buffers[i].contents, bindings, results, |bindings|)))
  }

  /**
   * With every buffer bound at most once, a dispatch puts the pipeline's result k into the
   * buffer of writable binding k, and leaves every buffer that is not bound as it was.
   */
  lemma {:induction false} DispatchedBuffers(buffers: seq<GpuBuffer>, kernel: Kernel, bindings: seq<Binding>, dims: Dims)
    requires BindingsValid(buffers, bindings)
    requires forall j, k :: 0 <= j < k < |bindings| ==> bindings[j].buffer != bindings[k].buffer
    ensures forall k :: 0 <= k < |bindings| ==>
              Dispatched(buffers, kernel, bindings, dims)[bindings[k].buffer].contents ==
                Fitted(buffers[bindings[k].buffer].contents, bindings[k], kernel(dims, Bound(buffers, bindings)), k)
    ensures forall i :: 0 <= i < |buffers| && (forall k :: 0 <= k < |bindings| ==> bindings[k].buffer != i) ==>
              Dispatched(buffers, kernel, bindings, dims)[i] == buffers[i]
  {
    var results := kernel(dims, Bound(buffers, bindings));
    forall k | 0 <= k < |bindings|
      ensures Dispatched(buffers, kernel, bindings, dims)[bindings[k].buffer].contents ==
                Fitted(buffers[bindings[k].buffer].contents, bindings[k], results, k)
    {
      WrittenOnce(buffers[bindings[k].buffer].contents, bindings, results, |bindings|, k);
    }
    forall i | 0 <= i < |buffers| && (forall k :: 0 <= k < |bindings| ==> bindings[k].buffer != i)
      ensures Dispatched(buffers, kernel, bindings, dims)[i] == buffers[i]
    {
      WrittenUnbound(i, buffers[i].contents, bindings, results, |bindings|);
    }
  }

  /** Buffers created after the bound ones are not touched by a dispatch. */
  lemma {:induction false} DispatchIgnoresAppended(buffers: seq<GpuBuffer>, extra: seq<GpuBuffer>, kernel: Kernel, bindings: seq<Binding>, dims: Dims)
    requires BindingsValid(buffers, bindings)
    ensures BindingsValid(buffers + extra, bindings)
    ensures Dispatched(buffers + extra, kernel, bindings, dims) == Dispatched(buffers, kernel, bindings, dims) + extra
  {
    var all := buffers + extra;
    assert Bound(all, bindings) == Bound(buffers, bindings);
    var results := kernel(dims, Bound(buffers, bindings));
    forall i | |buffers| <= i < |all|
      ensures Written(i, all[i].contents, bindings, results, |bindings|) == all[i].contents
    {
      WrittenUnbound(i, all[i].contents, bindings, results, |bindings|);
    }
  }

  /** A copy: the first `size` bytes of the source overwrite those of the destination. */
  function Copied(buffers: seq<GpuBuffer>, c: Copy): (r: seq<GpuBuffer>)
    requires CopyValid(buffers, c)
    ensures SameShape(buffers, r)
  {
    var n := c.size / 4;
    buffers[c.destination := buffers[c.destination].(contents := buffers[c.source].contents[..n] + buffers[c.destination].contents[n..])]
  }

  /** Validity depends only on usages and sizes, so it survives running earlier commands. */
  lemma {:induction false} CopiesValidOnSameShape(b: seq<GpuBuffer>, b': seq<GpuBuffer>, copies: seq<Copy>)
    requires SameShape(b, b') && CopiesValid(b, copies)
    ensures CopiesValid(b', copies)
  {
    forall k | 0 <= k < |copies|
      ensures CopyValid(b', copies[k])
    {
      assert CopyValid(b, copies[k]);
    }
  }

  /** The copies, in order. */
  function RunCopies(buffers: seq<GpuBuffer>, copies: seq<Copy>): (r: seq<GpuBuffer>)
    requires CopiesValid(buffers, copies)
    ensures SameShape(buffers, r)
    decreases |copies|
  {
    if copies == [] then buffers
    else
      var n := |copies| - 1;
      var prior := RunCopies(buffers, copies[..n]);
      CopiesValidOnSameShape(buffers, prior, copies);
      Copied(prior, copies[n])
  }

  /**
   * `queue.submit` of the command buffer a kernel call encodes: one compute pass dispatching
   * `dims` workgroups of `kernel` over `bindings`, then the copies in order.
   */
  function Submit(buffers: seq<GpuBuffer>, kernel: Kernel, bindings: seq<Binding>, dims: Dims, copies: seq<Copy>): (r: seq<GpuBuffer>)
    requires BindingsValid(buffers, bindings) && CopiesValid(buffers, copies)
    ensures SameShape(buffers, r)
  {
    var after := Dispatched(buffers, kernel, bindings, dims);
    CopiesValidOnSameShape(buffers, after, copies);
    RunCopies(after, copies)
  }

  /** Copy `c`, the k-th, takes a whole buffer below `floor` into buffer `floor + k`, of the same length. */
  predicate CopyUp(buffers: seq<GpuBuffer>, c: Copy, floor: nat, k: nat)
    requires floor + k < |buffers|
  {
    c.source < floor && c.destination == floor + k &&
    buffers[c.source].usage.copySrc && buffers[floor + k].usage.copyDst &&
    |buffers[floor + k].contents| == |buffers[c.source].contents| &&
    c.size == 4 * |buffers[c.source].contents|
  }

  /** Copy k takes a whole buffer below `floor` into buffer `floor + k`, of the same length. */
  predicate CopiesUp(buffers: seq<GpuBuffer>, copies: seq<Copy>, floor: nat)
  {
    floor + |copies| <= |buffers| &&
    forall k :: 0 <= k < |copies| ==> CopyUp(buffers, copies[k], floor, k)
  }

  /** Whole-buffer copies upward pass validation. */
  lemma {:induction false} CopiesUpValid(buffers: seq<GpuBuffer>, copies: seq<Copy>, floor: nat)
    requires CopiesUp(buffers, copies, floor)
    ensures CopiesValid(buffers, copies)
  {
  }

  /** Whole-buffer copies upward: buffer `floor + k` ends as a copy of copy k's source, and nothing below `floor` changes. */
  lemma {:induction false} RunCopiesUp(buffers: seq<GpuBuffer>, copies: seq<Copy>, floor: nat)
    requires CopiesUp(buffers, copies, floor)
    ensures CopiesValid(buffers, copies)
    ensures RunCopies(buffers, copies)[..floor] == buffers[..floor]
    ensures forall k :: 0 <= k < |copies| ==>
              RunCopies(buffers, copies)[floor + k].contents == buffers[copies[k].source].contents
    decreases |copies|
  {
    CopiesUpValid(buffers, copies, floor);
    if copies != [] {
      var n := |copies| - 1;
      var prefix := copies[..n];
      CopiesUpPrefix(buffers, copies, floor);
      RunCopiesUp(buffers, prefix, floor);
      var prior := RunCopies(buffers, prefix);
      assert forall k :: 0 <= k < n ==> prefix[k] == copies[k];
      CopiesValidOnSameShape(buffers, prior, copies);
      RunCopiesUpStep(buffers, prior, copies, floor);
      assert RunCopies(buffers, copies) == Copied(prior, copies[n]);
    }
  }

  /** The last copy upward, run after the others: it fills its own buffer and keeps what they did. */
  lemma {:induction false} RunCopiesUpStep(buffers: seq<GpuBuffer>, prior: seq<GpuBuffer>, copies: seq<Copy>, floor: nat)
    requires CopiesUp(buffers, copies, floor) && copies != [] && SameShape(buffers, prior)
    requires CopyValid(prior, copies[|copies| - 1]) && prior[..floor] == buffers[..floor]
    requires forall k :: 0 <= k < |copies| - 1 ==> prior[floor + k].contents == buffers[copies[k].source].contents
    ensures Copied(prior, copies[|copies| - 1])[..floor] == buffers[..floor]
    ensures forall k :: 0 <= k < |copies| ==>
              Copied(prior, copies[|copies| - 1])[floor + k].contents == buffers[copies[k].source].contents
  {
    var n := |copies| - 1;
    assert CopyUp(buffers, copies[n], floor, n);
    CopiedUp(buffers, prior, copies[n], floor, floor + n);
  }

  /** The copies before the last one still copy upward. */
  lemma {:induction false} CopiesUpPrefix(buffers: seq<GpuBuffer>, copies: seq<Copy>, floor: nat)
    requires CopiesUp(buffers, copies, floor) && copies != []
    ensures CopiesUp(buffers, copies[..|copies| - 1], floor)
  {
    var prefix := copies[..|copies| - 1];
    assert forall k :: 0 <= k < |prefix| ==> prefix[k] == copies[k];
  }

  /**
   * One whole-buffer copy upward, into `dst`, on buffers that agree with `buffers` below `floor`:
   * those stay as they were, `dst` takes the source's contents and every other buffer is kept.
   */
  lemma {:induction false} CopiedUp(buffers: seq<GpuBuffer>, prior: seq<GpuBuffer>, c: Copy, floor: nat, dst: nat)
    requires SameShape(buffers, prior) && CopyValid(prior, c)
    requires c.source < floor <= dst && c.destination == dst && prior[..floor] == buffers[..floor]
    requires c.size == 4 * |buffers[c.source].contents| && |buffers[dst].contents| == |buffers[c.source].contents|
    ensures Copied(prior, c)[..floor] == buffers[..floor]
    ensures Copied(prior, c)[dst].contents == buffers[c.source].contents
    ensures forall k :: 0 <= k < |prior| && k != dst ==> Copied(prior, c)[k] == prior[k]
  {
    assert prior[c.source] == prior[..floor][c.source];
    var src := prior[c.source].contents;
    assert src == buffers[c.source].contents;
    assert c.size / 4 == |src|;
    assert src[..|src|] == src;
    assert prior[dst].contents[|src|..] == [];
  }

  /**
   * A kernel call's command buffer, submitted on the argument buffers followed by `staging`:
   * staging buffer k ends holding what the dispatch left in copy k's source.
   */
  lemma {:induction false} SubmitDispatchThenCopies(buffers: seq<GpuBuffer>, staging: seq<GpuBuffer>, kernel: Kernel,
                                 bindings: seq<Binding>, dims: Dims, copies: seq<Copy>)
    requires BindingsValid(buffers, bindings) && CopiesUp(buffers + staging, copies, |buffers|)
    ensures BindingsValid(buffers + staging, bindings) && CopiesValid(buffers + staging, copies)
    ensures forall k :: 0 <= k < |copies| ==>
              Submit(buffers + staging, kernel, bindings, dims, copies)[|buffers| + k].contents ==
                Dispatched(buffers, kernel, bindings, dims)[copies[k].source].contents
  {
    var all := buffers + staging;
    DispatchIgnoresAppended(buffers, staging, kernel, bindings, dims);
    CopiesUpValid(all, copies, |buffers|);
    var dispatched := Dispatched(buffers, kernel, bindings, dims);
    CopiesUpOnSameShape(all, dispatched + staging, copies, |buffers|);
    CopiedBelowAppended(dispatched, staging, copies);
    assert Submit(all, kernel, bindings, dims, copies) == RunCopies(dispatched + staging, copies);
  }

  /** The same command buffer leaves the argument buffers as the dispatch left them. */
  lemma {:induction false} SubmitKeepsBelow(buffers: seq<GpuBuffer>, staging: seq<GpuBuffer>, kernel: Kernel,
                                            bindings: seq<Binding>, dims: Dims, copies: seq<Copy>)
    requires BindingsValid(buffers, bindings) && CopiesUp(buffers + staging, copies, |buffers|)
    ensures BindingsValid(buffers + staging, bindings) && CopiesValid(buffers + staging, copies)
    ensures Submit(buffers + staging, kernel, bindings, dims, copies)[..|buffers|] == Dispatched(buffers, kernel, bindings, dims)
  {
    var all := buffers + staging;
    DispatchIgnoresAppended(buffers, staging, kernel, bindings, dims);
    CopiesUpValid(all, copies, |buffers|);
    var dispatched := Dispatched(buffers, kernel, bindings, dims);
    CopiesUpOnSameShape(all, dispatched + staging, copies, |buffers|);
    RunCopiesUp(dispatched + staging, copies, |buffers|);
    assert Submit(all, kernel, bindings, dims, copies) == RunCopies(dispatched + staging, copies);
    assert (dispatched + staging)[..|buffers|] == dispatched;
  }

  /**
   * Copies from buffers below `|buffers|` into the appended ones fill appended buffer k with
   * the contents of the source of copy k.
   */
  lemma {:induction false} CopiedBelowAppended(buffers: seq<GpuBuffer>, staging: seq<GpuBuffer>, copies: seq<Copy>)
    requires CopiesUp(buffers + staging, copies, |buffers|)
    ensures CopiesValid(buffers + staging, copies)
    ensures forall k :: 0 <= k < |copies| ==>
              RunCopies(buffers + staging, copies)[|buffers| + k].contents == buffers[copies[k].source].contents
  {
    var all := buffers + staging;
    RunCopiesUp(all, copies, |buffers|);
    forall k | 0 <= k < |copies|
      ensures RunCopies(all, copies)[|buffers| + k].contents == buffers[copies[k].source].contents
    {
      assert CopyUp(all, copies[k], |buffers|, k);
      assert all[copies[k].source] == buffers[copies[k].source];
    }
  }

  /** Copying upward depends only on usages and lengths. */
  lemma {:induction false} CopiesUpOnSameShape(b: seq<GpuBuffer>, b': seq<GpuBuffer>, copies: seq<Copy>, floor: nat)
    requires SameShape(b, b') && CopiesUp(b, copies, floor)
    ensures CopiesUp(b', copies, floor)
  {
    forall k | 0 <= k < |copies|
      ensures CopyUp(b', copies[k], floor, k)
    {
      assert CopyUp(b, copies[k], floor, k);
      var s := copies[k].source;
      assert b'[s].usage == b[s].usage && |b'[s].contents| == |b[s].contents|;
      assert b'[floor + k].usage == b[floor + k].usage && |b'[floor + k].contents| == |b[floor + k].contents|;
    }
  }
}
