/** Tensors as accessors into flat buffers, and the element-wise kernels over them. The
    elements may be of any type; device copies are plain copies. */
module Accessors {
  import opened Sequences
  import opened TensorIndex

  datatype DeviceType = CPU | GPU

  /** A shape, a pointer and the device the pointer belongs to. Several accessors may share
      a buffer. */
  datatype Tensor<T> = Tensor(dims: Dims, ptr: array<T>, device: DeviceType)
  {
    /** The buffer holds exactly the elements of the shape, as allocated tensors do. */
    predicate Sized() {
      ptr.Length == Size(dims)
    }
  }

  method AllocateTensor<T(0)>(dims: Dims, device: DeviceType) returns (t: Tensor<T>)
    ensures t.Sized() && t.dims == dims && t.device == device && fresh(t.ptr)
  {
    var ptr := new T[Size(dims)];
    t := Tensor(dims, ptr, device);
  }

  /** Reading at a coordinate. */
  method At<T>(t: Tensor<T>, coord: Coord) returns (v: T)
    requires t.Sized() && t.device == CPU && InBounds(coord, t.dims)
    ensures Offset(coord, t.dims) < t.ptr.Length && v == t.ptr[Offset(coord, t.dims)]
  {
    var offset := CalculateAccessorOffset(coord, t.dims);
    v := t.ptr[offset.value];
  }

  /** Writing at a coordinate changes that coordinate's cell and no other. */
  method SetAt<T>(t: Tensor<T>, coord: Coord, v: T)
    requires t.Sized() && t.device == CPU && InBounds(coord, t.dims)
    modifies t.ptr
    ensures Offset(coord, t.dims) < t.ptr.Length && t.ptr[..] == old(t.ptr[..])[Offset(coord, t.dims) := v]
    ensures forall c :: InBounds(c, t.dims) && c != coord ==>
      Offset(c, t.dims) < t.ptr.Length && t.ptr[Offset(c, t.dims)] == old(t.ptr[Offset(c, t.dims)])
  {
    var offset := CalculateAccessorOffset(coord, t.dims);
    t.ptr[offset.value] := v;
    forall c | InBounds(c, t.dims) && c != coord
      ensures Offset(c, t.dims) < t.ptr.Length && Offset(c, t.dims) != Offset(coord, t.dims)
    {
      OffsetBound(c, t.dims);
      if Offset(c, t.dims) == Offset(coord, t.dims) { OffsetInjective(c, coord, t.dims); }
    }
  }

  /** Copies as many elements as the destination's shape has. */
  method CopyAccessorData<T>(dst: Tensor<T>, src: Tensor<T>)
    requires dst.Sized() && src.Sized() && Size(dst.dims) <= Size(src.dims) && dst.ptr != src.ptr
    modifies dst.ptr
    ensures dst.ptr[..] == src.ptr[..Size(dst.dims)]
  {
    for k := 0 to Size(dst.dims)
      invariant dst.ptr[..k] == src.ptr[..k]
    {
      dst.ptr[k] := src.ptr[k];
    }
  }

  method CopyToCpuIfNecessary<T(0)>(t: Tensor<T>) returns (c: Tensor<T>)
    requires t.Sized()
    ensures c.Sized() && c.dims == t.dims && c.device == CPU && c.ptr[..] == t.ptr[..]
    ensures if t.device == CPU then c == t else fresh(c.ptr)
  {
    if t.device == GPU {
      c := AllocateTensor(t.dims, CPU);
      CopyAccessorData(c, t);
    } else {
      c := t;
    }
  }

  // ----------------------------------------------------------- element-wise maps

  function Map2Data<T, U, V>(f: (T, U) -> V, s: seq<T>, t: seq<U>): (r: seq<V>)
    requires |s| == |t|
    ensures |r| == |s| && forall k :: 0 <= k < |s| ==> r[k] == f(s[k], t[k])
  {
    seq(|s|, k requires 0 <= k < |s| => f(s[k], t[k]))
  }

  method MapTensorInPlace<T>(t: Tensor<T>, f: T -> T)
    requires t.Sized() && t.device == CPU
    modifies t.ptr
    ensures t.ptr[..] == Map(f, old(t.ptr[..]))
  {
    var coords := CoordSeq(t.dims);
    for p := 0 to |coords|
      invariant forall q :: 0 <= q < p ==> t.ptr[q] == f(old(t.ptr[q]))
      invariant forall q :: p <= q < t.ptr.Length ==> t.ptr[q] == old(t.ptr[q])
    {
      UnflattenInBounds(p, t.dims);
      OffsetOfUnflatten(p, t.dims);
      var v := At(t, coords[p]);
      SetAt(t, coords[p], f(v));
    }
  }

  /** The result is what f makes of the input as it was on entry, also when the output shares
      the input's buffer. */
  method MapTensorTo<T(0), U(0)>(input: Tensor<T>, f: T -> U, output: Tensor<U>)
    requires input.Sized() && output.Sized() && input.dims == output.dims
    modifies output.ptr
    ensures output.ptr[..] == Map(f, old(input.ptr[..]))
  {
    var inputCpu := CopyToCpuIfNecessary(input);
    var outputCpu := AllocateTensor<U>(output.dims, CPU);
    ghost var before := inputCpu.ptr[..];
    var coords := CoordSeq(output.dims);
    for p := 0 to |coords|
      invariant inputCpu.ptr[..] == before && output.ptr[..] == old(output.ptr[..])
      invariant forall q :: 0 <= q < p ==> outputCpu.ptr[q] == f(before[q])
    {
      UnflattenInBounds(p, output.dims);
      OffsetOfUnflatten(p, output.dims);
      var v := At(inputCpu, coords[p]);
      SetAt(outputCpu, coords[p], f(v));
    }
    CopyAccessorData(output, outputCpu);
  }

  method MapTensor<T(0), U(0)>(input: Tensor<T>, f: T -> U) returns (output: Tensor<U>)
    requires input.Sized()
    ensures output.Sized() && output.dims == input.dims && output.device == CPU && fresh(output.ptr)
    ensures output.ptr[..] == Map(f, input.ptr[..])
  {
    output := AllocateTensor<U>(input.dims, CPU);
    MapTensorTo(input, f, output);
  }

  /** As MapTensorTo, with two inputs: the output may share the buffer of either. */
  method MapTensors2To<T(0), U(0), V(0)>(lhs: Tensor<T>, rhs: Tensor<U>, f: (T, U) -> V, output: Tensor<V>)
    requires lhs.Sized() && rhs.Sized() && output.Sized() && lhs.dims == rhs.dims == output.dims
    modifies output.ptr
    ensures output.ptr[..] == Map2Data(f, old(lhs.ptr[..]), old(rhs.ptr[..]))
  {
    var lhsCpu := CopyToCpuIfNecessary(lhs);
    var rhsCpu := CopyToCpuIfNecessary(rhs);
    var outputCpu := AllocateTensor<V>(lhs.dims, CPU);
    ghost var l, r := lhsCpu.ptr[..], rhsCpu.ptr[..];
    var coords := CoordSeq(lhs.dims);
    for p := 0 to |coords|
      invariant lhsCpu.ptr[..] == l && rhsCpu.ptr[..] == r && output.ptr[..] == old(output.ptr[..])
      invariant forall q :: 0 <= q < p ==> outputCpu.ptr[q] == f(l[q], r[q])
    {
      UnflattenInBounds(p, lhs.dims);
      OffsetOfUnflatten(p, lhs.dims);
      var x := At(lhsCpu, coords[p]);
      var y := At(rhsCpu, coords[p]);
      SetAt(outputCpu, coords[p], f(x, y));
    }
    CopyAccessorData(output, outputCpu);
  }

  method MapTensors2<T(0), U(0), V(0)>(lhs: Tensor<T>, rhs: Tensor<U>, f: (T, U) -> V) returns (output: Tensor<V>)
    requires lhs.Sized() && rhs.Sized() && lhs.dims == rhs.dims
    ensures output.Sized() && output.dims == lhs.dims && output.device == CPU && fresh(output.ptr)
    ensures output.ptr[..] == Map2Data(f, lhs.ptr[..], rhs.ptr[..])
  {
    output := AllocateTensor<V>(lhs.dims, CPU);
    MapTensors2To(lhs, rhs, f, output);
  }
}
