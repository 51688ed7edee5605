/** The OpenCL device buffer wrapper (device_ptr.cpp): a command queue, a buffer handle and
  a size, with move semantics and clamped fill and copy operations.

  The device buffer is an `array` the wrapper owns; the queue is an opaque handle. The
  OpenCL runtime calls become loops over that array, and the error codes those calls
  return are not modelled. */
module DevicePtr {
  import opened Wrappers

  // ---------------------------------------------------------------- error codes

  const UNKNOWN: string := "UNKNOWN"

  /** The codes the table names: 0 to -19 and -30 to -72. */
  predicate Named(code: int) {
    -19 <= code <= 0 || -72 <= code <= -30
  }

  /** `error_code_to_string`: total, and "UNKNOWN" exactly for the codes the table does not
    name. */
  function ErrorCodeToString(code: int): (s: string)
    ensures s == UNKNOWN <==> !Named(code)
    ensures code == 0 ==> s == "CL_SUCCESS"
  {
    match code
    case 0 => "CL_SUCCESS"
    case -1 => "CL_DEVICE_NOT_FOUND"
    case -2 => "CL_DEVICE_NOT_AVAILABLE"
    case -3 => "CL_COMPILER_NOT_AVAILABLE"
    case -4 => "CL_MEM_OBJECT_ALLOCATION_FAILURE"
    case -5 => "CL_OUT_OF_RESOURCES"
    case -6 => "CL_OUT_OF_HOST_MEMORY"
    case -7 => "CL_PROFILING_INFO_NOT_AVAILABLE"
    case -8 => "CL_MEM_COPY_OVERLAP"
    case -9 => "CL_IMAGE_FORMAT_MISMATCH"
    case -10 => "CL_IMAGE_FORMAT_NOT_SUPPORTED"
    case -11 => "CL_BUILD_PROGRAM_FAILURE"
    case -12 => "CL_MAP_FAILURE"
    case -13 => "CL_MISALIGNED_SUB_BUFFER_OFFSET"
    case -14 => "CL_EXEC_STATUS_ERROR_FOR_EVENTS_IN_WAIT_LIST"
    case -15 => "CL_COMPILE_PROGRAM_FAILURE"
    case -16 => "CL_LINKER_NOT_AVAILABLE"
    case -17 => "CL_LINK_PROGRAM_FAILURE"
    case -18 => "CL_DEVICE_PARTITION_FAILED"
    case -19 => "CL_KERNEL_ARG_INFO_NOT_AVAILABLE"
    case -30 => "CL_INVALID_VALUE"
    case -31 => "CL_INVALID_DEVICE_TYPE"
    case -32 => "CL_INVALID_PLATFORM"
    case -33 => "CL_INVALID_DEVICE"
    case -34 => "CL_INVALID_CONTEXT"
    case -35 => "CL_INVALID_QUEUE_PROPERTIES"
    case -36 => "CL_INVALID_COMMAND_QUEUE"
    case -37 => "CL_INVALID_HOST_PTR"
    case -38 => "CL_INVALID_MEM_OBJECT"
    case -39 => "CL_INVALID_IMAGE_FORMAT_DESCRIPTOR"
    case -40 => "CL_INVALID_IMAGE_SIZE"
    case -41 => "CL_INVALID_SAMPLER"
    case -42 => "CL_INVALID_BINARY"
    case -43 => "CL_INVALID_BUILD_OPTIONS"
    case -44 => "CL_INVALID_PROGRAM"
    case -45 => "CL_INVALID_PROGRAM_EXECUTABLE"
    case -46 => "CL_INVALID_KERNEL_NAME"
    case -47 => "CL_INVALID_KERNEL_DEFINITION"
    case -48 => "CL_INVALID_KERNEL"
    case -49 => "CL_INVALID_ARG_INDEX"
    case -50 => "CL_INVALID_ARG_VALUE"
    case -51 => "CL_INVALID_ARG_SIZE"
    case -52 => "CL_INVALID_KERNEL_ARGS"
    case -53 => "CL_INVALID_WORK_DIMENSION"
    case -54 => "CL_INVALID_WORK_GROUP_SIZE"
    case -55 => "CL_INVALID_WORK_ITEM_SIZE"
    case -56 => "CL_INVALID_GLOBAL_OFFSET"
    case -57 => "CL_INVALID_EVENT_WAIT_LIST"
    case -58 => "CL_INVALID_EVENT"
    case -59 => "CL_INVALID_OPERATION"
    case -60 => "CL_INVALID_GL_OBJECT"
    case -61 => "CL_INVALID_BUFFER_SIZE"
    case -62 => "CL_INVALID_MIP_LEVEL"
    case -63 => "CL_INVALID_GLOBAL_WORK_SIZE"
    case -64 => "CL_INVALID_PROPERTY"
    case -65 => "CL_INVALID_IMAGE_DESCRIPTOR"
    case -66 => "CL_INVALID_COMPILER_OPTIONS"
    case -67 => "CL_INVALID_LINKER_OPTIONS"
    case -68 => "CL_INVALID_DEVICE_PARTITION_COUNT"
    case -69 => "CL_INVALID_PIPE_SIZE"
    case -70 => "CL_INVALID_DEVICE_QUEUE"
    case -71 => "CL_INVALID_SPEC_ID"
    case -72 => "CL_MAX_SIZE_RESTRICTION_EXCEEDED"
    case _ => UNKNOWN
  }

  /** Errors the wrapper throws as `backend_exception`. */
  datatype DeviceError =
    | AssertFailed(code: int, name: string)      // `device_assert` on a failing status
    | IllegalAccess(pos: nat, size: nat)         // `memset` starting at or past the end
    | TooFewData(needed: nat, provided: nat)     // `memcpy_to_device` from a short vector
    | BufferTooSmall(needed: nat, provided: nat) // `memcpy_to_host` into a short vector

  /** `device_assert`: throws exactly when the status is not `CL_SUCCESS`. */
  function DeviceAssert(code: int): (r: Outcome<DeviceError>)
    ensures r.Fail? <==> code != 0
    ensures r.Fail? ==> r.error == AssertFailed(code, ErrorCodeToString(code)) && (r.error.name == UNKNOWN <==> !Named(code))
  {
    if code != 0 then Fail(AssertFailed(code, ErrorCodeToString(code))) else Pass
  }

  // ---------------------------------------------------------------- buffer contents

  function Min(a: nat, b: nat): nat {
    if a < b then a else b
  }

  /** The number of elements an operation at `pos` asking for `count` touches: clamped to
    the end of a buffer of `size` elements. */
  function Clamp(count: nat, size: nat, pos: nat): (n: nat)
    requires pos <= size
    ensures pos + n <= size && n <= count
    ensures n == count || pos + n == size
  {
    Min(count, size - pos)
  }

  /** `s` with `src` written from `pos` on. */
  function Overwrite<T>(s: seq<T>, pos: nat, src: seq<T>): (r: seq<T>)
    requires pos + |src| <= |s|
    ensures |r| == |s|
    ensures forall k :: 0 <= k < |s| ==> r[k] == if pos <= k < pos + |src| then src[k - pos] else s[k]
  {
    s[..pos] + src + s[pos + |src|..]
  }

  function Repeat<T>(n: nat, v: T): (r: seq<T>)
    ensures |r| == n && forall k :: 0 <= k < n ==> r[k] == v
  {
    seq(n, _ => v)
  }

  /** Writing a range and reading the same range back yields what was written. */
  lemma ReadAfterWrite<T>(s: seq<T>, pos: nat, src: seq<T>)
    requires pos + |src| <= |s|
    ensures Overwrite(s, pos, src)[pos..pos + |src|] == src
  {
  }

  /** Writing back what a range already holds leaves the buffer as it was. */
  lemma WriteWhatIsThere<T>(s: seq<T>, pos: nat, n: nat)
    requires pos + n <= |s|
    ensures Overwrite(s, pos, s[pos..pos + n]) == s
  {
  }

  // ---------------------------------------------------------------- the wrapper

  class DevicePtr<T> {
    /** `queue_`: the command queue, `None` for a null handle. */
    var queue: Option<nat>
    /** `data_`: the device buffer, `null` once moved from. */
    var data: array?<T>
    /** `size_`: the number of elements. */
    var size: nat

    predicate Valid()
      reads this
    {
      (data == null ==> size == 0) && (data != null ==> data.Length == size)
    }

    /** `device_ptr(size, queue)`: a fresh buffer of `size` elements on `queue`. The
      buffer's initial contents are left to the caller as `init`. */
    constructor (size: nat, queue: nat, init: T)
      ensures Valid() && this.size == size && this.queue == Some(queue)
      ensures data != null && fresh(data) && data[..] == Repeat(size, init)
    {
      this.queue := Some(queue);
      this.size := size;
      data := new T[size](_ => init);
    }

    /** The move constructor: takes over the three fields and leaves `other` null with size 0. */
    constructor Move(other: DevicePtr<T>)
      modifies other
      ensures queue == old(other.queue) && data == old(other.data) && size == old(other.size)
      ensures other.queue.None? && other.data == null && other.size == 0
      ensures old(other.Valid()) ==> Valid() && other.Valid()
    {
      queue := other.queue;
      data := other.data;
      size := other.size;
      new;
      other.queue := None;
      other.data := null;
      other.size := 0;
    }

    /** `swap`: exchanges exactly the three fields. */
    method Swap(other: DevicePtr<T>)
      modifies this, other
      ensures queue == old(other.queue) && data == old(other.data) && size == old(other.size)
      ensures other.queue == old(queue) && other.data == old(data) && other.size == old(size)
    {
      queue, other.queue := other.queue, queue;
      data, other.data := other.data, data;
      size, other.size := other.size, size;
    }

    /** Move assignment: move-construct a temporary from `other`, then swap with it. The
      temporary ends up with the old buffer (which its destructor releases). Moving an
      object onto itself leaves it as it was. */
    method MoveAssign(other: DevicePtr<T>)
      modifies this, other
      ensures queue == old(other.queue) && data == old(other.data) && size == old(other.size)
      ensures other != this ==> other.queue.None? && other.data == null && other.size == 0
      ensures old(other.Valid()) ==> Valid() && other.Valid()
    {
      var tmp := new DevicePtr.Move(other);
      Swap(tmp);
    }

    /** `memset(value, pos, count)`: throws when `pos` is at or past the end, otherwise
      fills the clamped range and leaves every other element unchanged. */
    method Memset(value: T, pos: nat, count: nat) returns (r: Outcome<DeviceError>)
      requires Valid() && data != null
      modifies data
      ensures r.Fail? <==> pos >= size
      ensures r.Fail? ==> r.error == IllegalAccess(pos, size) && data[..] == old(data[..])
      ensures r.Pass? ==> data[..] == Overwrite(old(data[..]), pos, Repeat(Clamp(count, size, pos), value))
    {
      if pos >= size {
        return Fail(IllegalAccess(pos, size));
      }
      var n := Clamp(count, size, pos);
      for k := pos to pos + n
        invariant forall i :: 0 <= i < size ==> data[i] == if pos <= i < k then value else old(data[i])
      {
        data[k] := value;
      }
      return Pass;
    }

    /** `memset(value, pos)`: fills from `pos` to the end. */
    method MemsetToEnd(value: T, pos: nat) returns (r: Outcome<DeviceError>)
      requires Valid() && data != null
      modifies data
      ensures r.Fail? <==> pos >= size
      ensures r.Fail? ==> r.error == IllegalAccess(pos, size) && data[..] == old(data[..])
      ensures r.Pass? ==> data[..] == old(data[..])[..pos] + Repeat(size - pos, value)
    {
      r := Memset(value, pos, size);
      if r.Pass? {
        assert data[..] == old(data[..])[..pos] + Repeat(size - pos, value);
      }
    }

    /** The raw-pointer `memcpy_to_device(ptr, pos, count)`: writes the clamped number of
      elements read from `src`, which must hold at least that many. */
    method WriteBuffer(src: seq<T>, pos: nat, count: nat)
      requires Valid() && data != null && pos <= size && |src| >= Clamp(count, size, pos)
      modifies data
      ensures data[..] == Overwrite(old(data[..]), pos, src[..Clamp(count, size, pos)])
    {
      var n := Clamp(count, size, pos);
      for k := 0 to n
        invariant forall i :: 0 <= i < size ==> data[i] == if pos <= i < pos + k then src[i - pos] else old(data[i])
      {
        data[pos + k] := src[k];
      }
    }

    /** `memcpy_to_device(vec, pos, count)`: throws when `vec` is shorter than the clamped
      count, otherwise writes that many of its elements from `pos` on. The library does not
      check `pos` against the size, so the caller must. */
    method MemcpyToDevice(src: seq<T>, pos: nat, count: nat) returns (r: Outcome<DeviceError>)
      requires Valid() && data != null && pos <= size
      modifies data
      ensures r.Fail? <==> |src| < Clamp(count, size, pos)
      ensures r.Fail? ==> r.error == TooFewData(Clamp(count, size, pos), |src|) && data[..] == old(data[..])
      ensures r.Pass? ==> data[..] == Overwrite(old(data[..]), pos, src[..Clamp(count, size, pos)])
    {
      var n := Clamp(count, size, pos);
      if |src| < n {
        return Fail(TooFewData(n, |src|));
      }
      WriteBuffer(src, pos, n);
      return Pass;
    }

    /** `memcpy_to_device(vec)`: the whole buffer from the front of `vec`. */
    method MemcpyToDeviceAll(src: seq<T>) returns (r: Outcome<DeviceError>)
      requires Valid() && data != null
      modifies data
      ensures r.Fail? <==> |src| < size
      ensures r.Fail? ==> r.error == TooFewData(size, |src|) && data[..] == old(data[..])
      ensures r.Pass? ==> data[..] == src[..size]
    {
      r := MemcpyToDevice(src, 0, size);
    }

    /** The raw-pointer `memcpy_to_host(ptr, pos, count)`: reads the clamped range into the
      front of `buffer`, which must hold at least that many elements. */
    method ReadBuffer(buffer: array<T>, pos: nat, count: nat)
      requires Valid() && data != null && buffer != data && pos <= size
      requires buffer.Length >= Clamp(count, size, pos)
      modifies buffer
      ensures buffer[..] == Overwrite(old(buffer[..]), 0, data[pos..pos + Clamp(count, size, pos)])
    {
      var n := Clamp(count, size, pos);
      for k := 0 to n
        invariant forall i :: 0 <= i < buffer.Length ==> buffer[i] == if i < k then data[pos + i] else old(buffer[i])
      {
        buffer[k] := data[pos + k];
      }
    }

    /** `memcpy_to_host(vec, pos, count)`: throws when `vec` is smaller than the clamped
      count, otherwise copies that many elements into its front; the device buffer is
      never changed. */
    method MemcpyToHost(buffer: array<T>, pos: nat, count: nat) returns (r: Outcome<DeviceError>)
      requires Valid() && data != null && buffer != data && pos <= size
      modifies buffer
      ensures r.Fail? <==> buffer.Length < Clamp(count, size, pos)
      ensures r.Fail? ==> r.error == BufferTooSmall(Clamp(count, size, pos), buffer.Length)
      ensures r.Fail? ==> buffer[..] == old(buffer[..])
      ensures r.Pass? ==> buffer[..] == Overwrite(old(buffer[..]), 0, data[pos..pos + Clamp(count, size, pos)])
    {
      var n := Clamp(count, size, pos);
      if buffer.Length < n {
        return Fail(BufferTooSmall(n, buffer.Length));
      }
      ReadBuffer(buffer, pos, n);
      return Pass;
    }

    /** `memcpy_to_host(vec)`: the whole buffer into the front of `vec`. */
    method MemcpyToHostAll(buffer: array<T>) returns (r: Outcome<DeviceError>)
      requires Valid() && data != null && buffer != data
      modifies buffer
      ensures r.Fail? <==> buffer.Length < size
      ensures r.Fail? ==> r.error == BufferTooSmall(size, buffer.Length) && buffer[..] == old(buffer[..])
      ensures r.Pass? ==> buffer[..size] == data[..] && buffer[size..] == old(buffer[size..])
    {
      r := MemcpyToHost(buffer, 0, size);
    }
  }
}
