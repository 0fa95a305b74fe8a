/** Bytes, 32-bit words and the read cursor that the header decoder walks.

    Java's `ByteBuffer` is modelled by its visible bytes (index 0 up to the
    limit) and a position; reads are relative, big-endian (the buffer's
    default order) and fail with an underflow, leaving the position where it
    was, when too few bytes remain. */
module Wire {

  newtype byte = b: int | 0 <= b < 0x100
  newtype int32 = x: int | -0x8000_0000 <= x < 0x8000_0000
  newtype uint32 = x: int | 0 <= x < 0x1_0000_0000

  /** Java arrays and buffers are indexed by `int`, so no buffer holds more bytes. */
  const MaxCapacity: int := 0x7fff_ffff

  /** The exceptions modelled; allocation failure (`OutOfMemoryError`) is not among them. */
  datatype Failure =
    | BufferUnderflow     // a relative read needs more bytes than remain
    | NegativeArraySize   // `new T[n]` with n < 0
    | IndexOutOfBounds    // a store past the end of the label array

  datatype Result<T> = Ok(value: T) | Err(failure: Failure) {
    predicate IsFailure() { Err? }
    function PropagateFailure<U>(): Result<U> requires Err? { Err(failure) }
    function Extract(): T requires Ok? { value }
  }

  /** The unsigned big-endian word stored at `data[p..p+4]`. */
  function Uint32At(data: seq<byte>, p: nat): (u: uint32)
    requires p + 4 <= |data|
    ensures data[p] as int * 0x100_0000 <= u as int < (data[p] as int + 1) * 0x100_0000
  {
    (data[p] as int * 0x100_0000 + data[p + 1] as int * 0x1_0000
     + data[p + 2] as int * 0x100 + data[p + 3] as int) as uint32
  }

  /** The two's-complement big-endian word stored at `data[p..p+4]` (`getInt`). */
  function Int32At(data: seq<byte>, p: nat): (v: int32)
    requires p + 4 <= |data|
    ensures v < 0 <==> data[p] >= 0x80
  {
    var u := Uint32At(data, p) as int;
    (if u < 0x8000_0000 then u else u - 0x1_0000_0000) as int32
  }

  /** The four bytes, most significant first, that encode `u`. */
  function Uint32Bytes(u: uint32): (s: seq<byte>)
    ensures |s| == 4
  {
    var x := u as int;
    [(x / 0x100_0000) as byte, (x / 0x1_0000 % 0x100) as byte,
     (x / 0x100 % 0x100) as byte, (x % 0x100) as byte]
  }

  /** The four bytes that encode `v` in two's complement. */
  function Int32Bytes(v: int32): (s: seq<byte>)
    ensures |s| == 4
  {
    Uint32Bytes((if v < 0 then v as int + 0x1_0000_0000 else v as int) as uint32)
  }

  /** Reading back an encoded word gives the word. */
  lemma Uint32AtBytes(data: seq<byte>, p: nat, u: uint32)
    requires p + 4 <= |data| && data[p..p + 4] == Uint32Bytes(u)
    ensures Uint32At(data, p) == u
  {
    var x := u as int;
    var q1 := x / 0x100;
    var q2 := q1 / 0x100;
    assert x == q1 * 0x100 + x % 0x100;
    assert q1 == q2 * 0x100 + q1 % 0x100;
    assert q2 == (q2 / 0x100) * 0x100 + q2 % 0x100;
    assert x / 0x1_0000 == q2;
    assert x / 0x100_0000 == q2 / 0x100;
    assert data[p] as int == q2 / 0x100 by { assert data[p] == data[p..p + 4][0]; }
    assert data[p + 1] as int == q2 % 0x100 by { assert data[p + 1] == data[p..p + 4][1]; }
    assert data[p + 2] as int == q1 % 0x100 by { assert data[p + 2] == data[p..p + 4][2]; }
    assert data[p + 3] as int == x % 0x100 by { assert data[p + 3] == data[p..p + 4][3]; }
  }

  /** Encoding the word read at `p` gives back the four bytes read. */
  lemma BytesOfUint32At(data: seq<byte>, p: nat)
    requires p + 4 <= |data|
    ensures Uint32Bytes(Uint32At(data, p)) == data[p..p + 4]
  {
    var b0, b1, b2, b3 := data[p] as int, data[p + 1] as int, data[p + 2] as int, data[p + 3] as int;
    var x := Uint32At(data, p) as int;
    var q2 := b0 * 0x100 + b1;
    var q1 := q2 * 0x100 + b2;
    assert x == q1 * 0x100 + b3;
    SplitByte(x, q1, b3);
    SplitByte(q1, q2, b2);
    SplitByte(q2, b0, b1);
    assert x / 0x1_0000 == q2 by { SplitTwoBytes(x, q2, b2 * 0x100 + b3); }
    assert x / 0x100_0000 == b0 by { SplitThreeBytes(x, b0, (b1 * 0x100 + b2) * 0x100 + b3); }
  }

  /** Division with remainder by 0x100, 0x1_0000 and 0x100_0000. */
  lemma SplitByte(x: int, q: int, r: int)
    requires x == q * 0x100 + r && 0 <= r < 0x100
    ensures x / 0x100 == q && x % 0x100 == r
  {
  }

  lemma SplitTwoBytes(x: int, q: int, r: int)
    requires x == q * 0x1_0000 + r && 0 <= r < 0x1_0000
    ensures x / 0x1_0000 == q
  {
  }

  lemma SplitThreeBytes(x: int, q: int, r: int)
    requires x == q * 0x100_0000 + r && 0 <= r < 0x100_0000
    ensures x / 0x100_0000 == q
  {
  }

  /** Reading back an encoded signed word gives the word. */
  lemma Int32AtBytes(data: seq<byte>, p: nat, v: int32)
    requires p + 4 <= |data| && data[p..p + 4] == Int32Bytes(v)
    ensures Int32At(data, p) == v
  {
    Uint32AtBytes(data, p, (if v < 0 then v as int + 0x1_0000_0000 else v as int) as uint32);
  }

  /** A `java.nio.ByteBuffer` as seen by a reader: its bytes up to the limit and its position. */
  class ByteBuffer {
    const data: seq<byte>
    var position: nat

    ghost predicate Valid()
      reads this
    {
      position <= |data| <= MaxCapacity
    }

    function Remaining(): nat
      reads this
      requires Valid()
    {
      |data| - position
    }

    /** `getInt()`. */
    method GetInt() returns (r: Result<int32>)
      requires Valid()
      modifies this`position
      ensures Valid()
      ensures old(Remaining()) >= 4 ==> r == Ok(Int32At(data, old(position))) && position == old(position) + 4
      ensures old(Remaining()) < 4 ==> r == Err(BufferUnderflow) && position == old(position)
    {
      if Remaining() < 4 {
        return Err(BufferUnderflow);
      }
      r := Ok(Int32At(data, position));
      position := position + 4;
    }

    /** `getFloat()`, keeping the raw bit pattern of the float. */
    method GetFloatBits() returns (r: Result<uint32>)
      requires Valid()
      modifies this`position
      ensures Valid()
      ensures old(Remaining()) >= 4 ==> r == Ok(Uint32At(data, old(position))) && position == old(position) + 4
      ensures old(Remaining()) < 4 ==> r == Err(BufferUnderflow) && position == old(position)
    {
      if Remaining() < 4 {
        return Err(BufferUnderflow);
      }
      r := Ok(Uint32At(data, position));
      position := position + 4;
    }

    /** `get(dst)` for a destination array of length `n`: the next `n` bytes. */
    method Get(n: nat) returns (r: Result<seq<byte>>)
      requires Valid()
      modifies this`position
      ensures Valid()
      ensures old(Remaining()) >= n ==> r == Ok(data[old(position)..old(position) + n]) && position == old(position) + n
      ensures old(Remaining()) < n ==> r == Err(BufferUnderflow) && position == old(position)
    {
      if Remaining() < n {
        return Err(BufferUnderflow);
      }
      r := Ok(data[position..position + n]);
      position := position + n;
    }
  }
}
