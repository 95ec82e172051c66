/**
 * Raw sample access on an image buffer (Helpers.GetValue / SetValue and the
 * per-depth converters ConvertFrom / ConvertTo), the depth/type compatibility
 * test IsCompatible and the length-dispatched decoder BytesToDouble.
 *
 * Floating-point samples are carried as their raw bytes; what a float or double
 * denotes, and how .NET rounds or widens one, is left to the `FloatOps`
 * functions a caller supplies.
 */
module Samples {
  import opened Wrappers
  import opened Bytes

  /** Emgu's DepthType; `Other` stands for every value not listed (Default = -1, say). */
  datatype Depth = Cv8U | Cv8S | Cv16U | Cv16S | Cv32S | Cv32F | Cv64F | Other

  /** The run-time type of a boxed sample value. */
  datatype ClrType = SByteType | ByteType | Int16Type | UInt16Type | Int32Type | SingleType | DoubleType | OtherType

  /** A boxed sample: the integer kinds carry their value, the float kinds their IEEE bytes. */
  datatype Value =
    | SByte(i: int) | Byte(i: int) | Int16(i: int) | UInt16(i: int) | Int32(i: int)
    | Single(bits: seq<byte>) | Double(bits: seq<byte>)

  /** The .NET floating-point conversions that the model keeps abstract. */
  datatype FloatOps = FloatOps(
    round: Value -> Option<int>,    // Convert.ToIntNN of a float kind: the rounded value, None for NaN
    toSingle: Value -> seq<byte>,   // Convert.ToSingle followed by BitConverter.GetBytes
    toDouble: Value -> seq<byte>)   // Convert.ToDouble followed by BitConverter.GetBytes

  function TypeOf(v: Value): ClrType {
    match v
    case SByte(_) => SByteType
    case Byte(_) => ByteType
    case Int16(_) => Int16Type
    case UInt16(_) => UInt16Type
    case Int32(_) => Int32Type
    case Single(_) => SingleType
    case Double(_) => DoubleType
  }

  /** The element type each depth stores; any other depth is read as a float. */
  function ElementType(d: Depth): ClrType {
    match d
    case Cv8S => SByteType
    case Cv8U => ByteType
    case Cv16S => Int16Type
    case Cv16U => UInt16Type
    case Cv32S => Int32Type
    case Cv64F => DoubleType
    case _ => SingleType
  }

  /** Bytes per channel of a depth, as OpenCV lays them out. */
  function DepthSize(d: Depth): nat {
    match d
    case Cv8U => 1
    case Cv8S => 1
    case Cv16U => 2
    case Cv16S => 2
    case Cv32S => 4
    case Cv32F => 4
    case Cv64F => 8
    case Other => 4
  }

  predicate IsIntegerDepth(d: Depth) {
    d == Cv8U || d == Cv8S || d == Cv16U || d == Cv16S || d == Cv32S
  }

  /** The inclusive range of an integer element type. */
  function MinOf(t: ClrType): int {
    match t
    case SByteType => -0x80
    case Int16Type => -0x8000
    case Int32Type => -0x8000_0000
    case _ => 0
  }

  function MaxOf(t: ClrType): int {
    match t
    case SByteType => 0x7F
    case ByteType => 0xFF
    case Int16Type => 0x7FFF
    case UInt16Type => 0xFFFF
    case Int32Type => 0x7FFF_FFFF
    case _ => 0
  }

  /** Helpers.IsCompatible: whether a value of run-time type `t` is what depth `d` stores. */
  function IsCompatible(d: Depth, t: ClrType): (ok: bool)
    ensures ok <==> t == ElementType(d)
  {
    if d == Cv8S then t == SByteType
    else if d == Cv8U then t == ByteType
    else if d == Cv16S then t == Int16Type
    else if d == Cv16U then t == UInt16Type
    else if d == Cv32S then t == Int32Type
    else if d == Cv32F then t == SingleType
    else if d == Cv64F then t == DoubleType
    else t == SingleType
  }

  /**
   * Helpers.ConvertFrom: the boxed value stored in the leading bytes of an element.
   * Cv8S casts the byte to sbyte, Cv16U reads an Int16 and casts it to ushort,
   * the float depths keep their bytes.
   */
  function ConvertFrom(d: Depth, buffer: seq<byte>): (v: Value)
    requires |buffer| >= DepthSize(d)
    ensures TypeOf(v) == ElementType(d)
  {
    if d == Cv8S then SByteValue(buffer[0])
    else if d == Cv8U then Byte(buffer[0] as int)
    else if d == Cv16S then Int16(Signed(buffer[..2]))
    else if d == Cv16U then UInt16(Signed(buffer[..2]) % 0x1_0000)
    else if d == Cv32S then Int32(Signed(buffer[..4]))
    else if d == Cv64F then Double(buffer[..8])
    else Single(buffer[..4])
  }

  /** The unchecked (sbyte) cast of a byte. */
  function SByteValue(b: byte): (v: Value)
    ensures v.SByte? && -0x80 <= v.i < 0x80 && v.i % 0x100 == b as int
  {
    SByte(Signed([b]))
  }

  /** The integer that Convert.ChangeType starts from: the value itself, or the rounded float. */
  function Integral(v: Value, ops: FloatOps): Option<int> {
    match v
    case Single(_) => ops.round(v)
    case Double(_) => ops.round(v)
    case _ => Some(v.i)
  }

  /** Convert.ChangeType to an integer type: range-checked, OverflowException otherwise. */
  function ChangeTypeTo(v: Value, t: ClrType, ops: FloatOps): (r: Result<int, Exception>)
    ensures r.Success? ==> MinOf(t) <= r.value <= MaxOf(t)
    ensures r.Failure? ==> r.error == Overflow
  {
    match Integral(v, ops)
    case None => Failure(Overflow)
    case Some(i) => if MinOf(t) <= i <= MaxOf(t) then Success(i) else Failure(Overflow)
  }

  function Zeros(n: nat): (z: seq<byte>)
    ensures |z| == n && forall k :: 0 <= k < n ==> z[k] == 0
  {
    seq(n, _ => 0)
  }

  /**
   * Helpers.ConvertTo: the bytes that SetValue copies for `value` into an element of
   * `elementSize` bytes.  Cv8U fills a zeroed buffer of the element's size, the
   * other integer depths use BitConverter.GetBytes, and Cv8S, as written, always
   * throws (SByteConvertAsWritten).  ConvertToIntended is the evidently intended encoder.
   */
  function ConvertTo(d: Depth, elementSize: nat, value: Value, ops: FloatOps): (r: Result<seq<byte>, Exception>)
    requires elementSize >= 1
    ensures d == Cv8S ==> r.Failure?
    ensures d == Cv8S && ChangeTypeTo(value, SByteType, ops).Success? ==> r.error == InvalidCast
    ensures IsIntegerDepth(d) && d != Cv8S ==>
      (r.Failure? <==> ChangeTypeTo(value, ElementType(d), ops).Failure?)
    ensures IsIntegerDepth(d) && r.Failure? ==> r.error in {Overflow, InvalidCast}
    ensures IsIntegerDepth(d) && r.Success? ==> |r.value| >= DepthSize(d)
    ensures d == Cv8U && r.Success? ==> |r.value| == elementSize && r.value[0] as int == ChangeTypeTo(value, ByteType, ops).value
    ensures !IsIntegerDepth(d) ==> r.Success?
  {
    if d == Cv8S then SByteConvertAsWritten(value, ops)
    else if d == Cv8U then
      match ChangeTypeTo(value, ByteType, ops)
      case Failure(e) => Failure(e)
      case Success(b) => Success([b as byte] + Zeros(elementSize - 1))
    else if d == Cv16S then
      match ChangeTypeTo(value, Int16Type, ops)
      case Failure(e) => Failure(e)
      case Success(i) => Success(LittleEndian(i, 2))
    else if d == Cv16U then
      match ChangeTypeTo(value, UInt16Type, ops)
      case Failure(e) => Failure(e)
      case Success(i) => Success(LittleEndian(i, 2))
    else if d == Cv32S then
      match ChangeTypeTo(value, Int32Type, ops)
      case Failure(e) => Failure(e)
      case Success(i) => Success(LittleEndian(i, 4))
    else if d == Cv64F then Success(ops.toDouble(value))
    else Success(ops.toSingle(value))
  }

  /** Helpers.ConvertTo as evidently intended: Cv8S stores the two's-complement byte, every other depth as written. */
  function ConvertToIntended(d: Depth, elementSize: nat, value: Value, ops: FloatOps): (r: Result<seq<byte>, Exception>)
    requires elementSize >= 1
    ensures d != Cv8S ==> r == ConvertTo(d, elementSize, value, ops)
    ensures d == Cv8S ==> (r.Success? <==> ChangeTypeTo(value, SByteType, ops).Success?)
  {
    if d == Cv8S then
      match ChangeTypeTo(value, SByteType, ops)
      case Failure(e) => Failure(e)
      case Success(i) => Success(SByteBytes(i, elementSize))
    else ConvertTo(d, elementSize, value, ops)
  }

  /** Whether `v` is a value of the element type of the integer depth `d`, within its range. */
  predicate Storable(d: Depth, v: Value) {
    && IsIntegerDepth(d)
    && TypeOf(v) == ElementType(d)
    && !v.Single? && !v.Double?
    && MinOf(TypeOf(v)) <= v.i <= MaxOf(TypeOf(v))
  }

  /**
   * Converting a storable value to bytes and reading them back gives the value
   * again, for every integer depth but Cv8S, whose conversion always fails.
   */
  lemma ConvertRoundTrip(d: Depth, elementSize: nat, v: Value, ops: FloatOps)
    requires Storable(d, v) && elementSize >= DepthSize(d)
    ensures ConvertTo(d, elementSize, v, ops).Success? <==> d != Cv8S
    ensures d != Cv8S ==> |ConvertTo(d, elementSize, v, ops).value| >= DepthSize(d)
    ensures d != Cv8S ==> ConvertFrom(d, ConvertTo(d, elementSize, v, ops).value) == v
  {
    match d
    case Cv8S =>
    case Cv8U =>
    case Cv16S => Int16RoundTrip(v.i, elementSize, ops);
    case Cv16U => UInt16RoundTrip(v.i, elementSize, ops);
    case Cv32S => Int32RoundTrip(v.i, elementSize, ops);
  }

  /** With the intended encoder, every integer depth, Cv8S included, reads back a storable value. */
  lemma IntendedRoundTrip(d: Depth, elementSize: nat, v: Value, ops: FloatOps)
    requires Storable(d, v) && elementSize >= DepthSize(d)
    ensures ConvertToIntended(d, elementSize, v, ops).Success?
    ensures |ConvertToIntended(d, elementSize, v, ops).value| >= DepthSize(d)
    ensures ConvertFrom(d, ConvertToIntended(d, elementSize, v, ops).value) == v
  {
    if d == Cv8S {
      SByteRoundTrip(v.i, elementSize);
    } else {
      ConvertRoundTrip(d, elementSize, v, ops);
    }
  }

  /** A Cv16S element holds an Int16 as two little-endian bytes and reads it back. */
  lemma Int16RoundTrip(i: int, elementSize: nat, ops: FloatOps)
    requires -0x8000 <= i < 0x8000 && elementSize >= 2
    ensures ConvertTo(Cv16S, elementSize, Int16(i), ops) == Success(LittleEndian(i, 2))
    ensures ConvertFrom(Cv16S, LittleEndian(i, 2)) == Int16(i)
  {
    LittleEndianRoundTrip(i, 2);
    assert LittleEndian(i, 2)[..2] == LittleEndian(i, 2);
  }

  /** A Cv16U element holds a UInt16 as two little-endian bytes and reads it back through the signed read. */
  lemma UInt16RoundTrip(i: int, elementSize: nat, ops: FloatOps)
    requires 0 <= i < 0x1_0000 && elementSize >= 2
    ensures ConvertTo(Cv16U, elementSize, UInt16(i), ops) == Success(LittleEndian(i, 2))
    ensures ConvertFrom(Cv16U, LittleEndian(i, 2)) == UInt16(i)
  {
    var buf := LittleEndian(i, 2);
    LittleEndianRoundTrip(i, 2);
    UnsignedOfLittleEndian(i, 2);
    assert buf[..2] == buf;
    assert Signed(buf) % 0x1_0000 == Unsigned(buf);
  }

  /** A Cv32S element holds an Int32 as four little-endian bytes and reads it back. */
  lemma Int32RoundTrip(i: int, elementSize: nat, ops: FloatOps)
    requires -0x8000_0000 <= i < 0x8000_0000 && elementSize >= 4
    ensures ConvertTo(Cv32S, elementSize, Int32(i), ops) == Success(LittleEndian(i, 4))
    ensures ConvertFrom(Cv32S, LittleEndian(i, 4)) == Int32(i)
  {
    LittleEndianRoundTrip(i, 4);
    assert LittleEndian(i, 4)[..4] == LittleEndian(i, 4);
  }

  /**
   * The Cv8S branch of Helpers.ConvertTo as written: the boxed sbyte that
   * Convert.ChangeType returns is unboxed as a byte, which throws InvalidCastException.
   */
  function SByteConvertAsWritten(value: Value, ops: FloatOps): Result<seq<byte>, Exception> {
    match ChangeTypeTo(value, SByteType, ops)
    case Failure(e) => Failure(e)
    case Success(_) => Failure(InvalidCast)
  }

  /**
   * As written, no value can be stored in a Cv8S element, not even an sbyte in
   * range, which the intended encoder stores.
   */
  lemma SByteConvertToFails(elementSize: nat, v: Value, ops: FloatOps)
    requires elementSize >= 1
    ensures SByteConvertAsWritten(v, ops).Failure?
    ensures Storable(Cv8S, v) ==> SByteConvertAsWritten(v, ops).error == InvalidCast
    ensures ConvertTo(Cv8S, elementSize, v, ops) == SByteConvertAsWritten(v, ops)
    ensures Storable(Cv8S, v) ==> ConvertToIntended(Cv8S, elementSize, v, ops) == Success(SByteBytes(v.i, elementSize))
  {
  }

  /** The bytes a Cv8S write evidently intends: the two's-complement byte, then zeros. */
  function SByteBytes(i: int, elementSize: nat): (bs: seq<byte>)
    requires elementSize >= 1
    ensures |bs| == elementSize
  {
    [(i % 0x100) as byte] + Zeros(elementSize - 1)
  }

  /** With the intended encoding, a Cv8S element reads back the sbyte that was written. */
  lemma SByteRoundTrip(i: int, elementSize: nat)
    requires -0x80 <= i < 0x80 && elementSize >= 1
    ensures ConvertFrom(Cv8S, SByteBytes(i, elementSize)) == SByte(i)
  {
    LittleEndianRoundTrip(i, 1);
    assert LittleEndian(i, 1) == [(i % 0x100) as byte];
  }

  /**
   * Helpers.BytesToDouble: an empty string is 0, one byte is read unsigned,
   * two, four or eight bytes as a signed little-endian integer; any other
   * length throws NotSupportedException.
   */
  function BytesToDouble(bytes: seq<byte>): (r: Result<int, Exception>)
    ensures r.Failure? <==> |bytes| !in {0, 1, 2, 4, 8}
    ensures r.Failure? ==> r.error == NotSupported
    ensures |bytes| == 0 ==> r == Success(0)
  {
    var len := |bytes|;
    if len == 0 then Success(0)
    else if len == 1 then Success(bytes[0] as int)
    else if len == 2 then Success(Signed(bytes))
    else if len == 4 then Success(Signed(bytes))
    else if len == 8 then Success(Signed(bytes))
    else Failure(NotSupported)
  }

  /** BytesToDouble reads back what BitConverter.GetBytes wrote for a byte, Int16, Int32 or Int64. */
  lemma BytesToDoubleRoundTrip(v: int, n: nat)
    requires n in {1, 2, 4, 8}
    requires if n == 1 then 0 <= v < 0x100 else -Pow256(n) / 2 <= v < Pow256(n) / 2
    ensures BytesToDouble(LittleEndian(v, n)) == Success(v)
  {
    LittleEndianRoundTrip(v, n);
    if n == 1 {
      assert LittleEndian(v, 1)[0] as int == Unsigned(LittleEndian(v, 1));
    }
  }

  /** The outcome of Helpers.SetValue. */
  datatype SetOutcome =
    | Written                       // the element's bytes were replaced
    | ConversionFailed(e: Exception) // ConvertTo threw: logged, nothing written
    | CopyFailed                    // Marshal.Copy threw ArgumentOutOfRange: the buffer is shorter than the element

  /** `s` with the bytes from `offset` on replaced by `bytes`. */
  function Overwrite(s: seq<byte>, offset: nat, bytes: seq<byte>): (r: seq<byte>)
    requires offset + |bytes| <= |s|
    ensures |r| == |s| && r[offset..offset + |bytes|] == bytes
    ensures forall k :: 0 <= k < |s| && !(offset <= k < offset + |bytes|) ==> r[k] == s[k]
  {
    s[..offset] + bytes + s[offset + |bytes|..]
  }

  lemma MulLeft(a: nat, b: nat, c: nat)
    requires a <= b
    ensures a * c <= b * c
  {
  }

  /** Element (row, col) of a rows x cols grid of `es`-byte elements ends inside the buffer. */
  lemma ElementWithin(rows: nat, cols: nat, es: nat, row: nat, col: nat)
    requires row < rows && col < cols
    ensures (row * cols + col) * es + es <= rows * cols * es
  {
    MulLeft(row + 1, rows, cols);
    assert row * cols + col + 1 <= rows * cols;
    MulLeft(row * cols + col + 1, rows * cols, es);
  }

  /** Marshal.Copy: `count` bytes of `source` to `target` from `start` on; nothing else in `target` changes. */
  method CopyBytes(source: seq<byte>, target: array<byte>, start: nat, count: nat)
    requires count <= |source| && start + count <= target.Length
    modifies target
    ensures target[..] == Overwrite(old(target[..]), start, source[..count])
  {
    ghost var before := target[..];
    var k := 0;
    while k < count
      invariant 0 <= k <= count
      invariant forall p :: 0 <= p < target.Length ==>
        target[p] == if start <= p < start + k then source[p - start] else before[p]
    {
      target[start + k] := source[k];
      k := k + 1;
    }
    ghost var after := Overwrite(before, start, source[..count]);
    assert forall p :: start <= p < start + count ==> after[p] == after[start..start + count][p - start];
  }

  /** An image buffer: rows x cols elements of `channels` samples each, stored row-major. */
  class Mat {
    const rows: nat
    const cols: nat
    const depth: Depth
    const channels: nat
    const data: array<byte>

    function ElementSize(): nat {
      channels * DepthSize(depth)
    }

    ghost predicate Valid() {
      depth != Other && channels >= 1 && data.Length == rows * cols * ElementSize()
    }

    constructor (rows: nat, cols: nat, depth: Depth, channels: nat)
      requires depth != Other && channels >= 1
      ensures Valid() && fresh(data)
      ensures this.rows == rows && this.cols == cols && this.depth == depth && this.channels == channels
    {
      this.rows, this.cols, this.depth, this.channels := rows, cols, depth, channels;
      data := new byte[rows * cols * (channels * DepthSize(depth))];
    }

    /** The first byte of element (row, col): the address GetValue reads and SetValue writes. */
    function Offset(row: nat, col: nat): nat {
      (row * cols + col) * ElementSize()
    }

    lemma OffsetInRange(row: nat, col: nat)
      requires Valid() && row < rows && col < cols
      ensures ElementSize() >= DepthSize(depth) >= 1
      ensures Offset(row, col) + ElementSize() <= data.Length
    {
      ElementWithin(rows, cols, ElementSize(), row, col);
    }

    /** Helpers.GetValue: converts the bytes of element (row, col). */
    function GetValue(row: nat, col: nat): (v: Value)
      requires Valid() && row < rows && col < cols
      reads data
      ensures TypeOf(v) == ElementType(depth)
    {
      OffsetInRange(row, col);
      ConvertFrom(depth, data[Offset(row, col)..Offset(row, col) + ElementSize()])
    }

    /**
     * Helpers.SetValue: converts `value` and copies ElementSize bytes of the result
     * to element (row, col).  A failed conversion is caught and nothing is written.
     */
    method SetValue(row: nat, col: nat, value: Value, ops: FloatOps) returns (outcome: SetOutcome)
      requires Valid() && row < rows && col < cols
      modifies data
      ensures outcome == match ConvertTo(depth, ElementSize(), value, ops)
                         case Failure(e) => ConversionFailed(e)
                         case Success(buf) => if |buf| < ElementSize() then CopyFailed else Written
      ensures outcome.Written? ==>
        Offset(row, col) + ElementSize() <= data.Length &&
        data[..] == Overwrite(old(data[..]), Offset(row, col),
                              ConvertTo(depth, ElementSize(), value, ops).value[..ElementSize()])
      ensures !outcome.Written? ==> data[..] == old(data[..])
      ensures depth == Cv8S ==> outcome.ConversionFailed? && data[..] == old(data[..])
      ensures depth == Cv8S && ChangeTypeTo(value, SByteType, ops).Success? ==> outcome == ConversionFailed(InvalidCast)
    {
      OffsetInRange(row, col);
      var converted := ConvertTo(depth, ElementSize(), value, ops);
      if converted.Failure? {
        return ConversionFailed(converted.error);
      }
      var buffer := converted.value;
      var es := ElementSize();
      if |buffer| < es {
        return CopyFailed;
      }
      CopyBytes(buffer, data, Offset(row, col), es);
      outcome := Written;
    }
  }

  /**
   * An element of an integer depth other than Cv8S written by SetValue reads
   * back, at the same offset, the value that was written; a Cv8S write fails.
   */
  lemma SetThenGet(d: Depth, es: nat, s: seq<byte>, offset: nat, v: Value, ops: FloatOps)
    requires Storable(d, v) && es >= DepthSize(d) && offset + es <= |s|
    ensures ConvertTo(d, es, v, ops).Success? <==> d != Cv8S
    ensures d != Cv8S ==> |ConvertTo(d, es, v, ops).value| >= DepthSize(d)
    ensures d != Cv8S ==>
      var buf := ConvertTo(d, es, v, ops).value;
      |buf| >= es ==>
        var t := Overwrite(s, offset, buf[..es]);
        ConvertFrom(d, t[offset..offset + es]) == v
  {
    ConvertRoundTrip(d, es, v, ops);
    if d != Cv8S {
      var buf := ConvertTo(d, es, v, ops).value;
      if |buf| >= es {
        var t := Overwrite(s, offset, buf[..es]);
        assert t[offset..offset + es][..DepthSize(d)] == buf[..DepthSize(d)];
      }
    }
  }
}
