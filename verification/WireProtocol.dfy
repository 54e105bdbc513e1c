/** Properties and their wire form (src/ipc/grpc/protocol.cxx, src/ipc/grpc/erebus.proto). */
module WireProtocol {
  import opened Basics
  import opened PropertyRegistry

  newtype byte = x: int | 0 <= x < 0x100
  newtype int32 = x: int | -0x8000_0000 <= x < 0x8000_0000
  newtype uint32 = x: int | 0 <= x < 0x1_0000_0000
  newtype int64 = x: int | -0x8000_0000_0000_0000 <= x < 0x8000_0000_0000_0000
  newtype uint64 = x: int | 0 <= x < 0x1_0000_0000_0000_0000

  /** A stored value. A boolean is one byte, a double is its bit pattern, text and binary are bytes. */
  datatype Value =
    | VEmpty
    | VBool(flag: byte)
    | VInt32(i32: int32)
    | VUInt32(u32: uint32)
    | VInt64(i64: int64)
    | VUInt64(u64: uint64)
    | VDouble(bits: uint64)
    | VString(text: seq<byte>)
    | VBinary(bytes: seq<byte>)
  {
    function Type(): PropertyType {
      match this
      case VEmpty => PropertyType.Empty
      case VBool(_) => PropertyType.Bool
      case VInt32(_) => PropertyType.Int32
      case VUInt32(_) => PropertyType.UInt32
      case VInt64(_) => PropertyType.Int64
      case VUInt64(_) => PropertyType.UInt64
      case VDouble(_) => PropertyType.Double
      case VString(_) => PropertyType.String
      case VBinary(_) => PropertyType.Binary
    }

    /** The value a boolean byte has after travelling as a one-bit flag; every other value is unchanged. */
    function Normalized(): Value {
      if VBool? && flag != 1 then VBool(0) else this
    }
  }

  datatype Property = Property(info: Info, value: Value) {
    predicate WellTyped() {
      info.ty == value.Type()
    }
  }

  type Bag = seq<Property>

  /** The `oneof` of a wire property. */
  datatype OneOf =
    | NotSet
    | WVoid
    | WBool(flag: bool)
    | WInt32(i32: int32)
    | WUInt32(u32: uint32)
    | WInt64(i64: int64)
    | WUInt64(u64: uint64)
    | WDouble(bits: uint64)
    | WString(text: seq<byte>)
    | WBinary(bytes: seq<byte>)
  {
    /** The field number protobuf reports for the member that is set, 0 for none. */
    function Case(): nat {
      match this
      case NotSet => 0
      case WVoid => 2
      case WBool(_) => 3
      case WInt32(_) => 4
      case WUInt32(_) => 5
      case WInt64(_) => 6
      case WUInt64(_) => 7
      case WDouble(_) => 8
      case WString(_) => 9
      case WBinary(_) => 10
    }
  }

  datatype WireProperty = WireProperty(id: nat, value: OneOf)

  const SIZE_T := 0x1_0000_0000_0000_0000
  const DECODER_COUNT := 9

  /** Writing an empty value clears the `oneof` instead of setting its void member. */
  function AssignValue(v: Value): OneOf {
    match v
    case VEmpty => NotSet
    case VBool(b) => WBool(b == 1)
    case VInt32(x) => WInt32(x)
    case VUInt32(x) => WUInt32(x)
    case VInt64(x) => WInt64(x)
    case VUInt64(x) => WUInt64(x)
    case VDouble(x) => WDouble(x)
    case VString(x) => WString(x)
    case VBinary(x) => WBinary(x)
  }

  function AssignProperty(p: Property): WireProperty {
    WireProperty(p.info.unique, AssignValue(p.value))
  }

  /** Reads a property under the description its id was mapped to, if any. */
  function GetProperty(w: WireProperty, slot: Option<Info>): Result<Property> {
    if slot.None? then Err(UnknownProperty(w.id))
    else
      var info := slot.value;
      var index := (w.value.Case() - 2) % SIZE_T;
      if index >= DECODER_COUNT then Err(UnsupportedType(index))
      else match w.value
        case WBool(b) => Ok(Property(info, VBool(if b then 1 else 0)))
        case WInt32(x) => Ok(Property(info, VInt32(x)))
        case WUInt32(x) => Ok(Property(info, VUInt32(x)))
        case WInt64(x) => Ok(Property(info, VInt64(x)))
        case WUInt64(x) => Ok(Property(info, VUInt64(x)))
        case WDouble(x) => Ok(Property(info, VDouble(x)))
        case WString(x) => Ok(Property(info, VString(x)))
        case WBinary(x) => Ok(Property(info, VBinary(x)))
        case _ => Ok(Property(EMPTY_INFO, VEmpty))
  }

  /** The description a default-constructed property carries. */
  const EMPTY_INFO := Info(0, PropertyType.Empty, "Er.Unspecified.Empty", "Empty")

  function AssignBag(bag: Bag): seq<WireProperty> {
    seq(|bag|, i requires 0 <= i < |bag| => AssignProperty(bag[i]))
  }

  /**
   * Encoding then decoding under a mapped id gives the value back, up to boolean normalisation, exactly
   * when the value is not empty and the id is mapped.
   */
  lemma ValueRoundTrip(p: Property, slot: Option<Info>)
    ensures GetProperty(AssignProperty(p), slot).Ok? <==> slot.Some? && !p.value.VEmpty?
    ensures slot.Some? && !p.value.VEmpty? ==>
              GetProperty(AssignProperty(p), slot) == Ok(Property(slot.value, p.value.Normalized()))
    ensures slot.Some? && p.value.VEmpty? ==>
              GetProperty(AssignProperty(p), slot) == Err(UnsupportedType(SIZE_T - 2))
    ensures p.value.Normalized() == p.value <==> (p.value.VBool? ==> p.value.flag in {0, 1})
  {
    if p.value.VEmpty? {
      assert (0 - 2) % SIZE_T == SIZE_T - 2;
    }
  }

  /** A type's place in the tables of encoders and decoders. */
  function Index(ty: PropertyType): nat {
    match ty
    case Empty => 0
    case Bool => 1
    case Int32 => 2
    case UInt32 => 3
    case Int64 => 4
    case UInt64 => 5
    case Double => 6
    case String => 7
    case Binary => 8
  }

  /** A value travels in the field of its type, the fields being numbered like the types, from 2 on. */
  lemma FieldIsOfType(p: Property)
    ensures AssignProperty(p).id == p.info.unique
    ensures AssignProperty(p).value.Case() == if p.value.VEmpty? then 0 else Index(p.value.Type()) + 2
  {
  }

  /**
   * The other direction: under a mapped id every wire property decodes but one without a value; it decodes
   * into a value of its field's type under the mapped description, and encoding that gives the field back.
   * A void field decodes into an empty property, on the description of all empty properties.
   */
  lemma WireRoundTrip(w: WireProperty, info: Info)
    ensures GetProperty(w, None) == Err(UnknownProperty(w.id))
    ensures GetProperty(w, Some(info)).Ok? <==> !w.value.NotSet?
    ensures w.value.WVoid? ==> GetProperty(w, Some(info)) == Ok(Property(EMPTY_INFO, VEmpty))
    ensures !w.value.NotSet? && !w.value.WVoid? ==>
              var p := GetProperty(w, Some(info)).value;
              && p.info == info && AssignValue(p.value) == w.value
              && Index(p.value.Type()) + 2 == w.value.Case() && p.value.Normalized() == p.value
  {
    if w.value.NotSet? {
      assert (0 - 2) % SIZE_T == SIZE_T - 2;
    }
  }
}
