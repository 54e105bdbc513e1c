/**
 * The two 64-bit words of a property: description and type in one, the value in the other
 * (include/erebus/system/property.hxx).
 */
module PackedWord {
  import opened PropertyRegistry
  import WireProtocol

  function Ordinal(ty: PropertyType): bv64 {
    match ty
    case Empty => 0
    case Bool => 1
    case Int32 => 2
    case UInt32 => 3
    case Int64 => 4
    case UInt64 => 5
    case Double => 6
    case String => 7
    case Binary => 8
  }

  /** A type's tag is its place in the wire protocol's tables. */
  lemma TagIsIndex(ty: PropertyType)
    ensures Ordinal(ty) as nat == WireProtocol.Index(ty)
  {
  }

  /** The description's address with the type in its four low bits. */
  function Pack(ty: bv64, info: bv64): bv64 {
    info | ty
  }

  function TypeOf(packed: bv64): bv64 {
    packed & 0x0F
  }

  function InfoOf(packed: bv64): bv64 {
    packed & 0xFFFF_FFFF_FFFF_FFF0
  }

  lemma InfoSurvivesExactlyWhenAligned(ty: bv64, info: bv64)
    requires ty <= 0x0F
    ensures InfoOf(Pack(ty, info)) == info <==> info & 0x0F == 0
  {
    assert (info | ty) & 0xFFFF_FFFF_FFFF_FFF0 == info & 0xFFFF_FFFF_FFFF_FFF0;
    assert info & 0xFFFF_FFFF_FFFF_FFF0 == info <==> info & 0x0F == 0;
  }

  lemma TypeSurvives(ty: bv64, info: bv64)
    requires ty <= 0x0F && info & 0x0F == 0
    ensures TypeOf(Pack(ty, info)) == ty
  {
  }

  /** Type and address are recovered, for every type that fits, exactly when the address is a multiple of 16. */
  lemma PackedPartsRecovered(ty: bv64, info: bv64)
    requires ty <= 0x0F
    ensures TypeOf(Pack(ty, info)) == ty && InfoOf(Pack(ty, info)) == info <==> info & 0x0F == 0
  {
    hide TypeOf, InfoOf, Pack;
    InfoSurvivesExactlyWhenAligned(ty, info);
    if info & 0x0F == 0 {
      TypeSurvives(ty, info);
    }
  }

  lemma OrdinalsFitAndDiffer(a: PropertyType, b: PropertyType)
    ensures Ordinal(a) <= 0x0F
    ensures Ordinal(a) == Ordinal(b) <==> a == b
  {
  }

  /** Packed words of aligned descriptions differ whenever type or description differ. */
  lemma PackedWordDeterminesParts(a: PropertyType, infoA: bv64, b: PropertyType, infoB: bv64)
    requires infoA & 0x0F == 0 && infoB & 0x0F == 0
    ensures Pack(Ordinal(a), infoA) == Pack(Ordinal(b), infoB) <==> a == b && infoA == infoB
  {
    OrdinalsFitAndDiffer(a, b);
    OrdinalsFitAndDiffer(b, a);
    PackedPartsRecovered(Ordinal(a), infoA);
    PackedPartsRecovered(Ordinal(b), infoB);
  }

  /** A value that is kept in the property itself; a double is its bit pattern. */
  datatype Small =
    | SEmpty
    | SBool(b: bv8)
    | SInt32(i32: bv32)
    | SUInt32(u32: bv32)
    | SInt64(i64: bv64)
    | SUInt64(u64: bv64)
    | SDouble(bits: bv64)
  {
    function Type(): PropertyType {
      match this
      case SEmpty => PropertyType.Empty
      case SBool(_) => PropertyType.Bool
      case SInt32(_) => PropertyType.Int32
      case SUInt32(_) => PropertyType.UInt32
      case SInt64(_) => PropertyType.Int64
      case SUInt64(_) => PropertyType.UInt64
      case SDouble(_) => PropertyType.Double
    }
  }

  /** The storage word starts as zero and the value overwrites its low bytes. */
  function Stored(v: Small): bv64 {
    match v
    case SEmpty => 0
    case SBool(b) => b as bv64
    case SInt32(x) => x as bv64
    case SUInt32(x) => x as bv64
    case SInt64(x) => x
    case SUInt64(x) => x
    case SDouble(x) => x
  }

  /** The program's equality: the types in the packed words, then the whole storage words. */
  predicate WordsEqual(packedA: bv64, wordA: bv64, packedB: bv64, wordB: bv64) {
    TypeOf(packedA) == TypeOf(packedB) && wordA == wordB
  }

  /** Comparing whole words is comparing type and value, whatever the two descriptions are. */
  lemma WordEqualityIsValueEquality(v: Small, infoA: bv64, w: Small, infoB: bv64)
    requires infoA & 0x0F == 0 && infoB & 0x0F == 0
    ensures WordsEqual(Pack(Ordinal(v.Type()), infoA), Stored(v), Pack(Ordinal(w.Type()), infoB), Stored(w)) <==> v == w
  {
    OrdinalsFitAndDiffer(v.Type(), w.Type());
    OrdinalsFitAndDiffer(w.Type(), v.Type());
    PackedPartsRecovered(Ordinal(v.Type()), infoA);
    PackedPartsRecovered(Ordinal(w.Type()), infoB);
  }
}
