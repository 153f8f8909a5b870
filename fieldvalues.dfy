/**
 * The enumerations of IHDR field values (section 4.1.1 of PNG 1.2) and of
 * the adaptive filter types (section 6 of PNG 1.2). Each enumeration has its
 * byte value and the table from byte values back to members, as the
 * source's enum classes do.
 */
module FieldValues {
  import opened Common

  datatype ColorType = Grayscale | Rgb | Indexed | GrayscaleAlpha | RgbAlpha
  {
    function Value(): byte
    {
      match this
      case Grayscale => 0
      case Rgb => 2
      case Indexed => 3
      case GrayscaleAlpha => 4
      case RgbAlpha => 6
    }
  }

  datatype CompressionMethod = Deflate32k
  {
    function Value(): byte { 0 }
  }

  datatype FilterMethod = AdaptiveFiveBasic
  {
    function Value(): byte { 0 }
  }

  datatype InterlaceMethod = NoInterlace | Adam7
  {
    function Value(): byte
    {
      match this
      case NoInterlace => 0
      case Adam7 => 1
    }
  }

  datatype AdaptiveFilterType = FilterNone | Sub | Up | Average | Paeth
  {
    function Value(): byte
    {
      match this
      case FilterNone => 0
      case Sub => 1
      case Up => 2
      case Average => 3
      case Paeth => 4
    }
  }

  /** Member lookup by value, the `Enum(value)` call of the source. */
  const COLOR_TYPES: map<byte, ColorType> :=
    map[0 := Grayscale, 2 := Rgb, 3 := Indexed, 4 := GrayscaleAlpha, 6 := RgbAlpha]
  const COMPRESSION_METHODS: map<byte, CompressionMethod> := map[0 := Deflate32k]
  const FILTER_METHODS: map<byte, FilterMethod> := map[0 := AdaptiveFiveBasic]
  const INTERLACE_METHODS: map<byte, InterlaceMethod> := map[0 := NoInterlace, 1 := Adam7]
  const ADAPTIVE_FILTER_TYPES: map<byte, AdaptiveFilterType> :=
    map[0 := FilterNone, 1 := Sub, 2 := Up, 3 := Average, 4 := Paeth]

  /** Each lookup table is exactly the inverse of its enumeration's values. */
  lemma MemberTablesInvertValues()
    ensures forall c: ColorType :: c.Value() in COLOR_TYPES && COLOR_TYPES[c.Value()] == c
    ensures forall v :: v in COLOR_TYPES ==> COLOR_TYPES[v].Value() == v
    ensures COLOR_TYPES.Keys == {0, 2, 3, 4, 6}
    ensures forall m: InterlaceMethod :: m.Value() in INTERLACE_METHODS && INTERLACE_METHODS[m.Value()] == m
    ensures forall v :: v in INTERLACE_METHODS ==> INTERLACE_METHODS[v].Value() == v
    ensures forall f: AdaptiveFilterType :: f.Value() in ADAPTIVE_FILTER_TYPES && ADAPTIVE_FILTER_TYPES[f.Value()] == f
    ensures forall v :: v in ADAPTIVE_FILTER_TYPES ==> ADAPTIVE_FILTER_TYPES[v].Value() == v
    ensures ADAPTIVE_FILTER_TYPES.Keys == {0, 1, 2, 3, 4}
    ensures COMPRESSION_METHODS.Keys == FILTER_METHODS.Keys == {0}
  {
  }

  /** Bit depths permitted for each colour type (table in section 4.1.1 of
      PNG 1.2). */
  function AllowedBitDepths(c: ColorType): (depths: set<nat>)
    ensures depths <= {1, 2, 4, 8, 16}
    ensures 8 in depths
  {
    match c
    case Grayscale => {1, 2, 4, 8, 16}
    case Rgb => {8, 16}
    case Indexed => {1, 2, 4, 8}
    case GrayscaleAlpha => {8, 16}
    case RgbAlpha => {8, 16}
  }

  /** IHDRColorType.allows_bit_depth of models.py. */
  predicate AllowsBitDepth(c: ColorType, depth: nat)
  {
    depth in AllowedBitDepths(c)
  }

  /** Depths below 8 (sub-byte samples) occur only with a single sample per
      pixel, and a palette index never needs more than 256 entries. */
  lemma AllowedDepthsShape(c: ColorType, depth: nat)
    requires AllowsBitDepth(c, depth)
    ensures depth < 8 ==> c == Grayscale || c == Indexed
    ensures c == Indexed ==> depth <= 8
    ensures c != Grayscale && c != Indexed ==> depth == 8 || depth == 16
  {
  }

  /** A Python object the source's membership tests compare: an int, or a
      member of a plain enumeration (which equals only itself). */
  datatype PyObject = PyInt(i: int) | PyEnumMember(enumeration: string, value: int)

  /** `Enum.__members__.values()`: the members themselves, not their values. */
  function MemberObjects<T>(enumeration: string, table: map<byte, T>): (members: set<PyObject>)
    ensures forall m :: m in members ==> m.PyEnumMember?
  {
    set v | v in table :: PyEnumMember(enumeration, v as int)
  }

  /** `value in Enum.__members__.values()` for a byte `value`, as the source
      writes it: the test asks whether the int is one of the members. */
  predicate IsMemberAsWritten<T>(value: byte, enumeration: string, table: map<byte, T>)
  {
    PyInt(value as int) in MemberObjects(enumeration, table)
  }

  /** The membership test as written holds for no byte, valid value or not:
      an int is never an enumeration member. */
  lemma MemberTestNeverHolds<T>(value: byte, enumeration: string, table: map<byte, T>)
    ensures !IsMemberAsWritten(value, enumeration, table)
    ensures value in table ==> PyEnumMember(enumeration, value as int) in MemberObjects(enumeration, table)
  {
  }
}
