/**
 * The CRC-32 of section 3.4 of PNG 1.2 (the ISO 3309 / ITU-T V.42
 * polynomial, bit-reflected as 0xEDB88320), in the running form the
 * framer uses: a value that is extended one data slice at a time, the way
 * zlib's crc32(data, value) is called.
 */
module Crc32 {
  import opened Common

  const POLYNOMIAL: bv32 := 0xEDB8_8320

  /** One round of the bitwise shift register: shift right, and fold the
      polynomial in when a one bit drops out. */
  function Round(x: bv32): bv32
  {
    if x & 1 == 1 then (x >> 1) ^ POLYNOMIAL else x >> 1
  }

  /** k rounds of the shift register. (The register is part of the measure
      only so that the rounds are unrolled for a known register and not for
      an unknown one.) */
  function Shift(x: bv32, k: nat): bv32
    decreases k, x
  {
    if k == 0 then x else Shift(Round(x), k - 1)
  }

  /** The register after feeding one more byte. */
  function UpdateByte(register: bv32, b: byte): bv32
  {
    Shift(register ^ (b as bv32), 8)
  }

  /** The register after feeding the bytes of `data` in order. */
  function Register(register: bv32, data: seq<byte>): bv32
    decreases |data|
  {
    if |data| == 0 then register else Register(UpdateByte(register, data[0]), data[1..])
  }

  /** CRC-32 of `data`, continuing from the CRC `value` of the bytes before
      it (0 for none): the register is preset to all ones and the result is
      complemented, so a running value can be extended. */
  function Crc(data: seq<byte>, value: bv32): bv32
  {
    !Register(!value, data)
  }

  lemma {:induction false} RegisterAppend(register: bv32, a: seq<byte>, b: seq<byte>)
    ensures Register(register, a + b) == Register(Register(register, a), b)
    decreases |a|
  {
    if |a| > 0 {
      assert (a + b)[0] == a[0] && (a + b)[1..] == a[1..] + b;
      RegisterAppend(UpdateByte(register, a[0]), a[1..], b);
    } else {
      assert a + b == b;
    }
  }

  /** The running value hands its register on unchanged: complementing the
      CRC of `a` gives back the register after `a`. */
  lemma ResumeRegister(a: seq<byte>, b: seq<byte>, value: bv32)
    ensures Crc(b, Crc(a, value)) == !Register(Register(!value, a), b)
  {
    var r := Register(!value, a);
    assert !Crc(a, value) == r;
  }

  /** Extending a running CRC by `b` gives the CRC of the concatenation:
      the framer may fold the data of a chunk slice by slice. */
  lemma {:induction false} CrcAppend(a: seq<byte>, b: seq<byte>, value: bv32)
    ensures Crc(b, Crc(a, value)) == Crc(a + b, value)
  {
    ResumeRegister(a, b, value);
    RegisterAppend(!value, a, b);
  }

  /** The register states while "123456789" is fed in, byte by byte. */
  lemma CheckValueFirstBytes()
    ensures UpdateByte(0xFFFF_FFFF, 0x31) == 0x7c23_1048
    ensures UpdateByte(0x7c23_1048, 0x32) == 0xb0ac_bb32
    ensures UpdateByte(0xb0ac_bb32, 0x33) == 0x77b7_9c2d
  {
    assert Shift(0xFFFF_FFCE, 8) == 0x7c23_1048;
    assert Shift(0x7c23_107a, 8) == 0xb0ac_bb32;
    assert Shift(0xb0ac_bb01, 8) == 0x77b7_9c2d;
  }

  lemma CheckValueMiddleBytes()
    ensures UpdateByte(0x77b7_9c2d, 0x34) == 0x641c_1f5c
    ensures UpdateByte(0x641c_1f5c, 0x35) == 0x340a_c5e3
    ensures UpdateByte(0x340a_c5e3, 0x36) == 0xf68d_2c9e
  {
    assert Shift(0x77b7_9c19, 8) == 0x641c_1f5c;
    assert Shift(0x641c_1f69, 8) == 0x340a_c5e3;
    assert Shift(0x340a_c5d5, 8) == 0xf68d_2c9e;
  }

  lemma CheckValueLastBytes()
    ensures UpdateByte(0xf68d_2c9e, 0x37) == 0xaffc_9660
    ensures UpdateByte(0xaffc_9660, 0x38) == 0x651f_2550
    ensures UpdateByte(0x651f_2550, 0x39) == 0x340b_c6d9
  {
    assert Shift(0xf68d_2ca9, 8) == 0xaffc_9660;
    assert Shift(0xaffc_9658, 8) == 0x651f_2550;
    assert Shift(0x651f_2569, 8) == 0x340b_c6d9;
  }

  /** Check value of CRC-32 over the nine ASCII digits "123456789". */
  lemma CheckValue()
    ensures Crc([0x31, 0x32, 0x33, 0x34, 0x35, 0x36, 0x37, 0x38, 0x39], 0) == 0xCBF4_3926
  {
    CheckValueFirstBytes();
    CheckValueMiddleBytes();
    CheckValueLastBytes();
  }

  /** The running form reaches the same check value when the digits arrive
      in two slices, "1234" and then "56789". */
  lemma RunningCheckValue()
    ensures Crc([0x35, 0x36, 0x37, 0x38, 0x39], Crc([0x31, 0x32, 0x33, 0x34], 0)) == 0xCBF4_3926
  {
    CheckValueFirstBytes();
    CheckValueMiddleBytes();
    CheckValueLastBytes();
  }
}
