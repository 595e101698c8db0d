/** The substitution tables of the AES model (aes.py), and what they are: inverse to each other, and the
    affine image of the inverse in GF(2^8) (section 5.1.1 of FIPS 197). */
module AesTables {
  import opened AesField

  function SboxRow0(low: bv8): bv8 {
    if low == 0 then 0x63 else if low == 1 then 0x7c else if low == 2 then 0x77 else if low == 3 then 0x7b else
    if low == 4 then 0xf2 else if low == 5 then 0x6b else if low == 6 then 0x6f else if low == 7 then 0xc5 else
    if low == 8 then 0x30 else if low == 9 then 0x01 else if low == 10 then 0x67 else if low == 11 then 0x2b else
    if low == 12 then 0xfe else if low == 13 then 0xd7 else if low == 14 then 0xab else 0x76
  }

  function SboxRow1(low: bv8): bv8 {
    if low == 0 then 0xca else if low == 1 then 0x82 else if low == 2 then 0xc9 else if low == 3 then 0x7d else
    if low == 4 then 0xfa else if low == 5 then 0x59 else if low == 6 then 0x47 else if low == 7 then 0xf0 else
    if low == 8 then 0xad else if low == 9 then 0xd4 else if low == 10 then 0xa2 else if low == 11 then 0xaf else
    if low == 12 then 0x9c else if low == 13 then 0xa4 else if low == 14 then 0x72 else 0xc0
  }

  function SboxRow2(low: bv8): bv8 {
    if low == 0 then 0xb7 else if low == 1 then 0xfd else if low == 2 then 0x93 else if low == 3 then 0x26 else
    if low == 4 then 0x36 else if low == 5 then 0x3f else if low == 6 then 0xf7 else if low == 7 then 0xcc else
    if low == 8 then 0x34 else if low == 9 then 0xa5 else if low == 10 then 0xe5 else if low == 11 then 0xf1 else
    if low == 12 then 0x71 else if low == 13 then 0xd8 else if low == 14 then 0x31 else 0x15
  }

  function SboxRow3(low: bv8): bv8 {
    if low == 0 then 0x04 else if low == 1 then 0xc7 else if low == 2 then 0x23 else if low == 3 then 0xc3 else
    if low == 4 then 0x18 else if low == 5 then 0x96 else if low == 6 then 0x05 else if low == 7 then 0x9a else
    if low == 8 then 0x07 else if low == 9 then 0x12 else if low == 10 then 0x80 else if low == 11 then 0xe2 else
    if low == 12 then 0xeb else if low == 13 then 0x27 else if low == 14 then 0xb2 else 0x75
  }

  function SboxRow4(low: bv8): bv8 {
    if low == 0 then 0x09 else if low == 1 then 0x83 else if low == 2 then 0x2c else if low == 3 then 0x1a else
    if low == 4 then 0x1b else if low == 5 then 0x6e else if low == 6 then 0x5a else if low == 7 then 0xa0 else
    if low == 8 then 0x52 else if low == 9 then 0x3b else if low == 10 then 0xd6 else if low == 11 then 0xb3 else
    if low == 12 then 0x29 else if low == 13 then 0xe3 else if low == 14 then 0x2f else 0x84
  }

  function SboxRow5(low: bv8): bv8 {
    if low == 0 then 0x53 else if low == 1 then 0xd1 else if low == 2 then 0x00 else if low == 3 then 0xed else
    if low == 4 then 0x20 else if low == 5 then 0xfc else if low == 6 then 0xb1 else if low == 7 then 0x5b else
    if low == 8 then 0x6a else if low == 9 then 0xcb else if low == 10 then 0xbe else if low == 11 then 0x39 else
    if low == 12 then 0x4a else if low == 13 then 0x4c else if low == 14 then 0x58 else 0xcf
  }

  function SboxRow6(low: bv8): bv8 {
    if low == 0 then 0xd0 else if low == 1 then 0xef else if low == 2 then 0xaa else if low == 3 then 0xfb else
    if low == 4 then 0x43 else if low == 5 then 0x4d else if low == 6 then 0x33 else if low == 7 then 0x85 else
    if low == 8 then 0x45 else if low == 9 then 0xf9 else if low == 10 then 0x02 else if low == 11 then 0x7f else
    if low == 12 then 0x50 else if low == 13 then 0x3c else if low == 14 then 0x9f else 0xa8
  }

  function SboxRow7(low: bv8): bv8 {
    if low == 0 then 0x51 else if low == 1 then 0xa3 else if low == 2 then 0x40 else if low == 3 then 0x8f else
    if low == 4 then 0x92 else if low == 5 then 0x9d else if low == 6 then 0x38 else if low == 7 then 0xf5 else
    if low == 8 then 0xbc else if low == 9 then 0xb6 else if low == 10 then 0xda else if low == 11 then 0x21 else
    if low == 12 then 0x10 else if low == 13 then 0xff else if low == 14 then 0xf3 else 0xd2
  }

  function SboxRow8(low: bv8): bv8 {
    if low == 0 then 0xcd else if low == 1 then 0x0c else if low == 2 then 0x13 else if low == 3 then 0xec else
    if low == 4 then 0x5f else if low == 5 then 0x97 else if low == 6 then 0x44 else if low == 7 then 0x17 else
    if low == 8 then 0xc4 else if low == 9 then 0xa7 else if low == 10 then 0x7e else if low == 11 then 0x3d else
    if low == 12 then 0x64 else if low == 13 then 0x5d else if low == 14 then 0x19 else 0x73
  }

  function SboxRow9(low: bv8): bv8 {
    if low == 0 then 0x60 else if low == 1 then 0x81 else if low == 2 then 0x4f else if low == 3 then 0xdc else
    if low == 4 then 0x22 else if low == 5 then 0x2a else if low == 6 then 0x90 else if low == 7 then 0x88 else
    if low == 8 then 0x46 else if low == 9 then 0xee else if low == 10 then 0xb8 else if low == 11 then 0x14 else
    if low == 12 then 0xde else if low == 13 then 0x5e else if low == 14 then 0x0b else 0xdb
  }

  function SboxRowA(low: bv8): bv8 {
    if low == 0 then 0xe0 else if low == 1 then 0x32 else if low == 2 then 0x3a else if low == 3 then 0x0a else
    if low == 4 then 0x49 else if low == 5 then 0x06 else if low == 6 then 0x24 else if low == 7 then 0x5c else
    if low == 8 then 0xc2 else if low == 9 then 0xd3 else if low == 10 then 0xac else if low == 11 then 0x62 else
    if low == 12 then 0x91 else if low == 13 then 0x95 else if low == 14 then 0xe4 else 0x79
  }

  function SboxRowB(low: bv8): bv8 {
    if low == 0 then 0xe7 else if low == 1 then 0xc8 else if low == 2 then 0x37 else if low == 3 then 0x6d else
    if low == 4 then 0x8d else if low == 5 then 0xd5 else if low == 6 then 0x4e else if low == 7 then 0xa9 else
    if low == 8 then 0x6c else if low == 9 then 0x56 else if low == 10 then 0xf4 else if low == 11 then 0xea else
    if low == 12 then 0x65 else if low == 13 then 0x7a else if low == 14 then 0xae else 0x08
  }

  function SboxRowC(low: bv8): bv8 {
    if low == 0 then 0xba else if low == 1 then 0x78 else if low == 2 then 0x25 else if low == 3 then 0x2e else
    if low == 4 then 0x1c else if low == 5 then 0xa6 else if low == 6 then 0xb4 else if low == 7 then 0xc6 else
    if low == 8 then 0xe8 else if low == 9 then 0xdd else if low == 10 then 0x74 else if low == 11 then 0x1f else
    if low == 12 then 0x4b else if low == 13 then 0xbd else if low == 14 then 0x8b else 0x8a
  }

  function SboxRowD(low: bv8): bv8 {
    if low == 0 then 0x70 else if low == 1 then 0x3e else if low == 2 then 0xb5 else if low == 3 then 0x66 else
    if low == 4 then 0x48 else if low == 5 then 0x03 else if low == 6 then 0xf6 else if low == 7 then 0x0e else
    if low == 8 then 0x61 else if low == 9 then 0x35 else if low == 10 then 0x57 else if low == 11 then 0xb9 else
    if low == 12 then 0x86 else if low == 13 then 0xc1 else if low == 14 then 0x1d else 0x9e
  }

  function SboxRowE(low: bv8): bv8 {
    if low == 0 then 0xe1 else if low == 1 then 0xf8 else if low == 2 then 0x98 else if low == 3 then 0x11 else
    if low == 4 then 0x69 else if low == 5 then 0xd9 else if low == 6 then 0x8e else if low == 7 then 0x94 else
    if low == 8 then 0x9b else if low == 9 then 0x1e else if low == 10 then 0x87 else if low == 11 then 0xe9 else
    if low == 12 then 0xce else if low == 13 then 0x55 else if low == 14 then 0x28 else 0xdf
  }

  function SboxRowF(low: bv8): bv8 {
    if low == 0 then 0x8c else if low == 1 then 0xa1 else if low == 2 then 0x89 else if low == 3 then 0x0d else
    if low == 4 then 0xbf else if low == 5 then 0xe6 else if low == 6 then 0x42 else if low == 7 then 0x68 else
    if low == 8 then 0x41 else if low == 9 then 0x99 else if low == 10 then 0x2d else if low == 11 then 0x0f else
    if low == 12 then 0xb0 else if low == 13 then 0x54 else if low == 14 then 0xbb else 0x16
  }

  /** The forward table, by high and low digit. */
  function Sbox(b: bv8): bv8 {
    var high, low := b >> 4, b & 0xf;
    if high == 0 then SboxRow0(low) else if high == 1 then SboxRow1(low) else if high == 2 then SboxRow2(low) else
    if high == 3 then SboxRow3(low) else if high == 4 then SboxRow4(low) else if high == 5 then SboxRow5(low) else
    if high == 6 then SboxRow6(low) else if high == 7 then SboxRow7(low) else if high == 8 then SboxRow8(low) else
    if high == 9 then SboxRow9(low) else if high == 10 then SboxRowA(low) else if high == 11 then SboxRowB(low) else
    if high == 12 then SboxRowC(low) else if high == 13 then SboxRowD(low) else if high == 14 then SboxRowE(low) else SboxRowF(low)
  }

  function InvSboxRow0(low: bv8): bv8 {
    if low == 0 then 0x52 else if low == 1 then 0x09 else if low == 2 then 0x6a else if low == 3 then 0xd5 else
    if low == 4 then 0x30 else if low == 5 then 0x36 else if low == 6 then 0xa5 else if low == 7 then 0x38 else
    if low == 8 then 0xbf else if low == 9 then 0x40 else if low == 10 then 0xa3 else if low == 11 then 0x9e else
    if low == 12 then 0x81 else if low == 13 then 0xf3 else if low == 14 then 0xd7 else 0xfb
  }

  function InvSboxRow1(low: bv8): bv8 {
    if low == 0 then 0x7c else if low == 1 then 0xe3 else if low == 2 then 0x39 else if low == 3 then 0x82 else
    if low == 4 then 0x9b else if low == 5 then 0x2f else if low == 6 then 0xff else if low == 7 then 0x87 else
    if low == 8 then 0x34 else if low == 9 then 0x8e else if low == 10 then 0x43 else if low == 11 then 0x44 else
    if low == 12 then 0xc4 else if low == 13 then 0xde else if low == 14 then 0xe9 else 0xcb
  }

  function InvSboxRow2(low: bv8): bv8 {
    if low == 0 then 0x54 else if low == 1 then 0x7b else if low == 2 then 0x94 else if low == 3 then 0x32 else
    if low == 4 then 0xa6 else if low == 5 then 0xc2 else if low == 6 then 0x23 else if low == 7 then 0x3d else
    if low == 8 then 0xee else if low == 9 then 0x4c else if low == 10 then 0x95 else if low == 11 then 0x0b else
    if low == 12 then 0x42 else if low == 13 then 0xfa else if low == 14 then 0xc3 else 0x4e
  }

  function InvSboxRow3(low: bv8): bv8 {
    if low == 0 then 0x08 else if low == 1 then 0x2e else if low == 2 then 0xa1 else if low == 3 then 0x66 else
    if low == 4 then 0x28 else if low == 5 then 0xd9 else if low == 6 then 0x24 else if low == 7 then 0xb2 else
    if low == 8 then 0x76 else if low == 9 then 0x5b else if low == 10 then 0xa2 else if low == 11 then 0x49 else
    if low == 12 then 0x6d else if low == 13 then 0x8b else if low == 14 then 0xd1 else 0x25
  }

  function InvSboxRow4(low: bv8): bv8 {
    if low == 0 then 0x72 else if low == 1 then 0xf8 else if low == 2 then 0xf6 else if low == 3 then 0x64 else
    if low == 4 then 0x86 else if low == 5 then 0x68 else if low == 6 then 0x98 else if low == 7 then 0x16 else
    if low == 8 then 0xd4 else if low == 9 then 0xa4 else if low == 10 then 0x5c else if low == 11 then 0xcc else
    if low == 12 then 0x5d else if low == 13 then 0x65 else if low == 14 then 0xb6 else 0x92
  }

  function InvSboxRow5(low: bv8): bv8 {
    if low == 0 then 0x6c else if low == 1 then 0x70 else if low == 2 then 0x48 else if low == 3 then 0x50 else
    if low == 4 then 0xfd else if low == 5 then 0xed else if low == 6 then 0xb9 else if low == 7 then 0xda else
    if low == 8 then 0x5e else if low == 9 then 0x15 else if low == 10 then 0x46 else if low == 11 then 0x57 else
    if low == 12 then 0xa7 else if low == 13 then 0x8d else if low == 14 then 0x9d else 0x84
  }

  function InvSboxRow6(low: bv8): bv8 {
    if low == 0 then 0x90 else if low == 1 then 0xd8 else if low == 2 then 0xab else if low == 3 then 0x00 else
    if low == 4 then 0x8c else if low == 5 then 0xbc else if low == 6 then 0xd3 else if low == 7 then 0x0a else
    if low == 8 then 0xf7 else if low == 9 then 0xe4 else if low == 10 then 0x58 else if low == 11 then 0x05 else
    if low == 12 then 0xb8 else if low == 13 then 0xb3 else if low == 14 then 0x45 else 0x06
  }

  function InvSboxRow7(low: bv8): bv8 {
    if low == 0 then 0xd0 else if low == 1 then 0x2c else if low == 2 then 0x1e else if low == 3 then 0x8f else
    if low == 4 then 0xca else if low == 5 then 0x3f else if low == 6 then 0x0f else if low == 7 then 0x02 else
    if low == 8 then 0xc1 else if low == 9 then 0xaf else if low == 10 then 0xbd else if low == 11 then 0x03 else
    if low == 12 then 0x01 else if low == 13 then 0x13 else if low == 14 then 0x8a else 0x6b
  }

  function InvSboxRow8(low: bv8): bv8 {
    if low == 0 then 0x3a else if low == 1 then 0x91 else if low == 2 then 0x11 else if low == 3 then 0x41 else
    if low == 4 then 0x4f else if low == 5 then 0x67 else if low == 6 then 0xdc else if low == 7 then 0xea else
    if low == 8 then 0x97 else if low == 9 then 0xf2 else if low == 10 then 0xcf else if low == 11 then 0xce else
    if low == 12 then 0xf0 else if low == 13 then 0xb4 else if low == 14 then 0xe6 else 0x73
  }

  function InvSboxRow9(low: bv8): bv8 {
    if low == 0 then 0x96 else if low == 1 then 0xac else if low == 2 then 0x74 else if low == 3 then 0x22 else
    if low == 4 then 0xe7 else if low == 5 then 0xad else if low == 6 then 0x35 else if low == 7 then 0x85 else
    if low == 8 then 0xe2 else if low == 9 then 0xf9 else if low == 10 then 0x37 else if low == 11 then 0xe8 else
    if low == 12 then 0x1c else if low == 13 then 0x75 else if low == 14 then 0xdf else 0x6e
  }

  function InvSboxRowA(low: bv8): bv8 {
    if low == 0 then 0x47 else if low == 1 then 0xf1 else if low == 2 then 0x1a else if low == 3 then 0x71 else
    if low == 4 then 0x1d else if low == 5 then 0x29 else if low == 6 then 0xc5 else if low == 7 then 0x89 else
    if low == 8 then 0x6f else if low == 9 then 0xb7 else if low == 10 then 0x62 else if low == 11 then 0x0e else
    if low == 12 then 0xaa else if low == 13 then 0x18 else if low == 14 then 0xbe else 0x1b
  }

  function InvSboxRowB(low: bv8): bv8 {
    if low == 0 then 0xfc else if low == 1 then 0x56 else if low == 2 then 0x3e else if low == 3 then 0x4b else
    if low == 4 then 0xc6 else if low == 5 then 0xd2 else if low == 6 then 0x79 else if low == 7 then 0x20 else
    if low == 8 then 0x9a else if low == 9 then 0xdb else if low == 10 then 0xc0 else if low == 11 then 0xfe else
    if low == 12 then 0x78 else if low == 13 then 0xcd else if low == 14 then 0x5a else 0xf4
  }

  function InvSboxRowC(low: bv8): bv8 {
    if low == 0 then 0x1f else if low == 1 then 0xdd else if low == 2 then 0xa8 else if low == 3 then 0x33 else
    if low == 4 then 0x88 else if low == 5 then 0x07 else if low == 6 then 0xc7 else if low == 7 then 0x31 else
    if low == 8 then 0xb1 else if low == 9 then 0x12 else if low == 10 then 0x10 else if low == 11 then 0x59 else
    if low == 12 then 0x27 else if low == 13 then 0x80 else if low == 14 then 0xec else 0x5f
  }

  function InvSboxRowD(low: bv8): bv8 {
    if low == 0 then 0x60 else if low == 1 then 0x51 else if low == 2 then 0x7f else if low == 3 then 0xa9 else
    if low == 4 then 0x19 else if low == 5 then 0xb5 else if low == 6 then 0x4a else if low == 7 then 0x0d else
    if low == 8 then 0x2d else if low == 9 then 0xe5 else if low == 10 then 0x7a else if low == 11 then 0x9f else
    if low == 12 then 0x93 else if low == 13 then 0xc9 else if low == 14 then 0x9c else 0xef
  }

  function InvSboxRowE(low: bv8): bv8 {
    if low == 0 then 0xa0 else if low == 1 then 0xe0 else if low == 2 then 0x3b else if low == 3 then 0x4d else
    if low == 4 then 0xae else if low == 5 then 0x2a else if low == 6 then 0xf5 else if low == 7 then 0xb0 else
    if low == 8 then 0xc8 else if low == 9 then 0xeb else if low == 10 then 0xbb else if low == 11 then 0x3c else
    if low == 12 then 0x83 else if low == 13 then 0x53 else if low == 14 then 0x99 else 0x61
  }

  function InvSboxRowF(low: bv8): bv8 {
    if low == 0 then 0x17 else if low == 1 then 0x2b else if low == 2 then 0x04 else if low == 3 then 0x7e else
    if low == 4 then 0xba else if low == 5 then 0x77 else if low == 6 then 0xd6 else if low == 7 then 0x26 else
    if low == 8 then 0xe1 else if low == 9 then 0x69 else if low == 10 then 0x14 else if low == 11 then 0x63 else
    if low == 12 then 0x55 else if low == 13 then 0x21 else if low == 14 then 0x0c else 0x7d
  }

  /** The inverse table. */
  function InvSbox(b: bv8): bv8 {
    var high, low := b >> 4, b & 0xf;
    if high == 0 then InvSboxRow0(low) else if high == 1 then InvSboxRow1(low) else if high == 2 then InvSboxRow2(low) else
    if high == 3 then InvSboxRow3(low) else if high == 4 then InvSboxRow4(low) else if high == 5 then InvSboxRow5(low) else
    if high == 6 then InvSboxRow6(low) else if high == 7 then InvSboxRow7(low) else if high == 8 then InvSboxRow8(low) else
    if high == 9 then InvSboxRow9(low) else if high == 10 then InvSboxRowA(low) else if high == 11 then InvSboxRowB(low) else
    if high == 12 then InvSboxRowC(low) else if high == 13 then InvSboxRowD(low) else if high == 14 then InvSboxRowE(low) else InvSboxRowF(low)
  }

  lemma InverseOfSbox(b: bv8)
    ensures InvSbox(Sbox(b)) == b
  {
  }

  lemma SboxOfInverse(b: bv8)
    ensures Sbox(InvSbox(b)) == b
  {
  }

  function Rotl(b: bv8, n: bv8): bv8
    requires n <= 8
  {
    (b << n) | (b >> (8 - n))
  }

  /** The affine map of the S-box: bit i plus bits i + 4 to i + 7, plus 0x63. */
  function Affine(c: bv8): bv8 {
    c ^ Rotl(c, 1) ^ Rotl(c, 2) ^ Rotl(c, 3) ^ Rotl(c, 4) ^ 0x63
  }

  /** The multiplicative inverse in GF(2^8), with zero for zero. */
  predicate IsInverse(b: bv8, c: bv8) {
    if b == 0 then c == 0 else Times8(b, c) == 1
  }

  function AffineInverse(x: bv8): bv8 {
    Rotl(x, 1) ^ Rotl(x, 3) ^ Rotl(x, 6) ^ 0x05
  }

  lemma AffineInverts(x: bv8)
    ensures Affine(AffineInverse(x)) == x
  {
  }

  lemma Powers(b: bv8)
    ensures XPower(b, 1) == XTimes(b) && XPower(b, 2) == XTimes(XTimes(b)) && XPower(b, 3) == XTimes(XTimes(XTimes(b)))
    ensures XPower(b, 4) == XTimes(XTimes(XTimes(XTimes(b))))
    ensures XPower(b, 5) == XTimes(XTimes(XTimes(XTimes(XTimes(b)))))
    ensures XPower(b, 6) == XTimes(XTimes(XTimes(XTimes(XTimes(XTimes(b))))))
    ensures XPower(b, 7) == XTimes(XTimes(XTimes(XTimes(XTimes(XTimes(XTimes(b)))))))
  {
    assert XPower(b, 1) == XTimes(XPower(b, 0)) && XPower(b, 2) == XTimes(XPower(b, 1)) && XPower(b, 3) == XTimes(XPower(b, 2));
    assert XPower(b, 4) == XTimes(XPower(b, 3)) && XPower(b, 5) == XTimes(XPower(b, 4)) && XPower(b, 6) == XTimes(XPower(b, 5));
    assert XPower(b, 7) == XTimes(XPower(b, 6));
  }

  lemma InverseLow(b: bv8)
    requires b >> 4 == 0
    ensures IsInverse(b, AffineInverse(Sbox(b)))
  {
    Powers(b);
  }

  lemma InverseHigh(b: bv8)
    requires b >> 4 == 1
    ensures IsInverse(b, AffineInverse(Sbox(b)))
  {
    Powers(b);
  }

  lemma Inverse0(b: bv8)
    requires b >> 5 == 0
    ensures IsInverse(b, AffineInverse(Sbox(b)))
  {
    if b >> 4 == 0 {
      InverseLow(b);
    } else {
      InverseHigh(b);
    }
  }

  lemma Inverse1(b: bv8)
    requires b >> 5 == 1
    ensures IsInverse(b, AffineInverse(Sbox(b)))
  {
    Powers(b);
  }

  lemma Inverse2(b: bv8)
    requires b >> 5 == 2
    ensures IsInverse(b, AffineInverse(Sbox(b)))
  {
    Powers(b);
  }

  lemma Inverse3(b: bv8)
    requires b >> 5 == 3
    ensures IsInverse(b, AffineInverse(Sbox(b)))
  {
    Powers(b);
  }

  lemma Inverse4(b: bv8)
    requires b >> 5 == 4
    ensures IsInverse(b, AffineInverse(Sbox(b)))
  {
    Powers(b);
  }

  lemma Inverse5(b: bv8)
    requires b >> 5 == 5
    ensures IsInverse(b, AffineInverse(Sbox(b)))
  {
    Powers(b);
  }

  lemma Inverse6(b: bv8)
    requires b >> 5 == 6
    ensures IsInverse(b, AffineInverse(Sbox(b)))
  {
    Powers(b);
  }

  lemma Inverse7(b: bv8)
    requires b >> 5 == 7
    ensures IsInverse(b, AffineInverse(Sbox(b)))
  {
    Powers(b);
  }

  /** The S-box is the affine image of the inverse. */
  lemma SboxIsAffineInverse(b: bv8)
    ensures exists c :: IsInverse(b, c) && Sbox(b) == Affine(c)
  {
    AffineInverts(Sbox(b));
    assert IsInverse(b, AffineInverse(Sbox(b))) by {
      var q := b >> 5;
      if q == 0 { Inverse0(b); } else if q == 1 { Inverse1(b); } else if q == 2 { Inverse2(b); }
      else if q == 3 { Inverse3(b); } else if q == 4 { Inverse4(b); } else if q == 5 { Inverse5(b); }
      else if q == 6 { Inverse6(b); } else { Inverse7(b); }
    }
  }
}
