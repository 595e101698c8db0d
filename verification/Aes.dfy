/** The AES model (aes.py, class AES, without its printing): key expansion for 4-word and 8-word keys,
    encryption and decryption of one block.

    Main theorems: `EncipherIsFips`, encryption is the cipher of section 5.1 of FIPS 197 with the round keys of
    section 5.2; and `DecipherUndoesEncipher` and `EncipherUndoesDecipher`, for every key and block. */
module Aes {
  import opened AesField
  import Fips = AesFips
  import S = AesState
  import opened AesTables
  import opened BlockCipher
  import opened KeySchedule
  import opened Options

  /** Four columns. */
  type Words = Block<bv32>

  type Table = bv8 -> bv8

  function XorW(a: bv32, b: bv32): bv32 {
    a ^ b
  }

  // ----- the steps of a round -----

  function Substw(sub: Table, w: bv32): bv32 {
    var (b0, b1, b2, b3) := W2b(w);
    B2w(sub(b0), sub(b1), sub(b2), sub(b3))
  }

  function SubBytes(sub: Table, b: Words): Words {
    Block(Substw(sub, b.w0), Substw(sub, b.w1), Substw(sub, b.w2), Substw(sub, b.w3))
  }

  function ShiftRows(b: Words): Words {
    var (c0, c1, c2, c3) := (W2b(b.w0), W2b(b.w1), W2b(b.w2), W2b(b.w3));
    Block(B2w(c0.0, c1.1, c2.2, c3.3), B2w(c1.0, c2.1, c3.2, c0.3),
          B2w(c2.0, c3.1, c0.2, c1.3), B2w(c3.0, c0.1, c1.2, c2.3))
  }

  function InvShiftRows(b: Words): Words {
    var (c0, c1, c2, c3) := (W2b(b.w0), W2b(b.w1), W2b(b.w2), W2b(b.w3));
    Block(B2w(c0.0, c3.1, c2.2, c1.3), B2w(c1.0, c0.1, c3.2, c2.3),
          B2w(c2.0, c1.1, c0.2, c3.3), B2w(c3.0, c2.1, c1.2, c0.3))
  }

  function MixColumns(b: Words): Words {
    Block(Mixw(b.w0), Mixw(b.w1), Mixw(b.w2), Mixw(b.w3))
  }

  function InvMixColumns(b: Words): Words {
    Block(InvMixw(b.w0), InvMixw(b.w1), InvMixw(b.w2), InvMixw(b.w3))
  }

  function AddRoundKey(k: Words, b: Words): Words {
    Block(XorW(b.w0, k.w0), XorW(b.w1, k.w1), XorW(b.w2, k.w2), XorW(b.w3, k.w3))
  }

  // ----- each step and its inverse -----

  ghost predicate Inverts(f: Table, g: Table) {
    forall b: bv8 :: g(f(b)) == b
  }

  lemma SubstwInverts(f: Table, g: Table, w: bv32)
    requires Inverts(f, g)
    ensures Substw(g, Substw(f, w)) == w
  {
    var (b0, b1, b2, b3) := W2b(w);
    BytesOfWord(f(b0), f(b1), f(b2), f(b3));
    WordOfBytes(w);
  }

  lemma SubBytesInverts(f: Table, g: Table, b: Words)
    requires Inverts(f, g)
    ensures SubBytes(g, SubBytes(f, b)) == b
  {
    SubstwInverts(f, g, b.w0);
    SubstwInverts(f, g, b.w1);
    SubstwInverts(f, g, b.w2);
    SubstwInverts(f, g, b.w3);
  }

  lemma WordsOfBytes(b: Words)
    ensures var (c0, c1, c2, c3) := (W2b(b.w0), W2b(b.w1), W2b(b.w2), W2b(b.w3));
            b == Block(B2w(c0.0, c0.1, c0.2, c0.3), B2w(c1.0, c1.1, c1.2, c1.3),
                       B2w(c2.0, c2.1, c2.2, c2.3), B2w(c3.0, c3.1, c3.2, c3.3))
  {
    WordOfBytes(b.w0);
    WordOfBytes(b.w1);
    WordOfBytes(b.w2);
    WordOfBytes(b.w3);
  }

  function Pick<T>(t: (T, T, T, T), k: nat): T
    requires k < 4
  {
    if k == 0 then t.0 else if k == 1 then t.1 else if k == 2 then t.2 else t.3
  }

  /** The state as four columns of four bytes, row 0 first. */
  type Columns = ((bv8, bv8, bv8, bv8), (bv8, bv8, bv8, bv8), (bv8, bv8, bv8, bv8), (bv8, bv8, bv8, bv8))

  function State(b: Words): Columns {
    (W2b(b.w0), W2b(b.w1), W2b(b.w2), W2b(b.w3))
  }

  lemma ShiftedBytes(b: Words)
    ensures var (c, s) := (State(b), State(ShiftRows(b)));
            && s.0 == (c.0.0, c.1.1, c.2.2, c.3.3) && s.1 == (c.1.0, c.2.1, c.3.2, c.0.3)
            && s.2 == (c.2.0, c.3.1, c.0.2, c.1.3) && s.3 == (c.3.0, c.0.1, c.1.2, c.2.3)
  {
    var c := State(b);
    BytesOfWord(c.0.0, c.1.1, c.2.2, c.3.3);
    BytesOfWord(c.1.0, c.2.1, c.3.2, c.0.3);
    BytesOfWord(c.2.0, c.3.1, c.0.2, c.1.3);
    BytesOfWord(c.3.0, c.0.1, c.1.2, c.2.3);
  }

  lemma Rotates<T>(c: ((T, T, T, T), (T, T, T, T), (T, T, T, T), (T, T, T, T)),
                   s: ((T, T, T, T), (T, T, T, T), (T, T, T, T), (T, T, T, T)), row: nat, col: nat)
    requires row < 4 && col < 4
    requires s.0 == (c.0.0, c.1.1, c.2.2, c.3.3) && s.1 == (c.1.0, c.2.1, c.3.2, c.0.3)
    requires s.2 == (c.2.0, c.3.1, c.0.2, c.1.3) && s.3 == (c.3.0, c.0.1, c.1.2, c.2.3)
    ensures Pick(Pick(s, col), row) == Pick(Pick(c, (col + row) % 4), row)
  {
  }

  /** Section 5.1.2: row r of the state moves r places to the left. */
  lemma ShiftRowsMoves(b: Words, row: nat, col: nat)
    requires row < 4 && col < 4
    ensures Pick(Pick(State(ShiftRows(b)), col), row) == Pick(Pick(State(b), (col + row) % 4), row)
  {
    ShiftedBytes(b);
    Rotates(State(b), State(ShiftRows(b)), row, col);
  }

  lemma ShiftRowsInverts(b: Words)
    ensures InvShiftRows(ShiftRows(b)) == b
  {
    var (c0, c1, c2, c3) := (W2b(b.w0), W2b(b.w1), W2b(b.w2), W2b(b.w3));
    BytesOfWord(c0.0, c1.1, c2.2, c3.3);
    BytesOfWord(c1.0, c2.1, c3.2, c0.3);
    BytesOfWord(c2.0, c3.1, c0.2, c1.3);
    BytesOfWord(c3.0, c0.1, c1.2, c2.3);
    WordsOfBytes(b);
  }

  lemma InvShiftRowsInverts(b: Words)
    ensures ShiftRows(InvShiftRows(b)) == b
  {
    var (c0, c1, c2, c3) := (W2b(b.w0), W2b(b.w1), W2b(b.w2), W2b(b.w3));
    BytesOfWord(c0.0, c3.1, c2.2, c1.3);
    BytesOfWord(c1.0, c0.1, c3.2, c2.3);
    BytesOfWord(c2.0, c1.1, c0.2, c3.3);
    BytesOfWord(c3.0, c2.1, c1.2, c0.3);
    WordsOfBytes(b);
  }

  lemma MixColumnsInverts(b: Words)
    ensures InvMixColumns(MixColumns(b)) == b && MixColumns(InvMixColumns(b)) == b
  {
    InvMixwUndoes(b.w0);
    InvMixwUndoes(b.w1);
    InvMixwUndoes(b.w2);
    InvMixwUndoes(b.w3);
    MixwUndoes(b.w0);
    MixwUndoes(b.w1);
    MixwUndoes(b.w2);
    MixwUndoes(b.w3);
  }

  lemma XorTwice(w: bv32, k: bv32)
    ensures XorW(XorW(w, k), k) == w
  {
  }

  lemma AddRoundKeyInverts(k: Words, b: Words)
    ensures AddRoundKey(k, AddRoundKey(k, b)) == b
  {
    XorTwice(b.w0, k.w0);
    XorTwice(b.w1, k.w1);
    XorTwice(b.w2, k.w2);
    XorTwice(b.w3, k.w3);
  }

  // ----- the cipher and its inverse, for any list of round keys -----

  function MainRound(sub: Table): Round<Words, Words> {
    (k: Words, b: Words) => AddRoundKey(k, MixColumns(ShiftRows(SubBytes(sub, b))))
  }

  function FinalRound(sub: Table, k: Words, b: Words): Words {
    AddRoundKey(k, ShiftRows(SubBytes(sub, b)))
  }

  function InvMainRound(inv: Table): Round<Words, Words> {
    (k: Words, b: Words) => SubBytes(inv, InvShiftRows(InvMixColumns(AddRoundKey(k, b))))
  }

  function InvFirstRound(inv: Table, k: Words, b: Words): Words {
    SubBytes(inv, InvShiftRows(AddRoundKey(k, b)))
  }

  /** Section 5.1: initial key addition, main rounds, final round. */
  function Cipher(sub: Table, keys: seq<Words>, b: Words): Words
    requires |keys| >= 2
  {
    var last := |keys| - 1;
    FinalRound(sub, keys[last], Rounds(MainRound(sub), keys, AddRoundKey(keys[0], b), last - 1))
  }

  /** Section 5.3. */
  function InvCipher(inv: Table, keys: seq<Words>, b: Words): Words
    requires |keys| >= 2
  {
    var last := |keys| - 1;
    AddRoundKey(keys[0], InvRounds(InvMainRound(inv), keys, InvFirstRound(inv, keys[last], b), last - 1))
  }

  lemma MainRoundsUndone(sub: Table, inv: Table)
    requires Inverts(sub, inv)
    ensures Undoes(MainRound(sub), InvMainRound(inv))
  {
    forall k: Words, b: Words ensures InvMainRound(inv)(k, MainRound(sub)(k, b)) == b {
      AddRoundKeyInverts(k, MixColumns(ShiftRows(SubBytes(sub, b))));
      MixColumnsInverts(ShiftRows(SubBytes(sub, b)));
      ShiftRowsInverts(SubBytes(sub, b));
      SubBytesInverts(sub, inv, b);
    }
  }

  lemma InvMainRoundsUndone(sub: Table, inv: Table)
    requires Inverts(inv, sub)
    ensures Undoes(InvMainRound(inv), MainRound(sub))
  {
    forall k: Words, b: Words ensures MainRound(sub)(k, InvMainRound(inv)(k, b)) == b {
      var x := AddRoundKey(k, b);
      SubBytesInverts(inv, sub, InvShiftRows(InvMixColumns(x)));
      InvShiftRowsInverts(InvMixColumns(x));
      MixColumnsInverts(x);
      AddRoundKeyInverts(k, b);
    }
  }

  lemma FinalRoundUndone(sub: Table, inv: Table, k: Words, b: Words)
    ensures Inverts(sub, inv) ==> InvFirstRound(inv, k, FinalRound(sub, k, b)) == b
    ensures Inverts(inv, sub) ==> FinalRound(sub, k, InvFirstRound(inv, k, b)) == b
  {
    if Inverts(sub, inv) {
      AddRoundKeyInverts(k, ShiftRows(SubBytes(sub, b)));
      ShiftRowsInverts(SubBytes(sub, b));
      SubBytesInverts(sub, inv, b);
    }
    if Inverts(inv, sub) {
      SubBytesInverts(inv, sub, InvShiftRows(AddRoundKey(k, b)));
      InvShiftRowsInverts(AddRoundKey(k, b));
      AddRoundKeyInverts(k, b);
    }
  }

  /** For any round keys and any inverse pair of tables the two ciphers undo each other. */
  lemma InvCipherUndoes(sub: Table, inv: Table, keys: seq<Words>, b: Words)
    requires |keys| >= 2 && Inverts(sub, inv)
    ensures InvCipher(inv, keys, Cipher(sub, keys, b)) == b
  {
    var n := |keys| - 2;
    var start := AddRoundKey(keys[0], b);
    MainRoundsUndone(sub, inv);
    FinalRoundUndone(sub, inv, keys[n + 1], Rounds(MainRound(sub), keys, start, n));
    Retrace(MainRound(sub), InvMainRound(inv), keys, start, n);
    AddRoundKeyInverts(keys[0], b);
  }

  lemma CipherUndoes(sub: Table, inv: Table, keys: seq<Words>, b: Words)
    requires |keys| >= 2 && Inverts(inv, sub)
    ensures Cipher(sub, keys, InvCipher(inv, keys, b)) == b
  {
    var n := |keys| - 2;
    var start := InvFirstRound(inv, keys[n + 1], b);
    InvMainRoundsUndone(sub, inv);
    AddRoundKeyInverts(keys[0], InvRounds(InvMainRound(inv), keys, start, n));
    RetraceBack(MainRound(sub), InvMainRound(inv), keys, start, n);
    FinalRoundUndone(sub, inv, keys[n + 1], b);
  }

  // ----- key expansion -----

  function Rolx(w: bv32, x: bv8): bv32
    requires x <= 32
  {
    (w << x) | (w >> (32 - x))
  }

  /** One step of the round constant; the model computes it with nine bits and cuts it to eight. */
  function NextRcon(r: bv8): bv8 {
    (((r as bv16 << 1) ^ (0x11b & (0 - (r as bv16 >> 7)))) & 0xff) as bv8
  }

  /** Round constants count from 0x8d, the one before 1. */
  function Rcon(round: nat): bv8 {
    if round == 0 then 0x8d else NextRcon(Rcon(round - 1))
  }

  lemma NextRconIsXTimes(r: bv8)
    ensures NextRcon(r) == XTimes(r)
  {
  }

  /** Round constant i is x to the power i - 1. */
  lemma {:induction false} RconIsPower(i: nat)
    requires i >= 1
    ensures Rcon(i) == XPower(1, i - 1)
  {
    NextRconIsXTimes(Rcon(i - 1));
    if i == 1 {
      assert Rcon(0) == 0x8d && XTimes(0x8d) == 1;
    } else {
      RconIsPower(i - 1);
    }
  }

  method GetRcon(round: nat) returns (rcon: bv8)
    ensures rcon == Rcon(round)
  {
    rcon := 0x8d;
    for i := 0 to round
      invariant rcon == Rcon(i)
    {
      rcon := NextRcon(rcon);
    }
  }

  function RconWord(rcon: bv8): bv32 {
    rcon as bv32 << 24
  }

  lemma XorAssociates(a: bv32, b: bv32, c: bv32)
    ensures XorW(XorW(a, b), c) == XorW(a, XorW(b, c))
  {
  }

  /** What the model does in the key expansion: rotate, substitute and add a round constant, or substitute. */
  function KeyOps(sub: Table): Ops<bv32> {
    Ops((a, b) => XorW(a, b), (n, w) => XorW(Substw(sub, Rolx(w, 8)), RconWord(Rcon(n))), w => Substw(sub, w))
  }

  /** Bytes and words of the model are those of the standard. */
  lemma BytesAre(w: bv32)
    ensures var (b0, b1, b2, b3) := W2b(w); Fips.BytesOf(w) == S.Four(b0, b1, b2, b3)
  {
  }

  lemma WordsAre(b0: bv8, b1: bv8, b2: bv8, b3: bv8)
    ensures B2w(b0, b1, b2, b3) == Fips.WordOf(b0, b1, b2, b3)
  {
  }

  lemma SubstwIsSubWord(sub: Table, w: bv32)
    ensures Substw(sub, w) == Fips.SubWord(sub, w)
  {
    BytesAre(w);
    var (b0, b1, b2, b3) := W2b(w);
    WordsAre(sub(b0), sub(b1), sub(b2), sub(b3));
  }

  lemma RolxIsRotWord(w: bv32)
    ensures Rolx(w, 8) == Fips.RotWord(w)
  {
  }

  lemma RconWordIs(n: nat)
    requires n >= 1
    ensures RconWord(Rcon(n)) == Fips.Rcon(n)
  {
    RconIsPower(n);
    ConstantWord(Rcon(n));
  }

  lemma ConstantWord(rcon: bv8)
    ensures RconWord(rcon) == Fips.WordOf(rcon, 0, 0, 0)
  {
  }

  lemma XorIs(a: bv32, b: bv32)
    ensures XorW(a, b) == Fips.PlusWords(a, b)
  {
  }

  /** Rotating, substituting and adding the shifted constant is what the standard does. */
  lemma KeyOpsAreFips(sub: Table, n: nat, w: bv32)
    requires n >= 1
    ensures KeyOps(sub).start(n, w) == Fips.KeyExpansion(sub).start(n, w)
    ensures KeyOps(sub).middle(w) == Fips.KeyExpansion(sub).middle(w)
  {
    RolxIsRotWord(w);
    RconWordIs(n);
    SubstwIsSubWord(sub, Rolx(w, 8));
    SubstwIsSubWord(sub, w);
    XorIs(Fips.SubWord(sub, Fips.RotWord(w)), Fips.Rcon(n));
  }

  lemma KeyOpsAlike(sub: Table)
    ensures Alike(KeyOps(sub), Fips.KeyExpansion(sub))
  {
    var o, q := KeyOps(sub), Fips.KeyExpansion(sub);
    forall a: bv32, b: bv32 ensures o.add(a, b) == q.add(a, b) {
      XorIs(a, b);
    }
    forall n: nat, w: bv32 | n >= 1 ensures o.start(n, w) == q.start(n, w) {
      KeyOpsAreFips(sub, n, w);
    }
    forall w: bv32 ensures o.middle(w) == q.middle(w) {
      KeyOpsAreFips(sub, 1, w);
    }
  }

  lemma KeyOpsAssociate(sub: Table)
    ensures Associative(KeyOps(sub))
  {
    var o := KeyOps(sub);
    forall a: bv32, b: bv32, c: bv32 ensures o.add(o.add(a, b), c) == o.add(a, o.add(b, c)) {
      XorAssociates(a, b, c);
    }
  }

  /** The round keys of the model are those of section 5.2: with RotWord, SubWord and powers of x. */
  lemma RoundKeysExpand(sub: Table, key: seq<bv32>)
    requires KeyLength(key)
    ensures Expands(Fips.KeyExpansion(sub), key, Expanded(KeyOps(sub), key))
  {
    KeyOpsAssociate(sub);
    KeysExpand(KeyOps(sub), key, if |key| == 4 then 11 else 15);
    KeyOpsAlike(sub);
    AlikeExpands(KeyOps(sub), Fips.KeyExpansion(sub), key, Expanded(KeyOps(sub), key));
  }

  // ----- the rounds are those of the standard -----

  lemma SubstwBytes(sub: Table, w: bv32)
    ensures Fips.BytesOf(Substw(sub, w)) == S.SubColumn(sub, Fips.BytesOf(w))
  {
    var (b0, b1, b2, b3) := W2b(w);
    BytesAre(w);
    BytesAre(Substw(sub, w));
    BytesOfWord(sub(b0), sub(b1), sub(b2), sub(b3));
  }

  lemma SubBytesIsFips(sub: Table, b: Words)
    ensures Fips.StateOf(SubBytes(sub, b)) == S.SubBytes(sub, Fips.StateOf(b))
  {
    SubstwBytes(sub, b.w0);
    SubstwBytes(sub, b.w1);
    SubstwBytes(sub, b.w2);
    SubstwBytes(sub, b.w3);
  }

  lemma ShiftRowsIsFips(b: Words)
    ensures Fips.StateOf(ShiftRows(b)) == S.ShiftRows(Fips.StateOf(b))
  {
    var m := ShiftRows(b);
    ShiftedBytes(b);
    BytesAre(b.w0);
    BytesAre(b.w1);
    BytesAre(b.w2);
    BytesAre(b.w3);
    BytesAre(m.w0);
    BytesAre(m.w1);
    BytesAre(m.w2);
    BytesAre(m.w3);
  }

  lemma Rotated(a: bv8, b: bv8, c: bv8, d: bv8)
    ensures Xor4(d, a, b, c) == Xor4(a, b, c, d)
  {
    Substitute4(a, b, c, d, a, b, c, d);
    Substitute4(d, a, b, c, d, a, b, c);
    SameSum(Xor4(d, a, b, c), d ^ a ^ b ^ c, a ^ b ^ c ^ d, Xor4(a, b, c, d));
  }

  /** A sum, beginning anywhere. */
  lemma Regrouped(a: bv8, b: bv8, c: bv8, d: bv8)
    ensures Xor4(a, b, c, d) == Xor4(d, a, b, c) == Xor4(c, d, a, b) == Xor4(b, c, d, a)
  {
    Rotated(a, b, c, d);
    Rotated(d, a, b, c);
    Rotated(c, d, a, b);
  }

  lemma MixedByteIs(a0: bv8, a1: bv8, a2: bv8, a3: bv8)
    ensures Fips.MixedByte(a0, a1, a2, a3) == Xor4(Times8(a0, 2), Times8(a1, 3), a2, a3)
  {
    Substitute4(Times8(a0, 2), Times8(a1, 3), a2, a3, Times8(a0, 2), Times8(a1, 3), a2, a3);
  }

  lemma MixwBytes(w: bv32)
    ensures Fips.BytesOf(Mixw(w)) == S.MixColumn(Fips.MixedByte, Fips.BytesOf(w))
  {
    var (b0, b1, b2, b3) := W2b(w);
    BytesAre(w);
    BytesAre(Mixw(w));
    MixwIsMatrix(w);
    MixedByteIs(b0, b1, b2, b3);
    MixedByteIs(b1, b2, b3, b0);
    MixedByteIs(b2, b3, b0, b1);
    MixedByteIs(b3, b0, b1, b2);
    Regrouped(Times8(b1, 2), Times8(b2, 3), b3, b0);
    Regrouped(Times8(b2, 2), Times8(b3, 3), b0, b1);
    Regrouped(Times8(b3, 2), Times8(b0, 3), b1, b2);
  }

  lemma MixColumnsIsFips(b: Words)
    ensures Fips.StateOf(MixColumns(b)) == S.MixColumns(Fips.MixedByte, Fips.StateOf(b))
  {
    MixwBytes(b.w0);
    MixwBytes(b.w1);
    MixwBytes(b.w2);
    MixwBytes(b.w3);
  }

  lemma XorBytes(v: bv32, w: bv32)
    ensures Fips.BytesOf(XorW(v, w)) == S.AddColumn(Fips.Plus, Fips.BytesOf(v), Fips.BytesOf(w))
  {
  }

  lemma AddRoundKeyIsFips(k: Words, b: Words)
    ensures Fips.StateOf(AddRoundKey(k, b)) == S.AddRoundKey(Fips.Plus, Fips.StateOf(k), Fips.StateOf(b))
  {
    XorBytes(b.w0, k.w0);
    XorBytes(b.w1, k.w1);
    XorBytes(b.w2, k.w2);
    XorBytes(b.w3, k.w3);
  }

  function KeyStates(keys: seq<Words>): (k: seq<S.State<bv8>>)
    ensures |k| == |keys|
  {
    seq(|keys|, n requires 0 <= n < |keys| => Fips.StateOf(keys[n]))
  }

  lemma MainRoundIsFips(sub: Table, k: Words, b: Words)
    ensures Fips.StateOf(MainRound(sub)(k, b)) == S.FullRound(Fips.Bytewise(sub), Fips.StateOf(k), Fips.StateOf(b))
  {
    SubBytesIsFips(sub, b);
    ShiftRowsIsFips(SubBytes(sub, b));
    MixColumnsIsFips(ShiftRows(SubBytes(sub, b)));
    AddRoundKeyIsFips(k, MixColumns(ShiftRows(SubBytes(sub, b))));
  }

  lemma FinalRoundIsFips(sub: Table, k: Words, b: Words)
    ensures Fips.StateOf(FinalRound(sub, k, b)) == S.LastRound(Fips.Bytewise(sub), Fips.StateOf(k), Fips.StateOf(b))
  {
    SubBytesIsFips(sub, b);
    ShiftRowsIsFips(SubBytes(sub, b));
    AddRoundKeyIsFips(k, ShiftRows(SubBytes(sub, b)));
  }

  /** Rounds that do to blocks what full rounds do to their states. */
  lemma {:induction false} RoundsSimulate<W(!new), B>(
      round: Round<W, W>, state: W -> S.State<B>, o: S.ByteOps<B>, keys: seq<W>, states: seq<S.State<B>>,
      b: W, s: S.State<B>, n: nat)
    requires n < |keys| == |states| && forall k :: 0 <= k < |keys| ==> states[k] == state(keys[k])
    requires forall k: W, x: W {:trigger round(k, x)} :: state(round(k, x)) == S.FullRound(o, state(k), state(x))
    requires state(b) == S.AddRoundKey(o.plus, states[0], s)
    ensures state(Rounds(round, keys, b, n)) == S.RoundsOf(o, states, s, n)
  {
    if n == 0 {
    } else {
      RoundsSimulate(round, state, o, keys, states, b, s, n - 1);
    }
  }

  /** And a last round that does what the last round does to their states. */
  lemma CipherSimulates<W(!new), B>(
      round: Round<W, W>, final: Round<W, W>, state: W -> S.State<B>, o: S.ByteOps<B>, keys: seq<W>,
      states: seq<S.State<B>>, b: W, s: S.State<B>)
    requires 2 <= |keys| == |states| && forall k :: 0 <= k < |keys| ==> states[k] == state(keys[k])
    requires forall k: W, x: W {:trigger round(k, x)} :: state(round(k, x)) == S.FullRound(o, state(k), state(x))
    requires forall k: W, x: W {:trigger final(k, x)} :: state(final(k, x)) == S.LastRound(o, state(k), state(x))
    requires state(b) == S.AddRoundKey(o.plus, states[0], s)
    ensures state(final(keys[|keys| - 1], Rounds(round, keys, b, |keys| - 2))) == S.Cipher(o, |keys| - 1, states, s)
  {
    RoundsSimulate(round, state, o, keys, states, b, s, |keys| - 2);
  }

  /** Encryption is the cipher of section 5.1, whatever the round keys. */
  lemma CipherIsFips(sub: Table, keys: seq<Words>, b: Words)
    requires |keys| >= 2
    ensures Fips.StateOf(Cipher(sub, keys, b))
         == S.Cipher(Fips.Bytewise(sub), |keys| - 1, KeyStates(keys), Fips.StateOf(b))
  {
    var final := (k: Words, x: Words) => FinalRound(sub, k, x);
    forall k: Words, x: Words
      ensures Fips.StateOf(MainRound(sub)(k, x)) == S.FullRound(Fips.Bytewise(sub), Fips.StateOf(k), Fips.StateOf(x))
    {
      MainRoundIsFips(sub, k, x);
    }
    forall k: Words, x: Words
      ensures Fips.StateOf(final(k, x)) == S.LastRound(Fips.Bytewise(sub), Fips.StateOf(k), Fips.StateOf(x))
    {
      FinalRoundIsFips(sub, k, x);
    }
    AddRoundKeyIsFips(keys[0], b);
    CipherSimulates(MainRound(sub), final, Fips.StateOf, Fips.Bytewise(sub), keys, KeyStates(keys),
                    AddRoundKey(keys[0], b), Fips.StateOf(b));
  }

  // ----- blocks -----

  /** Encryption as FIPS 197 has it; no value for a key of another length, which the model cannot unpack. */
  function Encipher(sub: Table, key: seq<bv32>, b: Words): Option<Words> {
    if KeyLength(key) then Some(Cipher(sub, Expanded(KeyOps(sub), key), b)) else None
  }

  function Decipher(sub: Table, inv: Table, key: seq<bv32>, b: Words): Option<Words> {
    if KeyLength(key) then Some(InvCipher(inv, Expanded(KeyOps(sub), key), b)) else None
  }

  /** The bytes of a block are what section 5.1 makes of it with round keys that satisfy section 5.2. */
  ghost predicate FipsEnciphered(sub: Table, key: seq<bv32>, b: Words, r: Words)
    requires KeyLength(key)
  {
    exists keys: seq<Words> ::
      && |keys| == Fips.RoundsFor(|key|) + 1 && Expands(Fips.KeyExpansion(sub), key, keys)
      && Fips.StateOf(r) == S.Cipher(Fips.Bytewise(sub), Fips.RoundsFor(|key|), KeyStates(keys), Fips.StateOf(b))
  }

  lemma FipsBy(sub: Table, key: seq<bv32>, keys: seq<Words>, b: Words)
    requires KeyLength(key) && |keys| == Fips.RoundsFor(|key|) + 1 && Expands(Fips.KeyExpansion(sub), key, keys)
    ensures FipsEnciphered(sub, key, b, Cipher(sub, keys, b))
  {
    CipherIsFips(sub, keys, b);
  }

  /** Encryption is that of the standard, for every key of either length and every block. */
  lemma EncipherIsFips(sub: Table, key: seq<bv32>, b: Words)
    requires KeyLength(key)
    ensures Encipher(sub, key, b).Some? && FipsEnciphered(sub, key, b, Encipher(sub, key, b).value)
  {
    RoundKeysExpand(sub, key);
    FipsBy(sub, key, Expanded(KeyOps(sub), key), b);
  }

  /** The model, with its tables. */
  class AES {
    const sbox: Table
    const invSbox: Table

    constructor ()
      ensures sbox == Sbox && invSbox == InvSbox
    {
      sbox, invSbox := Sbox, InvSbox;
    }

    /** The round keys for either length of key. */
    method RoundKeysOf(key: seq<bv32>) returns (roundKeys: seq<Words>)
      requires KeyLength(key)
      ensures roundKeys == Expanded(KeyOps(sbox), key)
    {
      if |key| == 4 {
        roundKeys := KeyGen128(KeyOps(sbox), key);
      } else {
        roundKeys := KeyGen256(KeyOps(sbox), key);
      }
    }

    method EncipherBlock(key: seq<bv32>, b: Words) returns (r: Option<Words>)
      ensures r == Encipher(sbox, key, b) && (r.Some? <==> KeyLength(key))
      ensures KeyLength(key) ==> FipsEnciphered(sbox, key, b, r.value)
    {
      if !KeyLength(key) {
        return None;
      }
      var roundKeys := RoundKeysOf(key);
      var block := RunRounds(MainRound(sbox), roundKeys, AddRoundKey(roundKeys[0], b));
      r := Some(FinalRound(sbox, roundKeys[|roundKeys| - 1], block));
      EncipherIsFips(sbox, key, b);
    }

    method DecipherBlock(key: seq<bv32>, b: Words) returns (r: Option<Words>)
      ensures r == Decipher(sbox, invSbox, key, b)
    {
      if !KeyLength(key) {
        return None;
      }
      var roundKeys := RoundKeysOf(key);
      var block := RunInvRounds(InvMainRound(invSbox), roundKeys, InvFirstRound(invSbox, roundKeys[|roundKeys| - 1], b));
      r := Some(AddRoundKey(roundKeys[0], block));
    }
  }

  lemma TablesInvert()
    ensures Inverts(Sbox, InvSbox) && Inverts(InvSbox, Sbox)
  {
    forall b: bv8 ensures InvSbox(Sbox(b)) == b && Sbox(InvSbox(b)) == b {
      InverseOfSbox(b);
      SboxOfInverse(b);
    }
  }

  /** Decrypting an encrypted block gives it back, for every 4-word and every 8-word key. */
  lemma DecipherUndoesEncipher(key: seq<bv32>, b: Words)
    requires KeyLength(key)
    ensures Decipher(Sbox, InvSbox, key, Encipher(Sbox, key, b).value) == Some(b)
  {
    TablesInvert();
    InvCipherUndoes(Sbox, InvSbox, Expanded(KeyOps(Sbox), key), b);
  }

  lemma EncipherUndoesDecipher(key: seq<bv32>, b: Words)
    requires KeyLength(key)
    ensures Encipher(Sbox, key, Decipher(Sbox, InvSbox, key, b).value) == Some(b)
  {
    TablesInvert();
    CipherUndoes(Sbox, InvSbox, Expanded(KeyOps(Sbox), key), b);
  }
}
