/** The round structure of FIPS 197 on a state of four columns of four bytes, for bytes of any kind; and states made
    of words. */
module AesState {
  import opened KeySchedule

  datatype Four<T> = Four(e0: T, e1: T, e2: T, e3: T)

  /** Columns of bytes, row 0 first (section 3.4). */
  type State<B> = Four<Four<B>>

  function Nth<T>(q: Four<T>, k: nat): T {
    if k == 0 then q.e0 else if k == 1 then q.e1 else if k == 2 then q.e2 else q.e3
  }

  /** The byte in row r and column c. */
  function At<B>(s: State<B>, r: nat, c: nat): B {
    Nth(Nth(s, c), r)
  }

  function SubColumn<B>(sub: B -> B, q: Four<B>): Four<B> {
    Four(sub(q.e0), sub(q.e1), sub(q.e2), sub(q.e3))
  }

  /** Section 5.1.1. */
  function SubBytes<B>(sub: B -> B, s: State<B>): State<B> {
    Four(SubColumn(sub, s.e0), SubColumn(sub, s.e1), SubColumn(sub, s.e2), SubColumn(sub, s.e3))
  }

  /** Section 5.1.2. */
  function ShiftRows<B>(s: State<B>): State<B> {
    Four(Four(s.e0.e0, s.e1.e1, s.e2.e2, s.e3.e3), Four(s.e1.e0, s.e2.e1, s.e3.e2, s.e0.e3),
         Four(s.e2.e0, s.e3.e1, s.e0.e2, s.e1.e3), Four(s.e3.e0, s.e0.e1, s.e1.e2, s.e2.e3))
  }

  function MixColumn<B>(mix: (B, B, B, B) -> B, q: Four<B>): Four<B> {
    Four(mix(q.e0, q.e1, q.e2, q.e3), mix(q.e1, q.e2, q.e3, q.e0),
         mix(q.e2, q.e3, q.e0, q.e1), mix(q.e3, q.e0, q.e1, q.e2))
  }

  /** Section 5.1.3. */
  function MixColumns<B>(mix: (B, B, B, B) -> B, s: State<B>): State<B> {
    Four(MixColumn(mix, s.e0), MixColumn(mix, s.e1), MixColumn(mix, s.e2), MixColumn(mix, s.e3))
  }

  function AddColumn<B>(plus: (B, B) -> B, q: Four<B>, k: Four<B>): Four<B> {
    Four(plus(q.e0, k.e0), plus(q.e1, k.e1), plus(q.e2, k.e2), plus(q.e3, k.e3))
  }

  /** Section 5.1.4. */
  function AddRoundKey<B>(plus: (B, B) -> B, k: State<B>, s: State<B>): State<B> {
    Four(AddColumn(plus, s.e0, k.e0), AddColumn(plus, s.e1, k.e1), AddColumn(plus, s.e2, k.e2), AddColumn(plus, s.e3, k.e3))
  }

  /** The steps as the standard writes them, by row and column: row r is shifted by r columns, and a mixed byte
      comes from its column beginning with its own row. */
  lemma StepsAt<B>(o: ByteOps<B>, k: State<B>, s: State<B>, r: nat, c: nat)
    requires r < 4 && c < 4
    ensures At(SubBytes(o.sub, s), r, c) == o.sub(At(s, r, c))
    ensures At(ShiftRows(s), r, c) == At(s, r, (c + r) % 4)
    ensures At(MixColumns(o.mix, s), r, c)
         == o.mix(At(s, r, c), At(s, (r + 1) % 4, c), At(s, (r + 2) % 4, c), At(s, (r + 3) % 4, c))
    ensures At(AddRoundKey(o.plus, k, s), r, c) == o.plus(At(s, r, c), At(k, r, c))
  {
    ShiftAt(s, r, c);
    MixAt(o.mix, Nth(s, c), r);
    assert Nth(MixColumns(o.mix, s), c) == MixColumn(o.mix, Nth(s, c));
  }

  lemma ShiftAt<B>(s: State<B>, r: nat, c: nat)
    requires r < 4 && c < 4
    ensures At(ShiftRows(s), r, c) == At(s, r, (c + r) % 4)
  {
  }

  lemma MixAt<B>(mix: (B, B, B, B) -> B, q: Four<B>, r: nat)
    requires r < 4
    ensures Nth(MixColumn(mix, q), r) == mix(Nth(q, r), Nth(q, (r + 1) % 4), Nth(q, (r + 2) % 4), Nth(q, (r + 3) % 4))
  {
  }

  /** The operations on bytes. */
  datatype ByteOps<!B> = ByteOps(sub: B -> B, mix: (B, B, B, B) -> B, plus: (B, B) -> B)

  function FullRound<B>(o: ByteOps<B>, k: State<B>, s: State<B>): State<B> {
    AddRoundKey(o.plus, k, MixColumns(o.mix, ShiftRows(SubBytes(o.sub, s))))
  }

  function LastRound<B>(o: ByteOps<B>, k: State<B>, s: State<B>): State<B> {
    AddRoundKey(o.plus, k, ShiftRows(SubBytes(o.sub, s)))
  }

  /** Section 5.1, the state after the initial key addition and n rounds of all four steps. */
  function RoundsOf<B>(o: ByteOps<B>, keys: seq<State<B>>, s: State<B>, n: nat): State<B>
    requires n < |keys|
  {
    if n == 0 then AddRoundKey(o.plus, keys[0], s)
    else FullRound(o, keys[n], RoundsOf(o, keys, s, n - 1))
  }

  /** Section 5.1: with nr + 1 round keys, nr - 1 of those rounds and one without MixColumns. */
  function Cipher<B>(o: ByteOps<B>, nr: nat, keys: seq<State<B>>, s: State<B>): State<B>
    requires nr >= 1 && |keys| == nr + 1
  {
    LastRound(o, keys[nr], RoundsOf(o, keys, s, nr - 1))
  }

  // ----- the same steps on four words of four bytes -----

  /** How the bytes of a word are taken out. */
  type Taking<!W, !B> = W -> Four<B>

  /** The state whose columns are words. */
  function Columns<W, B>(bytes: Taking<W, B>, b: Block<W>): State<B> {
    Four(bytes(b.w0), bytes(b.w1), bytes(b.w2), bytes(b.w3))
  }
}

/** The cipher and the key expansion of FIPS 197: what the AES model is held against. Of the model it uses nothing
    but the field multiplication, which is that of section 4.2. */
module AesFips {
  import opened AesField
  import opened AesState
  import opened KeySchedule

  type Table = bv8 -> bv8

  // ----- bytes of words, most significant byte first -----

  function BytesOf(w: bv32): Four<bv8> {
    Four(((w >> 24) & 0xff) as bv8, ((w >> 16) & 0xff) as bv8, ((w >> 8) & 0xff) as bv8, (w & 0xff) as bv8)
  }

  function WordOf(b0: bv8, b1: bv8, b2: bv8, b3: bv8): bv32 {
    ((b0 as bv32) << 24) | ((b1 as bv32) << 16) | ((b2 as bv32) << 8) | (b3 as bv32)
  }

  function Plus(a: bv8, b: bv8): bv8 {
    a ^ b
  }

  /** One byte of section 5.1.3: the row (2, 3, 1, 1) of the matrix, rotated to its row, times a column. */
  function MixedByte(a0: bv8, a1: bv8, a2: bv8, a3: bv8): bv8 {
    Times8(a0, 2) ^ Times8(a1, 3) ^ a2 ^ a3
  }

  /** The state of a block: its words are the columns. */
  function StateOf(b: Block<bv32>): State<bv8> {
    Columns(BytesOf, b)
  }

  /** The operations of section 5.1 on bytes. */
  function Bytewise(sub: Table): ByteOps<bv8> {
    ByteOps(sub, MixedByte, Plus)
  }

  // ----- section 5.2 -----

  function PlusWords(a: bv32, b: bv32): bv32 {
    a ^ b
  }

  /** The rounds for a key of nk words. */
  function RoundsFor(nk: nat): nat {
    nk + 6
  }

  function SubWord(sub: Table, w: bv32): bv32 {
    var q := BytesOf(w);
    WordOf(sub(q.e0), sub(q.e1), sub(q.e2), sub(q.e3))
  }

  function RotWord(w: bv32): bv32 {
    var q := BytesOf(w);
    WordOf(q.e1, q.e2, q.e3, q.e0)
  }

  /** Powers of x as round constants. */
  function Rcon(n: nat): bv32
    requires n >= 1
  {
    WordOf(XPower(1, n - 1), 0, 0, 0)
  }

  /** What the recurrence does with words; there is no round constant 0. */
  function KeyExpansion(sub: Table): Ops<bv32> {
    Ops(PlusWords, (n, w) => if n == 0 then w else PlusWords(SubWord(sub, RotWord(w)), Rcon(n)), w => SubWord(sub, w))
  }
}
