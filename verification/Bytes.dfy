/** Bus words as four byte lanes. */
module Bytes {
  type Byte = x: nat | x < 256
  type TwoBits = x: nat | x < 4

  /** A bus word, lowest byte first. */
  datatype Word = Word(b0: Byte, b1: Byte, b2: Byte, b3: Byte)

  /** One flag a byte lane. */
  datatype Lanes = Lanes(e0: bool, e1: bool, e2: bool, e3: bool)

  function Lane(w: Word, k: TwoBits): Byte {
    if k == 0 then w.b0 else if k == 1 then w.b1 else if k == 2 then w.b2 else w.b3
  }

  /** The number a word stands for. */
  function Value(w: Word): nat {
    w.b0 + 0x100 * w.b1 + 0x1_0000 * w.b2 + 0x100_0000 * w.b3
  }

  predicate Enabled(e: Lanes, k: TwoBits) {
    if k == 0 then e.e0 else if k == 1 then e.e1 else if k == 2 then e.e2 else e.e3
  }

  /** A word after a write of the enabled lanes. */
  function Merged(before: Word, w: Word, e: Lanes): Word {
    Word(if e.e0 then w.b0 else before.b0, if e.e1 then w.b1 else before.b1,
         if e.e2 then w.b2 else before.b2, if e.e3 then w.b3 else before.b3)
  }

  /** A write changes the enabled lanes and no other. */
  lemma MergedLane(before: Word, w: Word, e: Lanes, k: TwoBits)
    ensures Lane(Merged(before, w, e), k) == if Enabled(e, k) then Lane(w, k) else Lane(before, k)
  {
  }
}
