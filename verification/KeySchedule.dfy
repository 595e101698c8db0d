/** The structure of the AES key expansion (aes.py, key_gen128 and key_gen256), for words of any kind with an
    associative addition: the model's four words at a time are the one-word recurrence of section 5.2 of
    FIPS 197. */
module KeySchedule {
  /** What the expansion does with words: add them, transform the word before a multiple of the key length (the
      multiple decides the round constant), and, for long keys, the word before the middle. */
  datatype Ops<!W> = Ops(add: (W, W) -> W, start: (nat, W) -> W, middle: W -> W)

  datatype Block<W> = Block(w0: W, w1: W, w2: W, w3: W)

  ghost predicate Associative<W(!new)>(o: Ops<W>) {
    forall a: W, b: W, c: W {:trigger o.add(o.add(a, b), c)} :: o.add(o.add(a, b), c) == o.add(a, o.add(b, c))
  }

  predicate KeyLength<W>(key: seq<W>) {
    |key| == 4 || |key| == 8
  }

  // ----- the recurrence of the standard -----

  /** What is added to the word nk places back to give word i. */
  function Scheduled<W>(o: Ops<W>, nk: nat, i: nat, previous: W): W
    requires nk == 4 || nk == 8
  {
    if i % nk == 0 then o.start(i / nk, previous)
    else if nk > 6 && i % nk == 4 then o.middle(previous)
    else previous
  }

  /** Words 4r to 4r + 3, in round key r, are those of the recurrence; `back` is the round key nk words back. */
  predicate Recurs<W(==)>(o: Ops<W>, nk: nat, r: nat, back: Block<W>, before: Block<W>, k: Block<W>)
    requires nk == 4 || nk == 8
  {
    && k.w0 == o.add(back.w0, Scheduled(o, nk, 4 * r, before.w3))
    && k.w1 == o.add(back.w1, Scheduled(o, nk, 4 * r + 1, k.w0))
    && k.w2 == o.add(back.w2, Scheduled(o, nk, 4 * r + 2, k.w1))
    && k.w3 == o.add(back.w3, Scheduled(o, nk, 4 * r + 3, k.w2))
  }

  /** The first words are the key, and every later word is the one of the recurrence. */
  predicate Expands<W(==)>(o: Ops<W>, key: seq<W>, keys: seq<Block<W>>)
    requires KeyLength(key)
  {
    && |keys| >= |key| / 4
    && keys[0] == Block(key[0], key[1], key[2], key[3])
    && (|key| == 8 ==> keys[1] == Block(key[4], key[5], key[6], key[7]))
    && forall r :: |key| / 4 <= r < |keys| ==> Recurs(o, |key|, r, keys[r - |key| / 4], keys[r - 1], keys[r])
  }

  /** Two ways to do the same with words: only round constants from the first one on are used. */
  ghost predicate Alike<W(!new)>(o: Ops<W>, q: Ops<W>) {
    && (forall a: W, b: W {:trigger q.add(a, b)} :: o.add(a, b) == q.add(a, b))
    && (forall n: nat, w: W {:trigger q.start(n, w)} :: n >= 1 ==> o.start(n, w) == q.start(n, w))
    && forall w: W {:trigger q.middle(w)} :: o.middle(w) == q.middle(w)
  }

  lemma AlikeRecurs<W(!new)>(o: Ops<W>, q: Ops<W>, nk: nat, r: nat, back: Block<W>, before: Block<W>, k: Block<W>)
    requires (nk == 4 || nk == 8) && r >= nk / 4 && Alike(o, q) && Recurs(o, nk, r, back, before, k)
    ensures Recurs(q, nk, r, back, before, k)
  {
    AlikeScheduled(o, q, nk, 4 * r, before.w3);
    AlikeScheduled(o, q, nk, 4 * r + 1, k.w0);
    AlikeScheduled(o, q, nk, 4 * r + 2, k.w1);
    AlikeScheduled(o, q, nk, 4 * r + 3, k.w2);
  }

  lemma AlikeScheduled<W(!new)>(o: Ops<W>, q: Ops<W>, nk: nat, i: nat, w: W)
    requires (nk == 4 || nk == 8) && i >= nk && Alike(o, q)
    ensures Scheduled(o, nk, i, w) == Scheduled(q, nk, i, w)
  {
    assert i / nk >= 1;
  }

  lemma AlikeExpands<W(!new)>(o: Ops<W>, q: Ops<W>, key: seq<W>, keys: seq<Block<W>>)
    requires KeyLength(key) && Alike(o, q) && Expands(o, key, keys)
    ensures Expands(q, key, keys)
  {
    forall r | |key| / 4 <= r < |keys| ensures Recurs(q, |key|, r, keys[r - |key| / 4], keys[r - 1], keys[r]) {
      AlikeRecurs(o, q, |key|, r, keys[r - |key| / 4], keys[r - 1], keys[r]);
    }
  }

  // ----- the steps of the model -----

  /** The next four words from the four words one key length back and a first difference. */
  function NextWords<W>(o: Ops<W>, k: Block<W>, t: W): Block<W> {
    Block(o.add(k.w0, t), o.add(o.add(k.w1, k.w0), t), o.add(o.add(o.add(k.w2, k.w1), k.w0), t),
          o.add(o.add(o.add(o.add(k.w3, k.w2), k.w1), k.w0), t))
  }

  function Next128BitKey<W>(o: Ops<W>, prev: Block<W>, n: nat): Block<W> {
    NextWords(o, prev, o.start(n, prev.w3))
  }

  function Next256BitKeyA<W>(o: Ops<W>, key0: Block<W>, key1: Block<W>, n: nat): Block<W> {
    NextWords(o, key0, o.start(n, key1.w3))
  }

  function Next256BitKeyB<W>(o: Ops<W>, key0: Block<W>, key1: Block<W>): Block<W> {
    NextWords(o, key0, o.middle(key1.w3))
  }

  // ----- four words at a time -----

  lemma PlainWord<W>(o: Ops<W>, nk: nat, i: nat, x: W)
    requires (nk == 4 || nk == 8) && i % 4 != 0
    ensures Scheduled(o, nk, i, x) == x
  {
    assert i % nk != 0 && (nk == 8 ==> i % nk != 4);
  }

  /** Running sums are what the recurrence adds up when only the first of four words uses the schedule. */
  lemma RunningSums<W(!new)>(o: Ops<W>, nk: nat, r: nat, back: Block<W>, before: Block<W>)
    requires (nk == 4 || nk == 8) && Associative(o)
    ensures Recurs(o, nk, r, back, before, NextWords(o, back, Scheduled(o, nk, 4 * r, before.w3)))
  {
    var n := NextWords(o, back, Scheduled(o, nk, 4 * r, before.w3));
    SumsAssociate(o, back, Scheduled(o, nk, 4 * r, before.w3));
    PlainWord(o, nk, 4 * r + 1, n.w0);
    PlainWord(o, nk, 4 * r + 2, n.w1);
    PlainWord(o, nk, 4 * r + 3, n.w2);
  }

  lemma SumsAssociate<W(!new)>(o: Ops<W>, k: Block<W>, t: W)
    requires Associative(o)
    ensures var n := NextWords(o, k, t);
            n.w1 == o.add(k.w1, n.w0) && n.w2 == o.add(k.w2, n.w1) && n.w3 == o.add(k.w3, n.w2)
  {
  }

  /** Round key r of the model: running sums over the round key nk words back. */
  function NextKey<W>(o: Ops<W>, nk: nat, r: nat, back: Block<W>, before: Block<W>): Block<W>
    requires nk == 4 || nk == 8
  {
    NextWords(o, back, Scheduled(o, nk, 4 * r, before.w3))
  }

  lemma StepOf128<W>(o: Ops<W>, r: nat, prev: Block<W>)
    ensures Next128BitKey(o, prev, r) == NextKey(o, 4, r, prev, prev)
  {
    assert 4 * r % 4 == 0 && 4 * r / 4 == r;
  }

  lemma StepAOf256<W>(o: Ops<W>, n: nat, key0: Block<W>, key1: Block<W>)
    ensures Next256BitKeyA(o, key0, key1, n) == NextKey(o, 8, 2 * n, key0, key1)
  {
    assert 4 * (2 * n) == 8 * n && 8 * n % 8 == 0 && 8 * n / 8 == n;
  }

  lemma StepBOf256<W>(o: Ops<W>, n: nat, key0: Block<W>, key1: Block<W>)
    ensures Next256BitKeyB(o, key0, key1) == NextKey(o, 8, 2 * n + 1, key0, key1)
  {
    assert 4 * (2 * n + 1) == 8 * n + 4 && (8 * n + 4) % 8 == 4;
  }

  /** The first n round keys. */
  function Keys<W>(o: Ops<W>, key: seq<W>, n: nat): (keys: seq<Block<W>>)
    requires KeyLength(key) && n >= |key| / 4
    ensures |keys| == n
  {
    if n == |key| / 4 then
      [Block(key[0], key[1], key[2], key[3])] + if |key| == 8 then [Block(key[4], key[5], key[6], key[7])] else []
    else
      var keys := Keys(o, key, n - 1);
      keys + [NextKey(o, |key|, n - 1, keys[n - 1 - |key| / 4], keys[n - 2])]
  }

  /** All round keys: 11 for four words, 15 for eight. */
  function Expanded<W>(o: Ops<W>, key: seq<W>): (keys: seq<Block<W>>)
    requires KeyLength(key)
    ensures |keys| == if |key| == 4 then 11 else 15
  {
    Keys(o, key, if |key| == 4 then 11 else 15)
  }

  lemma Extends<W(!new)>(o: Ops<W>, key: seq<W>, keys: seq<Block<W>>, k: Block<W>)
    requires KeyLength(key) && Expands(o, key, keys)
    requires Recurs(o, |key|, |keys|, keys[|keys| - |key| / 4], keys[|keys| - 1], k)
    ensures Expands(o, key, keys + [k])
  {
  }

  /** The word-parallel expansion of the model is the recurrence of the standard. */
  lemma {:induction false} KeysExpand<W(!new)>(o: Ops<W>, key: seq<W>, n: nat)
    requires KeyLength(key) && n >= |key| / 4 && Associative(o)
    ensures Expands(o, key, Keys(o, key, n))
  {
    if n == |key| / 4 {
    } else {
      var keys := Keys(o, key, n - 1);
      KeysExpand(o, key, n - 1);
      RunningSums(o, |key|, n - 1, keys[n - 1 - |key| / 4], keys[n - 2]);
      Extends(o, key, keys, NextKey(o, |key|, n - 1, keys[n - 1 - |key| / 4], keys[n - 2]));
    }
  }

  /** The recurrence determines the round keys. */
  lemma {:induction false} ExpansionUnique<W(!new)>(o: Ops<W>, key: seq<W>, x: seq<Block<W>>, y: seq<Block<W>>)
    requires KeyLength(key) && Expands(o, key, x) && Expands(o, key, y) && |x| == |y|
    ensures x == y
  {
    forall r | 0 <= r < |x| ensures x[r] == y[r] {
      SameKey(o, key, x, y, r);
    }
  }

  lemma {:induction false} SameKey<W(!new)>(o: Ops<W>, key: seq<W>, x: seq<Block<W>>, y: seq<Block<W>>, r: nat)
    requires KeyLength(key) && Expands(o, key, x) && Expands(o, key, y) && r < |x| == |y|
    ensures x[r] == y[r]
  {
    if r < |key| / 4 {
    } else {
      SameKey(o, key, x, y, r - 1);
      SameKey(o, key, x, y, r - |key| / 4);
    }
  }

  // ----- the loops of the model -----

  method KeyGen128<W>(o: Ops<W>, key: seq<W>) returns (roundKeys: seq<Block<W>>)
    requires |key| == 4
    ensures roundKeys == Expanded(o, key)
  {
    roundKeys := [Block(key[0], key[1], key[2], key[3])];
    var n := 10;
    for i := 0 to n
      invariant roundKeys == Keys(o, key, i + 1)
    {
      StepOf128(o, i + 1, roundKeys[i]);
      roundKeys := roundKeys + [Next128BitKey(o, roundKeys[i], i + 1)];
    }
  }

  method KeyGen256<W>(o: Ops<W>, key: seq<W>) returns (roundKeys: seq<Block<W>>)
    requires |key| == 8
    ensures roundKeys == Expanded(o, key)
  {
    roundKeys := [Block(key[0], key[1], key[2], key[3]), Block(key[4], key[5], key[6], key[7])];
    var i, j := 0, 1;
    while i < 12
      invariant 0 <= i <= 12 && i == 2 * (j - 1) && roundKeys == Keys(o, key, i + 2)
    {
      StepAOf256(o, j, roundKeys[i], roundKeys[i + 1]);
      roundKeys := roundKeys + [Next256BitKeyA(o, roundKeys[i], roundKeys[i + 1], j)];
      StepBOf256(o, j, roundKeys[i + 1], roundKeys[i + 2]);
      roundKeys := roundKeys + [Next256BitKeyB(o, roundKeys[i + 1], roundKeys[i + 2])];
      i, j := i + 2, j + 1;
    }
    StepAOf256(o, 7, roundKeys[12], roundKeys[13]);
    roundKeys := roundKeys + [Next256BitKeyA(o, roundKeys[12], roundKeys[13], 7)];
  }
}
