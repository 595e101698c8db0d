/** The structure of an iterated block cipher and of its inverse (aes.py, the loops of aes_encipher_block and
    aes_decipher_block), for rounds of any kind. */
module BlockCipher {
  /** A round: what it makes of a block with a round key. */
  type Round<!K, !B> = (K, B) -> B

  /** The main rounds 1 to n, each with its round key. */
  function Rounds<K, B>(round: Round<K, B>, keys: seq<K>, b: B, n: nat): B
    requires n < |keys|
  {
    if n == 0 then b else round(keys[n], Rounds(round, keys, b, n - 1))
  }

  /** The first n main rounds of the inverse cipher, with the round keys from the last but one down. */
  function InvRounds<K, B>(round: Round<K, B>, keys: seq<K>, b: B, n: nat): B
    requires n < |keys|
  {
    if n == 0 then b else round(keys[|keys| - 1 - n], InvRounds(round, keys, b, n - 1))
  }

  ghost predicate Undoes<K(!new), B(!new)>(f: Round<K, B>, g: Round<K, B>) {
    forall k: K, b: B :: g(k, f(k, b)) == b
  }

  /** The inverse rounds retrace the rounds, last one first, and the other way round. */
  lemma {:induction false} Retrace<K(!new), B(!new)>(f: Round<K, B>, g: Round<K, B>, keys: seq<K>, b: B, n: nat)
    requires Undoes(f, g) && n + 2 <= |keys|
    ensures InvRounds(g, keys, Rounds(f, keys, b, |keys| - 2), n) == Rounds(f, keys, b, |keys| - 2 - n)
  {
    if n == 0 {
    } else {
      Retrace(f, g, keys, b, n - 1);
      assert |keys| - 2 - (n - 1) == |keys| - 1 - n;
    }
  }

  lemma {:induction false} RetraceBack<K(!new), B(!new)>(f: Round<K, B>, g: Round<K, B>, keys: seq<K>, b: B, n: nat)
    requires Undoes(g, f) && n + 2 <= |keys|
    ensures Rounds(f, keys, InvRounds(g, keys, b, |keys| - 2), n) == InvRounds(g, keys, b, |keys| - 2 - n)
  {
    if n == 0 {
    } else {
      RetraceBack(f, g, keys, b, n - 1);
      assert |keys| - 1 - (|keys| - 1 - n) == n;
    }
  }

  method RunRounds<K, B>(round: Round<K, B>, keys: seq<K>, b: B) returns (r: B)
    requires |keys| >= 2
    ensures r == Rounds(round, keys, b, |keys| - 2)
  {
    r := b;
    for i := 1 to |keys| - 1
      invariant r == Rounds(round, keys, b, i - 1)
    {
      r := round(keys[i], r);
    }
  }

  method RunInvRounds<K, B>(round: Round<K, B>, keys: seq<K>, b: B) returns (r: B)
    requires |keys| >= 2
    ensures r == InvRounds(round, keys, b, |keys| - 2)
  {
    r := b;
    for i := 1 to |keys| - 1
      invariant r == InvRounds(round, keys, b, i - 1)
    {
      r := round(keys[|keys| - i - 1], r);
    }
  }
}
