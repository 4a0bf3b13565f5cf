/** SHA-256 as the transfer engine uses it: Init, any number of Updates, Final. The
    compression function is a parameter; what matters is that a state absorbs bytes one
    after the other, so an Update is a fold. */
module Digests {
  import opened Bytes

  datatype Algorithm = Algorithm(init: nat, step: (nat, Byte) -> nat, finish: nat -> nat)

  function Update(alg: Algorithm, state: nat, bytes: seq<Byte>): nat
    decreases |bytes|
  {
    if bytes == [] then state else Update(alg, alg.step(state, bytes[0]), bytes[1..])
  }

  function Digest(alg: Algorithm, bytes: seq<Byte>): nat {
    alg.finish(Update(alg, alg.init, bytes))
  }

  /** Updating with two pieces is updating with their concatenation. */
  lemma {:induction false} UpdateConcat(alg: Algorithm, state: nat, a: seq<Byte>, b: seq<Byte>)
    ensures Update(alg, Update(alg, state, a), b) == Update(alg, state, a + b)
    ensures |b| == 1 ==> Update(alg, state, a + b) == alg.step(Update(alg, state, a), b[0])
    decreases |a|
  {
    if a == [] {
      assert a + b == b;
    } else {
      UpdateConcat(alg, alg.step(state, a[0]), a[1..], b);
      assert (a + b)[1..] == a[1..] + b;
    }
  }

  /** The last byte is absorbed by one step, and by the last one: so each byte is absorbed once,
      in its place. */
  lemma EachByteOnce(alg: Algorithm, state: nat, a: seq<Byte>, b: Byte)
    ensures Update(alg, state, []) == state
    ensures Update(alg, state, a + [b]) == alg.step(Update(alg, state, a), b)
  {
    UpdateConcat(alg, state, a, [b]);
    assert [b][1..] == [];
  }

  // ---- digests without collisions

  ghost predicate CollisionFree(alg: Algorithm) {
    forall a: seq<Byte>, b: seq<Byte> :: Digest(alg, a) == Digest(alg, b) ==> a == b
  }

  /** The bytes as a number to the base 257, whose digits are one more than the bytes. */
  const EXACT: Algorithm := Algorithm(0, (state: nat, b: Byte) => 257 * state + (b as nat + 1), state => state)

  lemma LastDigit(x: nat, y: nat, a: Byte, b: Byte)
    requires 257 * x + (a as nat + 1) == 257 * y + (b as nat + 1)
    ensures x == y && a == b
  {
  }

  /** Every byte counts, and its place: under this algorithm the digest tells any two contents
      apart, so nothing that is hashed is left out or mixed up. */
  lemma {:induction false} ExactTellsApart(a: seq<Byte>, b: seq<Byte>)
    ensures Digest(EXACT, a) == Digest(EXACT, b) <==> a == b
    decreases |a|
  {
    if a != [] {
      var a', x := a[..|a| - 1], a[|a| - 1];
      assert a == a' + [x];
      EachByteOnce(EXACT, 0, a', x);
      if b != [] {
        var b', y := b[..|b| - 1], b[|b| - 1];
        assert b == b' + [y];
        EachByteOnce(EXACT, 0, b', y);
        ExactTellsApart(a', b');
        if Digest(EXACT, a) == Digest(EXACT, b) {
          LastDigit(Digest(EXACT, a'), Digest(EXACT, b'), x, y);
        }
      }
    } else if b != [] {
      assert b == b[..|b| - 1] + [b[|b| - 1]];
      EachByteOnce(EXACT, 0, b[..|b| - 1], b[|b| - 1]);
    }
  }

  lemma ExactIsCollisionFree()
    ensures CollisionFree(EXACT)
  {
    forall a: seq<Byte>, b: seq<Byte> ensures Digest(EXACT, a) == Digest(EXACT, b) ==> a == b {
      ExactTellsApart(a, b);
    }
  }
}
