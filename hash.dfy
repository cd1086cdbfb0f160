/**
 * bk.c's `djb2` string hash: start at 5381 and, for every byte, multiply by 33 and add the
 * byte, in the 64-bit arithmetic of `unsigned long`.
 */
module Hash {

  newtype byte = b: int | 0 <= b < 256

  const Modulus: nat := 0x1_0000_0000_0000_0000

  /** One round of the hash loop: `hash = (hash << 5) + hash + c`, wrapped to 64 bits. */
  function Round(h: nat, c: byte): (r: nat)
    ensures r < Modulus
  {
    (h * 33 + c as int) % Modulus
  }

  /** The loop of `djb2`, consuming the bytes of `s` from the front, starting from `h`. */
  function HashFrom(h: nat, s: seq<byte>): (r: nat)
    requires h < Modulus
    ensures r < Modulus
    decreases |s|
  {
    if s == [] then h else HashFrom(Round(h, s[0]), s[1..])
  }

  /** djb2 of a C string: `s` holds the bytes before its first NUL. */
  function Djb2(s: seq<byte>): (r: nat)
    ensures r < Modulus
  {
    HashFrom(5381, s)
  }

  /** The hash as a polynomial in 33, without the wrap-around. */
  function Poly(s: seq<byte>): nat
  {
    if s == [] then 5381 else Poly(s[..|s| - 1]) * 33 + s[|s| - 1] as int
  }

  /** Running the loop over `s + [c]` is one more round after running it over `s`. */
  lemma {:induction false} HashFromAppend(h: nat, s: seq<byte>, c: byte)
    requires h < Modulus
    ensures HashFrom(h, s + [c]) == Round(HashFrom(h, s), c)
    decreases |s|
  {
    if s == [] {
      assert [c][1..] == [];
    } else {
      assert (s + [c])[1..] == s[1..] + [c];
      HashFromAppend(Round(h, s[0]), s[1..], c);
    }
  }

  /** Reducing before a round gives the same round: `((a mod M) * 33 + c) mod M == (a * 33 + c) mod M`. */
  lemma RoundOfReduced(a: nat, c: byte)
    ensures Round(a % Modulus, c) == (a * 33 + c as int) % Modulus
  {
    var q := a / Modulus;
    var r := a % Modulus;
    assert a == q * Modulus + r;
    assert a * 33 + c as int == (q * 33) * Modulus + (r * 33 + c as int);
    ModAddMultiple(q * 33, r * 33 + c as int);
  }

  lemma ModAddMultiple(k: nat, x: nat)
    ensures (k * Modulus + x) % Modulus == x % Modulus
  {
    var y := k * Modulus + x;
    assert y == (k + x / Modulus) * Modulus + x % Modulus;
  }

  /** The 64-bit hash is the exact polynomial reduced modulo 2^64. */
  lemma {:induction false} Djb2IsPolyMod(s: seq<byte>)
    ensures Djb2(s) == Poly(s) % Modulus
  {
    if s == [] {
    } else {
      var init := s[..|s| - 1];
      var c := s[|s| - 1];
      assert s == init + [c];
      Djb2IsPolyMod(init);
      HashFromAppend(5381, init, c);
      RoundOfReduced(Poly(init), c);
    }
  }

  /** Appending a byte extends the hash by one round, so the hash can be computed incrementally. */
  lemma Djb2Append(s: seq<byte>, c: byte)
    ensures Djb2(s + [c]) == (Djb2(s) * 33 + c as int) % Modulus
  {
    HashFromAppend(5381, s, c);
  }
}
