/**
 * The repeating-key XOR transform of the file encryptor: every byte of the
 * data is combined by exclusive-or with the key byte at the same position of
 * the keystream, the key repeated without end.
 */
module XorCipher {

  type byte = bv8

  /** The keystream: position `i` uses key byte `i mod |key|`. */
  function KeyByteAt(key: seq<byte>, i: nat): byte
    requires |key| > 0
  {
    key[i % |key|]
  }

  /**
   * `xor_with_key`. The source indexes the key with `i % key.len()` only for
   * positions that exist, so an empty key is harmless on empty data and the
   * precondition says exactly that.
   */
  function XorWithKey(data: seq<byte>, key: seq<byte>): (r: seq<byte>)
    requires |key| > 0 || |data| == 0
    ensures |r| == |data|
    ensures forall i :: 0 <= i < |r| ==> r[i] == data[i] ^ KeyByteAt(key, i)
  {
    seq(|data|, i requires 0 <= i < |data| => data[i] ^ key[i % |key|])
  }

  /** Applying the transform twice with the same key gives the data back. */
  lemma XorInvolution(data: seq<byte>, key: seq<byte>)
    requires |key| > 0 || |data| == 0
    ensures XorWithKey(XorWithKey(data, key), key) == data
  {
    var once := XorWithKey(data, key);
    var twice := XorWithKey(once, key);
    forall i | 0 <= i < |data|
      ensures twice[i] == data[i]
    {
      var k := KeyByteAt(key, i);
      assert twice[i] == (data[i] ^ k) ^ k;
    }
  }

  /** Two inputs give the same output under one key exactly when they are equal. */
  lemma XorInjective(a: seq<byte>, b: seq<byte>, key: seq<byte>)
    requires |key| > 0 || (|a| == 0 && |b| == 0)
    ensures XorWithKey(a, key) == XorWithKey(b, key) <==> a == b
  {
    XorInvolution(a, key);
    XorInvolution(b, key);
  }

  /** The keystream repeats with period `|key|`. */
  lemma KeyStreamPeriodic(key: seq<byte>, i: nat)
    requires |key| > 0
    ensures KeyByteAt(key, i + |key|) == KeyByteAt(key, i)
  {
    ShiftMod(i, 1, |key|);
  }

  /** A non-zero multiple of `n` is at least `n` away from zero. */
  lemma MultipleBound(d: int, n: int)
    requires n > 0
    ensures d >= 1 ==> d * n >= n
    ensures d <= -1 ==> d * n <= -n
  {
  }

  /** A residue is determined by any quotient-remainder split. */
  lemma ModUnique(x: int, q: int, r: int, n: int)
    requires n > 0 && 0 <= r < n
    requires x == q * n + r
    ensures x % n == r
  {
    var q', r' := x / n, x % n;
    assert (q - q') * n == r' - r;
    MultipleBound(q - q', n);
  }

  /** Adding a whole number of periods does not change a residue. */
  lemma ShiftMod(i: nat, m: nat, n: nat)
    requires n > 0
    ensures (i + m * n) % n == i % n
  {
    assert i == (i / n) * n + i % n;
    assert i + m * n == (i / n + m) * n + i % n;
    ModUnique(i + m * n, i / n + m, i % n, n);
  }

  /**
   * Each output byte depends only on the input byte at the same position:
   * transforming a prefix gives the prefix of the transformed data.
   */
  lemma XorPrefix(data: seq<byte>, key: seq<byte>, n: nat)
    requires |key| > 0 || |data| == 0
    requires n <= |data|
    ensures XorWithKey(data[..n], key) == XorWithKey(data, key)[..n]
  {
  }

  /**
   * When the first part is a whole number of key periods long, the second
   * part is transformed as if it stood alone.
   */
  lemma XorAlignedConcat(a: seq<byte>, b: seq<byte>, key: seq<byte>)
    requires |key| > 0
    requires |a| % |key| == 0
    ensures XorWithKey(a + b, key) == XorWithKey(a, key) + XorWithKey(b, key)
  {
    var whole := XorWithKey(a + b, key);
    var parts := XorWithKey(a, key) + XorWithKey(b, key);
    forall i | 0 <= i < |a| + |b|
      ensures whole[i] == parts[i]
    {
      if i >= |a| {
        var j := i - |a|;
        assert |a| == (|a| / |key|) * |key|;
        ShiftMod(j, |a| / |key|, |key|);
        assert KeyByteAt(key, i) == KeyByteAt(key, j);
      }
    }
  }

  /**
   * Knowing one plaintext byte and its ciphertext byte reveals the keystream
   * byte at that position: the known-plaintext weakness of the scheme.
   */
  lemma XorRevealsKeyStream(data: seq<byte>, key: seq<byte>, i: nat)
    requires |key| > 0
    requires i < |data|
    ensures XorWithKey(data, key)[i] ^ data[i] == KeyByteAt(key, i)
  {
    var c := XorWithKey(data, key)[i];
    assert c == data[i] ^ KeyByteAt(key, i);
  }

  /** "ABC" under the password "K" becomes 0A 09 08, and back again. */
  lemma XorAbcExample()
    ensures XorWithKey([0x41, 0x42, 0x43], [0x4B]) == [0x0A, 0x09, 0x08]
    ensures XorWithKey([0x0A, 0x09, 0x08], [0x4B]) == [0x41, 0x42, 0x43]
  {
    var c := XorWithKey([0x41, 0x42, 0x43], [0x4B]);
    assert c[0] == 0x41 ^ 0x4B && c[1] == 0x42 ^ 0x4B && c[2] == 0x43 ^ 0x4B;
    var p := XorWithKey([0x0A, 0x09, 0x08], [0x4B]);
    assert p[0] == 0x0A ^ 0x4B && p[1] == 0x09 ^ 0x4B && p[2] == 0x08 ^ 0x4B;
  }
}
