/** Padding and layering of onion packets. The block cipher itself is a parameter. */
module OnionCipher {
  import opened Basics


  const BLOCK := 16   // AES_KEY_LENGTH_IN_CHARS, also KEY_LEN

  /** AES in CBC mode with a zero initialization vector, as far as it is used here. */
  datatype Cipher = Cipher(encrypt: (Bytes, Bytes) -> Bytes, decrypt: (Bytes, Bytes) -> Bytes) {

    /** Decryption undoes encryption of whole blocks; both keep lengths. */
    ghost predicate Ok() {
      && (forall k, m :: |m| % BLOCK == 0 ==> |encrypt(k, m)| == |m| && decrypt(k, encrypt(k, m)) == m)
      && (forall k, m :: |decrypt(k, m)| == |m|)
    }

    /** encrypt_msg_with_padding */
    function Seal(key: Bytes, m: Bytes): Bytes {
      encrypt(key, Pad(m))
    }

    /** decrypt_msg_with_padding; None where the source reads before the buffer or fails its assertion */
    function Open(key: Bytes, m: Bytes): Option<Bytes> {
      if m == [] then None else Unpad(decrypt(key, m))
    }

    /** One layer per key; the first key is outermost. */
    function Wrap(keys: seq<Bytes>, m: Bytes): Bytes {
      if keys == [] then m else Seal(keys[0], Wrap(keys[1..], m))
    }

    function Unwrap(keys: seq<Bytes>, m: Bytes): Option<Bytes>
      decreases |keys|
    {
      if keys == [] then Some(m)
      else match Open(keys[0], m)
        case None => None
        case Some(inner) => Unwrap(keys[1..], inner)
    }
  }

  function Pad(m: Bytes): Bytes {
    var n := BLOCK - |m| % BLOCK;
    m + seq(n - 1, i => 0) + [n]
  }

  function Unpad(m: Bytes): Option<Bytes> {
    if m == [] then None
    else
      var n := m[|m| - 1];
      if 0 < n <= BLOCK && n <= |m| then Some(m[..|m| - n]) else None
  }

  lemma PadRoundTrip(m: Bytes)
    ensures |Pad(m)| == BLOCK * (|m| / BLOCK + 1)
    ensures Unpad(Pad(m)) == Some(m)
  {
    var n := BLOCK - |m| % BLOCK;
    assert Pad(m)[..|Pad(m)| - n] == m;
  }

  lemma OpenSeal(c: Cipher, key: Bytes, m: Bytes)
    requires c.Ok()
    ensures c.Open(key, c.Seal(key, m)) == Some(m)
    ensures |c.Seal(key, m)| == BLOCK * (|m| / BLOCK + 1)
  {
    PadRoundTrip(m);
  }

  /** Every path length, every packet: peeling the layers in path order gives the packet back. */
  lemma {:induction false} UnwrapWrap(c: Cipher, keys: seq<Bytes>, m: Bytes)
    requires c.Ok()
    ensures c.Unwrap(keys, c.Wrap(keys, m)) == Some(m)
    ensures keys != [] ==> |c.Wrap(keys, m)| == BLOCK * (|m| / BLOCK + |keys|)
    decreases |keys|
  {
    if keys != [] {
      UnwrapWrap(c, keys[1..], m);
      OpenSeal(c, keys[0], c.Wrap(keys[1..], m));
    }
  }

  /** Adding the innermost layer first. */
  lemma {:induction false} WrapLast(c: Cipher, keys: seq<Bytes>, key: Bytes, m: Bytes)
    ensures c.Wrap(keys + [key], m) == c.Wrap(keys, c.Seal(key, m))
  {
    if keys == [] {
      assert (keys + [key])[1..] == [];
    } else {
      assert (keys + [key])[1..] == keys[1..] + [key];
      WrapLast(c, keys[1..], key, m);
    }
  }

  lemma {:induction false} UnwrapLast(c: Cipher, keys: seq<Bytes>, key: Bytes, m: Bytes)
    ensures c.Unwrap(keys + [key], m) ==
      match c.Unwrap(keys, m) case None => None case Some(inner) => c.Open(key, inner)
    decreases |keys|
  {
    if keys == [] {
      assert (keys + [key])[1..] == [];
    } else {
      assert (keys + [key])[1..] == keys[1..] + [key];
      if c.Open(keys[0], m).Some? { UnwrapLast(c, keys[1..], key, c.Open(keys[0], m).value); }
    }
  }

  /** class_AES_encrypt_with_padding */
  method EncryptWithPadding(c: Cipher, key: Bytes, input: Bytes) returns (out: Bytes)
    ensures out == c.Seal(key, input)
  {
    var required := BLOCK - |input| % BLOCK;
    var padded := new Byte[|input| + required];
    for i := 0 to |input|
      invariant padded[..i] == input[..i]
    {
      padded[i] := input[i];
    }
    for i := |input| to padded.Length
      invariant padded[..|input|] == input
      invariant forall j :: |input| <= j < i ==> padded[j] == 0
    {
      padded[i] := 0;
    }
    padded[padded.Length - 1] := required;
    assert padded[..] == Pad(input);
    out := c.encrypt(key, padded[..]);
  }

  /** class_AES_decrypt_with_padding */
  method DecryptWithPadding(c: Cipher, key: Bytes, input: Bytes) returns (out: Option<Bytes>)
    requires c.Ok()
    ensures out == c.Open(key, input)
  {
    if input == [] {
      return None;
    }
    var plain := c.decrypt(key, input);
    var used := plain[|input| - 1];
    if 0 < used <= BLOCK && used <= |plain| {
      out := Some(plain[..|plain| - used]);
    } else {
      out := None;
    }
  }

  /** CProxy::encrypt_multiround_with_padding: the last hop's layer goes on first. */
  method EncryptMultiround(c: Cipher, keys: seq<Bytes>, round: nat, text: Bytes) returns (out: Bytes)
    requires round <= |keys|
    ensures out == c.Wrap(keys[..round], text)
  {
    out := text;
    var i := round;
    while i > 0
      invariant 0 <= i <= round
      invariant c.Wrap(keys[..round], text) == c.Wrap(keys[..i], out)
    {
      i := i - 1;
      assert keys[..i + 1] == keys[..i] + [keys[i]];
      WrapLast(c, keys[..i], keys[i], out);
      out := EncryptWithPadding(c, keys[i], out);
    }
  }

  /** CProxy::decrypt_multiround_with_padding: the first hop's layer comes off first. */
  method DecryptMultiround(c: Cipher, keys: seq<Bytes>, round: nat, text: Bytes) returns (out: Option<Bytes>)
    requires c.Ok() && round <= |keys|
    ensures out == c.Unwrap(keys[..round], text)
  {
    var buf := text;
    for i := 0 to round
      invariant c.Unwrap(keys[..i], text) == Some(buf)
    {
      assert keys[..i + 1] == keys[..i] + [keys[i]];
      UnwrapLast(c, keys[..i], keys[i], text);
      var inner := DecryptWithPadding(c, keys[i], buf);
      if inner.None? {
        assert keys[..round][..i + 1] == keys[..i + 1];
        UnwrapStuck(c, keys[..round], i + 1, text);
        return None;
      }
      buf := inner.value;
    }
    out := Some(buf);
  }

  lemma {:induction false} UnwrapStuck(c: Cipher, keys: seq<Bytes>, n: nat, m: Bytes)
    requires n <= |keys| && c.Unwrap(keys[..n], m).None?
    ensures c.Unwrap(keys, m).None?
    decreases n
  {
    if n > 0 && c.Open(keys[0], m).Some? {
      assert keys[..n][1..] == keys[1..][..n - 1];
      UnwrapStuck(c, keys[1..], n - 1, c.Open(keys[0], m).value);
    }
  }
}
