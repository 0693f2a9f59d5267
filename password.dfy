/**
 * Password storage: `encryptPassword` writes `<hex IV>:<ciphertext>` and
 * `verifyPassword` splits that string on `':'`, decrypts the second piece and
 * compares it with the candidate.
 *
 * AES is not modelled. The cipher is a pair of functions supplied by the
 * caller: `encrypt(plaintext, passphrase)` gives the OpenSSL-style base64
 * string that crypto-js prints, and `decrypt(ciphertext, passphrase)` gives the
 * UTF-8 plaintext or `None` when crypto-js raises. Because the key is passed as
 * a passphrase string, crypto-js derives its own key and IV from it and a salt;
 * the model therefore never claims that the hex IV in the stored string takes
 * part in decryption.
 */
module Password {
  import opened Common
  import opened Strings
  import Hex

  datatype Cipher = Cipher(encrypt: (string, string) -> string, decrypt: (string, string) -> Option<string>)

  /** What the model assumes of AES: decryption undoes encryption, and base64 output never holds `':'`. */
  ghost predicate Sound(c: Cipher) {
    && (forall p, k :: c.decrypt(c.encrypt(p, k), k) == Some(p))
    && (forall p, k :: ':' !in c.encrypt(p, k))
  }

  const IvBytes: nat := 16

  /** `encryptPassword`: the IV (16 random bytes, supplied here) in hex, a colon, then the ciphertext. */
  function EncryptPassword(c: Cipher, secret: string, iv: seq<Hex.byte>, input: string): (r: string)
    requires |iv| == IvBytes
    ensures |r| > 2 * IvBytes && r[2 * IvBytes] == ':'
    ensures r[..2 * IvBytes] == Hex.Encode(iv) && r[2 * IvBytes + 1..] == c.encrypt(input, secret)
  {
    Hex.Encode(iv) + ":" + c.encrypt(input, secret)
  }

  /**
   * `verifyPassword`. Only the first two pieces of the split are read. The IV
   * piece is parsed with `Hex.parse` in the source, but the result has no
   * effect on the outcome, so it is not computed here. A missing second piece
   * (no colon) or a ciphertext crypto-js cannot decrypt raises; nothing is
   * caught.
   */
  function VerifyPassword(c: Cipher, secret: string, input: string, stored: string): (r: Result<bool>)
    ensures r.Ok? <==> |Split(stored, ':')| >= 2 && c.decrypt(Split(stored, ':')[1], secret).Some?
    ensures r.Ok? ==> (r.value <==> c.decrypt(Split(stored, ':')[1], secret) == Some(input))
  {
    var pieces := Split(stored, ':');
    if |pieces| < 2 then Err("Cannot read properties of undefined (reading 'salt')")
    else match c.decrypt(pieces[1], secret)
      case None => Err("Malformed UTF-8 data")
      case Some(original) => Ok(input == original)
  }

  lemma HexHasNoColon(iv: seq<Hex.byte>)
    ensures ':' !in Hex.Encode(iv)
  {
  }

  /** Two colon-free pieces joined by a colon split back into exactly those pieces. */
  lemma SplitJoined(a: string, b: string)
    requires ':' !in a && ':' !in b
    ensures Split(a + ":" + b, ':') == [a, b]
  {
    assert a + ":" + b == a + [':'] + b;
    SplitAfterFirst(a, ':', b);
    SplitNoSeparator(b, ':');
  }

  /** A stored string splits into the hex IV and the ciphertext. */
  lemma SplitStored(c: Cipher, secret: string, iv: seq<Hex.byte>, input: string)
    requires Sound(c) && |iv| == IvBytes
    ensures Split(EncryptPassword(c, secret, iv, input), ':') == [Hex.Encode(iv), c.encrypt(input, secret)]
  {
    var h, ct := Hex.Encode(iv), c.encrypt(input, secret);
    HexHasNoColon(iv);
    assert ':' !in ct;
    SplitJoined(h, ct);
  }

  /** Round trip: a password verifies against its own stored form. */
  lemma VerifyEncrypted(c: Cipher, secret: string, iv: seq<Hex.byte>, input: string)
    requires Sound(c) && |iv| == IvBytes
    ensures VerifyPassword(c, secret, input, EncryptPassword(c, secret, iv, input)) == Ok(true)
  {
    SplitStored(c, secret, iv, input);
  }

  /** Any other candidate is refused, without raising. */
  lemma VerifyOtherRefused(c: Cipher, secret: string, iv: seq<Hex.byte>, input: string, other: string)
    requires Sound(c) && |iv| == IvBytes && other != input
    ensures VerifyPassword(c, secret, other, EncryptPassword(c, secret, iv, input)) == Ok(false)
  {
    SplitStored(c, secret, iv, input);
  }

  /** Pieces after the second are ignored. */
  lemma VerifyIgnoresExtraPieces(c: Cipher, secret: string, input: string, a: string, b: string, rest: string)
    requires ':' !in a && ':' !in b
    ensures VerifyPassword(c, secret, input, a + ":" + b + ":" + rest) == VerifyPassword(c, secret, input, a + ":" + b)
  {
    assert a + ":" + b + ":" + rest == a + [':'] + (b + [':'] + rest);
    SplitAfterFirst(a, ':', b + [':'] + rest);
    SplitAfterFirst(b, ':', rest);
    assert a + ":" + b == a + [':'] + b;
    SplitAfterFirst(a, ':', b);
    SplitNoSeparator(b, ':');
  }

  /** A stored string without a colon raises instead of answering `false`. */
  lemma VerifyWithoutColonRaises(c: Cipher, secret: string, input: string, stored: string)
    requires ':' !in stored
    ensures VerifyPassword(c, secret, input, stored).Err?
  {
    SplitNoSeparator(stored, ':');
  }

  /** Two encryptions of one password under different IVs are stored differently. */
  lemma DistinctIvsDistinctStrings(c: Cipher, secret: string, iv1: seq<Hex.byte>, iv2: seq<Hex.byte>, input: string)
    requires |iv1| == IvBytes && |iv2| == IvBytes && iv1 != iv2
    ensures EncryptPassword(c, secret, iv1, input) != EncryptPassword(c, secret, iv2, input)
  {
    if EncryptPassword(c, secret, iv1, input) == EncryptPassword(c, secret, iv2, input) {
      Hex.EncodeInjective(iv1, iv2);
    }
  }

  /** Parsing the hex prefix of a stored string gives the IV back. */
  lemma StoredIvParses(c: Cipher, secret: string, iv: seq<Hex.byte>, input: string)
    requires Sound(c) && |iv| == IvBytes
    ensures Hex.Parse(Split(EncryptPassword(c, secret, iv, input), ':')[0]) == Some(iv)
  {
    SplitStored(c, secret, iv, input);
    Hex.ParseEncode(iv);
  }
}
