/**
 * The credential vault's ciphertext format (lib/oe-node-red-storage.js,
 * encryptCredentials and decryptCredentials). A stored value is the
 * initialisation vector in hexadecimal (32 characters for 16 bytes) followed
 * by the base64 text of the cipher output.
 *
 * AES-256 in counter mode, keyed by the SHA-256 digest of the credential
 * secret, is a stream cipher: the plaintext is combined by exclusive-or with a
 * keystream that depends only on the key and the IV. The block cipher and the
 * digest are not modelled; the keystream is a parameter. JSON text is not
 * modelled either: the serialiser is a parameter, and the round trip assumes
 * that parsing undoes serialising (RoundTrips).
 */
module CredentialCipher {
  import opened Wrappers
  import opened Bytes
  import opened Json
  import Hex
  import Base64

  /** The decrypted vault: node id to credential field name to value. */
  type Vault = map<string, map<string, Json>>

  /** The `{'$': d}` object passed to and from the runtime: Some(d), or None for `{}`. */
  type CredBox = Option<string>

  /** The keystream byte at each position for a given IV, under the process-wide key. */
  type Keystream = (seq<byte>, nat) -> byte

  /** JSON.stringify followed by UTF-8 encoding, and UTF-8 decoding followed by JSON.parse. */
  datatype PlainCodec = PlainCodec(stringify: Vault -> seq<byte>, parse: seq<byte> -> Option<Vault>)

  ghost predicate RoundTrips(codec: PlainCodec)
  {
    forall v :: codec.parse(codec.stringify(v)) == Some(v)
  }

  /** The length of an IV: crypto.randomBytes(16). */
  const IvBytes := 16

  /** The length of an IV in hexadecimal: the split point of decryptCredentials. */
  const IvChars := 32

  /** Counter-mode encryption and decryption are the same operation. */
  function Crypt(ks: Keystream, iv: seq<byte>, data: seq<byte>): (r: seq<byte>)
    ensures |r| == |data|
    ensures forall i :: 0 <= i < |data| ==> Xor(r[i], ks(iv, i)) == data[i]
  {
    seq<byte>(|data|, i requires 0 <= i < |data| => XorByte(data[i], ks(iv, i)))
  }

  lemma CryptInvolutive(ks: Keystream, iv: seq<byte>, data: seq<byte>)
    ensures Crypt(ks, iv, Crypt(ks, iv, data)) == data
  {
    var c := Crypt(ks, iv, data);
    var d := Crypt(ks, iv, c);
    forall i | 0 <= i < |data| ensures d[i] == data[i] {
      assert d[i] == XorByte(c[i], ks(iv, i));
    }
  }

  /** The stored text: the IV in hexadecimal, then the payload. */
  function Frame(iv: seq<byte>, payload: string): (s: string)
    requires |iv| == IvBytes
    ensures |s| == IvChars + |payload|
    ensures s[..IvChars] == Hex.Encode(iv) && s[IvChars..] == payload
  {
    Hex.Encode(iv) + payload
  }

  /**
   * `creds.substring(0, 32)` and `creds.substring(32)`; JavaScript clamps both
   * positions to the length of the string.
   */
  function Split(s: string): (r: (string, string))
    ensures r.0 + r.1 == s
    ensures |r.0| == if |s| < IvChars then |s| else IvChars
  {
    if |s| < IvChars then (s, "") else (s[..IvChars], s[IvChars..])
  }

  /** Splitting a framed text gives back the hexadecimal IV and the payload. */
  lemma SplitFrame(iv: seq<byte>, payload: string)
    requires |iv| == IvBytes
    ensures Split(Frame(iv, payload)) == (Hex.Encode(iv), payload)
    ensures Hex.Decode(Split(Frame(iv, payload)).0) == iv
  {
    Hex.DecodeEncode(iv);
  }

  datatype CipherError =
    | MissingCiphertext  // the object has no '$' property: reading substring of undefined throws
    | InvalidIv          // fewer than 16 bytes of IV: createDecipheriv throws
    | BadPayload         // the payload is not base64 text
    | NotJson            // the deciphered text does not parse

  /** The '$' property of encryptCredentials' result, for a given IV. */
  function Encrypt(ks: Keystream, codec: PlainCodec, iv: seq<byte>, v: Vault): (d: string)
    requires |iv| == IvBytes
    ensures |d| >= IvChars && Hex.Decode(d[..IvChars]) == iv
  {
    Hex.DecodeEncode(iv);
    Frame(iv, Base64.Encode(Crypt(ks, iv, codec.stringify(v))))
  }

  /** decryptCredentials, with its exceptions as errors. */
  function Decrypt(ks: Keystream, codec: PlainCodec, box: CredBox): (r: Result<Vault, CipherError>)
    ensures box.None? ==> r == Err(MissingCiphertext)
    ensures box.Some? && |Hex.Decode(Split(box.value).0)| != IvBytes ==> r == Err(InvalidIv)
    ensures r.Ok? ==> box.Some? && |box.value| >= IvChars
  {
    match box
    case None => Err(MissingCiphertext)
    case Some(d) =>
      var (ivText, payload) := Split(d);
      var iv := Hex.Decode(ivText);
      if |iv| != IvBytes then Err(InvalidIv)
      else
        match Base64.Decode(payload)
        case None => Err(BadPayload)
        case Some(c) =>
          match codec.parse(Crypt(ks, iv, c))
          case None => Err(NotJson)
          case Some(v) => Ok(v)
  }

  /** Decrypting what was encrypted, under the same key, gives the vault back. */
  lemma DecryptEncrypt(ks: Keystream, codec: PlainCodec, iv: seq<byte>, v: Vault)
    requires |iv| == IvBytes
    requires RoundTrips(codec)
    ensures Decrypt(ks, codec, Some(Encrypt(ks, codec, iv, v))) == Ok(v)
  {
    var plain := codec.stringify(v);
    var payload := Base64.Encode(Crypt(ks, iv, plain));
    SplitFrame(iv, payload);
    Base64.DecodeEncode(Crypt(ks, iv, plain));
    CryptInvolutive(ks, iv, plain);
  }
}
