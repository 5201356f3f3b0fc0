/** The byte layout of an encrypted export (`encrypt_export` /
    `decrypt_import`): the salt text, one `':'`, the 12-byte AES-GCM nonce,
    then the ciphertext. Key derivation, the cipher and the base64 wrapping
    around the layout are not modelled. */
module ExportFrame {
  import opened Wrappers

  newtype byte = x: int | 0 <= x < 256

  /** `b':'`. */
  const Separator: byte := 58

  /** AES-GCM nonce size in bytes. */
  const NonceLength: nat := 12

  datatype Frame = Frame(salt: seq<byte>, nonce: seq<byte>, ciphertext: seq<byte>)

  /** Why `decrypt_import` rejects a decoded frame before decrypting. */
  datatype FrameError =
    | NoSeparator   // "Invalid encrypted data format"
    | BadSalt       // "Invalid salt format: ..."
    | TooShort      // "Invalid encrypted data: too short"

  /** Well-formed UTF-8 as `String::from_utf8` accepts it: shortest forms
      only, no surrogate code points, nothing above U+10FFFF. */
  predicate ValidUtf8(s: seq<byte>)
    decreases |s|
  {
    if |s| == 0 then true
    else if s[0] < 0x80 then ValidUtf8(s[1..])
    else if 0xC2 <= s[0] <= 0xDF then
      |s| >= 2 && Cont(s[1]) && ValidUtf8(s[2..])
    else if 0xE0 <= s[0] <= 0xEF then
      |s| >= 3 && Cont(s[2])
      && (if s[0] == 0xE0 then 0xA0 <= s[1] <= 0xBF
          else if s[0] == 0xED then 0x80 <= s[1] <= 0x9F
          else Cont(s[1]))
      && ValidUtf8(s[3..])
    else if 0xF0 <= s[0] <= 0xF4 then
      |s| >= 4 && Cont(s[2]) && Cont(s[3])
      && (if s[0] == 0xF0 then 0x90 <= s[1] <= 0xBF
          else if s[0] == 0xF4 then 0x80 <= s[1] <= 0x8F
          else Cont(s[1]))
      && ValidUtf8(s[4..])
    else false
  }

  /** A UTF-8 continuation byte. */
  predicate Cont(b: byte) {
    0x80 <= b <= 0xBF
  }

  predicate Ascii(s: seq<byte>) {
    forall i :: 0 <= i < |s| ==> s[i] < 0x80
  }

  /** Every ASCII text is valid UTF-8; the salt `SaltString::generate`
      produces is ASCII. */
  lemma {:induction false} AsciiIsUtf8(s: seq<byte>)
    requires Ascii(s)
    ensures ValidUtf8(s)
    decreases |s|
  {
    if |s| > 0 {
      assert Ascii(s[1..]) by {
        forall i | 0 <= i < |s[1..]| ensures s[1..][i] < 0x80 {
          assert s[1..][i] == s[i + 1];
        }
      }
      AsciiIsUtf8(s[1..]);
    }
  }

  /** The position of the first `b` in `s`
      (`iter().position(|&x| x == b)`). */
  function FirstIndexOf(s: seq<byte>, b: byte): (r: Option<nat>)
    ensures r.None? <==> b !in s
    ensures r.Some? ==> r.value < |s| && s[r.value] == b && b !in s[..r.value]
    ensures r.Some? ==> forall j :: 0 <= j < r.value ==> s[j] != b
  {
    if |s| == 0 then None
    else if s[0] == b then Some(0)
    else match FirstIndexOf(s[1..], b)
      case None => None
      case Some(k) =>
        assert s[..k + 1] == [s[0]] + s[1..][..k];
        Some(k + 1)
  }

  /** The first occurrence is the one with none before it. */
  lemma FirstIndexOfIs(s: seq<byte>, b: byte, k: nat)
    requires k < |s| && s[k] == b && b !in s[..k]
    ensures FirstIndexOf(s, b) == Some(k)
  {
    forall j | 0 <= j < k
      ensures s[j] != b
    {
      assert s[..k][j] == s[j];
    }
    assert s[k] in s;
  }

  /** The bytes `encrypt_export` assembles before base64-encoding them. */
  function Encode(f: Frame): (r: seq<byte>)
    ensures |r| == |f.salt| + 1 + |f.nonce| + |f.ciphertext|
    ensures r[..|f.salt|] == f.salt && r[|f.salt|] == Separator
    ensures r[|f.salt| + 1..] == f.nonce + f.ciphertext
  {
    var r := f.salt + [Separator] + f.nonce + f.ciphertext;
    assert r[|f.salt| + 1..] == f.nonce + f.ciphertext;
    r
  }

  /** The checks of `decrypt_import` on the decoded bytes, in its order:
      split at the first `':'`, the salt must be UTF-8, at least 12 bytes
      must follow; the nonce is the next 12 bytes and the ciphertext the
      rest. */
  function Parse(data: seq<byte>): (r: Result<Frame, FrameError>)
    ensures r == Failure(NoSeparator) <==> Separator !in data
    ensures r.Success? ==>
      && Separator !in r.value.salt
      && |r.value.nonce| == NonceLength
      && data == r.value.salt + [Separator] + r.value.nonce + r.value.ciphertext
    ensures r.Success? ==> ValidUtf8(r.value.salt)
    ensures r == Failure(TooShort) ==>
      exists pos :: 0 <= pos < |data| && data[pos] == Separator && Separator !in data[..pos] && |data| - pos - 1 < NonceLength
    ensures r == Failure(BadSalt) <==>
      Separator in data && !ValidUtf8(data[..FirstIndexOf(data, Separator).value])
    ensures r == Failure(TooShort) <==>
      Separator in data && ValidUtf8(data[..FirstIndexOf(data, Separator).value])
      && |data| - FirstIndexOf(data, Separator).value - 1 < NonceLength
  {
    match FirstIndexOf(data, Separator)
    case None => Failure(NoSeparator)
    case Some(pos) =>
      if !ValidUtf8(data[..pos]) then Failure(BadSalt)
      else
        var rest := data[pos + 1..];
        if |rest| < NonceLength then Failure(TooShort)
        else
          var f := Frame(data[..pos], rest[..NonceLength], rest[NonceLength..]);
          assert data == data[..pos] + [Separator] + rest[..NonceLength] + rest[NonceLength..];
          Success(f)
  }

  /** Parsing what `encrypt_export` built returns its salt, nonce and
      ciphertext whenever the salt is UTF-8 without a `':'` and the nonce
      has 12 bytes. */
  lemma RoundTrip(f: Frame)
    requires |f.nonce| == NonceLength
    requires Separator !in f.salt
    requires ValidUtf8(f.salt)
    ensures Parse(Encode(f)) == Success(f)
  {
    var data := Encode(f);
    FirstIndexOfIs(data, Separator, |f.salt|);
    var rest := data[|f.salt| + 1..];
    assert rest == f.nonce + f.ciphertext;
    assert rest[..NonceLength] == f.nonce;
    assert rest[NonceLength..] == f.ciphertext;
  }
}
