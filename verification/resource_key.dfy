/** Content addressing: the storage key of a resource is the lowercase hexadecimal
    SHA-256 digest (FIPS 180-4) of its bytes, optionally followed by `.` and a file
    extension. The digest algorithm itself is a parameter of the model. */
module ResourceKey {
  import opened Wrappers

  newtype byte = x: int | 0 <= x < 256

  predicate IsLowerHex(c: char) {
    '0' <= c <= '9' || 'a' <= c <= 'f'
  }

  predicate IsHexDigest(s: string) {
    |s| == 64 && forall i | 0 <= i < |s| :: IsLowerHex(s[i])
  }

  /** What `digest('hex')` of a SHA-256 hash returns: 64 lowercase hex characters. */
  type HexDigest = s: string | IsHexDigest(s)
    witness seq(64, _ => '0')

  /** The SHA-256 function, left uninterpreted apart from the shape of its output. */
  type Sha256 = seq<byte> -> HexDigest

  /** The key for a digest and an optional extension. */
  function ComposeKey(digest: HexDigest, ext: Option<string>): string
  {
    match ext
    case None => digest
    case Some(e) => digest + "." + e
  }

  /** `getResourceKey(content, ext)`: the digest of the content, with `.ext` appended
      when an extension is given. The key always starts with the full digest, and
      its length tells whether an extension was given. */
  function GetResourceKey(sha256: Sha256, content: seq<byte>, ext: Option<string>): (key: string)
    ensures |key| >= 64 && key[..64] == sha256(content)
    ensures ext.None? <==> |key| == 64
    ensures ext.Some? ==> key[64] == '.' && key[65..] == ext.value
  {
    ComposeKey(sha256(content), ext)
  }

  /** Splits a key back into its digest and extension; `None` for a string that is
      not a key. */
  function ParseKey(key: string): Option<(HexDigest, Option<string>)>
  {
    if |key| < 64 || !IsHexDigest(key[..64]) then None
    else if |key| == 64 then Some((key[..64], None))
    else if key[64] == '.' then Some((key[..64], Some(key[65..])))
    else None
  }

  /** The digest and the extension can be read back from every key. */
  lemma ParseComposeKey(digest: HexDigest, ext: Option<string>)
    ensures ParseKey(ComposeKey(digest, ext)) == Some((digest, ext))
  {
    var key := ComposeKey(digest, ext);
    assert key[..64] == digest;
    if ext.Some? {
      assert key[65..] == ext.value;
    }
  }

  /** Every string that parses as a key is the key of what it parses to. */
  lemma ComposeParsedKey(key: string)
    requires ParseKey(key).Some?
    ensures ComposeKey(ParseKey(key).value.0, ParseKey(key).value.1) == key
  {
    if |key| > 64 {
      assert key == key[..64] + "." + key[65..];
    } else {
      assert key[..64] == key;
    }
  }

  /** Two keys are equal exactly when the digests are equal and the extensions are
      equal: an extension never hides a digest difference, and two different
      extensions on the same bytes give two different keys. */
  lemma KeyInjective(sha256: Sha256, c1: seq<byte>, e1: Option<string>, c2: seq<byte>, e2: Option<string>)
    ensures GetResourceKey(sha256, c1, e1) == GetResourceKey(sha256, c2, e2)
        <==> sha256(c1) == sha256(c2) && e1 == e2
  {
    ParseComposeKey(sha256(c1), e1);
    ParseComposeKey(sha256(c2), e2);
  }

  /** Where the digest has no collision on the two payloads, equal keys mean equal
      bytes and equal extensions: this is what makes deduplication by key sound. */
  lemma KeysIdentifyContent(sha256: Sha256, c1: seq<byte>, e1: Option<string>, c2: seq<byte>, e2: Option<string>)
    requires sha256(c1) == sha256(c2) ==> c1 == c2
    ensures GetResourceKey(sha256, c1, e1) == GetResourceKey(sha256, c2, e2) <==> c1 == c2 && e1 == e2
  {
    KeyInjective(sha256, c1, e1, c2, e2);
  }
}
