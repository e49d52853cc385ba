/** How a path is stored in a JSON line: as text when it is UTF-8, as base64 when it is not. */
module PathField {
  import opened Types
  import opened Utf8
  import opened Base64

  datatype Field = Plain(bytes: Bytes) | Coded(text: string)

  /** What a C string holds of a buffer. */
  function UpToNul(s: Bytes): (r: Bytes)
    ensures r <= s && 0 !in r
    ensures r == s <==> 0 !in s
  {
    if s == [] || s[0] == 0 then [] else [s[0]] + UpToNul(s[1..])
  }

  ghost function Stored(raw: Bytes): Field {
    if IsUtf8(raw) then Plain(UpToNul(raw)) else Coded(Encoded(raw))
  }

  /** The one rule of the three writers. */
  method SetPathField(raw: Bytes) returns (f: Field)
    ensures f == Stored(raw)
  {
    var valid := Utf8Valid(raw);
    if valid { return Plain(UpToNul(raw)); }
    var text := Base64Encode(raw);
    return Coded(text);
  }

  function ReadBack(dec: Decoder, f: Field): Option<Bytes> {
    match f
    case Plain(b) => Some(UpToNul(b))
    case Coded(text) => Decoded(dec, text)
  }

  /** Each reader with its own decoder. */
  method GetPathField(dec: Decoder, f: Field) returns (r: Option<Bytes>)
    ensures r == ReadBack(dec, f)
  {
    match f {
      case Plain(b) => return Some(UpToNul(b));
      case Coded(text) =>
        match dec {
          case ManifestDecoder => r := ManifestDecode(text);
          case IndexDecoder => r := IndexDecode(text);
          case PackDecoder => r := PackDecode(text);
        }
    }
  }

  /** Whichever reader reads it, a stored path comes back exactly unless it is UTF-8 with a NUL in it;
      and every path the file system allows does. */
  lemma RoundTripsExactly(dec: Decoder, raw: Bytes)
    ensures ReadBack(dec, Stored(raw)) == Some(raw) <==> (IsUtf8(raw) ==> 0 !in raw)
  {
    DecodedInvertsEncoded(dec, raw);
    hide Encoded, Decoded, IsUtf8;
    assert UpToNul(UpToNul(raw)) == UpToNul(raw);
  }

  /** A path without a NUL is stored as text exactly if it is UTF-8, as base64 otherwise. */
  lemma StoredAsText(raw: Bytes)
    requires 0 !in raw
    ensures IsUtf8(raw) <==> Stored(raw) == Plain(raw)
    ensures !IsUtf8(raw) <==> Stored(raw) == Coded(Encoded(raw))
  {
    hide IsUtf8, Encoded;
  }

  /** Two paths are stored alike only if they are the same path. */
  lemma StoredInjective(a: Bytes, b: Bytes)
    requires 0 !in a && 0 !in b && Stored(a) == Stored(b)
    ensures a == b
  {
    RoundTripsExactly(IndexDecoder, a);
    RoundTripsExactly(IndexDecoder, b);
  }
}
