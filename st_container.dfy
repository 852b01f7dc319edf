/** The SteamTools `.st` container: a 12-byte header of three little-endian
    unsigned 32-bit words (raw key, payload size, reserved), then `size`
    payload bytes XORed with a one-byte key, which zlib-inflate to a buffer
    whose first 512 bytes are a fixed prefix and whose rest is the UTF-8
    text of a Lua unlock script.  zlib and the UTF-8 decoder are not part
    of this model: they are passed in as functions. */
module StContainer {
  import opened Wrappers

  const HeaderSize: nat := 12
  const KeySalt: bv32 := 0xFFFEA4C8
  const PrefixSize: nat := 512

  datatype StError = MalformedHeader | TruncatedPayload | CorruptPayload | InvalidText

  /** The metadata `parse_st_file` returns beside the text: the derived
      one-byte key and the declared payload size. */
  datatype StMeta = StMeta(xorKey: byte, size: nat)

  /** The little-endian unsigned 32-bit word at `off`, as the bit-vector
      the key derivation works on. */
  function U32At(s: seq<byte>, off: nat): bv32
    requires off + 4 <= |s|
  {
    ((s[off + 3] as bv32) << 24) | ((s[off + 2] as bv32) << 16) | ((s[off + 1] as bv32) << 8) | (s[off] as bv32)
  }

  /** The same little-endian word as a number, for the size field. */
  function U32ValueAt(s: seq<byte>, off: nat): nat
    requires off + 4 <= |s|
  {
    s[off] as nat + 0x100 * (s[off + 1] as nat) + 0x1_0000 * (s[off + 2] as nat) + 0x100_0000 * (s[off + 3] as nat)
  }

  /** The four little-endian bytes of `w`. */
  function LeBytes(w: bv32): (b: seq<byte>)
    ensures |b| == 4
  {
    [(w & 0xFF) as byte, ((w >> 8) & 0xFF) as byte, ((w >> 16) & 0xFF) as byte, ((w >> 24) & 0xFF) as byte]
  }

  /** `(raw_key ^ 0xFFFEA4C8) & 0xFF`. */
  function StreamKey(rawKey: bv32): byte
  {
    ((rawKey ^ KeySalt) & 0xFF) as byte
  }

  /** The declared payload size of a container with a complete header. */
  function DeclaredSize(content: seq<byte>): nat
    requires |content| >= HeaderSize
  {
    U32ValueAt(content, 4)
  }

  function XorBytes(s: seq<byte>, k: byte): (r: seq<byte>)
    ensures |r| == |s| && forall i :: 0 <= i < |s| ==> r[i] == s[i] ^ k
  {
    seq(|s|, i requires 0 <= i < |s| => s[i] ^ k)
  }

  /** Python's `buffer[512:]`, which is empty for a shorter buffer. */
  function DropPrefix(d: seq<byte>): (r: seq<byte>)
    ensures |d| >= PrefixSize ==> d == d[..PrefixSize] + r
    ensures |d| < PrefixSize ==> r == []
  {
    if |d| < PrefixSize then [] else d[PrefixSize..]
  }

  /** What `parse_st_file` computes from the file's bytes.  The payload is
      Python's clamped slice `content[12:12 + size]`. */
  function Decode(content: seq<byte>, inflate: seq<byte> -> Option<seq<byte>>, utf8: seq<byte> -> Option<string>)
    : (r: Result<(string, StMeta), StError>)
    ensures r == Err(MalformedHeader) <==> |content| < HeaderSize
    ensures r == Err(TruncatedPayload) <==> |content| >= HeaderSize && |content| < HeaderSize + DeclaredSize(content)
    ensures r.Ok? ==>
      var key, size := StreamKey(U32At(content, 0)), DeclaredSize(content);
      var plain := inflate(XorBytes(content[HeaderSize..HeaderSize + size], key));
      && r.value.1 == StMeta(key, size)
      && plain.Some? && utf8(DropPrefix(plain.value)) == Some(r.value.0)
  {
    if |content| < HeaderSize then Err(MalformedHeader)
    else
      var key := StreamKey(U32At(content, 0));
      var size := DeclaredSize(content);
      var end := if HeaderSize + size <= |content| then HeaderSize + size else |content|;
      Unpack(content[HeaderSize..end], key, size, inflate, utf8)
  }

  /** The payload checks of `parse_st_file` once the header is read: the
      length check, then XOR, inflate, prefix drop and decode. */
  function Unpack(encrypted: seq<byte>, key: byte, size: nat,
                  inflate: seq<byte> -> Option<seq<byte>>, utf8: seq<byte> -> Option<string>)
    : (r: Result<(string, StMeta), StError>)
    ensures r != Err(MalformedHeader)
    ensures r == Err(TruncatedPayload) <==> |encrypted| < size
  {
    if |encrypted| < size then Err(TruncatedPayload)
    else match inflate(XorBytes(encrypted, key))
      case None => Err(CorruptPayload)
      case Some(plain) =>
        match utf8(DropPrefix(plain))
        case None => Err(InvalidText)
        case Some(text) => Ok((text, StMeta(key, size)))
  }

  /** `parse_st_file`: the header checks, then the in-place XOR of a
      `bytearray` copy of the payload, then inflate, prefix drop and decode. */
  method ParseStFile(content: seq<byte>, inflate: seq<byte> -> Option<seq<byte>>, utf8: seq<byte> -> Option<string>)
    returns (r: Result<(string, StMeta), StError>)
    ensures r == Decode(content, inflate, utf8)
  {
    if |content| < HeaderSize {
      return Err(MalformedHeader);
    }
    var key := StreamKey(U32At(content, 0));
    var size := DeclaredSize(content);
    var end := if HeaderSize + size <= |content| then HeaderSize + size else |content|;
    var encrypted := content[HeaderSize..end];
    if |encrypted| < size {
      return Err(TruncatedPayload);
    }
    var data := new byte[|encrypted|](i requires 0 <= i < |encrypted| => encrypted[i]);
    for i := 0 to data.Length
      invariant forall j :: 0 <= j < i ==> data[j] == encrypted[j] ^ key
      invariant forall j :: i <= j < data.Length ==> data[j] == encrypted[j]
    {
      data[i] := data[i] ^ key;
    }
    assert data[..] == XorBytes(encrypted, key);
    match inflate(data[..]) {
      case None =>
        r := Err(CorruptPayload);
      case Some(plain) =>
        match utf8(DropPrefix(plain)) {
          case None => r := Err(InvalidText);
          case Some(text) => r := Ok((text, StMeta(key, size)));
        }
    }
  }

  /** `convert_file`: the script text of `parse_st_file`, its failure re-raised. */
  method ConvertFile(content: seq<byte>, inflate: seq<byte> -> Option<seq<byte>>, utf8: seq<byte> -> Option<string>)
    returns (r: Result<string, StError>)
    ensures r.Ok? <==> Decode(content, inflate, utf8).Ok?
    ensures r.Ok? ==> r.value == Decode(content, inflate, utf8).value.0
    ensures r.Err? ==> r.error == Decode(content, inflate, utf8).error
  {
    var parsed := ParseStFile(content, inflate, utf8);
    match parsed {
      case Ok(v) => r := Ok(v.0);
      case Err(e) => r := Err(e);
    }
  }

  // ---------------------------------------------------------------
  // Properties of the format.

  /** The stream key depends only on the lowest byte of the raw key. */
  lemma StreamKeyFromLowByte(content: seq<byte>)
    requires |content| >= 4
    ensures StreamKey(U32At(content, 0)) == content[0] ^ 0xC8
  {
  }

  lemma LeBytesRoundTrip(w: bv32)
    ensures U32At(LeBytes(w), 0) == w
  {
  }

  lemma XorInvolutive(s: seq<byte>, k: byte)
    ensures XorBytes(XorBytes(s, k), k) == s
  {
    var t := XorBytes(XorBytes(s, k), k);
    forall i | 0 <= i < |s| ensures t[i] == s[i] {
      assert t[i] == (s[i] ^ k) ^ k;
    }
  }

  /** Only bytes [12, 12 + size) are read: whatever follows them is ignored. */
  lemma DecodeIgnoresTrailing(content: seq<byte>, trailing: seq<byte>,
                              inflate: seq<byte> -> Option<seq<byte>>, utf8: seq<byte> -> Option<string>)
    requires |content| >= HeaderSize && |content| >= HeaderSize + DeclaredSize(content)
    ensures Decode(content + trailing, inflate, utf8) == Decode(content, inflate, utf8)
  {
    var whole := content + trailing;
    SameHeader(whole, content);
    var key, size := StreamKey(U32At(content, 0)), DeclaredSize(content);
    var payload := content[HeaderSize..HeaderSize + size];
    assert whole[HeaderSize..HeaderSize + size] == payload;
    DecodeComplete(whole, inflate, utf8);
    DecodeComplete(content, inflate, utf8);
  }

  /** With the whole payload present, decoding reads exactly bytes
      [12, 12 + size). */
  lemma DecodeComplete(content: seq<byte>, inflate: seq<byte> -> Option<seq<byte>>, utf8: seq<byte> -> Option<string>)
    requires |content| >= HeaderSize && |content| >= HeaderSize + DeclaredSize(content)
    ensures Decode(content, inflate, utf8) ==
      Unpack(content[HeaderSize..HeaderSize + DeclaredSize(content)], StreamKey(U32At(content, 0)), DeclaredSize(content), inflate, utf8)
  {
  }

  /** Two buffers with the same twelve leading bytes have the same header. */
  lemma SameHeader(a: seq<byte>, b: seq<byte>)
    requires |a| >= HeaderSize && |b| >= HeaderSize
    requires forall i :: 0 <= i < HeaderSize ==> a[i] == b[i]
    ensures U32At(a, 0) == U32At(b, 0) && DeclaredSize(a) == DeclaredSize(b)
  {
    assert a[0] == b[0] && a[1] == b[1] && a[2] == b[2] && a[3] == b[3];
    assert a[4] == b[4] && a[5] == b[5] && a[6] == b[6] && a[7] == b[7];
  }

  /** A container assembled from a raw key, a size field, a reserved word
      and a compressed buffer: the format as the producing side writes it. */
  function Encode(rawKey: bv32, sizeField: seq<byte>, reserved: seq<byte>, compressed: seq<byte>): (c: seq<byte>)
    requires |sizeField| == 4 && |reserved| == 4
    ensures |c| == HeaderSize + |compressed|
  {
    LeBytes(rawKey) + sizeField + reserved + XorBytes(compressed, StreamKey(rawKey))
  }

  /** Decoding an assembled container whose size field states the buffer's
      length, with anything appended, recovers the compressed buffer
      exactly: the outcome is that of inflating it, and the metadata is the
      derived key and the buffer's length. */
  lemma DecodeEncoded(rawKey: bv32, sizeField: seq<byte>, reserved: seq<byte>, compressed: seq<byte>,
                      trailing: seq<byte>, inflate: seq<byte> -> Option<seq<byte>>, utf8: seq<byte> -> Option<string>)
    requires |sizeField| == 4 && |reserved| == 4 && U32ValueAt(sizeField, 0) == |compressed|
    ensures var r := Decode(Encode(rawKey, sizeField, reserved, compressed) + trailing, inflate, utf8);
      match inflate(compressed)
      case None => r == Err(CorruptPayload)
      case Some(plain) =>
        match utf8(DropPrefix(plain))
        case None => r == Err(InvalidText)
        case Some(text) => r == Ok((text, StMeta(StreamKey(rawKey), |compressed|)))
  {
    var c := Encode(rawKey, sizeField, reserved, compressed);
    EncodedHeader(rawKey, sizeField, reserved, compressed);
    DecodeIgnoresTrailing(c, trailing, inflate, utf8);
    XorInvolutive(compressed, StreamKey(rawKey));
  }

  /** The header of an assembled container holds the raw key and the size
      field, and its payload is the encrypted buffer. */
  lemma EncodedHeader(rawKey: bv32, sizeField: seq<byte>, reserved: seq<byte>, compressed: seq<byte>)
    requires |sizeField| == 4 && |reserved| == 4
    ensures var c := Encode(rawKey, sizeField, reserved, compressed);
      && U32At(c, 0) == rawKey && DeclaredSize(c) == U32ValueAt(sizeField, 0)
      && c[HeaderSize..] == XorBytes(compressed, StreamKey(rawKey))
  {
    var c := Encode(rawKey, sizeField, reserved, compressed);
    var raw := LeBytes(rawKey);
    assert c == raw + (sizeField + reserved + XorBytes(compressed, StreamKey(rawKey)));
    WordOfPrefix(raw, sizeField + reserved + XorBytes(compressed, StreamKey(rawKey)));
    LeBytesRoundTrip(rawKey);
    var rest := sizeField + reserved + XorBytes(compressed, StreamKey(rawKey));
    assert c[4..] == rest;
    assert rest[0] == sizeField[0] && rest[1] == sizeField[1] && rest[2] == sizeField[2] && rest[3] == sizeField[3];
    assert c[HeaderSize..] == XorBytes(compressed, StreamKey(rawKey));
  }

  lemma WordOfPrefix(a: seq<byte>, b: seq<byte>)
    requires |a| == 4
    ensures U32At(a + b, 0) == U32At(a, 0)
  {
    var c := a + b;
    assert c[0] == a[0] && c[1] == a[1] && c[2] == a[2] && c[3] == a[3];
  }
}
