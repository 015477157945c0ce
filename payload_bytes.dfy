/** The two byte-copy loops the registration wizard uses to move WebAuthn
    payloads between base64 text and byte buffers. `atob` and `btoa` are
    the browser's base64 codecs (section 4 of RFC 4648); they are passed in
    as functions, `atob` yielding None where it throws. */
module PayloadBytes {
  import opened JsValues

  /** An element of a `Uint8Array`. */
  newtype byte = x: int | 0 <= x < 256

  /** Storing a number into a `Uint8Array` keeps it modulo 2^8. */
  function ToUint8(code: int): byte
  {
    (code % 256) as byte
  }

  /** The bytes the loop of `base64ToArrayBuffer` writes: byte i is the
      char code of character i of the binary string. */
  function BytesOf(binary: string): (r: seq<byte>)
    ensures |r| == |binary|
    ensures forall i | 0 <= i < |binary| :: r[i] == ToUint8(binary[i] as int)
  {
    if binary == "" then [] else [ToUint8(binary[0] as int)] + BytesOf(binary[1..])
  }

  /** The binary string the loop of `arrayBufferToBase64` builds: character
      i has char code byte i. */
  function BinaryOf(bytes: seq<byte>): (r: string)
    ensures |r| == |bytes|
    ensures forall i | 0 <= i < |bytes| :: r[i] as int == bytes[i] as int
  {
    if bytes == [] then "" else [(bytes[0] as int) as char] + BinaryOf(bytes[1..])
  }

  /** Every character of a binary string built from bytes is below 256, so
      `btoa` accepts it. */
  predicate IsBinaryString(s: string)
  {
    forall i | 0 <= i < |s| :: (s[i] as int) < 256
  }

  /** What `arrayBufferToBase64` returns. */
  function Encode(bytes: seq<byte>, btoa: string -> string): string
  {
    btoa(BinaryOf(bytes))
  }

  /** What `base64ToArrayBuffer` returns, None where `atob` throws. */
  function Decode(text: string, atob: string -> Option<string>): Option<seq<byte>>
  {
    match atob(text)
    case None => None
    case Some(binary) => Some(BytesOf(binary))
  }

  lemma {:induction false} BytesOfBinaryOf(bytes: seq<byte>)
    ensures IsBinaryString(BinaryOf(bytes))
    ensures BytesOf(BinaryOf(bytes)) == bytes
  {
    if bytes != [] {
      BytesOfBinaryOf(bytes[1..]);
      var c := (bytes[0] as int) as char;
      assert ([c] + BinaryOf(bytes[1..]))[1..] == BinaryOf(bytes[1..]);
    }
  }

  /** If `atob` undoes `btoa` on binary strings, decoding what was encoded
      gives back the same bytes. */
  lemma DecodeEncode(bytes: seq<byte>, atob: string -> Option<string>, btoa: string -> string)
    requires forall s | IsBinaryString(s) :: atob(btoa(s)) == Some(s)
    ensures Decode(Encode(bytes, btoa), atob) == Some(bytes)
  {
    BytesOfBinaryOf(bytes);
  }

  /** `base64ToArrayBuffer(base64)` */
  method Base64ToArrayBuffer(base64: string, atob: string -> Option<string>) returns (buffer: Option<array<byte>>)
    ensures atob(base64).None? ==> buffer.None?
    ensures atob(base64).Some? ==>
      buffer.Some? && fresh(buffer.value) && buffer.value[..] == BytesOf(atob(base64).value)
  {
    var decoded := atob(base64);
    if decoded.None? {
      return None;
    }
    var binaryString := decoded.value;
    var len := |binaryString|;
    var bytes := new byte[len];
    for i := 0 to len
      invariant forall j | 0 <= j < i :: bytes[j] == ToUint8(binaryString[j] as int)
    {
      bytes[i] := ToUint8(binaryString[i] as int);
    }
    return Some(bytes);
  }

  /** `arrayBufferToBase64(buffer)` */
  method ArrayBufferToBase64(buffer: array<byte>, btoa: string -> string) returns (text: string)
    ensures text == Encode(buffer[..], btoa)
  {
    var binary := "";
    for i := 0 to buffer.Length
      invariant |binary| == i
      invariant forall j | 0 <= j < i :: binary[j] as int == buffer[j] as int
    {
      binary := binary + [(buffer[i] as int) as char];
    }
    assert binary == BinaryOf(buffer[..]);
    text := btoa(binary);
  }
}
