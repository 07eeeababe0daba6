/** Media transfer (`cdn.go`, `notify.go`): size limits on 64-bit integers, the
    forms in which a key travels, and the round trip of upload and download. */
module Media {
  import opened Messages
  import opened Hex
  import opened Crypto
  import opened Backoff
  import Base64

  datatype MediaError =
    | MediaTooLarge | InvalidImageKey | InvalidMediaKey | DecryptFailed(error: Crypto.Error) | CipherFailed

  datatype Outcome<+T> = Success(value: T) | Failure(error: MediaError)

  /** What `validate` guarantees of `MaxMediaBytes`. */
  predicate ValidLimit(max: int64) {
    1 <= max as int <= MAX_INT64 - 32
  }

  // ----- keys

  /** `[]byte(s)` of an ASCII string, and `string(b)` back. */
  function BytesOf(s: string): seq<byte> {
    if s == "" then [] else [s[0] as int % 256] + BytesOf(s[1..])
  }

  function TextOf(data: seq<byte>): string {
    if data == [] then "" else [data[0] as char] + TextOf(data[1..])
  }

  lemma {:induction false} TextBytes(s: string)
    requires forall c <- s :: c as int < 256
    ensures TextOf(BytesOf(s)) == s && |BytesOf(s)| == |s|
  {
    if s != "" {
      assert s[0] in s && forall c <- s[1..] :: c in s;
      TextBytes(s[1..]);
    }
  }

  /** `imageAESKey`: the image's own hexadecimal key goes first; else the media key,
      base64 of 16 raw bytes or of 32 hexadecimal characters; else no key at all. */
  function ImageAESKey(imageKey: string, mediaKey: string): Outcome<seq<byte>> {
    if imageKey != "" then
      match Hex.Decode(imageKey)
      case Some(key) => if |key| == BLOCK then Success(key) else Failure(InvalidImageKey)
      case None => Failure(InvalidImageKey)
    else if mediaKey == "" then Success([])
    else
      match Base64.Decode(mediaKey)
      case None => Failure(InvalidMediaKey)
      case Some(decoded) =>
        if |decoded| == BLOCK then Success(decoded)
        else if |decoded| == 2 * BLOCK && Hex.Decode(TextOf(decoded)).Some?
        then Success(Hex.Decode(TextOf(decoded)).value)
        else Failure(InvalidMediaKey)
  }

  /** The key form of sent media: base64 of the hexadecimal key. */
  function SentKey(key: seq<byte>): string {
    Base64.Encode(BytesOf(Hex.Encode(key)))
  }

  lemma {:induction false} HexIsAscii(data: seq<byte>)
    ensures forall c <- Hex.Encode(data) :: c as int < 256
  {
    if data != [] {
      HexIsAscii(data[1..]);
    }
  }

  /** A 16-byte key is recovered from each of the three forms it may travel in. */
  lemma KeyForms(key: seq<byte>, other: string)
    requires |key| == BLOCK
    ensures ImageAESKey("", SentKey(key)) == Success(key)
    ensures ImageAESKey("", Base64.Encode(key)) == Success(key)
    ensures ImageAESKey(Hex.Encode(key), other) == Success(key)
  {
    Hex.RoundTrip(key);
    HexIsAscii(key);
    TextBytes(Hex.Encode(key));
    Base64.RoundTrip(BytesOf(Hex.Encode(key)));
    Base64.RoundTrip(key);
  }

  /** An accepted key is absent or one AES-128 key. */
  lemma KeyLength(imageKey: string, mediaKey: string)
    requires ImageAESKey(imageKey, mediaKey).Success?
    ensures |ImageAESKey(imageKey, mediaKey).value| in {0, BLOCK}
  {
    if imageKey == "" && mediaKey != "" {
      Hex.DecodeLength(TextOf(Base64.Decode(mediaKey).value));
      SameLength(Base64.Decode(mediaKey).value);
    }
  }

  lemma {:induction false} SameLength(data: seq<byte>)
    ensures |TextOf(data)| == |data|
  {
    if data != [] {
      SameLength(data[1..]);
    }
  }

  // ----- sizes

  /** `AESECBPaddedSize` on machine integers. */
  method AESECBPaddedSize(n: int64) returns (size: int64)
    requires 0 <= n as int <= MAX_INT64 - 32
    ensures size as int == PaddedSize(n as int)
  {
    size := (n / 16 + 1) * 16;
  }

  /** Padding adds between one byte and one block. */
  lemma PaddedSizeRange(n: nat)
    ensures n < PaddedSize(n) <= n + BLOCK && PaddedSize(n) % BLOCK == 0
  {}

  /** What the server is told and sent. */
  datatype Upload = Upload(rawSize: int64, fileSize: int64, keyHex: string, body: seq<byte>)

  /** The size logic of `UploadToCDN` with a freshly drawn key. */
  method UploadToCDN(c: Cipher, max: int64, data: seq<byte>, key: seq<byte>) returns (r: Outcome<Upload>)
    requires BlockCipher(c) && ValidLimit(max) && |key| == BLOCK
    requires |data| <= MAX_INT64
    ensures r.Failure? <==> |data| > max as int
    ensures r.Failure? ==> r.error == MediaTooLarge
    ensures r.Success? ==>
              && r.value.rawSize as int == |data|
              && r.value.fileSize as int == PaddedSize(|data|) == |r.value.body|
              && Encrypt(c, data, key) == Ok(r.value.body)
              && r.value.keyHex == Hex.Encode(key)
  {
    if |data| > max as int {
      return Failure(MediaTooLarge);
    }
    var cipherSize := AESECBPaddedSize(|data| as int64);
    var encrypted := AESECBEncrypt(c, data, key);
    assert encrypted.Ok?;  // the key has the right length
    CiphertextSize(c, data, key);
    return Success(Upload(|data| as int64, cipherSize, Hex.Encode(key), encrypted.value[..]));
  }

  /** `readLimitedBody`: reads one byte past the limit to tell that it is passed. */
  method ReadLimitedBody(body: seq<byte>, limit: int64) returns (data: Option<seq<byte>>)
    requires 0 <= limit as int < MAX_INT64
    ensures data == if |body| > limit as int then None else Some(body)
  {
    var n := limit + 1;
    var read := if |body| > n as int then body[..n as int] else body;
    if |read| > limit as int {
      return None;
    }
    return Some(read);
  }

  /** A ciphertext may be one block longer than its plaintext. */
  function BodyLimit(max: int, key: seq<byte>): int {
    if key == [] then max else max + BLOCK
  }

  /** What a download comes to, as a function of the body alone. */
  function Downloaded(c: Cipher, max: int, body: seq<byte>, key: seq<byte>): Outcome<seq<byte>> {
    if |body| > BodyLimit(max, key) then Failure(MediaTooLarge)
    else if key == [] then Success(body)
    else
      match Decrypt(c, body, key)
      case Err(e) => Failure(DecryptFailed(e))
      case Ok(data) => if |data| > max then Failure(MediaTooLarge) else Success(data)
  }

  /** `downloadAndDecryptImage` once a response is there; its announced length is
      negative when unknown, and too large a one is refused before reading. */
  method DownloadAndDecrypt(c: Cipher, max: int64, contentLength: int64, body: seq<byte>, key: seq<byte>)
    returns (r: Outcome<seq<byte>>)
    requires BlockCipher(c) && ValidLimit(max)
    ensures r == if contentLength as int > BodyLimit(max as int, key) then Failure(MediaTooLarge)
                 else Downloaded(c, max as int, body, key)
    ensures r.Success? ==> |r.value| <= max as int
  {
    var bodyLimit := max;
    if |key| != 0 && bodyLimit <= 0x7FFF_FFFF_FFFF_FFFF - 16 {
      bodyLimit := bodyLimit + 16;
    }
    if contentLength > bodyLimit {
      return Failure(MediaTooLarge);
    }
    var read := ReadLimitedBody(body, bodyLimit);
    if read.None? {
      return Failure(MediaTooLarge);
    }
    var data := read.value;
    if |key| != 0 {
      var plain := AESECBDecrypt(c, data, key);
      if plain.Err? {
        return Failure(DecryptFailed(plain.error));
      }
      data := plain.value;
    }
    if |data| > max as int {
      return Failure(MediaTooLarge);
    }
    return Success(data);
  }

  /** Whatever an upload accepts comes back unchanged under the same limit, through
      the key form it is sent with; whatever is longer is refused by the download
      too, although its ciphertext may still fit the body limit. */
  lemma RoundTrip(c: Cipher, max: int64, data: seq<byte>, key: seq<byte>)
    requires BlockCipher(c) && ValidLimit(max) && |key| == BLOCK
    ensures ImageAESKey("", SentKey(key)) == Success(key)
    ensures Downloaded(c, max as int, Encrypt(c, data, key).value, key) ==
            if |data| <= max as int then Success(data) else Failure(MediaTooLarge)
  {
    KeyForms(key, "");
    CiphertextSize(c, data, key);
    DecryptEncrypt(c, data, key);
    PaddedSizeRange(|data|);
    NonEmptyCiphertext(c, data, key);
  }

  lemma NonEmptyCiphertext(c: Cipher, data: seq<byte>, key: seq<byte>)
    requires BlockCipher(c) && ValidKey(key)
    ensures Encrypt(c, data, key).value != []
  {
    CiphertextSize(c, data, key);
    PaddedSizeRange(|data|);
  }

  /** A key of the image itself decides alone: 32 hexadecimal digits, or it is refused. */
  lemma ImageKeyDecides(imageKey: string, mediaKey: string, other: string)
    requires imageKey != ""
    ensures ImageAESKey(imageKey, mediaKey) == ImageAESKey(imageKey, other)
    ensures ImageAESKey(imageKey, mediaKey).Success? <==> |imageKey| == 32 && Hex.Decode(imageKey).Some?
    ensures ImageAESKey(imageKey, mediaKey).Failure? ==> ImageAESKey(imageKey, mediaKey).error == InvalidImageKey
  {
    Hex.DecodeLength(imageKey);
  }

  /** Without a key the body is the plaintext, as long as it is within the limit. */
  lemma PlainDownload(c: Cipher, max: int, body: seq<byte>)
    ensures ImageAESKey("", "") == Success([])
    ensures Downloaded(c, max, body, []) == if |body| <= max then Success(body) else Failure(MediaTooLarge)
  {}

  /** What is sent as the key is base64 of the hexadecimal text of the key. */
  lemma SentKeySpelt(key: seq<byte>)
    ensures Base64.Decode(SentKey(key)).Some?
    ensures TextOf(Base64.Decode(SentKey(key)).value) == Hex.Encode(key)
  {
    HexIsAscii(key);
    TextBytes(Hex.Encode(key));
    Base64.RoundTrip(BytesOf(Hex.Encode(key)));
  }

  /** The ciphertext of accepted data passes the body limit, and no sum of limits
      overflows under the configured bound. */
  lemma LimitsFit(max: int64, size: nat, key: seq<byte>)
    requires ValidLimit(max) && size <= max as int && key != []
    ensures PaddedSize(size) <= BodyLimit(max as int, key) < MAX_INT64
  {
    PaddedSizeRange(size);
  }
}
