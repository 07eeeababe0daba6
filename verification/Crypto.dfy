/** The media cipher (`crypto.go`): PKCS#7 padding (section 6.3 of RFC 5652) under
    electronic codebook mode (section 6.1 of NIST SP 800-38A), over any block
    cipher that is a bijection on blocks for each key. */
module Crypto {
  import opened Hex

  datatype Error = InvalidBlockSize | InvalidPadding | InvalidKey

  datatype Result<+T> = Ok(value: T) | Err(error: Error)

  const BLOCK := 16

  // ----- padding

  function Repeat(b: byte, n: nat): (s: seq<byte>)
    ensures |s| == n && forall i :: 0 <= i < n ==> s[i] == b
  {
    if n == 0 then [] else [b] + Repeat(b, n - 1)
  }

  predicate ValidBlockSize(blockSize: int) {
    0 < blockSize <= 255
  }

  function PadLength(size: nat, blockSize: int): (n: nat)
    requires ValidBlockSize(blockSize)
    ensures 1 <= n <= blockSize && (size + n) % blockSize == 0
  {
    PadLengthFits(size, blockSize);
    blockSize - size % blockSize
  }

  lemma PadLengthFits(size: nat, blockSize: int)
    requires blockSize > 0
    ensures (size + (blockSize - size % blockSize)) % blockSize == 0
  {
    var q := size / blockSize;
    assert size + (blockSize - size % blockSize) == blockSize * (q + 1);
    MultipleHasNoRemainder(blockSize, q + 1);
  }

  lemma ProductAtLeast(d: int, k: int)
    requires d > 0 && k >= 1
    ensures d * k >= d
  {}

  /** No multiple of d lies strictly between two neighbours. */
  lemma SmallMultiple(d: int, k: int)
    requires d > 0 && -d < d * k < d
    ensures k == 0
  {
    assert d * (-k) == -(d * k);
    if k >= 1 { ProductAtLeast(d, k); }
    if k <= -1 { ProductAtLeast(d, -k); }
  }

  lemma MultipleHasNoRemainder(d: int, q: int)
    requires d > 0
    ensures (d * q) % d == 0
  {
    var x := d * q;
    assert x == d * (x / d) + x % d;
    assert d * (q - x / d) == d * q - d * (x / d);
    SmallMultiple(d, q - x / d);
  }

  /** The padding length is the only one that completes the last block. */
  lemma PadLengthUnique(size: nat, n: nat, blockSize: int)
    requires ValidBlockSize(blockSize) && 1 <= n <= blockSize && (size + n) % blockSize == 0
    ensures n == PadLength(size, blockSize)
  {
    var m := PadLength(size, blockSize);
    var a, b := (size + n) / blockSize, (size + m) / blockSize;
    assert size + n == blockSize * a && size + m == blockSize * b;
    assert blockSize * (a - b) == blockSize * a - blockSize * b == n - m;
    SmallMultiple(blockSize, a - b);
  }

  function Pad(data: seq<byte>, blockSize: int): Result<seq<byte>> {
    if !ValidBlockSize(blockSize) then Err(InvalidBlockSize)
    else
      var n := PadLength(|data|, blockSize);
      Ok(data + Repeat(n, n))
  }

  function Unpad(data: seq<byte>, blockSize: int): Result<seq<byte>> {
    if !ValidBlockSize(blockSize) then Err(InvalidBlockSize)
    else if data == [] then Err(InvalidPadding)
    else if |data| % blockSize != 0 then Err(InvalidBlockSize)
    else
      var n := data[|data| - 1];
      if n == 0 || n > blockSize || n > |data| then Err(InvalidPadding)
      else if data[|data| - n..] == Repeat(n, n) then Ok(data[..|data| - n])
      else Err(InvalidPadding)
  }

  /** Unpadding undoes padding, for every block size from 1 to 255. */
  lemma UnpadPad(data: seq<byte>, blockSize: int)
    requires ValidBlockSize(blockSize)
    ensures Unpad(Pad(data, blockSize).value, blockSize) == Ok(data)
  {
    var n := PadLength(|data|, blockSize);
    var padded := data + Repeat(n, n);
    assert padded[|padded| - 1] == n;
    assert padded[|padded| - n..] == Repeat(n, n) && padded[..|padded| - n] == data;
  }

  /** Whatever unpadding accepts is the padding of its result, and of nothing else. */
  lemma PadUnpad(padded: seq<byte>, blockSize: int)
    requires Unpad(padded, blockSize).Ok?
    ensures Pad(Unpad(padded, blockSize).value, blockSize) == Ok(padded)
  {
    var n := padded[|padded| - 1];
    var data := Unpad(padded, blockSize).value;
    PadLengthUnique(|data|, n, blockSize);
    assert padded == data + Repeat(n, n);
  }

  /** Exactly the paddings are accepted. */
  lemma AcceptsPaddings(padded: seq<byte>, blockSize: int)
    ensures Unpad(padded, blockSize).Ok? <==> exists data :: Pad(data, blockSize) == Ok(padded)
  {
    if Unpad(padded, blockSize).Ok? {
      PadUnpad(padded, blockSize);
    }
    if data :| Pad(data, blockSize) == Ok(padded) {
      UnpadPad(data, blockSize);
    }
  }

  /** Which inputs unpadding refuses, and how; the last byte says how many bytes, all
      of that value, are padding. */
  lemma UnpadAnswers(data: seq<byte>, blockSize: int)
    ensures blockSize <= 0 || blockSize > 255 ==> Unpad(data, blockSize) == Err(InvalidBlockSize)
    ensures 0 < blockSize <= 255 && data == [] ==> Unpad(data, blockSize) == Err(InvalidPadding)
    ensures 0 < blockSize <= 255 && data != [] && |data| % blockSize != 0 ==>
              Unpad(data, blockSize) == Err(InvalidBlockSize)
    ensures 0 < blockSize <= 255 && data != [] && |data| % blockSize == 0 ==>
              var n := data[|data| - 1];
              Unpad(data, blockSize) ==
              if 1 <= n <= blockSize && n <= |data| && (forall i :: |data| - n <= i < |data| ==> data[i] == n)
              then Ok(data[..|data| - n]) else Err(InvalidPadding)
  {
    if data != [] {
      var n := data[|data| - 1];
      if n <= |data| {
        var tail := data[|data| - n..];
        assert forall i :: 0 <= i < n ==> tail[i] == data[|data| - n + i];
        assert forall i :: |data| - n <= i < |data| ==> data[i] == tail[i - (|data| - n)];
      }
    }
  }

  method PKCS7Pad(data: seq<byte>, blockSize: int) returns (r: Result<array<byte>>)
    ensures r.Err? ==> Pad(data, blockSize) == Err(r.error)
    ensures r.Ok? ==> fresh(r.value) && Pad(data, blockSize) == Ok(r.value[..])
    ensures r.Ok? ==> ValidBlockSize(blockSize) && r.value.Length % blockSize == 0
    ensures r.Ok? ==> |data| < r.value.Length <= |data| + blockSize && r.value[..|data|] == data
    ensures r.Ok? ==> forall i :: |data| <= i < r.value.Length ==> r.value[i] == r.value.Length - |data|
  {
    if blockSize <= 0 || blockSize > 255 {
      return Err(InvalidBlockSize);
    }
    PadLengthFits(|data|, blockSize);
    var padLen := blockSize - |data| % blockSize;
    var padded := new byte[|data| + padLen];
    forall i | 0 <= i < |data| {
      padded[i] := data[i];
    }
    var i := |data|;
    while i < padded.Length
      invariant |data| <= i <= padded.Length
      invariant padded[..|data|] == data
      invariant forall k :: |data| <= k < i ==> padded[k] == padLen
    {
      padded[i] := padLen;
      i := i + 1;
    }
    assert padded[..] == data + Repeat(padLen, padLen);
    r := Ok(padded);
  }

  method PKCS7Unpad(data: array<byte>, blockSize: int) returns (r: Result<seq<byte>>)
    ensures r == Unpad(data[..], blockSize)
  {
    if blockSize <= 0 || blockSize > 255 {
      return Err(InvalidBlockSize);
    }
    if data.Length == 0 {
      return Err(InvalidPadding);
    }
    if data.Length % blockSize != 0 {
      return Err(InvalidBlockSize);
    }
    var padLen := data[data.Length - 1];
    if padLen == 0 || padLen > blockSize || padLen > data.Length {
      return Err(InvalidPadding);
    }
    var from := data.Length - padLen;
    var i := from;
    while i < data.Length
      invariant from <= i <= data.Length
      invariant forall k :: from <= k < i ==> data[k] == padLen
    {
      if data[i] != padLen {
        assert data[..][from..][i - from] != Repeat(padLen, padLen)[i - from];
        return Err(InvalidPadding);
      }
      i := i + 1;
    }
    assert data[..][from..] == Repeat(padLen, padLen);
    r := Ok(data[..from]);
  }

  // ----- the block cipher

  datatype Cipher = Cipher(
    encrypt: (seq<byte>, seq<byte>) -> seq<byte>,
    decrypt: (seq<byte>, seq<byte>) -> seq<byte>)

  /** `aes.NewCipher` accepts keys of these lengths only. */
  predicate ValidKey(key: seq<byte>) {
    |key| == 16 || |key| == 24 || |key| == 32
  }

  /** For each key the two directions are inverse bijections on blocks. */
  ghost predicate BlockCipher(c: Cipher) {
    && (forall key, block :: ValidKey(key) && |block| == BLOCK ==>
          |c.encrypt(key, block)| == BLOCK && c.decrypt(key, c.encrypt(key, block)) == block)
    && (forall key, block :: ValidKey(key) && |block| == BLOCK ==>
          |c.decrypt(key, block)| == BLOCK && c.encrypt(key, c.decrypt(key, block)) == block)
  }

  // ----- the mode

  function EncryptBlocks(c: Cipher, key: seq<byte>, data: seq<byte>): seq<byte> {
    if |data| < BLOCK then [] else c.encrypt(key, data[..BLOCK]) + EncryptBlocks(c, key, data[BLOCK..])
  }

  function DecryptBlocks(c: Cipher, key: seq<byte>, data: seq<byte>): seq<byte> {
    if |data| < BLOCK then [] else c.decrypt(key, data[..BLOCK]) + DecryptBlocks(c, key, data[BLOCK..])
  }

  function Reverse(c: Cipher): Cipher {
    Cipher(c.decrypt, c.encrypt)
  }

  lemma {:induction false} DecryptIsReverse(c: Cipher, key: seq<byte>, data: seq<byte>)
    ensures DecryptBlocks(c, key, data) == EncryptBlocks(Reverse(c), key, data)
    decreases |data|
  {
    if |data| >= BLOCK {
      DecryptIsReverse(c, key, data[BLOCK..]);
    }
  }

  lemma {:induction false} BlocksInvert(c: Cipher, key: seq<byte>, data: seq<byte>)
    requires BlockCipher(c) && ValidKey(key) && |data| % BLOCK == 0
    ensures |EncryptBlocks(c, key, data)| == |data|
    ensures DecryptBlocks(c, key, EncryptBlocks(c, key, data)) == data
    decreases |data|
  {
    if |data| >= BLOCK {
      var first, rest := c.encrypt(key, data[..BLOCK]), data[BLOCK..];
      BlocksInvert(c, key, rest);
      var all := EncryptBlocks(c, key, data);
      assert all[..BLOCK] == first && all[BLOCK..] == EncryptBlocks(c, key, rest);
      assert data == data[..BLOCK] + rest;
    } else {
      assert data == [];
    }
  }

  lemma {:induction false} BlocksAppend(c: Cipher, key: seq<byte>, data: seq<byte>, block: seq<byte>)
    requires |data| % BLOCK == 0 && |block| == BLOCK
    ensures EncryptBlocks(c, key, data + block) == EncryptBlocks(c, key, data) + c.encrypt(key, block)
    decreases |data|
  {
    if data == [] {
      assert data + block == block && block[..BLOCK] == block && block[BLOCK..] == [];
    } else {
      BlocksAppend(c, key, data[BLOCK..], block);
      assert (data + block)[..BLOCK] == data[..BLOCK] && (data + block)[BLOCK..] == data[BLOCK..] + block;
    }
  }

  function Encrypt(c: Cipher, plaintext: seq<byte>, key: seq<byte>): Result<seq<byte>> {
    if !ValidKey(key) then Err(InvalidKey)
    else Ok(EncryptBlocks(c, key, Pad(plaintext, BLOCK).value))
  }

  function Decrypt(c: Cipher, ciphertext: seq<byte>, key: seq<byte>): Result<seq<byte>> {
    if !ValidKey(key) then Err(InvalidKey)
    else if ciphertext == [] || |ciphertext| % BLOCK != 0 then Err(InvalidBlockSize)
    else Unpad(DecryptBlocks(c, key, ciphertext), BLOCK)
  }

  function PaddedSize(n: int): int {
    (n / BLOCK + 1) * BLOCK
  }

  /** Each block is encrypted by itself, in its place. */
  lemma {:induction false} BlockAt(c: Cipher, key: seq<byte>, data: seq<byte>, i: nat)
    requires BlockCipher(c) && ValidKey(key) && |data| % BLOCK == 0 && (i + 1) * BLOCK <= |data|
    ensures |EncryptBlocks(c, key, data)| == |data|
    ensures EncryptBlocks(c, key, data)[i * BLOCK..(i + 1) * BLOCK] == c.encrypt(key, data[i * BLOCK..(i + 1) * BLOCK])
    decreases |data|
  {
    BlocksInvert(c, key, data);
    var all, rest := EncryptBlocks(c, key, data), data[BLOCK..];
    if i == 0 {
      assert all[..BLOCK] == c.encrypt(key, data[..BLOCK]);
    } else {
      BlockAt(c, key, rest, i - 1);
      assert all[BLOCK..] == EncryptBlocks(c, key, rest);
      assert rest[(i - 1) * BLOCK..i * BLOCK] == data[i * BLOCK..(i + 1) * BLOCK];
      assert all[BLOCK..][(i - 1) * BLOCK..i * BLOCK] == all[i * BLOCK..(i + 1) * BLOCK];
    }
  }

  /** Electronic codebook mode: block i of the ciphertext is the encryption of block i
      of the padded text. Keys of 16, 24 and 32 bytes are accepted, and no others. */
  lemma CodebookBlocks(c: Cipher, plaintext: seq<byte>, key: seq<byte>, i: nat)
    requires BlockCipher(c)
    ensures Encrypt(c, plaintext, key).Ok? <==> |key| == 16 || |key| == 24 || |key| == 32
    ensures Encrypt(c, plaintext, key).Ok? && (i + 1) * 16 <= |Pad(plaintext, 16).value| ==>
              var padded, encrypted := Pad(plaintext, 16).value, Encrypt(c, plaintext, key).value;
              && |encrypted| == |padded|
              && encrypted[i * 16..(i + 1) * 16] == c.encrypt(key, padded[i * 16..(i + 1) * 16])
  {
    var padded := Pad(plaintext, BLOCK).value;
    if ValidKey(key) && (i + 1) * BLOCK <= |padded| {
      BlockAt(c, key, padded, i);
    }
  }

  /** A ciphertext has exactly the announced size. */
  lemma CiphertextSize(c: Cipher, plaintext: seq<byte>, key: seq<byte>)
    requires BlockCipher(c) && ValidKey(key)
    ensures |Encrypt(c, plaintext, key).value| == PaddedSize(|plaintext|)
  {
    BlocksInvert(c, key, Pad(plaintext, BLOCK).value);
  }

  /** Decryption undoes encryption. */
  lemma DecryptEncrypt(c: Cipher, plaintext: seq<byte>, key: seq<byte>)
    requires BlockCipher(c) && ValidKey(key)
    ensures Decrypt(c, Encrypt(c, plaintext, key).value, key) == Ok(plaintext)
  {
    var padded := Pad(plaintext, BLOCK).value;
    BlocksInvert(c, key, padded);
    UnpadPad(plaintext, BLOCK);
  }

  /** Every accepted ciphertext is the encryption of its plaintext. */
  lemma EncryptDecrypt(c: Cipher, ciphertext: seq<byte>, key: seq<byte>)
    requires BlockCipher(c) && Decrypt(c, ciphertext, key).Ok?
    ensures Encrypt(c, Decrypt(c, ciphertext, key).value, key) == Ok(ciphertext)
  {
    var padded := DecryptBlocks(c, key, ciphertext);
    PadUnpad(padded, BLOCK);
    DecryptIsReverse(c, key, ciphertext);
    DecryptIsReverse(Reverse(c), key, padded);
    BlocksInvert(Reverse(c), key, ciphertext);
    assert Reverse(Reverse(c)) == c;
  }

  lemma NextBlock(i: nat, size: nat)
    requires i % BLOCK == 0 && size % BLOCK == 0 && i < size
    ensures i + BLOCK <= size && (i + BLOCK) % BLOCK == 0
  {}

  method AESECBEncrypt(c: Cipher, plaintext: seq<byte>, key: seq<byte>) returns (r: Result<array<byte>>)
    requires BlockCipher(c)
    ensures r.Err? ==> Encrypt(c, plaintext, key) == Err(r.error)
    ensures r.Ok? ==> fresh(r.value) && Encrypt(c, plaintext, key) == Ok(r.value[..])
  {
    if !ValidKey(key) {
      return Err(InvalidKey);
    }
    var padding := PKCS7Pad(plaintext, BLOCK);
    assert padding.Ok?;  // the block size is never refused
    var padded := padding.value;
    var encrypted := new byte[padded.Length];
    var i := 0;
    while i < padded.Length
      invariant 0 <= i <= padded.Length && i % BLOCK == 0 && padded.Length % BLOCK == 0
      invariant padded[..] == Pad(plaintext, BLOCK).value
      invariant encrypted[..i] == EncryptBlocks(c, key, padded[..i])
    {
      NextBlock(i, padded.Length);
      ghost var done, block := padded[..i], padded[i..i + BLOCK];
      assert |done| == i && |block| == BLOCK;
      BlocksAppend(c, key, done, block);
      assert padded[..i + BLOCK] == done + block;
      var out := c.encrypt(key, padded[i..i + BLOCK]);
      assert |block| == BLOCK;
      CopyBlock(encrypted, i, out);
      i := i + BLOCK;
    }
    assert padded[..i] == padded[..] && encrypted[..i] == encrypted[..];
    r := Ok(encrypted);
  }

  method CopyBlock(a: array<byte>, at: nat, block: seq<byte>)
    requires |block| == BLOCK && at + BLOCK <= a.Length
    modifies a
    ensures a[..at + BLOCK] == old(a[..at]) + block
  {
    forall k | 0 <= k < BLOCK {
      a[at + k] := block[k];
    }
  }

  method AESECBDecrypt(c: Cipher, ciphertext: seq<byte>, key: seq<byte>) returns (r: Result<seq<byte>>)
    requires BlockCipher(c)
    ensures r == Decrypt(c, ciphertext, key)
  {
    if !ValidKey(key) {
      return Err(InvalidKey);
    }
    if ciphertext == [] || |ciphertext| % BLOCK != 0 {
      return Err(InvalidBlockSize);
    }
    var plaintext := new byte[|ciphertext|];
    var i := 0;
    while i < |ciphertext|
      invariant 0 <= i <= |ciphertext| && i % BLOCK == 0
      invariant plaintext[..i] == DecryptBlocks(c, key, ciphertext[..i])
    {
      ghost var done, block := ciphertext[..i], ciphertext[i..i + BLOCK];
      DecryptIsReverse(c, key, done);
      DecryptIsReverse(c, key, done + block);
      BlocksAppend(Reverse(c), key, done, block);
      assert ciphertext[..i + BLOCK] == done + block;
      var out := c.decrypt(key, ciphertext[i..i + BLOCK]);
      assert |block| == BLOCK;
      CopyBlock(plaintext, i, out);
      i := i + BLOCK;
    }
    assert ciphertext[..i] == ciphertext && plaintext[..i] == plaintext[..];
    r := PKCS7Unpad(plaintext, BLOCK);
  }
}
