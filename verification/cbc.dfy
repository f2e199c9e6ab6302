/**
 * AES-128 in cipher-block-chaining mode with PKCS#7 padding (the crate type
 * `Cbc<Aes128, Pkcs7>`). Chaining follows section 6.2 of NIST SP 800-38A; the AES
 * block transformation itself (FIPS 197) is a parameter.
 */
module Cbc {
  import opened Wrappers
  import opened Bytes
  import Pkcs7

  /** A keyed block transformation and its inverse; keys and blocks are 16 bytes. */
  datatype BlockCipher = BlockCipher(encrypt: (Block, Block) -> Block, decrypt: (Block, Block) -> Block)

  /** Under every key, `decrypt` and `encrypt` are mutually inverse permutations of the blocks. */
  ghost predicate IsPermutation(c: BlockCipher) {
    && (forall k, b :: c.decrypt(k, c.encrypt(k, b)) == b)
    && (forall k, b :: c.encrypt(k, c.decrypt(k, b)) == b)
  }

  /** The ciphertext is not a whole number of blocks, or its padding is malformed. */
  datatype BlockModeError = BlockModeError

  /** The i-th 16-byte block of s. */
  function BlockAt(s: seq<byte>, i: nat): Block
    requires BlockSize * i + BlockSize <= |s|
  {
    s[BlockSize * i .. BlockSize * i + BlockSize]
  }

  /** CBC encryption of a block-aligned plaintext, chained from `iv`. */
  function CbcEncrypt(c: BlockCipher, key: Block, iv: Block, p: seq<byte>): (r: seq<byte>)
    requires |p| % BlockSize == 0
    ensures |r| == |p|
    decreases |p|
  {
    if |p| == 0 then []
    else
      var out := c.encrypt(key, XorBlock(p[..BlockSize], iv));
      out + CbcEncrypt(c, key, out, p[BlockSize..])
  }

  /** CBC decryption of a block-aligned ciphertext, chained from `iv`. */
  function CbcDecrypt(c: BlockCipher, key: Block, iv: Block, ct: seq<byte>): (r: seq<byte>)
    requires |ct| % BlockSize == 0
    ensures |r| == |ct|
    decreases |ct|
  {
    if |ct| == 0 then []
    else
      var block: Block := ct[..BlockSize];
      XorBlock(c.decrypt(key, block), iv) + CbcDecrypt(c, key, block, ct[BlockSize..])
  }

  /** Section 6.2 of NIST SP 800-38A: C_j = CIPH_K(P_j xor C_(j-1)), with C_(-1) the IV. */
  lemma {:induction false} CbcEncryptChaining(c: BlockCipher, key: Block, iv: Block, p: seq<byte>, i: nat)
    requires |p| % BlockSize == 0
    requires BlockSize * i + BlockSize <= |p|
    ensures var r := CbcEncrypt(c, key, iv, p);
      BlockAt(r, i) == c.encrypt(key, XorBlock(BlockAt(p, i), if i == 0 then iv else BlockAt(r, i - 1)))
    decreases i
  {
    var r := CbcEncrypt(c, key, iv, p);
    var out := c.encrypt(key, XorBlock(p[..BlockSize], iv));
    var rest := CbcEncrypt(c, key, out, p[BlockSize..]);
    assert r == out + rest;
    assert p == p[..BlockSize] + p[BlockSize..];
    BlockAtFront(out, rest);
    BlockAtFront(p[..BlockSize], p[BlockSize..]);
    if i > 0 {
      CbcEncryptChaining(c, key, out, p[BlockSize..], i - 1);
      BlockAtBehind(out, rest, i);
      BlockAtBehind(p[..BlockSize], p[BlockSize..], i);
      if i > 1 {
        BlockAtBehind(out, rest, i - 1);
      }
    }
  }

  /** Section 6.2 of NIST SP 800-38A: P_j = CIPH^-1_K(C_j) xor C_(j-1), with C_(-1) the IV. */
  lemma {:induction false} CbcDecryptChaining(c: BlockCipher, key: Block, iv: Block, ct: seq<byte>, i: nat)
    requires |ct| % BlockSize == 0
    requires BlockSize * i + BlockSize <= |ct|
    ensures BlockAt(CbcDecrypt(c, key, iv, ct), i)
      == XorBlock(c.decrypt(key, BlockAt(ct, i)), if i == 0 then iv else BlockAt(ct, i - 1))
    decreases i
  {
    var r := CbcDecrypt(c, key, iv, ct);
    var block: Block := ct[..BlockSize];
    var head := XorBlock(c.decrypt(key, block), iv);
    var rest := CbcDecrypt(c, key, block, ct[BlockSize..]);
    assert r == head + rest;
    assert ct == block + ct[BlockSize..];
    BlockAtFront(head, rest);
    BlockAtFront(block, ct[BlockSize..]);
    if i > 0 {
      CbcDecryptChaining(c, key, block, ct[BlockSize..], i - 1);
      BlockAtBehind(head, rest, i);
      BlockAtBehind(block, ct[BlockSize..], i);
      if i > 1 {
        BlockAtBehind(block, ct[BlockSize..], i - 1);
      }
    }
  }

  lemma BlockAtFront(first: Block, rest: seq<byte>)
    ensures BlockAt(first + rest, 0) == first
  {
    assert (first + rest)[..BlockSize] == first;
  }

  lemma BlockAtBehind(first: Block, rest: seq<byte>, i: nat)
    requires 0 < i && BlockSize * i + BlockSize <= |first| + |rest|
    ensures BlockAt(first + rest, i) == BlockAt(rest, i - 1)
  {
    var s := first + rest;
    assert s[BlockSize * i .. BlockSize * i + BlockSize] == rest[BlockSize * (i - 1) .. BlockSize * (i - 1) + BlockSize];
  }

  /** CBC decryption undoes CBC encryption under the same key and IV. */
  lemma {:induction false} CbcDecryptEncrypt(c: BlockCipher, key: Block, iv: Block, p: seq<byte>)
    requires IsPermutation(c)
    requires |p| % BlockSize == 0
    ensures CbcDecrypt(c, key, iv, CbcEncrypt(c, key, iv, p)) == p
    decreases |p|
  {
    if |p| > 0 {
      var head: Block := p[..BlockSize];
      var out := c.encrypt(key, XorBlock(head, iv));
      var rest := CbcEncrypt(c, key, out, p[BlockSize..]);
      var e: seq<byte> := out + rest;
      assert e[..BlockSize] == out && e[BlockSize..] == rest;
      XorBlockCancel(head, iv);
      CbcDecryptEncrypt(c, key, out, p[BlockSize..]);
      assert p == head + p[BlockSize..];
    }
  }

  /** CBC encryption undoes CBC decryption under the same key and IV. */
  lemma {:induction false} CbcEncryptDecrypt(c: BlockCipher, key: Block, iv: Block, ct: seq<byte>)
    requires IsPermutation(c)
    requires |ct| % BlockSize == 0
    ensures CbcEncrypt(c, key, iv, CbcDecrypt(c, key, iv, ct)) == ct
    decreases |ct|
  {
    if |ct| > 0 {
      var block: Block := ct[..BlockSize];
      var head := XorBlock(c.decrypt(key, block), iv);
      var rest := CbcDecrypt(c, key, block, ct[BlockSize..]);
      var d: seq<byte> := head + rest;
      assert d[..BlockSize] == head && d[BlockSize..] == rest;
      XorBlockCancel(c.decrypt(key, block), iv);
      CbcEncryptDecrypt(c, key, block, ct[BlockSize..]);
      assert ct == block + ct[BlockSize..];
    }
  }

  /** `encrypt_vec`: pad, then CBC-encrypt; the result is a positive number of whole blocks. */
  function Encrypt(c: BlockCipher, key: Block, iv: Block, plaintext: seq<byte>): (r: seq<byte>)
    ensures |r| == (|plaintext| / BlockSize + 1) * BlockSize
  {
    CbcEncrypt(c, key, iv, Pkcs7.Pad(plaintext))
  }

  /** `decrypt_vec`: refuse a ciphertext that is not block-aligned, CBC-decrypt, then unpad. */
  function Decrypt(c: BlockCipher, key: Block, iv: Block, ciphertext: seq<byte>): (r: Result<seq<byte>, BlockModeError>)
    ensures |ciphertext| % BlockSize != 0 ==> r.Failure?
  {
    if |ciphertext| % BlockSize != 0 then Failure(BlockModeError)
    else
      match Pkcs7.Unpad(CbcDecrypt(c, key, iv, ciphertext))
      case Success(p) => Success(p)
      case Failure(_) => Failure(BlockModeError)
  }

  /** Decrypting with the key and IV used to encrypt returns the plaintext exactly. */
  lemma DecryptEncrypt(c: BlockCipher, key: Block, iv: Block, plaintext: seq<byte>)
    requires IsPermutation(c)
    ensures Decrypt(c, key, iv, Encrypt(c, key, iv, plaintext)) == Success(plaintext)
  {
    var padded := Pkcs7.Pad(plaintext);
    CbcDecryptEncrypt(c, key, iv, padded);
  }

  /** Every ciphertext that decrypts is the encryption of what it decrypts to. */
  lemma EncryptDecrypt(c: BlockCipher, key: Block, iv: Block, ciphertext: seq<byte>)
    requires IsPermutation(c)
    ensures Decrypt(c, key, iv, ciphertext).Success? ==>
      Encrypt(c, key, iv, Decrypt(c, key, iv, ciphertext).value) == ciphertext
  {
    var r := Decrypt(c, key, iv, ciphertext);
    if r.Success? {
      var padded := CbcDecrypt(c, key, iv, ciphertext);
      CbcEncryptDecrypt(c, key, iv, ciphertext);
    }
  }

  /** A block-aligned ciphertext whose CBC decryption is not a padded plaintext is refused. */
  lemma DecryptRejectsBadPadding(c: BlockCipher, key: Block, iv: Block, ciphertext: seq<byte>)
    requires |ciphertext| % BlockSize == 0
    requires forall p :: Pkcs7.Pad(p) != CbcDecrypt(c, key, iv, ciphertext)
    ensures Decrypt(c, key, iv, ciphertext).Failure?
  {
    Pkcs7.UnpadRejectsMalformed(CbcDecrypt(c, key, iv, ciphertext));
  }
}
