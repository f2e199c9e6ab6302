/**
 * PKCS#7 padding to the 16-byte AES block (section 6.3 of RFC 5652): k bytes, each of
 * value k, where k = 16 - (length mod 16), so that 1 <= k <= 16.
 */
module Pkcs7 {
  import opened Wrappers
  import opened Bytes

  /** Malformed padding after decryption. */
  datatype UnpadError = BadPadding

  /** The number of padding bytes added to a plaintext of length n. */
  function PadLength(n: nat): (k: nat)
    ensures 1 <= k <= BlockSize
    ensures (n + k) % BlockSize == 0
  {
    BlockSize - n % BlockSize
  }

  /** Pads a plaintext up to the next multiple of the block size, always adding at least one byte. */
  function Pad(p: seq<byte>): (r: seq<byte>)
    ensures |r| == (|p| / BlockSize + 1) * BlockSize
    ensures r[..|p|] == p
    ensures forall j :: |p| <= j < |r| ==> r[j] as int == |r| - |p|
  {
    var k := PadLength(|p|);
    p + seq(k, _ => k as byte)
  }

  /**
   * Strips the padding, refusing a stream whose tail is not k copies of a byte k in 1..16.
   * On block-aligned input it returns p exactly when the input is the padding of p.
   */
  function Unpad(s: seq<byte>): (r: Result<seq<byte>, UnpadError>)
    ensures |s| % BlockSize == 0 && r.Success? ==> Pad(r.value) == s
    ensures |s| % BlockSize == 0 ==> forall p :: Pad(p) == s ==> r == Success(p)
  {
    if |s| == 0 then Failure(BadPadding)
    else
      var k := s[|s| - 1] as nat;
      if k == 0 || k > BlockSize || k > |s| then Failure(BadPadding)
      else if forall j | |s| - k <= j < |s| :: s[j] as nat == k then Success(s[..|s| - k])
      else Failure(BadPadding)
  }

  /** Block-aligned input that is not the padding of any plaintext is refused. */
  lemma UnpadRejectsMalformed(s: seq<byte>)
    requires |s| % BlockSize == 0
    requires forall p :: Pad(p) != s
    ensures Unpad(s).Failure?
  {
  }
}
