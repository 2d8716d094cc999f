/**
 The byte-length cap applied to every extracted field. A value longer than
 the cap is cut at the last position within the cap that does not split a
 UTF-8 encoded character, that is, before a byte that is not a continuation
 byte.
 */
module Truncate {
  import opened Bytes

  /** The loop of `truncateField`, walking down from position `i`: the
      largest `k <= i` that is 0 or has a non-continuation byte at `s[k]`. */
  function CutPoint(s: Bytes, i: nat): (k: nat)
    requires i < |s|
    ensures k <= i
    ensures k == 0 || !IsContinuation(s[k])
    ensures forall j :: k < j <= i ==> IsContinuation(s[j])
    decreases i
  {
    if i == 0 then 0
    else if !IsContinuation(s[i]) then i
    else CutPoint(s, i - 1)
  }

  /** `truncateField`: values within the cap are returned unchanged; longer
      ones become their longest prefix of at most `maxLen` bytes that ends
      on a character boundary, or the empty string if there is none. */
  function TruncateField(s: Bytes, maxLen: nat): (r: Bytes)
    ensures |s| <= maxLen ==> r == s
    ensures |r| <= maxLen && IsPrefix(r, s)
    ensures |s| > maxLen ==> r == [] || !IsContinuation(s[|r|])
    ensures |s| > maxLen ==> forall j :: |r| < j <= maxLen ==> IsContinuation(s[j])
  {
    if |s| <= maxLen then s else s[..CutPoint(s, maxLen)]
  }

  /** The result of truncation is within the cap, so truncating it again
      changes nothing. */
  lemma TruncateIdempotent(s: Bytes, maxLen: nat)
    ensures TruncateField(TruncateField(s, maxLen), maxLen) == TruncateField(s, maxLen)
  {
  }

  /** Truncation yields the empty string exactly when the value is longer
      than the cap and every byte at positions 1 to `maxLen` is a
      continuation byte (or the value was empty to begin with). */
  lemma TruncateEmptyIff(s: Bytes, maxLen: nat)
    ensures TruncateField(s, maxLen) == [] <==>
            s == [] || (|s| > maxLen && forall j :: 1 <= j <= maxLen ==> IsContinuation(s[j]))
  {
  }

  /** The cut is a character boundary: a truncated value is never followed,
      in the original, by a continuation byte. */
  lemma TruncateKeepsWholeCharacters(s: Bytes, maxLen: nat)
    requires 0 < |TruncateField(s, maxLen)| < |s|
    ensures !IsContinuation(s[|TruncateField(s, maxLen)|])
  {
  }

  /** Any boundary-respecting prefix within the cap is no longer than the
      truncation: the truncation is the longest such prefix. */
  lemma TruncateIsLongest(s: Bytes, maxLen: nat, k: nat)
    requires 0 < k <= maxLen && k < |s|
    requires !IsContinuation(s[k])
    ensures k <= |TruncateField(s, maxLen)|
  {
  }

  /** A loop transcription of `truncateField`, walking `i` down from
      `maxLen`, computes the same value. */
  method TruncateFieldLoop(s: Bytes, maxLen: nat) returns (r: Bytes)
    ensures r == TruncateField(s, maxLen)
  {
    if |s| <= maxLen {
      return s;
    }
    var i: nat := maxLen;
    while true
      invariant i <= maxLen
      invariant CutPoint(s, maxLen) == CutPoint(s, i)
      decreases i
    {
      if i == 0 {
        return [];
      }
      if !IsContinuation(s[i]) {
        return s[..i];
      }
      i := i - 1;
    }
  }
}
