/** Signature blocks (archive/signature.go) and verifying an archive in one pass over a
    stream (io/signature.go). */
module Signature {
  import opened Bytes
  import opened Format
  import opened Streams
  import C = Checksum

  const SIGNATURE_MAGIC: bytes := [0x53, 0x41, 0x52, 0x43, 0x53, 0x49, 0x47, 0x31] // "SARCSIG1"
  const HOLD_SIZE := FOOTER_SIZE + MAX_SIGNATURE_SIZE + SIGNATURE_TRAILER_SIZE
  const READ_SIZE := 0x10_0000

  // ---- Signature blocks ----

  function AppendSignatureBlock(dst: bytes, signature: bytes): (r: Option<bytes>)
    ensures r.Some? <==> 0 < |signature| <= MAX_SIGNATURE_SIZE
  {
    if |signature| == 0 || |signature| > MAX_SIGNATURE_SIZE then None
    else Some(dst + signature + LE(|signature|, 4) + SIGNATURE_MAGIC)
  }

  function ParseSignatureTrailer(tail: bytes): (r: Option<nat>)
    ensures r.Some? ==> 0 < r.value <= MAX_SIGNATURE_SIZE
  {
    if |tail| != SIGNATURE_TRAILER_SIZE || tail[4..] != SIGNATURE_MAGIC then None
    else
      var n := FromLE(tail[..4]);
      if n == 0 || n > MAX_SIGNATURE_SIZE then None else Some(n)
  }

  /** An archive cut into the archive proper and its signature. */
  datatype Split = Split(proper: bytes, signature: Option<bytes>)

  /** splitSignatureTail, on a whole file or on its end. */
  function SplitTail(tail: bytes): (s: Split)
    ensures s.proper <= tail
  {
    if |tail| < SIGNATURE_TRAILER_SIZE then Split(tail, None)
    else match ParseSignatureTrailer(tail[|tail| - SIGNATURE_TRAILER_SIZE..])
      case None => Split(tail, None)
      case Some(n) =>
        if n + SIGNATURE_TRAILER_SIZE + FOOTER_SIZE > |tail| then Split(tail, None)
        else
          var start := |tail| - SIGNATURE_TRAILER_SIZE - n;
          Split(tail[..start], Some(tail[start..|tail| - SIGNATURE_TRAILER_SIZE]))
  }

  /** splitSignature, by random access: the size of the archive proper and the signature. */
  function SplitFile(file: bytes): (r: (nat, Option<bytes>))
  {
    if |file| < SIGNATURE_TRAILER_SIZE + FOOTER_SIZE then (|file|, None)
    else match ParseSignatureTrailer(file[|file| - SIGNATURE_TRAILER_SIZE..])
      case None => (|file|, None)
      case Some(n) =>
        if n + SIGNATURE_TRAILER_SIZE + FOOTER_SIZE > |file| then (|file|, None)
        else
          var proper := |file| - (SIGNATURE_TRAILER_SIZE + n);
          (proper, Some(file[proper..proper + n]))
  }

  lemma TrailerOf(pre: bytes, signature: bytes)
    requires 0 < |signature| <= MAX_SIGNATURE_SIZE
    ensures var b := AppendSignatureBlock(pre, signature).value;
            |b| >= SIGNATURE_TRAILER_SIZE && ParseSignatureTrailer(b[|b| - SIGNATURE_TRAILER_SIZE..]) == Some(|signature|)
  {
    var b := AppendSignatureBlock(pre, signature).value;
    var t := b[|b| - SIGNATURE_TRAILER_SIZE..];
    assert t == LE(|signature|, 4) + SIGNATURE_MAGIC;
    assert t[..4] == LE(|signature|, 4) && t[4..] == SIGNATURE_MAGIC;
    Pow256Values();
    FromLEOfLE(|signature|, 4);
  }

  /** What is signed splits back, whatever the archive holds. */
  lemma SignThenSplit(archive: bytes, signature: bytes)
    requires |archive| >= FOOTER_SIZE && 0 < |signature| <= MAX_SIGNATURE_SIZE
    ensures SplitFile(AppendSignatureBlock(archive, signature).value) == (|archive|, Some(signature))
  {
    TrailerOf(archive, signature);
    var b := AppendSignatureBlock(archive, signature).value;
    assert b[|archive|..|archive| + |signature|] == signature;
  }

  /** An unsigned archive ends in the footer's zero reserved bytes, and never splits. */
  lemma UnsignedDoesNotSplit(archive: bytes)
    requires |archive| >= FOOTER_SIZE && archive[|archive| - RESERVED_SIZE..] == Zeros(RESERVED_SIZE)
    ensures SplitFile(archive) == (|archive|, None)
  {
    if |archive| >= SIGNATURE_TRAILER_SIZE + FOOTER_SIZE {
      var t := archive[|archive| - SIGNATURE_TRAILER_SIZE..];
      assert t[11] == archive[|archive| - RESERVED_SIZE..][RESERVED_SIZE - 1];
      assert t[4..][7] != SIGNATURE_MAGIC[7];
    }
  }

  /** The held-back end of a stream splits as the whole file does. */
  lemma HeldSplitsAlike(file: bytes, flushed: nat)
    requires flushed <= |file| && (flushed > 0 ==> |file| - flushed == HOLD_SIZE)
    ensures var (proper, signature) := SplitFile(file);
            var held := SplitTail(file[flushed..]);
            && signature == held.signature && flushed <= proper <= |file|
            && file[..flushed] + held.proper == file[..proper]
  {
    hide ParseSignatureTrailer;
    var tail := file[flushed..];
    assert file[..flushed] + tail == file == file[..|file|];
    if |tail| >= SIGNATURE_TRAILER_SIZE {
      assert tail[|tail| - SIGNATURE_TRAILER_SIZE..] == file[|file| - SIGNATURE_TRAILER_SIZE..];
      var n := ParseSignatureTrailer(file[|file| - SIGNATURE_TRAILER_SIZE..]);
      if n.Some? && n.value + SIGNATURE_TRAILER_SIZE + FOOTER_SIZE <= |tail| {
        SameSlices(file, flushed, |tail| - SIGNATURE_TRAILER_SIZE - n.value, |tail| - SIGNATURE_TRAILER_SIZE);
      }
    }
  }

  lemma SameSlices(file: bytes, flushed: nat, a: nat, b: nat)
    requires a <= b && flushed + b <= |file|
    ensures file[flushed..][a..b] == file[flushed + a..flushed + b]
    ensures file[..flushed] + file[flushed..][..a] == file[..flushed + a]
  {
  }

  // ---- VerifyArchive ----

  datatype Report = Report(checksumOK: bool, signature: Option<bytes>, computed: bytes)
  datatype Outcome = Verified(report: Report) | ReadFailed | TooSmall

  /** The same verdict by random access: recompute the checksum of the archive proper. */
  function VerdictOf(file: bytes, hash: C.Hash): Outcome
  {
    var (proper, signature) := SplitFile(file);
    if proper < FOOTER_SIZE || proper > |file| then TooSmall
    else
      var content := proper - FOOTER_SIZE;
      Judge(file[..content], file[content..content + HMAC_SIZE], signature, hash)
  }

  function Judge(content: bytes, stored: bytes, signature: Option<bytes>, hash: C.Hash): Outcome
  {
    var computed := C.DigestOf(hash, C.Canonical(content));
    Verified(Report(computed == stored, signature, computed))
  }

  /** What a verdict means: the signature is the one behind the archive proper, and the checksum
      is right exactly if the 32 bytes at 64 before its end are the digest of everything before
      them, with the sealed count of an incremental header zeroed. */
  ghost predicate Judged(file: bytes, hash: C.Hash, out: Outcome)
  {
    var (proper, signature) := SplitFile(file);
    if proper < 64 then out == TooSmall
    else
      && proper <= |file| && out.Verified? && out.report.signature == signature
      && out.report.computed == C.DigestOf(hash, C.Zeroed(file[..proper - 64]))
      && (out.report.checksumOK <==> file[proper - 64..proper - 32] == C.DigestOf(hash, C.Zeroed(file[..proper - 64])))
  }

  lemma SplitInside(file: bytes)
    ensures SplitFile(file).0 <= |file|
  {
  }

  lemma VerdictIsJudged(file: bytes, hash: C.Hash)
    ensures Judged(file, hash, VerdictOf(file, hash))
  {
    hide SplitFile, C.Canonical, C.Zeroed;
    SplitInside(file);
    var proper := SplitFile(file).0;
    if proper >= 64 {
      C.CanonicalIs(file[..proper - 64]);
    }
  }

  /** How an archive ends: checksum and reserved bytes, then perhaps a signature block. */
  function WithFooter(content: bytes, checksum: bytes, signature: Option<bytes>): bytes
    requires signature.Some? ==> 0 < |signature.value| <= MAX_SIGNATURE_SIZE
  {
    var archive := content + checksum + Zeros(RESERVED_SIZE);
    if signature.Some? then AppendSignatureBlock(archive, signature.value).value else archive
  }

  lemma SplitsAtFooter(content: bytes, checksum: bytes, signature: Option<bytes>)
    requires |checksum| == HMAC_SIZE && (signature.Some? ==> 0 < |signature.value| <= MAX_SIGNATURE_SIZE)
    ensures var file, proper := WithFooter(content, checksum, signature), |content| + 64;
            && SplitFile(file) == (proper, signature) && proper <= |file|
            && file[..proper - 64] == content && file[proper - 64..proper - 32] == checksum
  {
    hide SplitFile;
    var archive := content + checksum + Zeros(RESERVED_SIZE);
    if signature.Some? {
      SignThenSplit(archive, signature.value);
    } else {
      assert archive[|archive| - RESERVED_SIZE..] == Zeros(RESERVED_SIZE);
      UnsignedDoesNotSplit(archive);
    }
    var file := WithFooter(content, checksum, signature);
    assert archive <= file;
    assert file[..|content|] == archive[..|content|] == content;
    assert file[|content|..|content| + 32] == archive[|content|..|content| + 32] == checksum;
  }

  /** An archive that ends in the footer of its content, signed or not, verifies. */
  lemma FooterVerifies(content: bytes, signature: Option<bytes>, hash: C.Hash, out: Outcome)
    requires signature.Some? ==> 0 < |signature.value| <= MAX_SIGNATURE_SIZE
    requires |C.DigestOf(hash, C.Zeroed(content))| == HMAC_SIZE
    requires Judged(WithFooter(content, C.DigestOf(hash, C.Zeroed(content)), signature), hash, out)
    ensures out == Verified(Report(true, signature, C.DigestOf(hash, C.Zeroed(content))))
  {
    hide SplitFile, C.Zeroed, WithFooter;
    SplitsAtFooter(content, C.DigestOf(hash, C.Zeroed(content)), signature);
  }

  /** So an incremental archive verifies after any of its operations, and after being signed. */
  lemma IncrementalVerifies(f: C.IncrementalFile, signature: Option<bytes>, out: Outcome)
    requires f.Valid() && (signature.Some? ==> 0 < |signature.value| <= MAX_SIGNATURE_SIZE)
    requires Judged(if signature.Some? then AppendSignatureBlock(f.data, signature.value).value else f.data, f.hash, out)
    ensures out.Verified? && out.report.checksumOK && out.report.signature == signature
  {
    hide Judged, C.Zeroed, C.Canonical, C.Ended, C.LayoutOf;
    var last: u64 :| f.data == C.Ended(f.body, last, f.hash) + C.Footer(C.Ended(f.body, last, f.hash), f.hash);
    var content := C.Ended(f.body, last, f.hash);
    C.CanonicalIs(content);
    assert f.data == content + C.DigestOf(f.hash, C.Zeroed(content)) + Zeros(RESERVED_SIZE);
    FooterVerifies(content, signature, f.hash, out);
  }

  /** A change to any byte before the footer, except inside the sealed count, is reported, as
      long as the digest tells the two contents apart. */
  lemma ChangeIsReported(content: bytes, changed: bytes, i: nat, signature: Option<bytes>, hash: C.Hash, out: Outcome)
    requires signature.Some? ==> 0 < |signature.value| <= MAX_SIGNATURE_SIZE
    requires i < |content| == |changed| && content[i] != changed[i] && !C.InCount(content, i)
    requires |C.DigestOf(hash, C.Zeroed(content))| == HMAC_SIZE
    requires C.DigestOf(hash, C.Zeroed(content)) == C.DigestOf(hash, C.Zeroed(changed)) ==> C.Zeroed(content) == C.Zeroed(changed)
    requires Judged(WithFooter(changed, C.DigestOf(hash, C.Zeroed(content)), signature), hash, out)
    ensures out.Verified? && !out.report.checksumOK && out.report.signature == signature
  {
    hide SplitFile, C.Zeroed, WithFooter, C.InCount;
    SplitsAtFooter(changed, C.DigestOf(hash, C.Zeroed(content)), signature);
    C.ZeroedTells(content, changed, i);
  }

  /** A change inside the sealed count is not: that field is sealed on its own. */
  lemma CountIsNotReported(content: bytes, changed: bytes, signature: Option<bytes>, hash: C.Hash, out: Outcome)
    requires signature.Some? ==> 0 < |signature.value| <= MAX_SIGNATURE_SIZE
    requires |content| == |changed| && forall i :: 0 <= i < |content| && !C.InCount(content, i) ==> content[i] == changed[i]
    requires |C.DigestOf(hash, C.Zeroed(content))| == HMAC_SIZE
    requires Judged(WithFooter(changed, C.DigestOf(hash, C.Zeroed(content)), signature), hash, out)
    ensures out.Verified? && out.report.checksumOK
  {
    hide SplitFile, C.Zeroed, WithFooter, C.InCount;
    C.ZeroedAlike(content, changed);
    FooterVerifies(changed, signature, hash, out);
  }

  /** VerifyArchive: one pass, any read pattern, holding back enough for the footer and the
      largest signature block. It hashes exactly the bytes before the footer. */
  method VerifyArchive(r: Reader, hash: C.Hash) returns (out: Outcome)
    requires C.Streaming(hash)
    modifies r
    ensures out == if r.broken then ReadFailed else VerdictOf(old(r.rest), hash)
    ensures !r.broken ==> Judged(old(r.rest), hash, out)
  {
    hide C.Canonical, C.LayoutOf, VerdictOf, Judged;
    VerdictIsJudged(r.rest, hash);
    var sum := new C.ArchiveChecksum(hash);
    var work: bytes := [];
    var more := true;
    ghost var file := r.rest;
    while more
      invariant sum.Valid() && sum.hash == hash && fresh(sum)
      invariant file == sum.fed + work + r.rest && |work| <= HOLD_SIZE && (sum.fed != [] ==> |work| == HOLD_SIZE)
      invariant !more ==> r.rest == [] && !r.broken
      decreases |r.rest| + if more then 1 else 0
    {
      var data, status := r.Read(HOLD_SIZE + READ_SIZE - |work|);
      assert file == sum.fed + (work + data) + r.rest;
      work := work + data;
      if |work| > HOLD_SIZE {
        var flush := |work| - HOLD_SIZE;
        assert sum.fed + work == (sum.fed + work[..flush]) + work[flush..];
        sum.Write(work[..flush]);
        work := work[flush..];
      }
      if status == Failed {
        return ReadFailed;
      }
      more := status == More;
    }
    out := Conclude(sum, work, file);
  }

  /** After the last byte: splits what was held back and finishes the checksum. */
  method Conclude(sum: C.ArchiveChecksum, work: bytes, ghost file: bytes) returns (out: Outcome)
    requires sum.Valid() && file == sum.fed + work && (sum.fed != [] ==> |work| == HOLD_SIZE)
    modifies sum
    ensures out == VerdictOf(file, sum.hash)
  {
    hide C.Canonical, C.LayoutOf, SplitTail, VerdictOf;
    var split := SplitTail(work);
    var proper := split.proper;
    HeldVerdict(file, sum.fed, work, sum.hash);
    if |proper| < FOOTER_SIZE {
      return TooSmall;
    }
    var content := |proper| - FOOTER_SIZE;
    sum.Write(proper[..content]);
    var computed := sum.Sum();
    return Verified(Report(computed == proper[content..][..HMAC_SIZE], split.signature, computed));
  }

  /** The verdict in terms of what was flushed and what was held back. */
  lemma HeldVerdict(file: bytes, flushed: bytes, work: bytes, hash: C.Hash)
    requires file == flushed + work && (flushed != [] ==> |work| == HOLD_SIZE)
    ensures var split := SplitTail(work);
            VerdictOf(file, hash) ==
              if |split.proper| < FOOTER_SIZE then TooSmall
              else
                var content := |split.proper| - FOOTER_SIZE;
                Judge(flushed + split.proper[..content], split.proper[content..][..HMAC_SIZE], split.signature, hash)
  {
    hide Judge, SplitTail, SplitFile;
    assert file[|flushed|..] == work && file[..|flushed|] == flushed;
    HeldSplitsAlike(file, |flushed|);
    if |SplitTail(work).proper| < FOOTER_SIZE {
      ShortProper(file, |flushed|);
    } else {
      FooterSlices(file, flushed, SplitTail(work).proper, SplitFile(file).0);
    }
  }

  lemma FooterSlices(file: bytes, flushed: bytes, proper: bytes, whole: nat)
    requires whole <= |file| && flushed + proper == file[..whole] && |proper| >= FOOTER_SIZE
    ensures var content, at := |proper| - FOOTER_SIZE, whole - FOOTER_SIZE;
            && 0 <= at && flushed + proper[..content] == file[..at]
            && proper[content..][..HMAC_SIZE] == file[at..at + HMAC_SIZE]
  {
    var content, at := |proper| - FOOTER_SIZE, whole - FOOTER_SIZE;
    assert |flushed| + |proper| == whole;
    assert (flushed + proper)[..at] == flushed + proper[..content];
    forall i | 0 <= i < HMAC_SIZE ensures proper[content..][..HMAC_SIZE][i] == file[at..at + HMAC_SIZE][i] {
      assert (flushed + proper)[at + i] == proper[content + i];
    }
  }

  /** A held-back end too short for a footer is the whole file. */
  lemma ShortProper(file: bytes, flushed: nat)
    requires flushed <= |file| && (flushed > 0 ==> |file| - flushed == HOLD_SIZE)
    requires |SplitTail(file[flushed..]).proper| < FOOTER_SIZE
    ensures flushed == 0 && SplitFile(file).0 < FOOTER_SIZE
  {
    hide ParseSignatureTrailer;
    var tail := file[flushed..];
    assert flushed == 0 ==> tail == file;
  }
}
