/** Extracting an archive that was cut off (io/extractor.go): wherever it ends, the entries before
    the cut come out as they would have, and the run reports the truncation. */
module Truncation {
  import opened Bytes
  import opened Format
  import opened Container
  import A = Attributes
  import D = Decryption
  import SS = SolidStream

  // ---- Pieces of an entry, cut off ----

  lemma CutPad(p: bytes, m: nat)
    requires |p| < TWO_32 && m < |EncodePad(p)|
    ensures SkipPadding(EncodePad(p)[..m]).None?
  {
    hide LE, FromLE;
    var b := EncodePad(p)[..m];
    if m >= 4 {
      assert b[..4] == LE(|p|, 4);
      Pow256Values();
      FromLEOfLE(|p|, 4);
    }
  }

  lemma CutSealed(s: Sealed, limit: nat, m: nat)
    requires FramedSealed(s, 0, limit) && limit < TWO_32 && m < |EncodeSealed(s)|
    ensures ReadSealed(EncodeSealed(s)[..m], limit).Short?
  {
    hide LE, FromLE;
    var b := EncodeSealed(s)[..m];
    if m >= NONCE_SIZE + 4 {
      assert b[NONCE_SIZE..NONCE_SIZE + 4] == LE(|s.ct|, 4);
      Pow256Values();
      FromLEOfLE(|s.ct|, 4);
    }
  }

  /** The size field of a block, and what is left of the blocks behind it. */
  lemma BlockSize(s: Sealed, more: bytes)
    requires FramedSealed(s, TAG_SIZE, MAX_BLOCK)
    ensures var b := EncodeSealed(s) + more;
            && FromLE(b[NONCE_SIZE..NONCE_SIZE + 4]) == |s.ct| && b[NONCE_SIZE + 4..][|s.ct|..] == more
  {
    hide LE, FromLE;
    var b := EncodeSealed(s) + more;
    assert b[NONCE_SIZE..NONCE_SIZE + 4] == LE(|s.ct|, 4);
    Pow256Values();
    FromLEOfLE(|s.ct|, 4);
  }

  lemma CutSize(s: Sealed, m: nat)
    requires FramedSealed(s, TAG_SIZE, MAX_BLOCK) && NONCE_SIZE + 4 <= m < |EncodeSealed(s)|
    ensures FromLE(EncodeSealed(s)[..m][NONCE_SIZE..NONCE_SIZE + 4]) == |s.ct| > m - NONCE_SIZE - 4
  {
    hide LE, FromLE;
    assert EncodeSealed(s)[..m][NONCE_SIZE..NONCE_SIZE + 4] == LE(|s.ct|, 4);
    Pow256Values();
    FromLEOfLE(|s.ct|, 4);
  }

  lemma {:induction false} CutBlocks(blocks: seq<Sealed>, m: nat)
    requires FramedBlocks(blocks) && m < |EncodeBlocks(blocks)|
    ensures SkipDataBlocks(EncodeBlocks(blocks)[..m]) == Err(false, Truncated, [])
    ensures var bs := ReadBlocks(EncodeBlocks(blocks)[..m]); bs.rest == [] && bs.end != D.ReadError(true)
    decreases |blocks|
  {
    hide EncodeSealed, FromLE;
    if blocks != [] {
      var first, later := EncodeSealed(blocks[0]), EncodeBlocks(blocks[1..]);
      SealedLength(blocks[0]);
      if m < |first| {
        assert EncodeBlocks(blocks)[..m] == first[..m];
        if m >= NONCE_SIZE + 4 {
          CutSize(blocks[0], m);
        }
      } else {
        assert EncodeBlocks(blocks)[..m] == first + later[..m - |first|];
        BlockSize(blocks[0], later[..m - |first|]);
        CutBlocks(blocks[1..], m - |first|);
      }
    }
  }

  lemma SealedLength(s: Sealed)
    ensures |EncodeSealed(s)| == |s.nonce| + 4 + |s.ct|
  {
  }

  lemma CutTrailer(e: Entry, m: nat)
    requires WellFramed(e) && m < |EncodeTrailer(e)|
    ensures SkipTrailer(EncodeTrailer(e)[..m]) == Err(true, Truncated, [])
    ensures ReadTrailer(EncodeTrailer(e)[..m]) == Err(false, Truncated, [])
  {
    hide LE, FromLE;
    var pad, b := EncodePad(e.trailerPad), EncodeTrailer(e)[..m];
    if m < |pad| {
      assert b == pad[..m];
      CutPad(e.trailerPad, m);
    } else {
      var more := (EncodeSealed(e.trailer) + e.checksum)[..m - |pad|];
      assert b == pad + more;
      PadSkips(e.trailerPad, more);
      CutAfterPad(e.trailer, e.checksum, m - |pad|);
    }
  }

  lemma CutAfterPad(s: Sealed, checksum: bytes, m: nat)
    requires FramedSealed(s, 0, MAX_TRAILER) && |checksum| == ENTRY_CHECKSUM_SIZE && m < |EncodeSealed(s) + checksum|
    ensures var b := (EncodeSealed(s) + checksum)[..m];
            && (|b| < NONCE_SIZE + 4
                || (FromLE(b[NONCE_SIZE..NONCE_SIZE + 4]) == |s.ct| && |b| - NONCE_SIZE - 4 < |s.ct| + ENTRY_CHECKSUM_SIZE))
            && (ReadSealed(b, MAX_TRAILER).Short? || (ReadSealed(b, MAX_TRAILER).Read? && |ReadSealed(b, MAX_TRAILER).rest| < ENTRY_CHECKSUM_SIZE))
  {
    hide LE, FromLE;
    var b := (EncodeSealed(s) + checksum)[..m];
    if m >= NONCE_SIZE + 4 {
      assert b[NONCE_SIZE..NONCE_SIZE + 4] == LE(|s.ct|, 4);
      Pow256Values();
      FromLEOfLE(|s.ct|, 4);
    }
  }

  /** A body cut off behind its metadata: skipping it fails, and so does reading it. */
  lemma CutRest(e: Entry, m: nat)
    requires WellFramed(e) && m < |EncodeRest(e)|
    ensures var b := EncodeRest(e)[..m];
            && SkipBody(b).Err? && SkipBody(b).code == Truncated && SkipBody(b).rest == []
            && (SkipPadding(b).Some? ==>
                  var bs := ReadBlocks(SkipPadding(b).value);
                  && bs.end != D.ReadError(true)
                  && SkipTrailer(bs.rest) == Err(true, Truncated, []) && ReadTrailer(bs.rest) == Err(false, Truncated, []))
  {
    hide LE, FromLE, EncodeBlocks, EncodeTrailer, EncodePad, SkipPadding, SkipDataBlocks, ReadBlocks, SkipTrailer, ReadTrailer;
    var pad, blocks, trailer := EncodePad(e.pad), EncodeBlocks(e.blocks), EncodeTrailer(e);
    var b := EncodeRest(e)[..m];
    NoTrailer();
    if m < |pad| {
      assert b == pad[..m];
      CutPad(e.pad, m);
    } else {
      var more := (blocks + trailer)[..m - |pad|];
      assert b == pad + more;
      PadSkips(e.pad, more);
      if |more| < |blocks| {
        assert more == blocks[..|more|];
        CutBlocks(e.blocks, |more|);
      } else {
        assert more == blocks + trailer[..|more| - |blocks|];
        BlocksSkip(e.blocks, trailer[..|more| - |blocks|]);
        BlocksRead(e.blocks, trailer[..|more| - |blocks|]);
        CutTrailer(e, |more| - |blocks|);
      }
    }
  }

  lemma NoTrailer()
    ensures SkipTrailer([]) == Err(true, Truncated, []) && ReadTrailer([]) == Err(false, Truncated, [])
  {
  }

  // ---- Entries, cut off ----

  predicate Ends<T>(step: Step<T>) { step.Err? && step.code == Truncated && step.rest == [] }

  lemma NotFatalStream(keys: Keys, salt: bytes, codec: byte, bs: Blocks, sinkFails: nat -> bool)
    requires bs.end != D.ReadError(true)
    ensures StreamBlocks(keys, salt, codec, bs, sinkFails).1 != Some(D.Fatal)
  {
    hide Flatten;
    if bs.end == D.Sentinel {
      NoReadError(keys, salt, codec, bs, sinkFails);
    }
  }

  lemma CutFile(keys: Keys, disk: Disk, h: Head, e: Entry, m: nat)
    requires WellFramed(e) && m < |EncodeRest(e)| && !Fatal(disk)
    ensures Ends(ExtractFile(keys, disk, h, EncodeRest(e)[..m]))
  {
    hide EncodeRest, SkipPadding, SkipBody, SkipTrailer, ReadBlocks, ReadTrailer, StreamBlocks, TrailerProblem, WellFramed;
    CutRest(e, m);
    var b, name := EncodeRest(e)[..m], keys.name(h.salt, h.meta.nameBlob);
    if name.Some? {
      var fails := (i: nat) => disk.write(name.value, i);
      if SkipPadding(b).Some? {
        NotFatalStream(keys, h.salt, h.meta.codec, ReadBlocks(SkipPadding(b).value), fails);
      }
      assert disk.create(name.value).Some? ==> !disk.create(name.value).value.fatal;
    }
  }

  lemma CutSolid(keys: Keys, h: Head, e: Entry, m: nat)
    requires WellFramed(e) && m < |EncodeRest(e)|
    ensures Ends(ReadSolid(keys, h, EncodeRest(e)[..m]))
  {
    hide EncodeRest, SkipPadding, SkipTrailer, ReadBlocks, ReadTrailer, StreamBlocks, TrailerProblem, WellFramed, UnpackSolid, SS.Parse;
    CutRest(e, m);
    var b := EncodeRest(e)[..m];
    if SkipPadding(b).Some? {
      NotFatalStream(keys, h.salt, CODEC_NONE, ReadBlocks(SkipPadding(b).value), i => false);
    }
  }

  /** The head of a cut body: cut itself, or read or skipped as ever. */
  lemma CutHead(keys: Keys, e: Entry, m: nat)
    requires WellFramed(e) && m < |EncodeBody(e)|
    ensures var r := ReadHead(keys, EncodeBody(e)[..m]);
            || Ends(r)
            || exists k: nat :: k < |EncodeRest(e)| && keys.meta(e.salt, e.meta).Some?
                           && r == Ok(Head(e.salt, keys.meta(e.salt, e.meta).value), EncodeRest(e)[..k])
  {
    hide LE, FromLE, EncodeRest, EncodeSealed, SkipBody, ReadSealed;
    var b, sealed, rest := EncodeBody(e)[..m], EncodeSealed(e.meta), EncodeRest(e);
    var at := SALT_SIZE + FRAME_SIZE;
    if m >= at {
      assert b[..SALT_SIZE] == e.salt;
      var b2 := b[SALT_SIZE..][FRAME_SIZE..];
      assert b2 == (sealed + rest)[..m - at];
      if m - at < |sealed| {
        assert b2 == sealed[..m - at];
        CutSealed(e.meta, MAX_METADATA, m - at);
      } else {
        var k := m - at - |sealed|;
        assert b2 == sealed + rest[..k];
        SealedReads(e.meta, MAX_METADATA, rest[..k]);
        CutRest(e, k);
      }
    }
  }

  lemma CutEntry(keys: Keys, disk: Disk, e: Entry, m: nat)
    requires WellFramed(e) && m < |EncodeBody(e)| && !Fatal(disk)
    ensures Ends(ExtractEntry(keys, disk, e.kind, EncodeBody(e)[..m]))
  {
    hide EncodeBody, EncodeRest, ReadHead, ReadSolid, ExtractFile, WriteMembers, WellFramed, Fatal;
    CutHead(keys, e, m);
    var r := ReadHead(keys, EncodeBody(e)[..m]);
    if !Ends(r) {
      var k: nat :| k < |EncodeRest(e)| && keys.meta(e.salt, e.meta).Some?
               && r == Ok(Head(e.salt, keys.meta(e.salt, e.meta).value), EncodeRest(e)[..k]);
      CutSolid(keys, r.value, e, k);
      CutFile(keys, disk, r.value, e, k);
    }
  }

  // ---- A size no block can have ----

  function Framed(blocks: seq<Sealed>): bytes
  {
    if blocks == [] then [] else EncodeSealed(blocks[0]) + Framed(blocks[1..])
  }

  /** Behind any blocks, one that claims more than the largest size: the framing is lost, and
      both reading and skipping end the run. */
  lemma {:induction false} OversizedBlock(blocks: seq<Sealed>, nonce: bytes, n: nat, more: bytes)
    requires FramedBlocks(blocks) && |nonce| == NONCE_SIZE && MAX_BLOCK < n < TWO_32
    ensures var b := Framed(blocks) + (nonce + (LE(n, 4) + more));
            && SkipDataBlocks(b) == Err(true, IntegrityFail, more)
            && ReadBlocks(b).end == D.ReadError(true) && ReadBlocks(b).blocks == blocks && ReadBlocks(b).rest == more
    decreases |blocks|
  {
    hide EncodeSealed, LE, FromLE;
    var tail := nonce + (LE(n, 4) + more);
    var b := Framed(blocks) + tail;
    if blocks == [] {
      assert b == tail;
      SizeField(nonce, n, more);
    } else {
      var later := Framed(blocks[1..]) + tail;
      assert b == EncodeSealed(blocks[0]) + later;
      SealedLength(blocks[0]);
      BlockSize(blocks[0], later);
      BlockParts(blocks[0], later);
      OversizedBlock(blocks[1..], nonce, n, more);
    }
  }

  lemma SizeField(nonce: bytes, n: nat, more: bytes)
    requires |nonce| == NONCE_SIZE && n < TWO_32
    ensures var b := nonce + (LE(n, 4) + more); |b| >= NONCE_SIZE + 4 && FromLE(b[NONCE_SIZE..NONCE_SIZE + 4]) == n && b[NONCE_SIZE + 4..] == more
  {
    hide LE, FromLE;
    var b := nonce + (LE(n, 4) + more);
    assert b[NONCE_SIZE..NONCE_SIZE + 4] == LE(n, 4) && b[NONCE_SIZE + 4..] == more;
    Pow256Values();
    FromLEOfLE(n, 4);
  }

  lemma BlockParts(s: Sealed, more: bytes)
    requires FramedSealed(s, TAG_SIZE, MAX_BLOCK)
    ensures var b := EncodeSealed(s) + more; b[..NONCE_SIZE] == s.nonce && b[NONCE_SIZE + 4..][..|s.ct|] == s.ct
  {
    hide LE;
    var b := EncodeSealed(s) + more;
    assert b[NONCE_SIZE + 4..] == s.ct + more;
  }

  // ---- Whole archives ----

  /** The entry in which the archive ends publishes nothing, and the run stops there. */
  lemma CutLast(keys: Keys, disk: Disk, e: Entry, m: nat)
    requires DataEntry(e) && m < |EncodeEntry(e)| && !Fatal(disk)
    ensures var r := ExtractFrom(keys, disk, EncodeEntry(e)[..m]);
            r.end == Stopped(Truncated) && (r.outcomes == [] || r.outcomes == [Refused(Truncated)])
  {
    hide EncodeBody, ExtractEntry, WellFramed, Fatal;
    var b := EncodeEntry(e)[..m];
    if m > 0 {
      assert b == [e.kind] + EncodeBody(e)[..m - 1];
      assert b[1..] == EncodeBody(e)[..m - 1];
      CutEntry(keys, disk, e, m - 1);
    }
  }

  /** Cut anywhere inside entry `e`, after any entries before it: those come out as they are by
      themselves, `e` not at all, and the run ends by reporting the truncation. */
  lemma {:induction false} TruncationStops(keys: Keys, disk: Disk, es: seq<Entry>, e: Entry, m: nat)
    requires DataEntries(es) && DataEntry(e) && m < |EncodeEntry(e)| && !Fatal(disk)
    ensures var r := ExtractFrom(keys, disk, EncodeEntries(es) + EncodeEntry(e)[..m]);
            && r.end == Stopped(Truncated)
            && (r.outcomes == Outcomes(keys, disk, es) || r.outcomes == Outcomes(keys, disk, es) + [Refused(Truncated)])
    decreases |es|
  {
    hide EncodeEntry, EntryOutcome, DataEntry, ExtractFrom, Fatal;
    var cut := EncodeEntry(e)[..m];
    if es == [] {
      assert EncodeEntries(es) + cut == cut;
      CutLast(keys, disk, e, m);
    } else {
      var more := EncodeEntries(es[1..]) + cut;
      assert EncodeEntries(es) + cut == EncodeEntry(es[0]) + more;
      TruncationStops(keys, disk, es[1..], e, m);
      ExtractsOne(keys, disk, es[0], more);
      if EntryOutcome(keys, disk, es[0]).Aborted? {
        OnlyTheTreeAborts(keys, disk, es[0]);
      }
      assert Outcomes(keys, disk, es) == [EntryOutcome(keys, disk, es[0])] + Outcomes(keys, disk, es[1..]);
    }
  }
}
