/** What archived entries extract to (io/extractor.go, io/solid.go), said of the items themselves:
    their names, attributes and bytes, and the HMAC and size sealed in their trailers. */
module Unpacking {
  import opened Bytes
  import opened Format
  import opened Container
  import A = Attributes
  import D = Decryption
  import SS = SolidStream

  // ---- What an entry holds ----

  /** A regular file in the pieces its blocks seal, a directory or link, or a solid group whose
      record stream, perhaps packed, was sealed in pieces. */
  datatype Archived =
    | File(name: bytes, attributes: Option<A.Attributes>, pieces: seq<bytes>)
    | Special(name: bytes, special: A.Attributes)
    | Members(members: seq<SS.Member>, pieces: seq<bytes>)

  predicate BlocksOpen(keys: Keys, salt: bytes, codec: byte, blocks: seq<Sealed>, pieces: seq<bytes>)
  {
    |pieces| == |blocks| && forall i :: 0 <= i < |blocks| ==> keys.block(salt, codec, blocks[i]) == D.Plain(pieces[i])
  }

  /** The sealed trailer opens to the HMAC and the size of exactly these bytes. */
  predicate Confirmed(keys: Keys, salt: bytes, trailer: Sealed, data: bytes)
  {
    var p := keys.trailer(salt, trailer);
    p.Some? && |p.value| == 40 && p.value[..32] == keys.mac(salt, data) && FromLE(p.value[32..]) == |data|
  }

  ghost predicate OpensTo(keys: Keys, e: Entry, x: Archived)
  {
    && WellFramed(e) && keys.meta(e.salt, e.meta).Some?
    && var m := keys.meta(e.salt, e.meta).value;
       match x
       case File(name, attributes, pieces) =>
         && e.kind == ENTRY_FILE && m.attributes == attributes && (attributes.Some? ==> attributes.value.kind == A.KIND_REGULAR)
         && keys.name(e.salt, m.nameBlob) == Some(name)
         && BlocksOpen(keys, e.salt, m.codec, e.blocks, pieces) && Confirmed(keys, e.salt, e.trailer, Flatten(pieces))
       case Special(name, attributes) =>
         && e.kind == ENTRY_FILE && m.attributes == Some(attributes) && attributes.kind != A.KIND_REGULAR
         && keys.name(e.salt, m.nameBlob) == Some(name)
       case Members(members, pieces) =>
         var stream, payload := SS.EncodeStream(members), Flatten(pieces);
         && e.kind == ENTRY_SOLID && members != [] && (forall i :: 0 <= i < |members| ==> SS.ValidMember(members[i]))
         && BlocksOpen(keys, e.salt, CODEC_NONE, e.blocks, pieces)
         && (if m.codec == CODEC_ZSTD then keys.unpack(payload) == Some(stream)
             else payload == stream && |stream| <= SS.MAX_SOLID_STREAM_SIZE)
         && Confirmed(keys, e.salt, e.trailer, stream)
  }

  ghost predicate NoFailures(disk: Disk)
  {
    && (forall n: bytes :: disk.create(n).None? && !disk.publish(n) && disk.special(n).None? && disk.store(n).None?)
    && (forall n: bytes, i: nat :: !disk.write(n, i))
  }

  /** The outcome is the item: each file once, in order, with its own name, bytes and attributes. */
  predicate Gives(o: Outcome, x: Archived)
  {
    o.Results?
    && match x
       case File(name, attributes, pieces) => o.files == [Published(name, Flatten(pieces), attributes)]
       case Special(name, attributes) => o.files == [Restored(name, Some(attributes))]
       case Members(ms, _) =>
         |o.files| == |ms| && forall i :: 0 <= i < |ms| ==> o.files[i] == Published(ms[i].name, ms[i].data, Some(ms[i].attributes))
  }

  // ---- Archive, then extract ----

  lemma {:induction false} AllPlain(x: D.Stream, pieces: seq<bytes>, sinkFails: nat -> bool, n: nat)
    requires n <= |x.blocks| == |pieces| && forall i :: 0 <= i < |pieces| ==> x.blocks[i] == D.Plain(pieces[i]) && !sinkFails(i)
    ensures D.Prefix(x, sinkFails, n) == (pieces[..n], None)
  {
    if n > 0 {
      AllPlain(x, pieces, sinkFails, n - 1);
      assert pieces[..n] == pieces[..n - 1] + [pieces[n - 1]];
    }
  }

  lemma PiecesOpen(keys: Keys, salt: bytes, codec: byte, blocks: seq<Sealed>, pieces: seq<bytes>, sinkFails: nat -> bool)
    requires BlocksOpen(keys, salt, codec, blocks, pieces) && forall i: nat :: !sinkFails(i)
    ensures OpenBlocks(keys, salt, codec, blocks, sinkFails) == (Flatten(pieces), None)
  {
    var x := D.Stream(Opens(keys, salt, codec, blocks), D.Sentinel);
    AllPlain(x, pieces, sinkFails, |pieces|);
    assert pieces[..|pieces|] == pieces;
  }

  lemma FileGives(keys: Keys, disk: Disk, e: Entry, x: Archived)
    requires OpensTo(keys, e, x) && !x.Members? && NoFailures(disk)
    ensures Gives(EntryOutcome(keys, disk, e), x)
  {
    hide WellFramed, OpenBlocks, Flatten, FromLE;
    var m := keys.meta(e.salt, e.meta).value;
    if x.File? {
      PiecesOpen(keys, e.salt, m.codec, e.blocks, x.pieces, (i: nat) => disk.write(x.name, i));
    }
  }

  lemma {:induction false} MembersWritten(disk: Disk, ms: seq<SS.Member>)
    requires NoFailures(disk)
    ensures var o := WriteMembers(disk, ms);
            o.Results? && |o.files| == |ms| && forall i :: 0 <= i < |ms| ==> o.files[i] == Published(ms[i].name, ms[i].data, Some(ms[i].attributes))
  {
    if ms != [] {
      MembersWritten(disk, ms[1..]);
    }
  }

  lemma GroupGives(keys: Keys, disk: Disk, e: Entry, x: Archived)
    requires OpensTo(keys, e, x) && x.Members? && NoFailures(disk)
    ensures Gives(EntryOutcome(keys, disk, e), x)
  {
    hide WellFramed, OpenBlocks, Flatten, FromLE, SS.Parse, SS.EncodeStream, SS.ValidMember, WriteMembers;
    PiecesOpen(keys, e.salt, CODEC_NONE, e.blocks, x.pieces, i => false);
    SS.ParseIffEncode(SS.EncodeStream(x.members), x.members);
    MembersWritten(disk, x.members);
  }

  lemma EntryGives(keys: Keys, disk: Disk, e: Entry, x: Archived)
    requires OpensTo(keys, e, x) && NoFailures(disk)
    ensures Gives(EntryOutcome(keys, disk, e), x) && DataEntry(e)
  {
    hide Gives, EntryOutcome, NoFailures, WellFramed, BlocksOpen, Confirmed, Flatten, SS.EncodeStream, SS.ValidMember;
    if x.Members? {
      GroupGives(keys, disk, e, x);
    } else {
      FileGives(keys, disk, e, x);
    }
  }

  /** Entries that open to their items, extracted without file system failures, give exactly
      these items back, one after the other. */
  lemma ArchiveThenExtract(keys: Keys, disk: Disk, xs: seq<Archived>, es: seq<Entry>, trail: bytes)
    requires |xs| == |es| && (forall i :: 0 <= i < |es| ==> OpensTo(keys, es[i], xs[i])) && NoFailures(disk)
    requires NextEntryType(keys, trail).AtEnd?
    ensures var r := ExtractFrom(keys, disk, EncodeEntries(es) + trail);
            r.end.Complete? && |r.outcomes| == |xs| && forall i :: 0 <= i < |xs| ==> Gives(r.outcomes[i], xs[i])
  {
    hide OpensTo, Gives, EntryOutcome, DataEntry, NextEntryType, ExtractFrom, EncodeEntries, NoFailures, Survived, Boundaries;
    forall i | 0 <= i < |es| ensures Gives(EntryOutcome(keys, disk, es[i]), xs[i]) && DataEntry(es[i]) {
      EntryGives(keys, disk, es[i], xs[i]);
    }
    NotFatal(disk);
    RunsThrough(keys, disk, es);
    ExtractsEveryEntry(keys, disk, es, trail);
  }

  lemma NotFatal(disk: Disk)
    requires NoFailures(disk)
    ensures !Fatal(disk)
  {
  }

  // ---- Refusals, by what is wrong ----

  ghost predicate OpenFile(keys: Keys, e: Entry, m: Meta, name: bytes)
  {
    && e.kind == ENTRY_FILE && keys.meta(e.salt, e.meta) == Some(m) && keys.name(e.salt, m.nameBlob) == Some(name)
    && (m.attributes.Some? ==> m.attributes.value.kind == A.KIND_REGULAR)
  }

  /** A file entry is refused for the first thing that is wrong with it, under its own code:
      what does not open is AuthFailed, what opens to something else IntegrityFail, and what
      cannot be written WriteFailed. */
  lemma FileRefused(keys: Keys, disk: Disk, e: Entry, m: Meta, name: bytes)
    requires OpenFile(keys, e, m, name)
    ensures var o := EntryOutcome(keys, disk, e);
            var f := disk.create(name);
            if f.Some? then o == if f.value.fatal then Aborted(f.value.code) else Refused(f.value.code)
            else
              var x := D.Stream(Opens(keys, e.salt, m.codec, e.blocks), D.Sentinel);
              && (forall i: nat :: D.FirstFailure(x, (k: nat) => disk.write(name, k), i) ==>
                    o == Refused(match x.blocks[i] case BadAuth => AuthFailed case BadCompression => IntegrityFail case Plain(_) => WriteFailed))
              && (forall pieces :: BlocksOpen(keys, e.salt, m.codec, e.blocks, pieces) && (forall k: nat :: !disk.write(name, k)) ==>
                    o == if keys.trailer(e.salt, e.trailer).None? then Refused(AuthFailed)
                         else if !Confirmed(keys, e.salt, e.trailer, Flatten(pieces)) then Refused(IntegrityFail)
                         else if disk.publish(name) then Refused(WriteFailed)
                         else Results([Published(name, Flatten(pieces), m.attributes)]))
  {
    hide Flatten, FromLE, OpenBlocks, Opens;
    if disk.create(name).None? {
      var x := D.Stream(Opens(keys, e.salt, m.codec, e.blocks), D.Sentinel);
      var fails := (k: nat) => disk.write(name, k);
      ClassOfBlocks(keys, e.salt, m.codec, e.blocks, fails);
      forall pieces | BlocksOpen(keys, e.salt, m.codec, e.blocks, pieces) && forall k: nat :: !disk.write(name, k)
        ensures OpenBlocks(keys, e.salt, m.codec, e.blocks, fails) == (Flatten(pieces), None)
      {
        PiecesOpen(keys, e.salt, m.codec, e.blocks, pieces, fails);
      }
    }
  }

  lemma ClassOfBlocks(keys: Keys, salt: bytes, codec: byte, blocks: seq<Sealed>, sinkFails: nat -> bool)
    ensures var x := D.Stream(Opens(keys, salt, codec, blocks), D.Sentinel);
            forall i: nat :: D.FirstFailure(x, sinkFails, i) ==>
              OpenBlocks(keys, salt, codec, blocks, sinkFails).1 ==
                Some(match x.blocks[i] case BadAuth => D.AuthFailed case BadCompression => D.IntegrityFailed case Plain(_) => D.WriteFailed)
  {
    hide Flatten, D.Prefix, D.Passed, D.FirstFailure;
    D.ClassOfStream(D.Stream(Opens(keys, salt, codec, blocks), D.Sentinel), sinkFails);
  }

  /** A group, likewise; it is refused as a whole. */
  lemma GroupRefused(keys: Keys, disk: Disk, e: Entry, m: Meta)
    requires e.kind == ENTRY_SOLID && keys.meta(e.salt, e.meta) == Some(m)
    ensures var o := EntryOutcome(keys, disk, e);
            var x := D.Stream(Opens(keys, e.salt, CODEC_NONE, e.blocks), D.Sentinel);
            && (forall i: nat :: D.FirstFailure(x, k => false, i) ==>
                  o == Refused(if x.blocks[i] == D.BadAuth then AuthFailed else IntegrityFail))
            && (forall pieces, stream :: BlocksOpen(keys, e.salt, CODEC_NONE, e.blocks, pieces) && UnpacksTo(keys, m, Flatten(pieces), stream) ==>
                  && (keys.trailer(e.salt, e.trailer).None? ==> o == Refused(AuthFailed))
                  && (keys.trailer(e.salt, e.trailer).Some? && !Confirmed(keys, e.salt, e.trailer, stream) ==> o == Refused(IntegrityFail))
                  && (Confirmed(keys, e.salt, e.trailer, stream) && SS.Parse(stream).None? ==> o == Refused(IntegrityFail)))
  {
    hide Flatten, FromLE, OpenBlocks, Opens, SS.Parse, WriteMembers;
    ClassOfBlocks(keys, e.salt, CODEC_NONE, e.blocks, i => false);
    forall pieces | BlocksOpen(keys, e.salt, CODEC_NONE, e.blocks, pieces)
      ensures OpenBlocks(keys, e.salt, CODEC_NONE, e.blocks, i => false) == (Flatten(pieces), None)
    {
      PiecesOpen(keys, e.salt, CODEC_NONE, e.blocks, pieces, i => false);
    }
  }

  predicate UnpacksTo(keys: Keys, m: Meta, payload: bytes, stream: bytes)
  {
    if m.codec == CODEC_ZSTD then keys.unpack(payload) == Some(stream) else payload == stream && |stream| <= SS.MAX_SOLID_STREAM_SIZE
  }

  /** What has no key is refused. */
  lemma LockedRefused(keys: Keys, disk: Disk, e: Entry)
    requires keys.meta(e.salt, e.meta).None? || (e.kind == ENTRY_FILE && keys.name(e.salt, keys.meta(e.salt, e.meta).value.nameBlob).None?)
    ensures EntryOutcome(keys, disk, e) == Refused(AuthFailed)
  {
  }

  // ---- Nothing unconfirmed is published ----

  predicate Suffix(rest: bytes, b: bytes) { |rest| <= |b| && rest == b[|b| - |rest|..] }

  lemma SuffixOf(a: bytes, b: bytes, c: bytes)
    requires Suffix(a, b) && Suffix(b, c)
    ensures Suffix(a, c)
  {
  }

  lemma PaddingSuffix(b: bytes)
    ensures SkipPadding(b).Some? ==> Suffix(SkipPadding(b).value, b)
  {
  }

  lemma {:induction false} BlocksSuffix(b: bytes)
    ensures Suffix(ReadBlocks(b).rest, b)
    decreases |b|
  {
    hide FromLE;
    if |b| >= NONCE_SIZE + 4 {
      var n := FromLE(b[NONCE_SIZE..NONCE_SIZE + 4]);
      var after := b[NONCE_SIZE + 4..];
      if 0 < n <= MAX_BLOCK && n <= |after| {
        BlocksSuffix(after[n..]);
        SuffixOf(ReadBlocks(b).rest, after[n..], b);
      }
    }
  }

  lemma {:induction false} SkippedSuffix(b: bytes)
    ensures Suffix(SkipDataBlocks(b).rest, b)
    decreases |b|
  {
    hide FromLE;
    if |b| >= NONCE_SIZE + 4 {
      var n := FromLE(b[NONCE_SIZE..NONCE_SIZE + 4]);
      var after := b[NONCE_SIZE + 4..];
      if TAG_SIZE <= n <= MAX_BLOCK && n <= |after| {
        SkippedSuffix(after[n..]);
        SuffixOf(SkipDataBlocks(b).rest, after[n..], b);
      }
    }
  }

  lemma TrailerSuffix(b: bytes)
    ensures Suffix(SkipTrailer(b).rest, b) && Suffix(ReadTrailer(b).rest, b)
  {
    hide FromLE;
  }

  lemma BodySuffix(b: bytes)
    ensures Suffix(SkipBody(b).rest, b)
  {
    hide SkipDataBlocks, SkipTrailer;
    var b1 := SkipPadding(b);
    if b1.Some? {
      PaddingSuffix(b);
      SkippedSuffix(b1.value);
      var b2 := SkipDataBlocks(b1.value).rest;
      SuffixOf(b2, b1.value, b);
      TrailerSuffix(b2);
      SuffixOf(SkipTrailer(b2).rest, b2, b);
    }
  }

  lemma HeadSuffix(keys: Keys, b: bytes)
    ensures Suffix(ReadHead(keys, b).rest, b)
    ensures ReadHead(keys, b).Ok? ==> |b| >= SALT_SIZE && ReadHead(keys, b).value.salt == b[..SALT_SIZE]
  {
    hide FromLE, SkipBody;
    if |b| >= SALT_SIZE + FRAME_SIZE {
      var x := ReadSealed(b[SALT_SIZE..][FRAME_SIZE..], MAX_METADATA);
      if x.Read? {
        BodySuffix(x.rest);
        SuffixOf(SkipBody(x.rest).rest, x.rest, b);
      }
    }
  }

  lemma FileSuffix(keys: Keys, disk: Disk, h: Head, b: bytes)
    ensures Suffix(ExtractFile(keys, disk, h, b).rest, b)
  {
    hide ReadTrailer, ReadBlocks, StreamBlocks, SkipBody, SkipTrailer, SkipPadding, TrailerProblem, Suffix;
    BodySuffix(b);
    RestSuffix(b);
    Whole(b);
  }

  lemma Whole(b: bytes)
    ensures Suffix(b, b) && Suffix([], b)
  {
  }

  /** Padding, blocks and trailer, read or skipped. */
  lemma RestSuffix(b: bytes)
    ensures SkipPadding(b).Some? ==>
              var after := ReadBlocks(SkipPadding(b).value).rest;
              Suffix(after, b) && Suffix(SkipTrailer(after).rest, b) && Suffix(ReadTrailer(after).rest, b)
  {
    hide ReadTrailer, ReadBlocks, SkipTrailer, SkipPadding, Suffix;
    var b1 := SkipPadding(b);
    if b1.Some? {
      var after := ReadBlocks(b1.value).rest;
      PaddingSuffix(b);
      BlocksSuffix(b1.value);
      SuffixOf(after, b1.value, b);
      TrailerSuffix(after);
      SuffixOf(SkipTrailer(after).rest, after, b);
      SuffixOf(ReadTrailer(after).rest, after, b);
    }
  }

  lemma SolidSuffix(keys: Keys, h: Head, b: bytes)
    ensures Suffix(ReadSolid(keys, h, b).rest, b)
  {
    hide ReadTrailer, ReadBlocks, StreamBlocks, SkipTrailer, SkipPadding, TrailerProblem, Suffix, UnpackSolid, SS.Parse;
    RestSuffix(b);
    Whole(b);
  }

  lemma EntrySuffix(keys: Keys, disk: Disk, kind: byte, b: bytes)
    ensures Suffix(ExtractEntry(keys, disk, kind, b).rest, b)
  {
    hide ReadHead, ReadSolid, ExtractFile, WriteMembers, Suffix;
    HeadSuffix(keys, b);
    var h := ReadHead(keys, b);
    if h.Ok? {
      SolidSuffix(keys, h.value, h.rest);
      FileSuffix(keys, disk, h.value, h.rest);
      SuffixOf(ReadSolid(keys, h.value, h.rest).rest, h.rest, b);
      SuffixOf(ExtractFile(keys, disk, h.value, h.rest).rest, h.rest, b);
    }
  }

  lemma {:induction false} NextSuffix(keys: Keys, b: bytes)
    ensures NextEntryType(keys, b).Found? ==> Suffix(NextEntryType(keys, b).rest, b)
    decreases |b|
  {
    hide ReadHead, SkipBody, ParseLocator;
    if b != [] {
      var rest := b[1..];
      var h := ReadHead(keys, rest);
      if b[0] == ENTRY_DIRECTORY && SkipDirectory(keys, rest).Some? {
        HeadSuffix(keys, rest);
        BodySuffix(h.rest);
        var after := SkipBody(h.rest).rest;
        SuffixOf(after, h.rest, rest);
        SuffixOf(after, rest, b);
        NextSuffix(keys, after);
        if NextEntryType(keys, after).Found? { SuffixOf(NextEntryType(keys, after).rest, after, b); }
      } else if b[0] == ENTRY_LOCATOR && |b| >= LOCATOR_SIZE {
        NextSuffix(keys, b[LOCATOR_SIZE..]);
      }
    }
  }

  /** A trailer read from these bytes, as the last thing before `rest`, confirms `data` under the
      key of the entry's salt. */
  ghost predicate ConfirmedIn(keys: Keys, b: bytes, rest: bytes, data: bytes)
  {
    |b| >= SALT_SIZE && exists t, s :: Suffix(t, b) && ReadTrailer(t) == Ok(s, rest) && Confirmed(keys, b[..SALT_SIZE], s, data)
  }

  lemma FileConfirmed(keys: Keys, disk: Disk, h: Head, b: bytes)
    requires ExtractFile(keys, disk, h, b).Ok?
    ensures var r := ExtractFile(keys, disk, h, b);
            && |r.value| == 1
            && (r.value[0].Published? ==>
                  exists t, s :: Suffix(t, b) && ReadTrailer(t) == Ok(s, r.rest) && Confirmed(keys, h.salt, s, r.value[0].data))
  {
    hide ReadTrailer, ReadBlocks, StreamBlocks, SkipBody, SkipTrailer, SkipPadding, FromLE;
    var b1 := SkipPadding(b);
    if b1.Some? {
      PaddingSuffix(b);
      BlocksSuffix(b1.value);
      SuffixOf(ReadBlocks(b1.value).rest, b1.value, b);
    }
  }

  lemma SolidConfirmed(keys: Keys, h: Head, b: bytes)
    requires ReadSolid(keys, h, b).Ok?
    ensures var r := ReadSolid(keys, h, b);
            && SS.Parse(r.value.stream) == Some(r.value.members)
            && exists t, s :: Suffix(t, b) && ReadTrailer(t) == Ok(s, r.rest) && Confirmed(keys, h.salt, s, r.value.stream)
  {
    hide ReadTrailer, ReadBlocks, StreamBlocks, SkipTrailer, SkipPadding, FromLE, SS.Parse, UnpackSolid;
    var b1 := SkipPadding(b);
    if b1.Some? {
      PaddingSuffix(b);
      BlocksSuffix(b1.value);
      SuffixOf(ReadBlocks(b1.value).rest, b1.value, b);
    }
  }

  lemma {:induction false} OnlyMembers(disk: Disk, ms: seq<SS.Member>)
    requires WriteMembers(disk, ms).Results?
    ensures var files := WriteMembers(disk, ms).files;
            && |files| == |ms|
            && forall i :: 0 <= i < |ms| && files[i].Published? ==> files[i] == Published(ms[i].name, ms[i].data, Some(ms[i].attributes))
  {
    if ms != [] {
      OnlyMembers(disk, ms[1..]);
    }
  }

  /** What one entry publishes was confirmed by its trailer: a file's own bytes, or the record
      stream of exactly the group's members. */
  ghost predicate EntryConfirmed(keys: Keys, b: bytes, rest: bytes, files: seq<Extracted>)
  {
    || (|files| == 1 && (files[0].Published? ==> ConfirmedIn(keys, b, rest, files[0].data)))
    || exists ms: seq<SS.Member> ::
         && |ms| == |files| && ConfirmedIn(keys, b, rest, SS.EncodeStream(ms))
         && forall i :: 0 <= i < |ms| && files[i].Published? ==> files[i] == Published(ms[i].name, ms[i].data, Some(ms[i].attributes))
  }

  /** For all bytes, keys and file system failures. */
  lemma ExtractedIsConfirmed(keys: Keys, disk: Disk, kind: byte, b: bytes)
    requires ExtractEntry(keys, disk, kind, b).Ok?
    ensures var r := ExtractEntry(keys, disk, kind, b); EntryConfirmed(keys, b, r.rest, r.value)
  {
    hide ReadHead, ReadSolid, ExtractFile, WriteMembers, ReadTrailer, Confirmed, Suffix, SS.Parse, SS.EncodeStream;
    var h := ReadHead(keys, b);
    HeadSuffix(keys, b);
    var b1 := h.rest;
    if kind == ENTRY_SOLID {
      SolidConfirmed(keys, h.value, b1);
      var g := ReadSolid(keys, h.value, b1);
      OnlyMembers(disk, g.value.members);
      SS.ParseIffEncode(g.value.stream, g.value.members);
      var t, s :| Suffix(t, b1) && ReadTrailer(t) == Ok(s, g.rest) && Confirmed(keys, h.value.salt, s, g.value.stream);
      SuffixOf(t, b1, b);
      assert ConfirmedIn(keys, b, g.rest, SS.EncodeStream(g.value.members));
    } else {
      FileConfirmed(keys, disk, h.value, b1);
      var r := ExtractFile(keys, disk, h.value, b1);
      if r.value[0].Published? {
        var t, s :| Suffix(t, b1) && ReadTrailer(t) == Ok(s, r.rest) && Confirmed(keys, h.value.salt, s, r.value[0].data);
        SuffixOf(t, b1, b);
        assert ConfirmedIn(keys, b, r.rest, r.value[0].data);
      }
    }
  }

  /** So of all a run publishes, whatever the archive's bytes. */
  lemma {:induction false} RunIsConfirmed(keys: Keys, disk: Disk, b: bytes)
    ensures forall i :: 0 <= i < |ExtractFrom(keys, disk, b).outcomes| && ExtractFrom(keys, disk, b).outcomes[i].Results? ==>
              exists body, rest :: Suffix(body, b) && EntryConfirmed(keys, body, rest, ExtractFrom(keys, disk, b).outcomes[i].files)
    decreases |b|
  {
    hide EntryConfirmed, ExtractEntry, NextEntryType, Suffix;
    var next := NextEntryType(keys, b);
    if next.Found? {
      NextSuffix(keys, b);
      var step := ExtractEntry(keys, disk, next.kind, next.rest);
      if step.Ok? { ExtractedIsConfirmed(keys, disk, next.kind, next.rest); }
      if step.Ok? || !step.fatal {
        RunIsConfirmed(keys, disk, step.rest);
        EntrySuffix(keys, disk, next.kind, next.rest);
        SuffixOf(step.rest, next.rest, b);
        var outcomes, later := ExtractFrom(keys, disk, b).outcomes, ExtractFrom(keys, disk, step.rest).outcomes;
        forall i | 0 <= i < |outcomes| && outcomes[i].Results?
          ensures exists body, rest :: Suffix(body, b) && EntryConfirmed(keys, body, rest, outcomes[i].files)
        {
          if i > 0 {
            assert outcomes[i] == later[i - 1];
            var body, rest :| Suffix(body, step.rest) && EntryConfirmed(keys, body, rest, later[i - 1].files);
            SuffixOf(body, step.rest, b);
          }
        }
      }
    }
  }
}
