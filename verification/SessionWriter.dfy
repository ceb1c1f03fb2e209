/** sessionWriter (io/incremental_write.go): chunks files, stores the chunks the archive
    does not hold yet in pack entries, and collects the session's index. */
module SessionWriter {
  import opened Bytes
  import opened Format
  import opened ArchiveFile
  import opened ChunkStore
  import SI = SessionIndex
  import Chunker

  class SessionWriter {
    const env: Env
    const base: nat // archive offset where the session starts
    ghost const packs0: Packs
    ghost const chunks0: seq<ChunkLocation>
    var chunks: seq<ChunkLocation>      // ia.chunks
    var known: map<SI.ChunkID, nat>
    var packOffsets: seq<u64>           // index.Packs
    var records: seq<SI.ChunkRecord>    // index.Chunks
    var out: seq<Obj>                   // pack entries written so far
    var offset: nat                     // where the open pack, or the next entry, starts
    var open: bool
    var payload: bytes                  // plaintext of the open pack
    ghost var packs: Packs

    ghost predicate Layout()
      reads this
    {
      && AllPacks(out)
      && offset == base + |EncodeAll(out)| && offset < TWO_63
      && |packOffsets| == |out| + (if open then 1 else 0) && |packOffsets| < TWO_32
      && (open ==> packOffsets[|out|] == offset)
      && (forall i :: 0 <= i < |out| ==> base <= packOffsets[i] < offset)
      && |payload| <= SI.MAX_PACK_SIZE
      && (forall k :: k in packs0 ==> k < base)
      && packs == packs0 + Place(base, out) + (if open then map[offset := payload] else map[])
    }

    ghost predicate Recording()
      reads this
    {
      && chunks0 <= chunks && |chunks| == |chunks0| + |records| && |chunks| < TWO_63
      && forall i :: 0 <= i < |records| ==>
           SI.ValidChunk(records[i], |packOffsets|) && chunks[|chunks0| + i] == Location(records[i], packOffsets)
    }

    ghost predicate Indexed()
      reads this
    {
      && (forall id :: id in known ==> known[id] < |chunks| && chunks[known[id]].id == id)
      && (forall i :: 0 <= i < |chunks| ==> chunks[i].id in known)
    }

    ghost predicate Valid()
      reads this
    {
      Sound(env) && Layout() && Recording() && Indexed() && GoodChunks(packs, chunks, env)
    }

    /** What the rest of a session keeps of an earlier point in it. */
    twostate predicate Grows()
      reads this
    {
      Extends(old(packs), packs) && old(chunks) <= chunks
    }

    constructor (env: Env, base: nat, ghost packs0: Packs, chunks: seq<ChunkLocation>)
      requires Sound(env) && base < TWO_63 && |chunks| < TWO_63
      requires forall k :: k in packs0 ==> k < base
      requires GoodChunks(packs0, chunks, env)
      ensures Valid() && this.env == env && this.base == base && this.packs0 == packs0 && this.chunks0 == chunks
      ensures this.chunks == chunks && packs == packs0 && records == [] && packOffsets == []
    {
      this.env, this.base, this.packs0, this.chunks0 := env, base, packs0, chunks;
      this.chunks, this.packs := chunks, packs0;
      this.packOffsets, this.records, this.out, this.offset := [], [], [], base;
      this.open, this.payload := false, [];
      new;
      known := map[];
      var n := 0;
      while n < |chunks|
        invariant 0 <= n <= |chunks|
        invariant forall id :: id in known ==> known[id] < n && chunks[known[id]].id == id
        invariant forall i :: 0 <= i < n ==> chunks[i].id in known
        invariant this.chunks == chunks && packs == packs0 && records == [] && packOffsets == [] && out == []
        invariant offset == base && !open && payload == []
      {
        known := known[chunks[n].id := n];
        n := n + 1;
      }
      assert EncodeAll(out) == [];
      assert Place(base, out) == map[];
    }

    method OpenPack() returns (ok: bool)
      requires Valid() && !open
      modifies this`packOffsets, this`open, this`payload, this`packs
      ensures ok ==> Valid() && open && payload == [] && Grows()
    {
      hide GoodChunk, Sound, EncodeAll, Place, SI.ValidChunk;
      if |packOffsets| + 1 >= TWO_32 {
        return false;
      }
      ghost var before := packs;
      packOffsets := packOffsets + [offset];
      open, payload := true, [];
      packs := packs[offset := []];
      assert offset !in before;
      assert packs == packs0 + Place(base, out) + map[offset := payload];
      MorePacks(old(packOffsets));
      GoodChunksExtend(before, packs, chunks, env);
      return true;
    }

    /** Records stay valid when a pack is added. */
    twostate lemma MorePacks(few: seq<u64>)
      requires old(Recording()) && few == old(packOffsets) <= packOffsets
      requires chunks == old(chunks) && records == old(records)
      ensures Recording()
    {
      hide GoodChunk, Sound, EncodeAll, Place;
    }

    method ClosePack() returns (ok: bool)
      requires Valid()
      modifies this`out, this`offset, this`open, this`payload
      ensures ok ==> Valid() && !open && packs == old(packs)
    {
      hide GoodChunk, Sound, EncodeAll, Place, SI.ValidChunk;
      if !open {
        return true;
      }
      var size: EntrySize :| true;
      if offset + size >= TWO_63 {
        return false;
      }
      var o := Pack(payload, size);
      PlaceSnoc(base, out, o);
      out := out + [o];
      offset := offset + size;
      open, payload := false, [];
      return true;
    }

    /** Appends stored bytes to the open pack. */
    method Append(stored: bytes)
      requires Valid() && open && |payload| + |stored| <= SI.MAX_PACK_SIZE
      modifies this`payload, this`packs
      ensures Valid() && open && payload == old(payload) + stored && packs == old(packs)[offset := payload] && Grows()
    {
      hide GoodChunk, Sound, EncodeAll, Place, SI.ValidChunk;
      ghost var before := packs;
      payload := payload + stored;
      packs := packs[offset := payload];
      assert packs == packs0 + Place(base, out) + map[offset := payload];
      assert Extends(before, packs);
      GoodChunksExtend(before, packs, chunks, env);
    }

    /** Makes room for `n` stored bytes: a new pack starts before one would overflow. */
    method Reserve(n: nat) returns (ok: bool)
      requires Valid() && n <= SI.MAX_PACK_SIZE
      modifies this`out, this`offset, this`open, this`payload, this`packOffsets, this`packs
      ensures ok ==> Valid() && open && |payload| + n <= SI.MAX_PACK_SIZE && Grows()
    {
      ok := true;
      if open && |payload| + n > SI.MAX_PACK_SIZE {
        ok := ClosePack();
        if !ok {
          return;
        }
      }
      if !open {
        label closed:
        assert packs == old(packs);
        ok := OpenPack();
        assert ok ==> Extends(old@closed(packs), packs);
      }
    }

    /** Enters the chunk just appended to the open pack under the next chunk number. */
    method Register(id: SI.ChunkID, chunk: bytes, at: nat, stored: bytes, codec: byte) returns (n: u64)
      requires Valid() && open && id !in known && id == env.id(chunk) && env.occurs(chunk)
      requires 0 < |chunk| <= SI.MAX_CDC_CHUNK_SIZE && 0 < |stored| <= SI.MAX_STORED_CHUNK_SIZE
      requires at + |stored| == |payload| && payload[at..] == stored && |chunks| + 1 < TWO_63
      requires forall i :: 0 <= i < |chunks| && chunks[i].packOffset == offset ==> chunks[i].offset + chunks[i].stored <= at
      requires codec == CODEC_NONE || codec == CODEC_ZSTD
      requires Decode(codec, stored, env) == Some(chunk) && (codec == CODEC_NONE ==> stored == chunk)
      modifies this`chunks, this`records, this`known
      ensures Valid() && Grows() && packs == old(packs)
      ensures n == |old(chunks)| < |chunks| && RawOf(packs, chunks[n], env) == chunk
    {
      hide Sound, EncodeAll, Place, GoodChunk, GoodChunks, RawOf, SI.ValidChunk;
      n := |chunks|;
      var rec := SI.ChunkRecord(id, |packOffsets| - 1, at, |stored|, |chunk|, codec);
      var loc := ChunkLocation(id, packOffsets[|packOffsets| - 1], at, |stored|, |chunk|, codec);
      ChunkIsGood(rec, |packOffsets|, loc, chunk, payload, stored, packs, env);
      records := records + [rec];
      GoodChunksSnoc(packs, chunks, loc, env);
      chunks := chunks + [loc];
      known := known[id := n];
    }

    /** The chunks of the open pack lie within what it holds so far. */
    lemma ChunksWithin()
      requires Valid() && open
      ensures forall i :: 0 <= i < |chunks| && chunks[i].packOffset == offset ==> chunks[i].offset + chunks[i].stored <= |payload|
    {
      forall i | 0 <= i < |chunks| && chunks[i].packOffset == offset
        ensures chunks[i].offset + chunks[i].stored <= |payload|
      {
        assert GoodChunk(packs, chunks[i], env);
      }
    }

    /** storeChunk. */
    method StoreChunk(id: SI.ChunkID, chunk: bytes, zstd: bool) returns (ok: bool, n: u64)
      requires Valid() && id !in known && id == env.id(chunk) && env.occurs(chunk)
      requires 0 < |chunk| <= SI.MAX_CDC_CHUNK_SIZE
      modifies this
      ensures ok ==> Valid() && Grows() && n < |chunks| && RawOf(packs, chunks[n], env) == chunk
    {
      hide GoodChunk, EncodeAll, Place, SI.ValidChunk, Layout, Recording, Indexed, GoodChunks, RawOf;
      n := 0;
      var stored, codec := chunk, CODEC_NONE;
      if zstd {
        var packed := env.compress(chunk);
        if |packed| < |chunk| {
          stored, codec := packed, CODEC_ZSTD;
        }
      }
      ok := Reserve(|stored|);
      if !ok || |chunks| + 1 >= TWO_63 {
        return false, 0;
      }
      label reserved:
      var at := |payload|;
      ChunksWithin();
      Append(stored);
      assert payload[at..] == stored;
      label appended:
      n := Register(id, chunk, at, stored, codec);
      GrowsThrough(old(packs), old@reserved(packs), old@appended(packs), packs);
    }

    /** addFile: the version recorded restores to exactly the bytes read; a read error keeps
        the chunks stored so far and records nothing. */
    method AddFile(name: bytes, attributes: SI.A.Attributes, data: bytes, broken: bool, zstd: bool) returns (outcome: FileOutcome)
      requires Valid() && forall p :: p in Chunker.Split(data, env.gear) ==> env.occurs(p)
      modifies this
      ensures outcome != Fatal ==> Valid() && Grows() && (outcome.Version? <==> !broken)
      ensures outcome.Version? ==>
                && outcome.file.name == name
                && Restores(packs, chunks, outcome.file, Recorded(attributes, data), env)
    {
      hide GoodChunk, EncodeAll, Place, SI.ValidChunk, Layout, Recording, Indexed, GoodChunks, RawOf, FileBytes, Chunker.Split, Chunker.Ahead;
      var pieces, complete := Chunker.Drain(data, broken, env.gear);
      Chunker.SplitSizes(data, env.gear);
      Chunker.SplitRejoins(data, env.gear);
      var ns: seq<u64> := [];
      var i := 0;
      NoBytes(packs, chunks, env);
      while i < |pieces|
        invariant 0 <= i <= |pieces| && Valid() && Grows() && InRange(ns, chunks)
        invariant FileBytes(packs, chunks, ns, env) == Flatten(pieces[..i])
      {
        ghost var packs1, chunks1 := packs, chunks;
        assert pieces[i] == Chunker.Split(data, env.gear)[i];
        var ok, n := PieceNumber(pieces[i], zstd);
        if !ok {
          return Fatal;
        }
        assert pieces[..i + 1] == pieces[..i] + [pieces[i]];
        FlattenSnoc(pieces[..i], pieces[i]);
        ExtendByPiece(packs1, packs, chunks1, chunks, ns, n, env);
        ExtendsTransitive(old(packs), packs1, packs);
        ns := ns + [n];
        i := i + 1;
      }
      assert pieces[..|pieces|] == pieces;
      if !complete {
        return Unreadable;
      }
      if |data| >= TWO_63 {
        return Fatal;
      }
      return Version(SI.FileVersion(name, attributes, |data|, ns));
    }

    /** The number of a chunk with these bytes, stored now unless the archive has it. */
    method PieceNumber(piece: bytes, zstd: bool) returns (ok: bool, n: u64)
      requires Valid() && env.occurs(piece) && 0 < |piece| <= SI.MAX_CDC_CHUNK_SIZE
      modifies this
      ensures ok ==> Valid() && Grows() && n < |chunks| && RawOf(packs, chunks[n], env) == piece
    {
      hide EncodeAll, Place, SI.ValidChunk, Layout;
      var id := env.id(piece);
      if id in known {
        n := known[id];
        assert GoodChunk(packs, chunks[n], env);
        return true, n;
      }
      ok, n := StoreChunk(id, piece, zstd);
    }
  }

  datatype FileOutcome = Version(file: SI.FileVersion) | Unreadable | Fatal

  lemma ExtendByPiece(packs: Packs, more: Packs, chunks: seq<ChunkLocation>, longer: seq<ChunkLocation>, ns: seq<u64>, n: u64, env: Env)
    requires GoodChunks(packs, chunks, env) && GoodChunks(more, longer, env)
    requires Extends(packs, more) && chunks <= longer && InRange(ns, chunks) && n < |longer|
    ensures InRange(ns + [n], longer)
    ensures FileBytes(more, longer, ns + [n], env) == FileBytes(packs, chunks, ns, env) + RawOf(more, longer[n], env)
  {
    hide GoodChunk, RawOf, Extends;
    FileBytesExtend(packs, more, chunks, longer, ns, env);
    FileBytesSnoc(more, longer, ns, n, env);
  }

  lemma NoBytes(packs: Packs, chunks: seq<ChunkLocation>, env: Env)
    requires GoodChunks(packs, chunks, env)
    ensures FileBytes(packs, chunks, [], env) == [] && Flatten([]) == []
  {
  }

  lemma ChunkIsGood(rec: SI.ChunkRecord, packCount: nat, loc: ChunkLocation, chunk: bytes, payload: bytes, stored: bytes, packs: Packs, env: Env)
    requires loc.packOffset in packs && packs[loc.packOffset] == payload
    requires loc.offset + |stored| == |payload| <= SI.MAX_PACK_SIZE && payload[loc.offset..] == stored
    requires loc.stored == |stored| && loc.raw == |chunk| && loc.id == env.id(chunk) && env.occurs(chunk)
    requires 0 < |chunk| <= SI.MAX_CDC_CHUNK_SIZE && 0 < |stored| <= SI.MAX_STORED_CHUNK_SIZE
    requires loc.codec == CODEC_NONE || loc.codec == CODEC_ZSTD
    requires Decode(loc.codec, stored, env) == Some(chunk) && (loc.codec == CODEC_NONE ==> stored == chunk)
    requires rec.pack < packCount && rec.offset == loc.offset && rec.storedLen == loc.stored && rec.rawLen == loc.raw && rec.codec == loc.codec
    ensures GoodChunk(packs, loc, env) && RawOf(packs, loc, env) == chunk && SI.ValidChunk(rec, packCount)
  {
    assert payload[loc.offset..loc.offset + loc.stored] == stored;
  }

  lemma ExtendsTransitive(a: Packs, b: Packs, c: Packs)
    requires Extends(a, b) && Extends(b, c)
    ensures Extends(a, c)
  {
  }

  lemma GrowsThrough(a: Packs, b: Packs, c: Packs, d: Packs)
    requires Extends(a, b) && Extends(b, c) && Extends(c, d)
    ensures Extends(a, d)
  {
  }
}
