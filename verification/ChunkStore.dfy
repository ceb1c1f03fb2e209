/** What an incremental archive's chunks and files mean: the bytes they restore to. */
module ChunkStore {
  import opened Bytes
  import opened Format
  import opened ArchiveFile
  import SI = SessionIndex
  import Chunker

  /** The primitives the archive relies on. `occurs` is the set of chunks that occur: chunk
      IDs (keyed HMACs) are only asked to be injective on it. */
  datatype Env = Env(id: bytes -> SI.ChunkID, compress: bytes -> bytes, decompress: bytes -> Option<bytes>,
                     occurs: bytes -> bool, gear: Chunker.Gear)

  ghost predicate Sound(env: Env)
  {
    && (forall a, b :: env.occurs(a) && env.occurs(b) && env.id(a) == env.id(b) ==> a == b)
    && (forall x :: env.decompress(env.compress(x)) == Some(x) && env.compress(x) != [])
  }

  // ---- Sound primitives exist ----

  /** One more than the first place of `x` in `xs`, or 0. */
  function Rank(xs: seq<bytes>, x: bytes): (k: nat)
    ensures k <= |xs| && (k == 0 <==> x !in xs) && (k > 0 ==> xs[k - 1] == x)
  {
    if xs == [] then 0
    else if xs[0] == x then 1
    else
      var k := Rank(xs[1..], x);
      if k == 0 then 0 else 1 + k
  }

  function ListEnv(xs: seq<bytes>, gear: Chunker.Gear): Env
  {
    Env(x => LE(Rank(xs, x), HMAC_SIZE), x => [0] + x, y => if y == [] then None else Some(y[1..]), x => x in xs, gear)
  }

  lemma RankTells(xs: seq<bytes>, x: bytes, y: bytes)
    requires |xs| < Pow256(HMAC_SIZE) && x in xs && LE(Rank(xs, x), HMAC_SIZE) == LE(Rank(xs, y), HMAC_SIZE)
    ensures x == y
  {
    hide LE, FromLE, Rank, Pow256;
    FromLEOfLE(Rank(xs, x), HMAC_SIZE);
    FromLEOfLE(Rank(xs, y), HMAC_SIZE);
  }

  /** Fewer than 2^256 chunks can always be told apart, even from everything else. */
  lemma SoundEnvExists(xs: seq<bytes>, gear: Chunker.Gear)
    requires |xs| < Pow256(HMAC_SIZE)
    ensures var env := ListEnv(xs, gear);
            && Sound(env) && (forall x :: x in xs <==> env.occurs(x))
            && forall x, y :: env.occurs(x) && env.id(y) == env.id(x) ==> env.occurs(y)
  {
    hide LE, FromLE, Rank, Pow256;
    var env := ListEnv(xs, gear);
    forall x, y | env.occurs(x) && env.id(y) == env.id(x) ensures x == y {
      RankTells(xs, x, y);
    }
    forall x ensures env.decompress(env.compress(x)) == Some(x) && env.compress(x) != [] {
      assert ([0] + x)[1..] == x;
    }
  }

  function Decode(codec: byte, stored: bytes, env: Env): Option<bytes>
  {
    if codec == CODEC_ZSTD then env.decompress(stored) else Some(stored)
  }

  /** Plaintexts of pack entries by archive offset. */
  type Packs = map<nat, bytes>

  predicate GoodChunk(packs: Packs, loc: ChunkLocation, env: Env)
  {
    && loc.packOffset in packs && loc.offset + loc.stored <= |packs[loc.packOffset]| && 0 < loc.stored
    && var raw := Decode(loc.codec, packs[loc.packOffset][loc.offset..loc.offset + loc.stored], env);
       raw.Some? && |raw.value| == loc.raw && env.id(raw.value) == loc.id && env.occurs(raw.value)
  }

  function RawOf(packs: Packs, loc: ChunkLocation, env: Env): bytes
    requires GoodChunk(packs, loc, env)
  {
    Decode(loc.codec, packs[loc.packOffset][loc.offset..loc.offset + loc.stored], env).value
  }

  /** Later chunks of a pack lie after earlier ones. */
  predicate Apart(a: ChunkLocation, b: ChunkLocation)
  {
    a.packOffset == b.packOffset ==> a.offset + a.stored <= b.offset
  }

  /** Every chunk restores, to bytes of its recorded size and ID; no ID repeats and no two
      chunks of a pack overlap. */
  predicate GoodChunks(packs: Packs, chunks: seq<ChunkLocation>, env: Env)
  {
    && (forall i :: 0 <= i < |chunks| ==> GoodChunk(packs, chunks[i], env))
    && (forall i, j :: 0 <= i < j < |chunks| ==> chunks[i].id != chunks[j].id && Apart(chunks[i], chunks[j]))
  }

  /** The bytes a list of chunk numbers stands for. */
  function FileBytes(packs: Packs, chunks: seq<ChunkLocation>, ns: seq<u64>, env: Env): bytes
    requires GoodChunks(packs, chunks, env) && InRange(ns, chunks)
  {
    if ns == [] then [] else RawOf(packs, chunks[ns[0]], env) + FileBytes(packs, chunks, ns[1..], env)
  }

  lemma {:induction false} FileBytesSnoc(packs: Packs, chunks: seq<ChunkLocation>, ns: seq<u64>, n: u64, env: Env)
    requires GoodChunks(packs, chunks, env) && InRange(ns, chunks) && n < |chunks|
    ensures InRange(ns + [n], chunks)
    ensures FileBytes(packs, chunks, ns + [n], env) == FileBytes(packs, chunks, ns, env) + RawOf(packs, chunks[n], env)
    decreases |ns|
  {
    hide GoodChunk, RawOf;
    if ns == [] {
      assert (ns + [n])[1..] == [];
    } else {
      FileBytesSnoc(packs, chunks, ns[1..], n, env);
      assert (ns + [n])[1..] == ns[1..] + [n];
    }
  }

  lemma {:induction false} RawSumIsLength(packs: Packs, chunks: seq<ChunkLocation>, ns: seq<u64>, env: Env)
    requires GoodChunks(packs, chunks, env) && InRange(ns, chunks)
    ensures RawSum(ns, chunks) == |FileBytes(packs, chunks, ns, env)|
    decreases |ns|
  {
    if ns == [] {
    } else {
      RawSumIsLength(packs, chunks, ns[1..], env);
    }
  }

  /** Packs only grow: entries are added and an open pack is appended to. */
  predicate Extends(packs: Packs, more: Packs)
  {
    forall k :: k in packs ==> k in more && packs[k] <= more[k]
  }

  lemma GoodChunkExtends(packs: Packs, more: Packs, loc: ChunkLocation, env: Env)
    requires GoodChunk(packs, loc, env) && Extends(packs, more)
    ensures GoodChunk(more, loc, env) && RawOf(more, loc, env) == RawOf(packs, loc, env)
  {
    var a, b := packs[loc.packOffset], more[loc.packOffset];
    var lo, hi := loc.offset, loc.offset + loc.stored;
    SliceOfPrefix(a, b, lo, hi);
  }

  lemma SliceOfPrefix(a: bytes, b: bytes, lo: nat, hi: nat)
    requires a <= b && lo <= hi <= |a|
    ensures b[lo..hi] == a[lo..hi]
  {
  }

  lemma GoodChunksSnoc(packs: Packs, chunks: seq<ChunkLocation>, loc: ChunkLocation, env: Env)
    requires GoodChunks(packs, chunks, env) && GoodChunk(packs, loc, env)
    requires forall i :: 0 <= i < |chunks| ==> chunks[i].id != loc.id && Apart(chunks[i], loc)
    ensures GoodChunks(packs, chunks + [loc], env)
  {
    hide GoodChunk, Apart;
  }

  lemma GoodChunksExtend(packs: Packs, more: Packs, chunks: seq<ChunkLocation>, env: Env)
    requires GoodChunks(packs, chunks, env) && Extends(packs, more)
    ensures GoodChunks(more, chunks, env)
  {
    forall i | 0 <= i < |chunks| ensures GoodChunk(more, chunks[i], env) {
      GoodChunkExtends(packs, more, chunks[i], env);
    }
  }

  lemma {:induction false} FileBytesExtend(packs: Packs, more: Packs, chunks: seq<ChunkLocation>, longer: seq<ChunkLocation>, ns: seq<u64>, env: Env)
    requires GoodChunks(packs, chunks, env) && GoodChunks(more, longer, env)
    requires Extends(packs, more) && chunks <= longer && InRange(ns, chunks)
    ensures InRange(ns, longer) && FileBytes(more, longer, ns, env) == FileBytes(packs, chunks, ns, env)
    decreases |ns|
  {
    hide GoodChunk, RawOf, Extends;
    if ns == [] {
    } else {
      GoodChunkExtends(packs, more, chunks[ns[0]], env);
      FileBytesExtend(packs, more, chunks, longer, ns[1..], env);
    }
  }

  // ---- Snapshots: what the archive is supposed to hold ----

  datatype Recorded = Recorded(attributes: SI.A.Attributes, content: bytes)
  type Snapshot = map<bytes, Recorded>

  /** A recorded file version restores to the recorded content. */
  predicate Restores(packs: Packs, chunks: seq<ChunkLocation>, f: SI.FileVersion, r: Recorded, env: Env)
    requires GoodChunks(packs, chunks, env)
  {
    && f.attributes == r.attributes && InRange(f.chunks, chunks)
    && f.size == |r.content| && FileBytes(packs, chunks, f.chunks, env) == r.content
  }

  predicate Represents(packs: Packs, c: Contents, snap: Snapshot, env: Env)
  {
    && GoodChunks(packs, c.chunks, env)
    && c.files.Keys == snap.Keys
    && forall n :: n in snap ==> c.files[n].name == n && Restores(packs, c.chunks, c.files[n], snap[n], env)
  }

  lemma RestoresExtend(packs: Packs, more: Packs, chunks: seq<ChunkLocation>, longer: seq<ChunkLocation>, f: SI.FileVersion, r: Recorded, env: Env)
    requires GoodChunks(packs, chunks, env) && GoodChunks(more, longer, env)
    requires Extends(packs, more) && chunks <= longer && Restores(packs, chunks, f, r, env)
    ensures Restores(more, longer, f, r, env)
  {
    hide GoodChunks, Extends;
    FileBytesExtend(packs, more, chunks, longer, f.chunks, env);
  }

  // ---- Where packs lie in a log ----

  function Place(off: nat, packs: seq<Obj>): (m: Packs)
    requires AllPacks(packs)
    ensures forall k :: k in m ==> off <= k < off + |EncodeAll(packs)|
    decreases |packs|
  {
    if packs == [] then map[]
    else
      Place(off + packs[0].size, packs[1..]) + map[off := packs[0].payload]
  }

  lemma PlaceOne(off: nat, o: Obj)
    requires o.Pack?
    ensures |EncodeAll([o])| == o.size && |EncodeAll([])| == 0
    ensures Place(off, [o]) == Place(off, []) + map[off + |EncodeAll([])| := o.payload]
  {
    assert [o][1..] == [];
    assert Place(off + o.size, []) == map[];
  }

  lemma PlaceCons(off: nat, o: Obj, rest: seq<Obj>)
    requires o.Pack? && AllPacks(rest)
    ensures AllPacks([o] + rest)
    ensures Place(off, [o] + rest) == Place(off + o.size, rest) + map[off := o.payload]
    ensures |EncodeAll([o] + rest)| == o.size + |EncodeAll(rest)|
  {
    var all := [o] + rest;
    assert all[1..] == rest;
  }

  lemma {:induction false} PlaceSnoc(off: nat, packs: seq<Obj>, o: Obj)
    requires o.Pack? && AllPacks(packs)
    ensures AllPacks(packs + [o])
    ensures Place(off, packs + [o]) == Place(off, packs) + map[off + |EncodeAll(packs)| := o.payload]
    ensures |EncodeAll(packs + [o])| == |EncodeAll(packs)| + o.size
    decreases |packs|
  {
    hide Place, EncodeAll;
    if packs == [] {
      assert packs + [o] == [o];
      PlaceOne(off, o);
    } else {
      var p, rest := packs[0], packs[1..];
      PlaceSnoc(off + p.size, rest, o);
      PlaceCons(off, p, rest);
      PlaceCons(off, p, rest + [o]);
      assert packs == [p] + rest && packs + [o] == [p] + (rest + [o]);
      var last := off + |EncodeAll(packs)|;
      assert last == off + p.size + |EncodeAll(rest)|;
      var before := Place(off + p.size, rest);
      assert Place(off, packs + [o]) == (before + map[last := o.payload]) + map[off := p.payload];
      assert Place(off, packs) == before + map[off := p.payload];
      PlaceSnocMaps(before, off, p.payload, last, o.payload);
    }
  }

  lemma PlaceSnocMaps(rest: Packs, a: nat, x: bytes, b: nat, y: bytes)
    requires a != b
    ensures (rest + map[b := y]) + map[a := x] == (rest + map[a := x]) + map[b := y]
  {
  }

  function PacksOf(h: Pos, log: seq<Session>): Packs
    requires ValidLog(h, log)
  {
    if log == [] then map[] else PacksOf(h, Front(log)) + Place(|LogCells(h, Front(log))|, Last(log).packs)
  }

  lemma {:induction false} PlacedReads(pre: seq<Cell>, packs: seq<Obj>, k: nat)
    requires AllPacks(packs)
    requires k in Place(|pre|, packs)
    ensures ReadAt(pre + EncodeAll(packs), k).Some? && ReadAt(pre + EncodeAll(packs), k).value.Pack?
    ensures ReadAt(pre + EncodeAll(packs), k).value.payload == Place(|pre|, packs)[k]
    decreases |packs|
  {
    hide ReadAt, Encode;
    var o := packs[0];
    var pre' := pre + Encode(o);
    assert pre + EncodeAll(packs) == pre' + EncodeAll(packs[1..]);
    if k == |pre| {
      ReadAtEncoded(pre, o, EncodeAll(packs[1..]));
    } else {
      PlacedReads(pre', packs[1..], k);
    }
  }

  /** Every pack of a valid log is readable at its offset. */
  lemma {:induction false} PackReads(h: Pos, log: seq<Session>, k: nat)
    requires ValidLog(h, log) && k in PacksOf(h, log)
    ensures k < |LogCells(h, log)|
    ensures ReadAt(LogCells(h, log), k).Some? && ReadAt(LogCells(h, log), k).value.Pack?
    ensures ReadAt(LogCells(h, log), k).value.payload == PacksOf(h, log)[k]
    decreases |log|
  {
    hide ReadAt, Encode, EncodeAll, SI.Encode, SI.WellFormed, SI.Marshal, Replay, Place;
    var pre, s := LogCells(h, Front(log)), Last(log);
    LogCellsStep(h, log);
    if k in Place(|pre|, s.packs) {
      PlacedReads(pre, s.packs, k);
      ReadAtPrefix(pre + EncodeAll(s.packs), LogCells(h, log), k);
    } else {
      PackReads(h, Front(log), k);
      assert pre <= LogCells(h, log);
      ReadAtPrefix(pre, LogCells(h, log), k);
    }
  }

  /** A new session's packs never collide with older ones. */
  lemma PacksExtend(h: Pos, log: seq<Session>)
    requires log != [] && ValidLog(h, log)
    ensures Extends(PacksOf(h, Front(log)), PacksOf(h, log))
  {
    hide ReadAt, SI.Encode, SI.WellFormed, SI.Marshal, Replay, LogCells, EncodeAll;
    forall k | k in PacksOf(h, Front(log))
      ensures k in PacksOf(h, log) && PacksOf(h, log)[k] == PacksOf(h, Front(log))[k]
    {
      PackReads(h, Front(log), k);
    }
  }
}
