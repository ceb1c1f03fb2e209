/** Pack entries: packWriter (io/incremental_write.go) cuts stored chunks into sealed
    blocks, chunkRouter (io/incremental_restore.go) cuts the decrypted stream back. */
module Pack {
  import opened Bytes

  /** archive.MaxChunkSize: the largest block size a draw can give. */
  const MAX_BLOCK := 256 * 1024 + 32 * 1024

  /** packWriter. `draws` is the sequence of block sizes drawn so far. */
  class PackWriter {
    var blocks: seq<bytes> // plaintexts of the blocks sealed so far
    var size: nat
    var buf: bytes
    var next: nat
    ghost var draws: seq<nat>

    /** Every byte accepted so far. */
    ghost function Contents(): bytes
      reads this
    {
      Flatten(blocks) + buf
    }

    ghost predicate Valid()
      reads this
    {
      && |draws| == |blocks| + 1 && next == draws[|blocks|] && |buf| < next
      && (forall i :: 0 <= i < |draws| ==> 1 <= draws[i] <= MAX_BLOCK)
      && (forall i :: 0 <= i < |blocks| ==> |blocks[i]| == draws[i])
      && size == |Contents()|
    }

    constructor ()
      ensures Valid() && Contents() == []
    {
      blocks, size, buf := [], 0, [];
      var s: nat :| 1 <= s <= MAX_BLOCK;
      next, draws := s, [s];
    }

    /** Seals one full block and draws the size of the next. */
    method Seal(block: bytes)
      requires |draws| == |blocks| + 1 && next == draws[|blocks|] == |block|
      requires forall i :: 0 <= i < |draws| ==> 1 <= draws[i] <= MAX_BLOCK
      requires forall i :: 0 <= i < |blocks| ==> |blocks[i]| == draws[i]
      modifies this`blocks, this`next, this`draws
      ensures blocks == old(blocks) + [block]
      ensures Flatten(blocks) == old(Flatten(blocks)) + block
      ensures |draws| == |blocks| + 1 && next == draws[|blocks|]
      ensures forall i :: 0 <= i < |draws| ==> 1 <= draws[i] <= MAX_BLOCK
      ensures forall i :: 0 <= i < |blocks| ==> |blocks[i]| == draws[i]
    {
      FlattenSnoc(blocks, block);
      blocks := blocks + [block];
      var s: nat :| 1 <= s <= MAX_BLOCK;
      next, draws := s, draws + [s];
    }

    /** write: tops up a partial block, then seals whole blocks straight from the data. */
    method Write(data: bytes)
      requires Valid()
      modifies this
      ensures Valid() && Contents() == old(Contents()) + data
      ensures old(draws) <= draws && old(blocks) <= blocks
    {
      size := size + |data|;
      var rest := data;
      if |buf| > 0 {
        var take := Min(next - |buf|, |rest|);
        buf := buf + rest[..take];
        rest := rest[take..];
        assert data == data[..take] + rest;
        if |buf| < next {
          assert Contents() == old(Contents()) + data;
          return;
        }
        Seal(buf);
        buf := [];
      }
      SealWhole(rest);
    }

    /** Seals whole blocks of `data` and keeps the rest. */
    method SealWhole(data: bytes)
      requires buf == [] && size == |Flatten(blocks)| + |data|
      requires |draws| == |blocks| + 1 && next == draws[|blocks|]
      requires forall i :: 0 <= i < |draws| ==> 1 <= draws[i] <= MAX_BLOCK
      requires forall i :: 0 <= i < |blocks| ==> |blocks[i]| == draws[i]
      modifies this
      ensures Valid() && Contents() == old(Flatten(blocks)) + data
      ensures old(draws) <= draws && old(blocks) <= blocks
    {
      var rest := data;
      while |rest| >= next
        invariant buf == [] && size == old(size)
        invariant |draws| == |blocks| + 1 && next == draws[|blocks|]
        invariant forall i :: 0 <= i < |draws| ==> 1 <= draws[i] <= MAX_BLOCK
        invariant forall i :: 0 <= i < |blocks| ==> |blocks[i]| == draws[i]
        invariant Flatten(blocks) + rest == old(Flatten(blocks)) + data
        invariant old(draws) <= draws && old(blocks) <= blocks
        decreases |rest|
      {
        var n := next;
        ghost var sealed := Flatten(blocks);
        assert sealed + rest == (sealed + rest[..n]) + rest[n..];
        Seal(rest[..n]);
        rest := rest[n..];
      }
      buf := rest;
    }

    /** close: the last block may be short; nothing is lost, added or reordered. */
    method Close()
      requires Valid()
      modifies this
      ensures Flatten(blocks) == old(Contents()) && size == |old(Contents())|
      ensures draws == old(draws) && |blocks| <= |draws|
      ensures forall i :: 0 <= i < |blocks| ==> 1 <= |blocks[i]| <= draws[i]
      ensures forall i :: 0 <= i < |blocks| - 1 ==> |blocks[i]| == draws[i]
    {
      if |buf| > 0 {
        FlattenSnoc(blocks, buf);
        blocks := blocks + [buf];
      }
      assert Contents() == old(Contents()) + if |buf| > 0 then buf else [];
    }
  }

  /** One needed chunk: its number and its place in the pack's plaintext. */
  datatype Span = Span(n: nat, offset: nat, stored: nat)

  function End(s: Span): nat { s.offset + s.stored }

  /** The chunks lie inside `size` bytes, in order, without overlap. */
  predicate Fits(needed: seq<Span>, size: nat)
  {
    && (forall i :: 0 <= i < |needed| ==> End(needed[i]) <= size)
    && (forall i :: 0 < i < |needed| ==> End(needed[i - 1]) <= needed[i].offset)
  }

  datatype Delivery = Delivery(n: nat, stored: bytes)

  function Piece(s: Span, stream: bytes): Delivery
    requires End(s) <= |stream|
  {
    Delivery(s.n, stream[s.offset..End(s)])
  }

  predicate AllAccepted(needed: seq<Span>, stream: bytes, accepts: Delivery -> bool)
    requires Fits(needed, |stream|)
  {
    forall i :: 0 <= i < |needed| ==> accepts(Piece(needed[i], stream))
  }

  class ChunkRouter {
    const needed: seq<Span>
    const accepts: Delivery -> bool // deliverChunk: false is an error
    var idx: nat
    var pos: nat
    var buf: bytes
    var err: bool
    var delivered: seq<Delivery>
    ghost var fed: bytes

    ghost predicate Sized() { forall i :: 0 <= i < |needed| ==> 0 < needed[i].stored }

    ghost predicate Progress()
      reads this
    {
      && idx <= |needed| && pos == |fed| && |delivered| == idx
      && Fits(needed[..idx], |fed|)
      && (forall i :: 0 <= i < idx ==> delivered[i] == Piece(needed[i], fed) && accepts(delivered[i]))
    }

    /** Where the previous chunk ended. */
    ghost function Before(): nat
      reads this
      requires idx <= |needed|
    {
      if idx == 0 then 0 else End(needed[idx - 1])
    }

    /** What is held of the current chunk. */
    ghost predicate Holding()
      reads this
      requires idx <= |needed|
    {
      if idx == |needed| then buf == []
      else
        var c := needed[idx];
        if Before() > c.offset then buf == [] && |fed| == Before()
        else if |fed| <= c.offset then buf == []
        else |fed| < End(c) && buf == fed[c.offset..]
    }

    ghost predicate Valid()
      reads this
    {
      Sized() && Progress() && !err && Holding()
    }

    /** Stopped at an error: the current chunk starts inside the one before it, or was
        refused after its bytes were cut out. */
    ghost predicate Stopped()
      reads this
    {
      && Sized() && Progress() && err && idx < |needed|
      && (|| (0 < idx && Before() > needed[idx].offset)
          || (End(needed[idx]) <= |fed| && !accepts(Piece(needed[idx], fed))))
    }

    constructor (needed: seq<Span>, accepts: Delivery -> bool)
      requires forall i :: 0 <= i < |needed| ==> 0 < needed[i].stored
      ensures Valid() && fed == [] && this.needed == needed && this.accepts == accepts
    {
      this.needed, this.accepts := needed, accepts;
      idx, pos, buf, err, delivered, fed := 0, 0, [], false, [], [];
    }

    /** Consuming more of the stream keeps what was delivered. */
    twostate lemma Extend(x: bytes)
      requires old(Progress()) && fed == old(fed) + x
      requires idx == old(idx) && delivered == old(delivered)
      ensures Fits(needed[..idx], |fed|)
      ensures forall i :: 0 <= i < idx ==> delivered[i] == Piece(needed[i], fed)
    {
      forall i | 0 <= i < idx ensures delivered[i] == Piece(needed[i], fed) {
        assert End(needed[..idx][i]) <= |old(fed)|;
        assert fed[..|old(fed)|] == old(fed);
      }
    }

    /** Skips bytes before the current chunk. */
    method Skip(pt: bytes) returns (rest: bytes)
      requires Valid() && pt != [] && idx < |needed| && buf == [] && pos < needed[idx].offset
      modifies this
      ensures Valid() && |rest| < |pt| && idx == old(idx)
      ensures old(fed) + pt == fed + rest
    {
      var skip := Min(needed[idx].offset - pos, |pt|);
      pos := pos + skip;
      fed := fed + pt[..skip];
      rest := pt[skip..];
      Extend(pt[..skip]);
      assert old(fed) + pt == fed + rest;
    }

    /** Takes bytes of the current chunk and delivers it once complete. */
    method Accumulate(pt: bytes) returns (rest: bytes)
      requires Valid() && pt != [] && idx < |needed|
      requires Before() <= needed[idx].offset <= |fed|
      modifies this
      ensures |rest| < |pt| && old(fed) + pt == fed + rest
      ensures Valid() || Stopped()
    {
      var c := needed[idx];
      var take := Min(c.stored - |buf|, |pt|);
      buf := buf + pt[..take];
      pos := pos + take;
      fed := fed + pt[..take];
      rest := pt[take..];
      Extend(pt[..take]);
      assert old(fed) + pt == fed + rest;
      assert buf == fed[c.offset..];
      if |buf| == c.stored {
        Deliver();
      }
    }

    /** Hands over the completed current chunk. */
    method Deliver()
      requires Sized() && Progress() && !err && idx < |needed|
      requires Before() <= needed[idx].offset && |fed| == End(needed[idx]) && buf == fed[needed[idx].offset..]
      modifies this`delivered, this`buf, this`idx, this`err
      ensures Valid() || Stopped()
    {
      var c := needed[idx];
      assert Delivery(c.n, buf) == Piece(c, fed);
      if !accepts(Delivery(c.n, buf)) {
        err := true;
        return;
      }
      delivered := delivered + [Delivery(c.n, buf)];
      buf := [];
      idx := idx + 1;
      assert needed[..idx] == needed[..idx - 1] + [c];
    }

    /** Bytes after the last needed chunk only advance the position. */
    method Pass(rest: bytes)
      requires Valid() && (rest == [] || idx == |needed|)
      modifies this
      ensures Valid() && fed == old(fed) + rest
    {
      pos := pos + |rest|;
      fed := fed + rest;
      Extend(rest);
    }

    /** feed: consumes all of `pt`, or stops at the first error. */
    method Feed(pt: bytes)
      requires Valid()
      modifies this
      ensures (Valid() && fed == old(fed) + pt) || (Stopped() && fed <= old(fed) + pt)
    {
      var rest := pt;
      assert fed + rest == old(fed) + pt;
      while rest != [] && idx < |needed|
        invariant Valid() && fed + rest == old(fed) + pt
        decreases |rest|
      {
        var c := needed[idx];
        if |buf| == 0 {
          if pos < c.offset {
            rest := Skip(rest);
            continue;
          }
          if pos > c.offset {
            err := true;
            return;
          }
        }
        rest := Accumulate(rest);
        if err {
          return;
        }
      }
      Pass(rest);
    }
  }

  lemma DoesNotFit(needed: seq<Span>, i: nat, size: nat)
    requires i < |needed|
    requires (0 < i && End(needed[i - 1]) > needed[i].offset) || size < End(needed[i])
    ensures !Fits(needed, size)
  {
  }

  lemma PieceStable(s: Span, a: bytes, b: bytes)
    requires a <= b && End(s) <= |a|
    ensures Piece(s, a) == Piece(s, b)
  {
    assert a == b[..|a|];
  }

  /** restorePack's routing: however the plaintext is sliced, it ends well exactly when the
      needed chunks fit the pack in order, without overlap, and are all accepted; then
      each was delivered once, in order, as its exact bytes. */
  method Route(needed: seq<Span>, accepts: Delivery -> bool, slices: seq<bytes>) returns (delivered: seq<Delivery>, ok: bool)
    requires forall i :: 0 <= i < |needed| ==> 0 < needed[i].stored
    ensures ok <==> Fits(needed, |Flatten(slices)|) && AllAccepted(needed, Flatten(slices), accepts)
    ensures |delivered| <= |needed| && (ok ==> |delivered| == |needed|)
    ensures forall i :: 0 <= i < |delivered| ==>
              && End(needed[i]) <= |Flatten(slices)|
              && delivered[i] == Piece(needed[i], Flatten(slices))
              && accepts(delivered[i])
  {
    var r := new ChunkRouter(needed, accepts);
    FeedAll(r, slices);
    Conclude(r, Flatten(slices));
    return r.delivered, !r.err && r.idx == |needed|;
  }

  /** Feeds slices in turn until one fails. */
  method FeedAll(r: ChunkRouter, slices: seq<bytes>)
    requires r.Valid() && r.fed == []
    modifies r
    ensures (r.Valid() && r.fed == Flatten(slices)) || (r.Stopped() && r.fed <= Flatten(slices))
  {
    ghost var all := Flatten(slices);
    assert slices[0..] == slices;
    for k := 0 to |slices|
      invariant r.Valid() && all == r.fed + Flatten(slices[k..])
    {
      ghost var before, more := r.fed, Flatten(slices[k + 1..]);
      assert slices[k..][1..] == slices[k + 1..];
      assert all == (before + slices[k]) + more;
      r.Feed(slices[k]);
      if r.err {
        return;
      }
    }
    assert slices[|slices|..] == [];
  }

  lemma Conclude(r: ChunkRouter, all: bytes)
    requires (r.Valid() && r.fed == all) || (r.Stopped() && r.fed <= all)
    ensures !r.err && r.idx == |r.needed| <==> Fits(r.needed, |all|) && AllAccepted(r.needed, all, r.accepts)
    ensures forall i :: 0 <= i < |r.delivered| ==>
              End(r.needed[i]) <= |all| && r.delivered[i] == Piece(r.needed[i], all)
  {
    forall i | 0 <= i < |r.delivered| ensures End(r.needed[i]) <= |all| && r.delivered[i] == Piece(r.needed[i], all) {
      assert End(r.needed[..r.idx][i]) <= |r.fed|;
      PieceStable(r.needed[i], r.fed, all);
    }
    if r.err {
      if 0 < r.idx && r.Before() > r.needed[r.idx].offset {
        DoesNotFit(r.needed, r.idx, |all|);
      } else {
        PieceStable(r.needed[r.idx], r.fed, all);
      }
    } else if r.idx < |r.needed| {
      DoesNotFit(r.needed, r.idx, |all|);
    } else {
      assert r.needed[..r.idx] == r.needed;
    }
  }

  // ---- Pack then route is the identity ----

  /** Where chunk `k` starts when chunks are stored back to back. */
  function Offset(chunks: seq<bytes>, k: nat): nat
    requires k <= |chunks|
  {
    |Flatten(chunks[..k])|
  }

  function SpanOf(chunks: seq<bytes>, k: nat): Span
    requires k < |chunks|
  {
    Span(k, Offset(chunks, k), |chunks[k]|)
  }

  lemma StoredSlice(chunks: seq<bytes>, k: nat)
    requires k < |chunks|
    ensures End(SpanOf(chunks, k)) <= |Flatten(chunks)|
    ensures Piece(SpanOf(chunks, k), Flatten(chunks)) == Delivery(k, chunks[k])
    ensures Offset(chunks, k + 1) == End(SpanOf(chunks, k))
  {
    var pre, post := chunks[..k], chunks[k + 1..];
    assert chunks == (pre + [chunks[k]]) + post;
    FlattenAppend(pre + [chunks[k]], post);
    FlattenSnoc(pre, chunks[k]);
    assert chunks[..k + 1] == pre + [chunks[k]];
    assert Flatten(chunks) == Flatten(pre) + chunks[k] + Flatten(post);
  }

  lemma {:induction false} OffsetMonotone(chunks: seq<bytes>, i: nat, j: nat)
    requires i <= j <= |chunks|
    ensures Offset(chunks, i) <= Offset(chunks, j)
    decreases j - i
  {
    if i < j {
      OffsetMonotone(chunks, i, j - 1);
      StoredSlice(chunks, j - 1);
    }
  }

  predicate Increasing(ks: seq<nat>, limit: nat)
  {
    && (forall i :: 0 <= i < |ks| ==> ks[i] < limit)
    && (forall i :: 0 < i < |ks| ==> ks[i - 1] < ks[i])
  }

  /** Needed chunks of a pack, listed by offset. */
  function Spans(chunks: seq<bytes>, ks: seq<nat>): (spans: seq<Span>)
    requires Increasing(ks, |chunks|)
    ensures |spans| == |ks|
    ensures forall i :: 0 <= i < |ks| ==> spans[i] == SpanOf(chunks, ks[i])
  {
    seq(|ks|, i requires 0 <= i < |ks| => SpanOf(chunks, ks[i]))
  }

  lemma PackedChunksFit(chunks: seq<bytes>, ks: seq<nat>)
    requires Increasing(ks, |chunks|)
    ensures Fits(Spans(chunks, ks), |Flatten(chunks)|)
    ensures forall i :: 0 <= i < |ks| ==> Piece(Spans(chunks, ks)[i], Flatten(chunks)) == Delivery(ks[i], chunks[ks[i]])
  {
    var spans := Spans(chunks, ks);
    forall i | 0 <= i < |ks|
      ensures End(spans[i]) <= |Flatten(chunks)|
      ensures Piece(spans[i], Flatten(chunks)) == Delivery(ks[i], chunks[ks[i]])
    {
      StoredSlice(chunks, ks[i]);
    }
    forall i | 0 < i < |ks| ensures End(spans[i - 1]) <= spans[i].offset {
      StoredSlice(chunks, ks[i - 1]);
      OffsetMonotone(chunks, ks[i - 1] + 1, ks[i]);
    }
  }

  /** Writes chunks into a pack, then routes the sealed blocks to any of them: every needed
      chunk comes back as it went in, whatever block sizes were drawn. */
  method PackThenRoute(chunks: seq<bytes>, ks: seq<nat>) returns (delivered: seq<Delivery>, ok: bool)
    requires forall i :: 0 <= i < |chunks| ==> chunks[i] != []
    requires Increasing(ks, |chunks|)
    ensures ok && |delivered| == |ks|
    ensures forall i :: 0 <= i < |ks| ==> delivered[i] == Delivery(ks[i], chunks[ks[i]])
  {
    var p := new PackWriter();
    for i := 0 to |chunks|
      invariant fresh(p) && p.Valid() && p.Contents() == Flatten(chunks[..i])
    {
      FlattenSnoc(chunks[..i], chunks[i]);
      assert chunks[..i + 1] == chunks[..i] + [chunks[i]];
      p.Write(chunks[i]);
    }
    assert chunks[..|chunks|] == chunks;
    p.Close();
    PackedChunksFit(chunks, ks);
    delivered, ok := Route(Spans(chunks, ks), d => true, p.blocks);
  }
}
