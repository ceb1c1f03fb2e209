/** Content-defined chunking (archive/chunker.go). */
module Chunker {
  import opened Bytes
  import opened Streams

  const MIN_CHUNK := 256 * 1024
  const AVG_CHUNK := 1024 * 1024
  const MAX_CHUNK := 4 * 1024 * 1024

  /** A masked hash is zero when its top 22 (below the average size) or 18 bits are. */
  const SMALL_MASK_LIMIT := 0x400_0000_0000
  const LARGE_MASK_LIMIT := 0x4000_0000_0000

  type Gear = g: seq<u64> | |g| == 256 witness seq(256, i => 0)

  function Roll(h: u64, x: byte, gear: Gear): u64 { (2 * h + gear[x]) % TWO_64 }

  /** The rolling hash after `s`, starting from `h`. */
  function Hash(h: u64, s: bytes, gear: Gear): u64
  {
    if s == [] then h else Roll(Hash(h, s[..|s| - 1], gear), s[|s| - 1], gear)
  }

  /** Whether a chunk may end just after byte `i`. */
  predicate MatchAt(data: bytes, i: nat, gear: Gear)
    requires MIN_CHUNK <= i < |data|
  {
    Hash(0, data[MIN_CHUNK..i + 1], gear) < (if i < AVG_CHUNK then SMALL_MASK_LIMIT else LARGE_MASK_LIMIT)
  }

  function Search(data: bytes, i: nat, gear: Gear): (c: nat)
    requires MIN_CHUNK <= i <= |data|
    ensures i <= c <= |data|
    ensures c == i ==> i == |data|
    ensures forall k :: i <= k < c - 1 ==> !MatchAt(data, k, gear)
    ensures c < |data| ==> MatchAt(data, c - 1, gear)
    decreases |data| - i
  {
    if i == |data| then i
    else if MatchAt(data, i, gear) then i + 1
    else Search(data, i + 1, gear)
  }

  /** Length of the first chunk of `data`, of which at most MAX_CHUNK bytes are seen. */
  function Cut(data: bytes, gear: Gear): (c: nat)
    ensures c <= |data| && (data != [] ==> 0 < c)
  {
    if |data| <= MIN_CHUNK then |data| else Search(data, MIN_CHUNK, gear)
  }

  function Window(data: bytes): bytes { data[..Min(|data|, MAX_CHUNK)] }

  function FirstCut(data: bytes, gear: Gear): (c: nat)
    ensures c <= Min(|data|, MAX_CHUNK) && (data != [] ==> 0 < c)
  {
    Cut(Window(data), gear)
  }

  /** The one way a stream splits. */
  function Split(data: bytes, gear: Gear): seq<bytes>
  {
    if data == [] then []
    else
      var c := FirstCut(data, gear);
      [data[..c]] + Split(data[c..], gear)
  }

  // ---- Pieces rejoin, and their sizes ----

  lemma {:induction false} SplitRejoins(data: bytes, gear: Gear)
    ensures Flatten(Split(data, gear)) == data
    decreases |data|
  {
    if data == [] {
    } else {
      var c := FirstCut(data, gear);
      SplitRejoins(data[c..], gear);
      assert data == data[..c] + data[c..];
    }
  }

  lemma {:induction false} SplitSizes(data: bytes, gear: Gear)
    ensures forall k :: 0 <= k < |Split(data, gear)| ==> 0 < |Split(data, gear)[k]| <= MAX_CHUNK
    ensures forall k :: 0 <= k < |Split(data, gear)| - 1 ==> MIN_CHUNK < |Split(data, gear)[k]|
    decreases |data|
  {
    if data == [] {
    } else {
      var c := FirstCut(data, gear);
      SplitSizes(data[c..], gear);
      if |data| <= MIN_CHUNK {
        assert data[c..] == [];
      }
    }
  }

  // ---- The hash sees 64 bytes ----

  function Pow2(n: nat): (p: nat)
    ensures p >= 1
  {
    if n == 0 then 1 else 2 * Pow2(n - 1)
  }

  lemma Pow2Add(m: nat, n: nat)
    ensures Pow2(m + n) == Pow2(m) * Pow2(n)
    decreases n
  {
    if n == 0 {
    } else {
      Pow2Add(m, n - 1);
    }
  }

  lemma Pow2Is16()
    ensures Pow2(4) == 16
  {
  }

  lemma Pow2Is64()
    ensures Pow2(64) == TWO_64
  {
    Pow2Is16();
    hide Pow2;
    Pow2Add(4, 4);
    Pow2Add(8, 8);
    Pow2Add(16, 16);
    Pow2Add(32, 32);
  }

  /** Low-bit agreement: `d` and a multiple of 2^m apart. */
  ghost predicate Agree(a: int, b: int, m: nat) { exists d: int :: a - b == d * Pow2(m) }

  lemma AgreeStep(a: u64, b: u64, m: nat, x: byte, gear: Gear)
    requires m < 64 && Agree(a, b, m)
    ensures Agree(Roll(a, x, gear), Roll(b, x, gear), m + 1)
  {
    var d: int :| a - b == d * Pow2(m);
    assert Pow2(m + 1) == 2 * Pow2(m);
    hide Pow2;
    Pow2Is64();
    Pow2Add(63 - m, m + 1);
    RollDifference(a, b, gear[x], d, Pow2(m), Pow2(63 - m));
    var q := (2 * a + gear[x]) / TWO_64 - (2 * b + gear[x]) / TWO_64;
    assert Roll(a, x, gear) - Roll(b, x, gear) == (d - Pow2(63 - m) * q) * Pow2(m + 1);
  }

  lemma RollDifference(a: int, b: int, g: int, d: int, h: int, k: int)
    requires a - b == d * h && TWO_64 == k * (2 * h)
    ensures (2 * a + g) % TWO_64 - (2 * b + g) % TWO_64 ==
            (d - k * ((2 * a + g) / TWO_64 - (2 * b + g) / TWO_64)) * (2 * h)
  {
    var qa, qb := (2 * a + g) / TWO_64, (2 * b + g) / TWO_64;
    assert (2 * a + g) % TWO_64 == 2 * a + g - TWO_64 * qa;
    assert (2 * b + g) % TWO_64 == 2 * b + g - TWO_64 * qb;
    assert 2 * (a - b) == d * (2 * h);
    Factor(d, k, 2 * h, qa - qb);
  }

  lemma Factor(d: int, k: int, p: int, q: int)
    ensures d * p - (k * p) * q == (d - k * q) * p
  {
    assert (k * p) * q == (k * q) * p;
  }

  lemma {:induction false} HashForgets(h1: u64, h2: u64, s: bytes, gear: Gear)
    requires |s| <= 64
    ensures Agree(Hash(h1, s, gear), Hash(h2, s, gear), |s|)
    decreases |s|
  {
    if s == [] {
      assert h1 - h2 == (h1 - h2) * Pow2(0);
    } else {
      HashForgets(h1, h2, s[..|s| - 1], gear);
      AgreeStep(Hash(h1, s[..|s| - 1], gear), Hash(h2, s[..|s| - 1], gear), |s| - 1, s[|s| - 1], gear);
    }
  }

  lemma {:induction false} HashSplit(h: u64, s: bytes, t: bytes, gear: Gear)
    ensures Hash(h, s + t, gear) == Hash(Hash(h, s, gear), t, gear)
    decreases |t|
  {
    if t == [] {
      assert s + t == s;
    } else {
      var t' := t[..|t| - 1];
      HashSplit(h, s, t', gear);
      assert (s + t)[..|s + t| - 1] == s + t';
    }
  }

  /** The gear hash depends on at most the last 64 bytes it has rolled over. */
  lemma HashWindow(h1: u64, h2: u64, s: bytes, t: bytes, w: bytes, gear: Gear)
    requires |w| == 64
    ensures Hash(h1, s + w, gear) == Hash(h2, t + w, gear)
  {
    HashSplit(h1, s, w, gear);
    HashSplit(h2, t, w, gear);
    var a, b := Hash(h1, s + w, gear), Hash(h2, t + w, gear);
    HashForgets(Hash(h1, s, gear), Hash(h2, t, gear), w, gear);
    Pow2Is64();
    var d: int :| a - b == d * Pow2(64);
    assert -TWO_64 < d * TWO_64 < TWO_64;
    assert d == 0;
  }

  // ---- Where the cut lies, as a sum over the last 64 bytes ----

  /** The gear values of `s`, each doubled once for every byte after it. */
  function GearSum(s: bytes, gear: Gear): nat
  {
    if s == [] then 0 else gear[s[0]] * Pow2(|s| - 1) + GearSum(s[1..], gear)
  }

  /** The sum over the bytes from `lo` to `i`, the last 64 of them at most, in 64 bits. */
  function SumAt(data: bytes, lo: nat, i: nat, gear: Gear): nat
    requires lo <= i < |data|
  {
    GearSum(data[Max(lo, i - 63)..i + 1], gear) % TWO_64
  }

  /** The sum after byte `i` has its top 22 bits zero, or its top 18 from 1 MiB on. */
  predicate Ends(data: bytes, i: nat, gear: Gear)
    requires 262_144 <= i < |data|
  {
    SumAt(data, 262_144, i, gear) < if i < 1_048_576 then Pow2(42) else Pow2(46)
  }

  /** Of at most 4 MiB: all of them up to 256 KiB; else the cut follows the first byte past
      256 KiB where one may end, or there is none before the last byte and it is the end. */
  ghost predicate IsCut(data: bytes, gear: Gear, c: nat)
  {
    if |data| <= 262_144 then c == |data|
    else
      && 262_144 < c <= |data| && (forall i :: 262_144 <= i < c - 1 ==> !Ends(data, i, gear))
      && (c < |data| ==> Ends(data, c - 1, gear))
  }

  lemma {:induction false} GearSumSnoc(s: bytes, x: byte, gear: Gear)
    ensures GearSum(s + [x], gear) == 2 * GearSum(s, gear) + gear[x]
    decreases |s|
  {
    if s == [] {
      assert (s + [x])[1..] == [];
    } else {
      GearSumSnoc(s[1..], x, gear);
      assert (s + [x])[1..] == s[1..] + [x] && (s + [x])[0] == s[0];
      DoubledTerm(gear[s[0]], Pow2(|s| - 1));
    }
  }

  lemma DoubledTerm(g: nat, p: nat)
    ensures g * (2 * p) == 2 * (g * p)
  {
  }

  lemma {:induction false} HashIsSum(s: bytes, gear: Gear)
    ensures Hash(0, s, gear) == GearSum(s, gear) % TWO_64
    decreases |s|
  {
    if s != [] {
      var t, x := s[..|s| - 1], s[|s| - 1];
      HashIsSum(t, gear);
      GearSumSnoc(t, x, gear);
      assert s == t + [x];
      RollSum(GearSum(t, gear), gear[x]);
    }
  }

  lemma RollSum(v: nat, g: nat)
    ensures (2 * (v % TWO_64) + g) % TWO_64 == (2 * v + g) % TWO_64
  {
    var q := v / TWO_64;
    assert 2 * v + g == 2 * (v % TWO_64) + g + TWO_64 * (2 * q);
    ModShift(2 * (v % TWO_64) + g, 2 * q);
  }

  lemma ModShift(x: nat, q: nat)
    ensures (x + TWO_64 * q) % TWO_64 == x % TWO_64
  {
  }

  lemma Pow2Values()
    ensures Pow2(42) == SMALL_MASK_LIMIT && Pow2(46) == LARGE_MASK_LIMIT
  {
    Pow2Is16();
    assert Pow2(2) == 4;
    hide Pow2;
    Pow2Add(4, 4);
    Pow2Add(8, 8);
    Pow2Add(16, 16);
    Pow2Add(32, 8);
    Pow2Add(40, 2);
    Pow2Add(42, 4);
  }

  lemma MatchIsEnd(data: bytes, i: nat, gear: Gear)
    requires MIN_CHUNK <= i < |data|
    ensures MatchAt(data, i, gear) <==> Ends(data, i, gear)
  {
    hide Hash, GearSum, Pow2;
    Pow2Values();
    var s := data[MIN_CHUNK..i + 1];
    if |s| >= 64 {
      var pre, w := s[..|s| - 64], s[|s| - 64..];
      assert s == pre + w && w == [] + w;
      assert w == data[i - 63..i + 1];
      HashWindow(0, 0, pre, [], w, gear);
      HashIsSum(w, gear);
    } else {
      HashIsSum(s, gear);
    }
  }

  /** The cut is that one; and there is only one. */
  lemma CutIs(data: bytes, gear: Gear)
    ensures IsCut(data, gear, Cut(data, gear))
  {
    hide MatchAt, Ends;
    if |data| > MIN_CHUNK {
      var c := Search(data, MIN_CHUNK, gear);
      forall i | MIN_CHUNK <= i < c ensures MatchAt(data, i, gear) <==> Ends(data, i, gear) {
        MatchIsEnd(data, i, gear);
      }
    }
  }

  lemma OneCut(data: bytes, gear: Gear, a: nat, b: nat)
    requires IsCut(data, gear, a) && IsCut(data, gear, b)
    ensures a == b
  {
    hide Ends;
  }

  /** The pieces of a stream: each cut from what is left, of which 4 MiB are seen. */
  ghost predicate CutUp(data: bytes, pieces: seq<bytes>, gear: Gear)
    decreases |pieces|
  {
    if pieces == [] then data == []
    else
      var c := |pieces[0]|;
      && 0 < c <= |data| && pieces[0] == data[..c] && IsCut(data[..Min(|data|, 4_194_304)], gear, c)
      && CutUp(data[c..], pieces[1..], gear)
  }

  lemma {:induction false} SplitIs(data: bytes, gear: Gear)
    ensures CutUp(data, Split(data, gear), gear)
    decreases |data|
  {
    hide IsCut, Cut;
    if data != [] {
      var c := FirstCut(data, gear);
      CutIs(Window(data), gear);
      SplitIs(data[c..], gear);
    }
  }

  // ---- Locality ----

  lemma MatchAtPrefix(x: bytes, y: bytes, i: nat, gear: Gear)
    requires MIN_CHUNK <= i < |x| && i < |y| && x[..i + 1] == y[..i + 1]
    ensures MatchAt(x, i, gear) == MatchAt(y, i, gear)
  {
    assert x[MIN_CHUNK..i + 1] == x[..i + 1][MIN_CHUNK..] == y[MIN_CHUNK..i + 1];
  }

  lemma {:induction false} SearchStable(x: bytes, y: bytes, i: nat, c: nat, gear: Gear)
    requires MIN_CHUNK <= i <= |x| && c == Search(x, i, gear) && c < |x|
    requires c <= |y| && x[..c] == y[..c]
    ensures Search(y, i, gear) == c
    decreases |x| - i
  {
    assert x[..i + 1] == x[..c][..i + 1] == y[..c][..i + 1] == y[..i + 1];
    MatchAtPrefix(x, y, i, gear);
    if !MatchAt(x, i, gear) {
      SearchStable(x, y, i + 1, c, gear);
    }
  }

  /** A cut found before the end of the data survives any change after it. */
  lemma CutStable(a: bytes, b: bytes, gear: Gear)
    requires FirstCut(a, gear) < |a| || |a| == MAX_CHUNK
    requires FirstCut(a, gear) <= |b| && a[..FirstCut(a, gear)] == b[..FirstCut(a, gear)]
    ensures FirstCut(b, gear) == FirstCut(a, gear)
  {
    var x, y, c := Window(a), Window(b), FirstCut(a, gear);
    if c == MAX_CHUNK {
      assert x == a[..c] && y == b[..c];
    } else {
      assert MIN_CHUNK < |x|;
      assert x[..c] == a[..c] && y[..c] == b[..c];
      SearchStable(x, y, MIN_CHUNK, c, gear);
      assert MIN_CHUNK < |y|;
    }
  }

  /** Total length of the first `k` chunks: the k-th boundary. */
  function Boundary(data: bytes, k: nat, gear: Gear): nat
    requires k <= |Split(data, gear)|
  {
    if k == 0 then 0 else FirstCut(data, gear) + Boundary(data[FirstCut(data, gear)..], k - 1, gear)
  }

  /** Cutting resumes at a boundary as if the stream began there. */
  lemma {:induction false} SplitFromBoundary(data: bytes, k: nat, gear: Gear)
    requires k <= |Split(data, gear)|
    ensures Boundary(data, k, gear) <= |data|
    ensures Split(data, gear)[k..] == Split(data[Boundary(data, k, gear)..], gear)
    decreases k
  {
    hide FirstCut;
    if k == 0 {
      assert data[0..] == data;
    } else {
      var c := FirstCut(data, gear);
      var rest := data[c..];
      SplitFromBoundary(rest, k - 1, gear);
      assert Split(data, gear)[k..] == Split(rest, gear)[k - 1..];
      assert rest[Boundary(rest, k - 1, gear)..] == data[Boundary(data, k, gear)..];
    }
  }

  /** Inputs that share a boundary and everything after it are cut identically from there. */
  lemma SharedSuffix(a: bytes, i: nat, b: bytes, j: nat, gear: Gear)
    requires i <= |Split(a, gear)| && j <= |Split(b, gear)|
    requires Boundary(a, i, gear) <= |a| && Boundary(b, j, gear) <= |b|
    requires a[Boundary(a, i, gear)..] == b[Boundary(b, j, gear)..]
    ensures Split(a, gear)[i..] == Split(b, gear)[j..]
  {
    SplitFromBoundary(a, i, gear);
    SplitFromBoundary(b, j, gear);
  }

  /** Chunks that end before the first difference are unchanged. */
  lemma {:induction false} SharedPrefix(a: bytes, b: bytes, k: nat, gear: Gear)
    requires k <= |Split(a, gear)|
    requires Boundary(a, k, gear) < |a| && Boundary(a, k, gear) <= |b|
    requires a[..Boundary(a, k, gear)] == b[..Boundary(a, k, gear)]
    ensures k <= |Split(b, gear)| && Split(b, gear)[..k] == Split(a, gear)[..k]
    ensures Boundary(b, k, gear) == Boundary(a, k, gear)
    decreases k
  {
    hide FirstCut;
    if k == 0 {
    } else {
      var c, e := FirstCut(a, gear), Boundary(a, k, gear);
      assert a[..c] == a[..e][..c] == b[..e][..c] == b[..c];
      CutStable(a, b, gear);
      assert a[c..][..e - c] == a[..e][c..] == b[..e][c..] == b[c..][..e - c];
      SharedPrefix(a[c..], b[c..], k - 1, gear);
      assert Split(a, gear)[..k] == [a[..c]] + Split(a[c..], gear)[..k - 1];
      assert Split(b, gear)[..k] == [b[..c]] + Split(b[c..], gear)[..k - 1];
    }
  }

  /** An edit in the middle of a file: chunks wholly before it are kept, and once a boundary
      of both versions falls inside the unchanged suffix, so is everything from there on. */
  lemma EditLocality(a: bytes, b: bytes, k: nat, i: nat, j: nat, gear: Gear)
    requires k <= i <= |Split(a, gear)| && j <= |Split(b, gear)|
    requires Boundary(a, k, gear) < |a| && Boundary(a, k, gear) <= |b|
    requires a[..Boundary(a, k, gear)] == b[..Boundary(a, k, gear)]
    requires Boundary(a, i, gear) <= |a| && Boundary(b, j, gear) <= |b|
    requires a[Boundary(a, i, gear)..] == b[Boundary(b, j, gear)..]
    ensures k <= |Split(b, gear)|
    ensures Split(a, gear) == Split(a, gear)[..k] + Split(a, gear)[k..i] + Split(a, gear)[i..]
    ensures Split(b, gear)[..k] == Split(a, gear)[..k] && Split(b, gear)[j..] == Split(a, gear)[i..]
  {
    hide FirstCut, Split, Boundary;
    SharedPrefix(a, b, k, gear);
    SharedSuffix(a, i, b, j, gear);
  }

  // ---- Resynchronisation, from content alone ----

  lemma EndsAlike(a: bytes, b: bytes, i: nat, gear: Gear)
    requires 262_144 <= i < |a| && i < |b| && a[..i + 1] == b[..i + 1]
    ensures Ends(a, i, gear) == Ends(b, i, gear)
  {
    hide GearSum, Pow2;
    var lo := Max(262_144, i - 63);
    assert a[lo..i + 1] == a[..i + 1][lo..] == b[..i + 1][lo..] == b[lo..i + 1];
  }

  /** A place whose last 64 bytes match ends the chunk, if no other has since it began. */
  lemma ContentCut(rest: bytes, d: nat, gear: Gear)
    requires 262_144 + 64 <= d <= Min(|rest|, 4_194_304)
    requires GearSum(rest[d - 64..d], gear) % TWO_64 < Pow2(42)
    requires forall k :: 262_144 <= k < d - 1 ==> !Ends(rest, k, gear)
    ensures FirstCut(rest, gear) == d
  {
    hide GearSum, Pow2, Ends, Cut;
    var w := Window(rest);
    forall k | 262_144 <= k < d ensures Ends(w, k, gear) == Ends(rest, k, gear) {
      assert w[..k + 1] == rest[..k + 1];
      EndsAlike(w, rest, k, gear);
    }
    LastMatches(rest, d, gear);
    CutIs(w, gear);
    OneCut(w, gear, FirstCut(rest, gear), d);
  }

  lemma LastMatches(rest: bytes, d: nat, gear: Gear)
    requires 262_144 + 64 <= d <= |rest| && GearSum(rest[d - 64..d], gear) % TWO_64 < Pow2(42)
    ensures Ends(rest, d - 1, gear)
  {
    hide GearSum, Pow2;
    Pow2Values();
  }

  lemma NextBoundary(a: bytes, i: nat, gear: Gear)
    requires i <= |Split(a, gear)| && Boundary(a, i, gear) < |a|
    ensures i < |Split(a, gear)|
    ensures Boundary(a, i + 1, gear) == Boundary(a, i, gear) + FirstCut(a[Boundary(a, i, gear)..], gear)
    decreases i
  {
    hide FirstCut;
    if i == 0 {
      assert a[0..] == a;
    } else {
      var c := FirstCut(a, gear);
      NextBoundary(a[c..], i - 1, gear);
      assert a[c..][Boundary(a[c..], i - 1, gear)..] == a[Boundary(a, i, gear)..];
    }
  }

  /** Place `x` of the shared end `s` is reached by the chunk after boundary `i` of `a`. */
  ghost predicate Reaches(a: bytes, i: nat, s: bytes, x: nat, gear: Gear)
  {
    && |s| <= |a| && a[|a| - |s|..] == s && i <= |Split(a, gear)| && x < |s|
    && var from, to := Boundary(a, i, gear), |a| - |s| + x + 1;
       && 0 <= from <= |a| && 262_144 + 64 <= to - from <= 4_194_304
       && forall k :: 262_144 <= k < to - from - 1 ==> !Ends(a[from..], k, gear)
  }

  lemma BoundaryThere(a: bytes, i: nat, s: bytes, x: nat, gear: Gear)
    requires Reaches(a, i, s, x, gear) && 63 <= x && GearSum(s[x - 63..x + 1], gear) % TWO_64 < Pow2(42)
    ensures i < |Split(a, gear)| && Boundary(a, i + 1, gear) == |a| - |s| + x + 1
  {
    hide GearSum, Pow2, Ends, FirstCut, Split, Boundary;
    var from, to := Boundary(a, i, gear), |a| - |s| + x + 1;
    var rest, d := a[from..], to - from;
    assert rest[d - 64..d] == a[to - 64..to] == s[x - 63..x + 1];
    ContentCut(rest, d, gear);
    NextBoundary(a, i, gear);
  }

  /** Two streams with the same end: where 64 of its bytes match, both are cut, whatever came
      before, if neither was cut since boundaries at least 256 KiB and 64 bytes and at most
      4 MiB back; and from there on they are cut alike. */
  lemma Resync(a: bytes, i: nat, b: bytes, j: nat, s: bytes, x: nat, gear: Gear)
    requires Reaches(a, i, s, x, gear) && Reaches(b, j, s, x, gear)
    requires 63 <= x && GearSum(s[x - 63..x + 1], gear) % TWO_64 < Pow2(42)
    ensures i < |Split(a, gear)| && Boundary(a, i + 1, gear) == |a| - |s| + x + 1
    ensures j < |Split(b, gear)| && Boundary(b, j + 1, gear) == |b| - |s| + x + 1
    ensures Split(a, gear)[i + 1..] == Split(b, gear)[j + 1..]
  {
    hide GearSum, Pow2, Ends, FirstCut, Split, Boundary;
    BoundaryThere(a, i, s, x, gear);
    BoundaryThere(b, j, s, x, gear);
    assert a[|a| - |s| + x + 1..] == s[x + 1..] == b[|b| - |s| + x + 1..];
    SharedSuffix(a, i + 1, b, j + 1, gear);
  }

  // ---- The source's own form ----

  lemma HashEmpty(data: bytes, gear: Gear)
    requires MIN_CHUNK <= |data|
    ensures Hash(0, data[MIN_CHUNK..MIN_CHUNK], gear) == 0
  {
  }

  lemma HashSnoc(data: bytes, i: nat, gear: Gear)
    requires MIN_CHUNK <= i < |data|
    ensures Roll(Hash(0, data[MIN_CHUNK..i], gear), data[i], gear) == Hash(0, data[MIN_CHUNK..i + 1], gear)
  {
    var s := data[MIN_CHUNK..i + 1];
    assert s[..|s| - 1] == data[MIN_CHUNK..i];
  }

  /** cutPoint: two loops over one rolling hash, with the mask changing at the average size. */
  method CutPoint(data: bytes, gear: Gear) returns (c: nat)
    ensures c == Cut(data, gear) && IsCut(data, gear, c)
  {
    hide Hash, Roll, IsCut;
    CutIs(data, gear);
    var n := |data|;
    if n <= MIN_CHUNK {
      return n;
    }
    var normal := Min(n, AVG_CHUNK);
    var h: u64 := 0;
    var i := MIN_CHUNK;
    HashEmpty(data, gear);
    while i < normal
      invariant MIN_CHUNK <= i <= normal <= n
      invariant h == Hash(0, data[MIN_CHUNK..i], gear)
      invariant Cut(data, gear) == Search(data, i, gear)
    {
      HashSnoc(data, i, gear);
      h := Roll(h, data[i], gear);
      if h < SMALL_MASK_LIMIT {
        return i + 1;
      }
      i := i + 1;
    }
    while i < n
      invariant normal <= i <= n && (i < n ==> AVG_CHUNK <= i)
      invariant h == Hash(0, data[MIN_CHUNK..i], gear)
      invariant Cut(data, gear) == Search(data, i, gear)
    {
      HashSnoc(data, i, gear);
      h := Roll(h, data[i], gear);
      if h < LARGE_MASK_LIMIT {
        return i + 1;
      }
      i := i + 1;
    }
    return n;
  }

  datatype NextResult = Chunk(data: bytes) | End | ReadError

  class Chunker {
    const r: Reader
    const gear: Gear
    const buf: array<byte>
    var n: nat
    var cut: nat
    var eof: bool

    ghost predicate Valid()
      reads this, r
    {
      && buf.Length == MAX_CHUNK && cut <= n <= buf.Length
      && (eof ==> r.rest == [] && !r.broken)
    }

    /** The part of the stream not yet returned. */
    ghost function Pending(): bytes
      reads this, buf, r
      requires Valid()
    {
      buf[cut..n] + r.rest
    }

    constructor (r: Reader, gear: Gear)
      ensures Valid() && Pending() == r.rest && this.r == r && this.gear == gear && fresh(buf)
    {
      this.r, this.gear := r, gear;
      this.n, this.cut, this.eof := 0, 0, false;
      this.buf := new byte[MAX_CHUNK];
    }

    /** Moves the unreturned bytes to the front of the buffer. */
    method Shift()
      requires Valid()
      modifies this`n, this`cut, buf
      ensures Valid() && cut == 0
      ensures Pending() == old(Pending())
    {
      ghost var kept := buf[cut..n];
      forall i | 0 <= i < n - cut {
        buf[i] := buf[cut + i];
      }
      n, cut := n - cut, 0;
      assert buf[..n] == kept;
    }

    /** Reads until the buffer is full or the stream ends. */
    method Fill() returns (ok: bool)
      requires Valid() && cut == 0
      modifies this`n, this`eof, buf, r
      ensures Valid() && Pending() == old(Pending())
      ensures ok ==> n == MAX_CHUNK || eof
      ensures !ok ==> r.broken && |Pending()| <= MAX_CHUNK
    {
      while !eof && n < buf.Length
        invariant Valid() && Pending() == old(Pending())
        decreases |r.rest|, !eof
      {
        ghost var before, wait := buf[..n], r.rest;
        var data, status := r.Read(buf.Length - n);
        forall i | 0 <= i < |data| {
          buf[n + i] := data[i];
        }
        n := n + |data|;
        assert buf[..n] == before + data;
        assert buf[..n] + r.rest == before + wait;
        if status == Eof {
          eof := true;
        } else if status == Failed {
          return false;
        }
      }
      return true;
    }

    /** Next: whatever the short reads, the next piece of the unique split. */
    method Next() returns (res: NextResult)
      requires Valid()
      modifies this`n, this`cut, this`eof, buf, r
      ensures Valid()
      ensures res == End ==> old(Pending()) == [] && !r.broken && Pending() == []
      ensures res == ReadError ==> r.broken && |old(Pending())| <= MAX_CHUNK
      ensures res.Chunk? ==>
                && old(Pending()) != [] && (r.broken ==> |old(Pending())| >= MAX_CHUNK)
                && res.data == old(Pending())[..FirstCut(old(Pending()), gear)]
                && Pending() == old(Pending())[FirstCut(old(Pending()), gear)..]
                && IsCut(old(Pending())[..Min(|old(Pending())|, 4_194_304)], gear, |res.data|)
    {
      hide IsCut;
      Shift();
      var ok := Fill();
      if !ok {
        return ReadError;
      }
      ghost var all := Pending();
      if n == 0 {
        return End;
      }
      var window := buf[..n];
      assert window == Window(all);
      cut := CutPoint(window, gear);
      assert buf[..cut] == all[..cut];
      assert buf[cut..n] + r.rest == all[cut..];
      return Chunk(buf[..cut]);
    }
  }

  /** The first pieces of the split, as long as at least `limit` bytes are left. */
  function Ahead(data: bytes, gear: Gear, limit: Pos): seq<bytes>
  {
    if |data| < limit then []
    else
      var c := FirstCut(data, gear);
      [data[..c]] + Ahead(data[c..], gear, limit)
  }

  /** `chunks` were taken from the front of `data`, and `pending` is left. */
  ghost predicate Taken(data: bytes, chunks: seq<bytes>, pending: bytes, broken: bool, gear: Gear)
  {
    && Split(data, gear) == chunks + Split(pending, gear)
    && (broken ==>
          && Ahead(data, gear, MAX_CHUNK) == chunks + Ahead(pending, gear, MAX_CHUNK)
          && (|pending| < MAX_CHUNK || Ahead(data, gear, MAX_CHUNK + 1) == chunks + Ahead(pending, gear, MAX_CHUNK + 1)))
  }

  lemma TakeOne(data: bytes, chunks: seq<bytes>, pending: bytes, broken: bool, gear: Gear)
    requires Taken(data, chunks, pending, broken, gear) && pending != [] && (broken ==> |pending| >= MAX_CHUNK)
    ensures var c := FirstCut(pending, gear); Taken(data, chunks + [pending[..c]], pending[c..], broken, gear)
  {
    hide FirstCut, Split, Ahead;
    TakeSplit(data, chunks, pending, gear);
    if broken {
      TakeAhead(data, chunks, pending, gear, MAX_CHUNK);
      if |pending| > MAX_CHUNK {
        TakeAhead(data, chunks, pending, gear, MAX_CHUNK + 1);
      }
    }
  }

  lemma TakeSplit(data: bytes, chunks: seq<bytes>, pending: bytes, gear: Gear)
    requires Split(data, gear) == chunks + Split(pending, gear) && pending != []
    ensures var c := FirstCut(pending, gear); Split(data, gear) == (chunks + [pending[..c]]) + Split(pending[c..], gear)
  {
    hide FirstCut;
  }

  lemma TakeAhead(data: bytes, chunks: seq<bytes>, pending: bytes, gear: Gear, limit: Pos)
    requires Ahead(data, gear, limit) == chunks + Ahead(pending, gear, limit) && |pending| >= limit
    ensures var c := FirstCut(pending, gear); Ahead(data, gear, limit) == (chunks + [pending[..c]]) + Ahead(pending[c..], gear, limit)
  {
    hide FirstCut;
  }

  lemma TakenAll(data: bytes, chunks: seq<bytes>, pending: bytes, broken: bool, gear: Gear)
    requires Taken(data, chunks, pending, broken, gear)
    ensures chunks <= Split(data, gear) && (pending == [] ==> chunks == Split(data, gear))
    ensures broken && |pending| <= MAX_CHUNK ==> chunks == Ahead(data, gear, MAX_CHUNK) || chunks == Ahead(data, gear, MAX_CHUNK + 1)
  {
  }

  lemma TakenNone(data: bytes, broken: bool, gear: Gear)
    ensures Taken(data, [], data, broken, gear)
  {
  }

  /** Draining a chunker, as addFile does: the pieces of the unique split, all of them when
      the stream ends cleanly. When reading fails, those that began at least a full buffer
      before the failure; one that began exactly that far may go either way, with the reader. */
  method Drain(data: bytes, broken: bool, gear: Gear) returns (chunks: seq<bytes>, ok: bool)
    ensures ok == !broken
    ensures chunks <= Split(data, gear)
    ensures ok ==> chunks == Split(data, gear) && CutUp(data, chunks, gear)
    ensures !ok ==> chunks == Ahead(data, gear, MAX_CHUNK) || chunks == Ahead(data, gear, MAX_CHUNK + 1)
  {
    hide Taken, Split, Ahead, FirstCut, CutUp, IsCut;
    SplitIs(data, gear);
    var r := new Reader(data, broken);
    var c := new Chunker(r, gear);
    chunks := [];
    TakenNone(data, broken, gear);
    while true
      invariant c.Valid() && c.r == r && c.gear == gear && r.broken == broken
      invariant fresh(r) && fresh(c) && fresh(c.buf)
      invariant Taken(data, chunks, c.Pending(), broken, gear)
      decreases |c.Pending()|
    {
      ghost var here := c.Pending();
      TakenAll(data, chunks, here, broken, gear);
      var res := c.Next();
      match res
      case End => return chunks, true;
      case ReadError => return chunks, false;
      case Chunk(x) =>
        TakeOne(data, chunks, here, broken, gear);
        chunks := chunks + [x];
    }
  }
}
