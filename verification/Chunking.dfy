/** The content-defined and fixed chunkers: python/urp/chunking.py and crates/urp-chunker/src/lib.rs. */
module Chunking {
  import opened Common
  import opened Bits

  const GOLDEN: nat := 0x9E3779B1
  const U32: nat := 0x1_0000_0000

  datatype Chunk = Chunk(offset: nat, data: bytes, sha256: Digest)

  datatype CutRule = CutRule(minSize: int, avgBits: int, maxSize: int) {
    predicate Valid() { 0 < minSize <= maxSize && 0 <= avgBits }
  }

  type Rule = r: CutRule | r.Valid() witness CutRule(1, 0, 1)

  /** One hash step; `& 0xFFFFFFFF` keeps 32 bits. */
  function Roll(rolling: nat, b: byte): nat {
    BitAnd(2 * rolling + b + GOLDEN, U32 - 1)
  }

  function RollingHash(part: bytes): nat {
    if part == [] then 0 else Roll(RollingHash(part[..|part| - 1]), part[|part| - 1])
  }

  predicate HashFires(rule: Rule, part: bytes) {
    BitAnd(RollingHash(part), Pow2(rule.avgBits) - 1) == 0
  }

  /** A chunk ends right after `part` has been read since its start. */
  predicate CutAfter(rule: Rule, part: bytes) {
    |part| >= rule.minSize && (HashFires(rule, part) || |part| >= rule.maxSize)
  }

  /** What the loop holds after reading some input: finished chunks and the open one. */
  datatype ScanState = ScanState(closed: seq<bytes>, open: bytes)

  function Feed(rule: Rule, s: ScanState, b: byte): ScanState {
    var part := s.open + [b];
    if CutAfter(rule, part) then ScanState(s.closed + [part], []) else ScanState(s.closed, part)
  }

  function Scan(rule: Rule, data: bytes): ScanState {
    if data == [] then ScanState([], [])
    else Feed(rule, Scan(rule, data[..|data| - 1]), data[|data| - 1])
  }

  function Finish(s: ScanState): seq<bytes> {
    if s.open == [] then s.closed else s.closed + [s.open]
  }

  function Parts(rule: Rule, data: bytes): seq<bytes> { Finish(Scan(rule, data)) }

  /** Chunk records laid end to end from `offset`. */
  function Located(parts: seq<bytes>, offset: nat): seq<Chunk> {
    if parts == [] then []
    else [Chunk(offset, parts[0], Sha256(parts[0]))] + Located(parts[1..], offset + |parts[0]|)
  }

  lemma {:induction false} LocatedSnoc(parts: seq<bytes>, part: bytes, offset: nat)
    ensures Located(parts + [part], offset)
         == Located(parts, offset) + [Chunk(offset + |Concat(parts)|, part, Sha256(part))]
  {
    if parts == [] {
      assert parts + [part] == [part] + [];
      LocatedCons(part, [], offset);
    } else {
      hide Located, Concat;
      var head, rest := parts[0], parts[1..];
      LocatedSnoc(rest, part, offset + |head|);
      LocatedCons(head, rest + [part], offset);
      LocatedCons(head, rest, offset);
      ConcatCons(head, rest);
      assert parts == [head] + rest;
      assert [head] + (rest + [part]) == parts + [part];
    }
  }

  lemma LocatedCons(head: bytes, rest: seq<bytes>, offset: nat)
    ensures Located([head] + rest, offset)
         == [Chunk(offset, head, Sha256(head))] + Located(rest, offset + |head|)
  {
    assert ([head] + rest)[1..] == rest;
  }

  /** The variables of the loop after `i` bytes, in terms of the scan. */
  ghost predicate AtByte(rule: Rule, data: bytes, i: nat, start: nat, rolling: nat, chunks: seq<Chunk>)
    requires i <= |data|
  {
    var s := Scan(rule, data[..i]);
    && start == |Concat(s.closed)| <= i
    && s.open == data[start..i]
    && rolling == RollingHash(s.open)
    && chunks == Located(s.closed, 0)
  }

  lemma ReadByte(rule: Rule, data: bytes, i: nat, start: nat, rolling: nat, chunks: seq<Chunk>)
    requires i < |data| && AtByte(rule, data, i, start, rolling, chunks)
    ensures start <= i
    ensures var part, rolling' := data[start..i + 1], Roll(rolling, data[i]);
            && rolling' == RollingHash(part)
            && if CutAfter(rule, part)
               then AtByte(rule, data, i + 1, i + 1, 0, chunks + [Chunk(start, part, Sha256(part))])
               else AtByte(rule, data, i + 1, start, rolling', chunks)
  {
    hide CutAfter, Roll, Concat, Located, Scan, RollingHash;
    var s := Scan(rule, data[..i]);
    var part := data[start..i + 1];
    ScanSnoc(rule, data, i);
    HashSnoc(s.open, data[i]);
    assert part == s.open + [data[i]];
    LocatedSnoc(s.closed, part, 0);
    ConcatSnoc(s.closed, part);
    assert data[i + 1..i + 1] == [];
    HashEmpty();
  }

  lemma HashEmpty()
    ensures RollingHash([]) == 0
  {}

  lemma HashSnoc(part: bytes, b: byte)
    ensures RollingHash(part + [b]) == Roll(RollingHash(part), b)
  {
    assert (part + [b])[..|part|] == part;
  }

  lemma ScanSnoc(rule: Rule, data: bytes, i: nat)
    requires i < |data|
    ensures Scan(rule, data[..i + 1]) == Feed(rule, Scan(rule, data[..i]), data[i])
  {
    assert data[..i + 1][..i] == data[..i];
  }

  lemma AtEnd(rule: Rule, data: bytes, start: nat, rolling: nat, chunks: seq<Chunk>)
    requires AtByte(rule, data, |data|, start, rolling, chunks)
    ensures start <= |data|
    ensures Located(Parts(rule, data), 0)
         == if start < |data| then chunks + [Chunk(start, data[start..], Sha256(data[start..]))] else chunks
  {
    hide RollingHash;
    assert data[..|data|] == data;
    var s := Scan(rule, data);
    LocatedSnoc(s.closed, s.open, 0);
  }

  lemma AtStart(rule: Rule, data: bytes)
    ensures AtByte(rule, data, 0, 0, 0, [])
  {
    assert data[..0] == [];
  }

  method ContentDefinedChunks(data: bytes, minSize: int, avgBits: int, maxSize: int)
    returns (r: Result<seq<Chunk>>)
    ensures data == [] ==> r == Ok([])
    ensures data != [] && !CutRule(minSize, avgBits, maxSize).Valid() ==> r == Raise(ValueError)
    ensures data != [] && CutRule(minSize, avgBits, maxSize).Valid() ==>
              r == Ok(Located(Parts(CutRule(minSize, avgBits, maxSize), data), 0))
  {
    hide BitAnd, Pow2, Roll, RollingHash, AtByte, Parts, Located;
    if data == [] {
      return Ok([]);
    }
    if minSize <= 0 || maxSize < minSize || avgBits < 0 {
      return Raise(ValueError);
    }
    ghost var rule: Rule := CutRule(minSize, avgBits, maxSize);
    var mask := Pow2(avgBits) - 1;
    var chunks: seq<Chunk> := [];
    var start, rolling := 0, 0;
    AtStart(rule, data);
    for i := 0 to |data|
      invariant AtByte(rule, data, i, start, rolling, chunks)
    {
      ReadByte(rule, data, i, start, rolling, chunks);
      rolling := Roll(rolling, data[i]);
      var size := i - start + 1;
      if size >= minSize && (BitAnd(rolling, mask) == 0 || size >= maxSize) {
        var part := data[start..i + 1];
        chunks := chunks + [Chunk(start, part, Sha256(part))];
        start, rolling := i + 1, 0;
      }
    }
    AtEnd(rule, data, start, rolling, chunks);
    if start < |data| {
      chunks := chunks + [Chunk(start, data[start..], Sha256(data[start..]))];
    }
    r := Ok(chunks);
  }

  // ----- What the scan computes -----

  /** No chunk may end strictly inside `part`. */
  ghost predicate Uncut(rule: Rule, part: bytes) {
    forall n :: 0 < n < |part| ==> !CutAfter(rule, part[..n])
  }

  /** The cut rule stated without the loop: every part stops at its first cut, only the last may lack one. */
  ghost predicate IsChunking(rule: Rule, data: bytes, parts: seq<bytes>) {
    && Concat(parts) == data
    && (forall i :: 0 <= i < |parts| ==> parts[i] != [] && Uncut(rule, parts[i]))
    && (forall i :: 0 <= i < |parts| - 1 ==> CutAfter(rule, parts[i]))
  }

  ghost predicate Tracks(rule: Rule, data: bytes, s: ScanState) {
    && Concat(s.closed) + s.open == data
    && Uncut(rule, s.open)
    && (s.open != [] ==> !CutAfter(rule, s.open))
    && (forall i :: 0 <= i < |s.closed| ==>
          s.closed[i] != [] && Uncut(rule, s.closed[i]) && CutAfter(rule, s.closed[i]))
  }

  lemma UncutSnoc(rule: Rule, open: bytes, b: byte)
    requires Uncut(rule, open) && (open != [] ==> !CutAfter(rule, open))
    ensures Uncut(rule, open + [b])
  {
    hide CutAfter;
    forall n | 0 < n < |open + [b]|
      ensures !CutAfter(rule, (open + [b])[..n])
    {
      assert (open + [b])[..n] == open[..n];
      assert open[..|open|] == open;
    }
  }

  lemma FeedTracks(rule: Rule, data: bytes, s: ScanState, b: byte)
    requires Tracks(rule, data, s)
    ensures Tracks(rule, data + [b], Feed(rule, s, b))
  {
    hide CutAfter, Concat;
    UncutSnoc(rule, s.open, b);
    ConcatSnoc(s.closed, s.open + [b]);
    assert Concat(s.closed) + (s.open + [b]) == data + [b];
    assert Concat(s.closed + [s.open + [b]]) + [] == data + [b];
  }

  lemma {:induction false} ScanInvariant(rule: Rule, data: bytes)
    ensures Tracks(rule, data, Scan(rule, data))
  {
    if data == [] {
      hide CutAfter;
    } else {
      hide Tracks, Feed;
      var before := data[..|data| - 1];
      ScanInvariant(rule, before);
      FeedTracks(rule, before, Scan(rule, before), data[|data| - 1]);
      assert before + [data[|data| - 1]] == data;
    }
  }

  /** Chunks concatenate to the input and are cut exactly where the rule says. */
  lemma PartsAreChunking(rule: Rule, data: bytes)
    ensures IsChunking(rule, data, Parts(rule, data))
  {
    hide CutAfter, Scan, Concat;
    ScanInvariant(rule, data);
    var s := Scan(rule, data);
    ConcatSnoc(s.closed, s.open);
    assert s.open == [] ==> Concat(s.closed) + [] == Concat(s.closed);
  }

  /** There is only one chunking of any input, so the rule fixes every boundary. */
  lemma {:induction false} ChunkingUnique(rule: Rule, data: bytes, xs: seq<bytes>, ys: seq<bytes>)
    requires IsChunking(rule, data, xs) && IsChunking(rule, data, ys)
    ensures xs == ys
    decreases |xs|
  {
    hide CutAfter;
    ConcatNonEmpty(xs);
    ConcatNonEmpty(ys);
    if xs != [] && ys != [] {
      assert xs[0] <= data && ys[0] <= data;
      if |xs[0]| < |ys[0]| {
        FirstPartNotLonger(rule, data, xs, ys);
      } else if |ys[0]| < |xs[0]| {
        FirstPartNotLonger(rule, data, ys, xs);
      } else {
        assert xs[0] == data[..|xs[0]|] == ys[0];
        var rest := data[|xs[0]|..];
        assert Concat(xs[1..]) == rest && Concat(ys[1..]) == rest;
        assert IsChunking(rule, rest, xs[1..]) && IsChunking(rule, rest, ys[1..]);
        ChunkingUnique(rule, rest, xs[1..], ys[1..]);
      }
    }
  }

  lemma FirstPartNotLonger(rule: Rule, data: bytes, xs: seq<bytes>, ys: seq<bytes>)
    requires IsChunking(rule, data, xs) && IsChunking(rule, data, ys) && xs != [] && ys != []
    ensures |xs[0]| >= |ys[0]|
  {
    hide CutAfter;
    var n := Min(|xs[0]|, |ys[0]|);
    assert Concat(xs) == xs[0] + Concat(xs[1..]) && Concat(ys) == ys[0] + Concat(ys[1..]);
    assert xs[0][..n] == data[..n] == ys[0][..n];
    assert xs[0][..|xs[0]|] == xs[0];
    if |xs| == 1 {
      assert Concat(xs[1..]) == [];
    }
  }

  /** All chunks but the last have sizes within the bounds, and the last is at most `maxSize`. */
  lemma ChunkSizes(rule: Rule, data: bytes, i: nat)
    requires i < |Parts(rule, data)|
    ensures 0 < |Parts(rule, data)[i]| <= rule.maxSize
    ensures i < |Parts(rule, data)| - 1 ==> rule.minSize <= |Parts(rule, data)[i]|
  {
    PartsAreChunking(rule, data);
    var part := Parts(rule, data)[i];
    if |part| > rule.maxSize {
      assert CutAfter(rule, part[..rule.maxSize]);
    }
  }

  /** Chunk records are contiguous, start at the offset, and carry their own digest. */
  lemma {:induction false} LocatedContiguous(parts: seq<bytes>, offset: nat, i: nat)
    requires i < |parts|
    ensures |Located(parts, offset)| == |parts|
    ensures Located(parts, offset)[i] == Chunk(offset + |Concat(parts[..i])|, parts[i], Sha256(parts[i]))
  {
    if i == 0 {
      assert parts[..0] == [];
      LocatedLength(parts, offset);
    } else {
      LocatedContiguous(parts[1..], offset + |parts[0]|, i - 1);
      assert parts[..i][1..] == parts[1..][..i - 1];
    }
  }

  lemma LocatedLength(parts: seq<bytes>, offset: nat)
    ensures |Located(parts, offset)| == |parts|
  {}

  // ----- Stability under appending -----

  /** Reading more input never alters a chunk already closed. */
  lemma {:induction false} AppendKeepsClosed(rule: Rule, a: bytes, b: bytes)
    ensures Scan(rule, a).closed <= Scan(rule, a + b).closed
  {
    if b == [] {
      assert a + b == a;
    } else {
      var x := a + b;
      assert x[..|x| - 1] == a + b[..|b| - 1];
      AppendKeepsClosed(rule, a, b[..|b| - 1]);
    }
  }

  /** After a cut the scan starts afresh: what follows is chunked as if it were a new input. */
  lemma {:induction false} Restart(rule: Rule, a: bytes, b: bytes)
    requires Scan(rule, a).open == []
    ensures Scan(rule, a + b).closed == Scan(rule, a).closed + Scan(rule, b).closed
    ensures Scan(rule, a + b).open == Scan(rule, b).open
  {
    hide CutAfter;
    if b == [] {
      assert a + b == a;
    } else {
      var x := a + b;
      assert x[..|x| - 1] == a + b[..|b| - 1];
      Restart(rule, a, b[..|b| - 1]);
    }
  }

  lemma PartsAfterCut(rule: Rule, a: bytes, b: bytes)
    requires Scan(rule, a).open == []
    ensures Parts(rule, a + b) == Parts(rule, a) + Parts(rule, b)
  {
    Restart(rule, a, b);
  }

  // ----- Resynchronisation -----

  /** The hash before it is reduced to 32 bits. */
  ghost function RawHash(part: bytes): nat {
    if part == [] then 0 else 2 * RawHash(part[..|part| - 1]) + part[|part| - 1] + GOLDEN
  }

  lemma Pow2Is32()
    ensures Pow2(32) == U32
  {
    assert Pow2(8) == 256;
    Pow2Add(8, 8);
    Pow2Add(16, 16);
  }

  lemma MaskU32(x: nat)
    ensures BitAnd(x, U32 - 1) == x % U32
  {
    Pow2Is32();
    BitAndMask(x, 32);
  }

  lemma StepMod(h: nat, c: nat)
    ensures (2 * (h % U32) + c) % U32 == (2 * h + c) % U32
  {}

  lemma {:induction false} RollingIsRaw(part: bytes)
    ensures RollingHash(part) == RawHash(part) % U32
  {
    if part != [] {
      var before := part[..|part| - 1];
      hide BitAnd;
      RollingIsRaw(before);
      MaskU32(2 * RollingHash(before) + part[|part| - 1] + GOLDEN);
      StepMod(RawHash(before), part[|part| - 1] + GOLDEN);
    }
  }

  lemma {:induction false} RawHashSplit(u: bytes, w: bytes)
    ensures RawHash(u + w) == RawHash(u) * Pow2(|w|) + RawHash(w)
  {
    if w == [] {
      assert u + w == u;
    } else {
      var x, v := u + w, w[..|w| - 1];
      assert x[..|x| - 1] == u + v;
      RawHashSplit(u, v);
      MulAssoc(RawHash(u), Pow2(|v|), 2);
    }
  }

  /** The bits of the hash that the mask can see, as a number of trailing bytes. */
  function Window(rule: Rule): nat { Min(rule.avgBits, 32) }

  lemma FiresIffLowBits(rule: Rule, part: bytes)
    ensures HashFires(rule, part) <==> RawHash(part) % Pow2(Window(rule)) == 0
  {
    RollingIsRaw(part);
    BitAndMask(RollingHash(part), rule.avgBits);
    Pow2Is32();
    if rule.avgBits <= 32 {
      ModModPow2(RawHash(part), rule.avgBits, 32);
    } else {
      Pow2Add(32, rule.avgBits - 32);
      MulGrows(Pow2(rule.avgBits - 32), U32);
      SmallMod(RollingHash(part), Pow2(rule.avgBits));
    }
  }

  /** Whether the hash test fires depends on the last `Window` bytes alone, not on where the chunk began. */
  lemma HashIsLocal(rule: Rule, u: bytes, v: bytes, w: bytes)
    requires |w| >= Window(rule)
    ensures HashFires(rule, u + w) <==> HashFires(rule, v + w)
  {
    hide HashFires, Pow2, RawHash;
    var k := Window(rule);
    FiresIffLowBits(rule, u + w);
    FiresIffLowBits(rule, v + w);
    RawHashSplit(u, w);
    RawHashSplit(v, w);
    Pow2Add(|w| - k, k);
    MulAssoc(RawHash(u), Pow2(|w| - k), Pow2(k));
    MulAssoc(RawHash(v), Pow2(|w| - k), Pow2(k));
    ModShift(RawHash(u) * Pow2(|w| - k), Pow2(k), RawHash(w));
    ModShift(RawHash(v) * Pow2(|w| - k), Pow2(k), RawHash(w));
  }

  /** The open chunk once the last byte of `data` has been read, before deciding to cut. */
  function Pending(rule: Rule, data: bytes): bytes
    requires data != []
  {
    Scan(rule, data[..|data| - 1]).open + [data[|data| - 1]]
  }

  lemma PendingIsSuffix(rule: Rule, data: bytes)
    requires data != []
    ensures |Pending(rule, data)| <= |data|
    ensures Pending(rule, data) == data[|data| - |Pending(rule, data)|..]
  {
    hide Scan, Uncut, CutAfter, Concat;
    var before, last := data[..|data| - 1], [data[|data| - 1]];
    ScanInvariant(rule, before);
    var s := Scan(rule, before);
    AppendAssoc(Concat(s.closed), s.open, last);
    assert data == before + last;
    assert data == Concat(s.closed) + Pending(rule, data);
  }

  /**
   * Two inputs that end alike resynchronise: when the hash fires for one at the
   * end of the shared bytes `w`, and both chunks are past `minSize` and the
   * window, both cut there, and whatever follows is chunked identically in both.
   */
  lemma Resync(rule: Rule, p1: bytes, p2: bytes, w: bytes, t: bytes)
    requires w != [] && |w| >= Window(rule)
    requires |Pending(rule, p1 + w)| >= Max(rule.minSize, Window(rule))
    requires |Pending(rule, p2 + w)| >= Max(rule.minSize, Window(rule))
    requires HashFires(rule, Pending(rule, p1 + w))
    ensures HashFires(rule, Pending(rule, p2 + w))
    ensures Scan(rule, p1 + w).open == [] && Scan(rule, p2 + w).open == []
    ensures Parts(rule, p1 + w + t) == Parts(rule, p1 + w) + Parts(rule, t)
    ensures Parts(rule, p2 + w + t) == Parts(rule, p2 + w) + Parts(rule, t)
  {
    hide HashFires;
    var o1, o2 := Pending(rule, p1 + w), Pending(rule, p2 + w);
    var k := Window(rule);
    var tail := w[|w| - k..];
    PendingEndsWith(rule, p1, w, k);
    PendingEndsWith(rule, p2, w, k);
    HashIsLocal(rule, o1[..|o1| - k], o2[..|o2| - k], tail);
    PendingCuts(rule, p1 + w);
    PendingCuts(rule, p2 + w);
    PartsAfterCut(rule, p1 + w, t);
    PartsAfterCut(rule, p2 + w, t);
  }

  lemma PendingCuts(rule: Rule, data: bytes)
    requires data != [] && CutAfter(rule, Pending(rule, data))
    ensures Scan(rule, data).open == []
  {}

  lemma PendingEndsWith(rule: Rule, p: bytes, w: bytes, k: nat)
    requires w != [] && k <= |w| && k <= |Pending(rule, p + w)|
    ensures var o := Pending(rule, p + w); o == o[..|o| - k] + w[|w| - k..]
  {
    hide Pending;
    PendingIsSuffix(rule, p + w);
  }

  /** Parts of any length can hash to any low bits, one more than they have bytes. */
  lemma {:induction false} EveryResidue(n: nat, r: nat) returns (w: bytes)
    requires n >= 1 && r < Pow2(n + 1)
    ensures |w| == n && RawHash(w) % Pow2(n + 1) == r
  {
    hide Pow2, RawHash;
    TwicePow2(n);
    if n == 1 {
      var b: byte := (r - GOLDEN) % 4;
      w := [b];
      OneByteHash(b);
      SmallPowers();
    } else {
      var m := Pow2(n);
      var b: byte := (r - GOLDEN) % 2;
      var half := (r - b - GOLDEN) / 2;
      assert r - b - GOLDEN == 2 * half;
      var before := EveryResidue(n - 1, half % m);
      w := before + [b];
      RawHashSnoc(before, b);
      ResidueStep(RawHash(before), half, m, b + GOLDEN);
    }
  }

  lemma SmallPowers()
    ensures Pow2(1) == 2 && Pow2(2) == 4
  {}

  lemma RawHashSnoc(part: bytes, b: byte)
    ensures RawHash(part + [b]) == 2 * RawHash(part) + b + GOLDEN
  {
    assert (part + [b])[..|part|] == part;
  }

  lemma ResidueStep(h: nat, half: int, m: nat, c: int)
    requires m > 0 && h % m == half % m && 0 <= 2 * half + c < 2 * m
    ensures (2 * h + c) % (2 * m) == 2 * half + c
  {
    var q := h / m - half / m;
    assert h - half == q * m by {
      assert h == (h / m) * m + h % m && half == (half / m) * m + half % m;
      assert q * m == (h / m) * m - (half / m) * m;
    }
    assert 2 * h + c == q * (2 * m) + (2 * half + c);
    DivModUnique(q, 2 * m, 2 * half + c);
  }

  /** With `minSize` below the window some part long enough to cut fires alone but not with a byte before it. */
  lemma ShortPartMisleads(rule: Rule) returns (u: bytes, w: bytes)
    requires rule.minSize < Window(rule)
    ensures |w| == Window(rule) - 1 >= rule.minSize
    ensures HashFires(rule, w) && !HashFires(rule, u + w)
  {
    hide HashFires, RawHash;
    var n := Window(rule) - 1;
    w := EveryResidue(n, 0);
    u := [0];
    FiresIffLowBits(rule, w);
    FiresIffLowBits(rule, u + w);
    RawHashSplit(u, w);
    assert RawHash(u) == GOLDEN by { OneByteHash(0); }
    OddTimesHalf(GOLDEN, Pow2(n), RawHash(w));
  }

  lemma OneByteHash(b: byte)
    ensures RawHash([b]) == b + GOLDEN
  {
    assert RawHash([b][..0]) == 0;
  }

  lemma OddTimesHalf(odd: nat, m: nat, r: nat)
    requires m > 0 && odd % 2 == 1 && r % (2 * m) == 0
    ensures (odd * m + r) % (2 * m) == m
  {
    var q := odd / 2 + r / (2 * m);
    assert odd * m + r == q * (2 * m) + m by {
      assert odd == 2 * (odd / 2) + 1;
      assert odd * m == (odd / 2) * (2 * m) + m;
      assert r == (r / (2 * m)) * (2 * m);
    }
    DivModUnique(q, 2 * m, m);
  }

  /** Where the hash test may cut, it never depends on the start of the chunk if and only if `minSize` reaches the window. */
  lemma LocalIffMinSize(rule: Rule)
    ensures (forall u: bytes, w: bytes :: |w| >= rule.minSize ==> (HashFires(rule, u + w) <==> HashFires(rule, w)))
       <==> rule.minSize >= Window(rule)
  {
    hide HashFires, Window;
    if rule.minSize >= Window(rule) {
      forall u: bytes, w: bytes | |w| >= rule.minSize
        ensures HashFires(rule, u + w) <==> HashFires(rule, w)
      {
        HashIsLocal(rule, u, [], w);
        assert [] + w == w;
      }
    } else {
      var u, w := ShortPartMisleads(rule);
    }
  }

  lemma ScanEmpty(rule: Rule)
    ensures Scan(rule, []) == ScanState([], [])
  {}

  // ----- Where chunks end, in numbers -----

  lemma RawHashStep(part: bytes, b: byte)
    ensures RawHash([]) == 0 && RawHash(part + [b]) == 2 * RawHash(part) + b + 0x9E37_79B1
  {
    RawHashSnoc(part, b);
  }

  /**
   * Parts that join to the data, of 1 to `maxSize` bytes, where each but the
   * last is at least `minSize` long and either `maxSize` long or hashes to zero
   * in the low bits, and none holds an earlier prefix of `minSize` bytes or more
   * that does.
   */
  ghost predicate HashChunking(rule: Rule, data: bytes, parts: seq<bytes>) {
    && Concat(parts) == data
    && (forall i :: 0 <= i < |parts| ==> 0 < |parts[i]| <= rule.maxSize)
    && (forall i :: 0 <= i < |parts| - 1 ==>
          |parts[i]| >= rule.minSize
          && (|parts[i]| == rule.maxSize || RawHash(parts[i]) % Pow2(Min(rule.avgBits, 32)) == 0))
    && (forall i, n :: 0 <= i < |parts| && rule.minSize <= n < |parts[i]| ==>
          RawHash(parts[i][..n]) % Pow2(Min(rule.avgBits, 32)) != 0)
  }

  lemma CutInNumbers(rule: Rule, part: bytes)
    ensures CutAfter(rule, part) <==>
              |part| >= rule.minSize
              && (|part| >= rule.maxSize || RawHash(part) % Pow2(Min(rule.avgBits, 32)) == 0)
  {
    FiresIffLowBits(rule, part);
    hide HashFires, RawHash, Pow2;
  }

  lemma UncutInNumbers(rule: Rule, part: bytes)
    requires part != []
    ensures Uncut(rule, part) <==>
              |part| <= rule.maxSize
              && forall n :: rule.minSize <= n < |part| ==> RawHash(part[..n]) % Pow2(Min(rule.avgBits, 32)) != 0
  {
    hide CutAfter, RawHash, Pow2;
    forall n | 0 <= n < |part|
      ensures CutAfter(rule, part[..n]) <==>
                n >= rule.minSize && (n >= rule.maxSize || RawHash(part[..n]) % Pow2(Min(rule.avgBits, 32)) == 0)
    {
      CutInNumbers(rule, part[..n]);
    }
    if |part| > rule.maxSize {
      assert CutAfter(rule, part[..rule.maxSize]);
    }
  }

  /** The chunker's parts are those, and they are the only ones. */
  lemma PartsIffHashChunking(rule: Rule, data: bytes, parts: seq<bytes>)
    ensures HashChunking(rule, data, parts) <==> parts == Parts(rule, data)
  {
    hide Parts, CutAfter, RawHash, Pow2, Concat, Uncut;
    PartsAreChunking(rule, data);
    ChunkingIsHashed(rule, data, Parts(rule, data));
    ChunkingIsHashed(rule, data, parts);
    if HashChunking(rule, data, parts) {
      ChunkingUnique(rule, data, parts, Parts(rule, data));
    }
  }

  lemma ChunkingIsHashed(rule: Rule, data: bytes, parts: seq<bytes>)
    ensures IsChunking(rule, data, parts) <==> HashChunking(rule, data, parts)
  {
    hide CutAfter, RawHash, Pow2, Concat, Uncut;
    forall i | 0 <= i < |parts| && parts[i] != []
      ensures Uncut(rule, parts[i]) <==>
                |parts[i]| <= rule.maxSize
                && forall n :: rule.minSize <= n < |parts[i]| ==>
                     RawHash(parts[i][..n]) % Pow2(Min(rule.avgBits, 32)) != 0
      ensures CutAfter(rule, parts[i]) <==>
                |parts[i]| >= rule.minSize
                && (|parts[i]| >= rule.maxSize || RawHash(parts[i]) % Pow2(Min(rule.avgBits, 32)) == 0)
    {
      UncutInNumbers(rule, parts[i]);
      CutInNumbers(rule, parts[i]);
    }
  }

  // ----- The Rust chunker -----

  datatype RustChunk = RustChunk(start: nat, end: nat, data: bytes)

  function WrappingShl1(x: nat): nat { (x * 2) % U32 }

  function WrappingAdd(x: nat, y: nat): nat { (x + y) % U32 }

  function ToRust(chunks: seq<Chunk>): seq<RustChunk> {
    if chunks == [] then []
    else
      var c := chunks[|chunks| - 1];
      ToRust(chunks[..|chunks| - 1]) + [RustChunk(c.offset, c.offset + |c.data|, c.data)]
  }

  lemma RollIsWrapping(rolling: nat, b: byte)
    ensures WrappingAdd(WrappingAdd(WrappingShl1(rolling), b), GOLDEN) == Roll(rolling, b)
  {
    hide BitAnd;
    var x, c := 2 * rolling, b + GOLDEN;
    MaskU32(x + c);
    ModAdd(x, b);
    ModAdd(x + b, GOLDEN);
  }

  lemma ModAdd(x: nat, y: nat)
    ensures (x % U32 + y) % U32 == (x + y) % U32
  {}

  /**
   * The Rust loop with wrapping 32-bit steps. From 32 bits on `1u32 << avg_bits`
   * overflows: a build with overflow checks panics, any other shifts by the
   * amount modulo 32.
   */
  method RustContentDefinedChunks(data: bytes, minSize: nat, avgBits: nat, maxSize: nat, overflowChecks: bool)
    returns (r: Result<seq<RustChunk>>)
    ensures data == [] ==> r == Ok([])
    ensures data != [] && (minSize == 0 || maxSize < minSize || (avgBits >= 32 && overflowChecks)) ==> r == Raise(Panic)
    ensures data != [] && 0 < minSize <= maxSize && (avgBits <= 31 || !overflowChecks) ==>
              r == Ok(ToRust(Located(Parts(CutRule(minSize, avgBits % 32, maxSize), data), 0)))
  {
    hide BitAnd, Pow2, Roll, RollingHash, AtByte, Parts, Located, WrappingAdd, WrappingShl1;
    if data == [] {
      return Ok([]);
    }
    if !(minSize > 0) || !(maxSize >= minSize) || (overflowChecks && avgBits >= 32) {
      return Raise(Panic);
    }
    ghost var rule: Rule := CutRule(minSize, avgBits % 32, maxSize);
    var mask := Pow2(avgBits % 32) - 1;
    var chunks: seq<RustChunk> := [];
    var start, rolling := 0, 0;
    ghost var python: seq<Chunk> := [];
    AtStart(rule, data);
    for i := 0 to |data|
      invariant AtByte(rule, data, i, start, rolling, python)
      invariant chunks == ToRust(python)
    {
      ReadByte(rule, data, i, start, rolling, python);
      RollIsWrapping(rolling, data[i]);
      rolling := WrappingAdd(WrappingAdd(WrappingShl1(rolling), data[i]), GOLDEN);
      var size := i - start + 1;
      if size >= minSize && (BitAnd(rolling, mask) == 0 || size >= maxSize) {
        var part := data[start..i + 1];
        ToRustSnoc(python, start, part);
        python := python + [Chunk(start, part, Sha256(part))];
        chunks := chunks + [RustChunk(start, i + 1, part)];
        start, rolling := i + 1, 0;
      }
    }
    AtEnd(rule, data, start, rolling, python);
    if start < |data| {
      ToRustSnoc(python, start, data[start..]);
      chunks := chunks + [RustChunk(start, |data|, data[start..])];
    }
    r := Ok(chunks);
  }

  lemma ToRustSnoc(chunks: seq<Chunk>, start: nat, part: bytes)
    ensures ToRust(chunks + [Chunk(start, part, Sha256(part))])
         == ToRust(chunks) + [RustChunk(start, start + |part|, part)]
  {
    var all := chunks + [Chunk(start, part, Sha256(part))];
    assert all[..|all| - 1] == chunks;
  }

  /** The Rust build without overflow checks cuts where Python does, for all sizes and data, if and only if the shift fits. */
  lemma RustAgreesIff(avgBits: nat)
    ensures (forall minSize: nat, maxSize: nat, data: bytes :: 0 < minSize <= maxSize ==>
               Parts(CutRule(minSize, avgBits % 32, maxSize), data) == Parts(CutRule(minSize, avgBits, maxSize), data))
       <==> avgBits <= 31
  {
    hide Parts;
    if avgBits >= 32 {
      var data := RustStrays(avgBits);
      assert Parts(CutRule(31, avgBits % 32, 32), data) != Parts(CutRule(31, avgBits, 32), data);
    }
  }

  lemma RustStrays(avgBits: nat) returns (data: bytes)
    requires avgBits >= 32
    ensures Parts(CutRule(31, avgBits % 32, 32), data) != Parts(CutRule(31, avgBits, 32), data)
  {
    hide Scan, RawHash, HashFires, Pow2;
    var rust: Rule := CutRule(31, avgBits % 32, 32);
    var python: Rule := CutRule(31, avgBits, 32);
    assert Pow2(31) < Pow2(32) by { TwicePow2(31); }
    var w := EveryResidue(31, Pow2(31));
    data := w + [0];
    FiresIffLowBits(python, w);
    FiresIffLowBits(rust, w);
    ModModPow2(RawHash(w), avgBits % 32, 32);
    ModModPow2(Pow2(31), avgBits % 32, 31);
    HalfHasNoLowBits(avgBits % 32);
    FirstParts(rust, w, 0);
    FirstParts(python, w, 0);
  }

  lemma TwicePow2(n: nat)
    ensures Pow2(n + 1) == 2 * Pow2(n)
  {}

  lemma HalfHasNoLowBits(a: nat)
    requires a <= 31
    ensures Pow2(31) % Pow2(a) == 0
  {
    Pow2Add(31 - a, a);
    DivModUnique(Pow2(31 - a), Pow2(a), 0);
  }

  /** A part of just `minSize` bytes and one byte more, under a rule that forces a cut there. */
  lemma FirstParts(rule: Rule, w: bytes, b: byte)
    requires |w| == rule.minSize == rule.maxSize - 1
    ensures Parts(rule, w + [b])[..1] == if HashFires(rule, w) then [w] else [w + [b]]
  {
    hide HashFires, Scan;
    var n := |w| - 1;
    ShortScan(rule, w[..n]);
    ScanSnoc(rule, w, n);
    assert w[..n] + [w[n]] == w && w[..n + 1] == w;
    var data := w + [b];
    ScanSnoc(rule, data, |w|);
    assert data[..|w|] == w && data[..|w| + 1] == data;
    assert [] + [w] == [w] && [] + [b] == [b] && [] + [data] == [data];
    assert ([w] + [[b]])[..1] == [w] && [data][..1] == [data];
  }

  lemma {:induction false} ShortScan(rule: Rule, data: bytes)
    requires |data| < rule.minSize
    ensures Scan(rule, data) == ScanState([], data)
  {
    if data != [] {
      ShortScan(rule, data[..|data| - 1]);
    }
  }

  // ----- Fixed-size chunks -----

  function FixedParts(data: bytes, size: nat): (parts: seq<bytes>)
    requires size > 0
    ensures Concat(parts) == data
    ensures forall i :: 0 <= i < |parts| ==> 0 < |parts[i]| <= size
    ensures forall i :: 0 <= i < |parts| - 1 ==> |parts[i]| == size
  {
    if data == [] then []
    else if |data| <= size then
      assert Concat([data]) == data + Concat([]);
      [data]
    else
      [data[..size]] + FixedParts(data[size..], size)
  }

  method FixedChunks(data: bytes, size: int) returns (r: Result<seq<Chunk>>)
    ensures size <= 0 ==> r == Raise(ValueError)
    ensures size > 0 ==> r == Ok(Located(FixedParts(data, size), 0))
  {
    hide Located, FixedParts;
    if size <= 0 {
      return Raise(ValueError);
    }
    FixedPartsEmpty(size);
    assert data[0..] == data && [] + FixedParts(data, size) == FixedParts(data, size);
    var chunks: seq<Chunk> := [];
    var start := 0;
    ghost var done: seq<bytes> := [];
    while start < |data|
      invariant chunks == Located(done, 0)
      invariant 0 <= start && Min(start, |data|) == |Concat(done)|
      invariant FixedParts(data, size) == done + FixedParts(data[Min(start, |data|)..], size)
    {
      var part := data[start..Min(start + size, |data|)];
      ghost var rest := FixedParts(data[Min(start + size, |data|)..], size);
      assert done + ([part] + rest) == (done + [part]) + rest;
      LocatedSnoc(done, part, 0);
      ConcatSnoc(done, part);
      FixedPartsStep(data, size, start);
      chunks := chunks + [Chunk(start, part, Sha256(part))];
      done := done + [part];
      start := start + size;
    }
    assert data[|data|..] == [];
    assert done + [] == done;
    r := Ok(chunks);
  }

  lemma FixedPartsEmpty(size: nat)
    requires size > 0
    ensures FixedParts([], size) == [] && Located([], 0) == []
  {}

  lemma FixedPartsStep(data: bytes, size: nat, start: nat)
    requires size > 0 && start < |data|
    ensures var next := Min(start + size, |data|);
            FixedParts(data[start..], size) == [data[start..next]] + FixedParts(data[next..], size)
  {
    var rest := data[start..];
    if |rest| <= size {
      assert data[start..|data|] == rest && data[|data|..] == [];
    } else {
      assert rest[..size] == data[start..start + size] && rest[size..] == data[start + size..];
    }
  }
}
