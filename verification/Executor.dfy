/** Exact objects: store, verify, restore whole or by range. python/urp/executor.py. */
module Executor {
  import opened Common
  import opened Chunking
  import opened ChunkStore
  import opened Contracts

  datatype WorkUnit = WorkUnit(id: string, tenant: string, namespace: string, payload: bytes)

  /** What the policy and the plan decided for the work unit. */
  datatype Orders = Orders(actions: set<Name>, requiredVerifiers: seq<string>, approvalMissing: bool)

  datatype Segment = Segment(stored: StoredChunk, logicalStart: int, logicalEnd: int)

  datatype Telemetry = Telemetry(mode: Mode, bytesIn: nat, bytesStored: nat, bytesAvoided: nat, chunkCount: nat)

  datatype ManifestState = Active | Superseded | Planned

  datatype Manifest = Manifest(
    workUnitId: string,
    wholeSha256: Digest,
    logicalSize: nat,
    storedSize: nat,
    segments: seq<Segment>,
    state: ManifestState,
    telemetry: Telemetry)

  const DEFAULT_RULE: Rule := CutRule(2048, 12, 8192)
  const DEFAULT_BLOCK: nat := 1024 * 1024
  const EXACT_VERIFIERS: set<string> := {"sha256_restore", "sha256_restore@0"}

  function LayoutParts(payload: bytes, actions: set<Name>): seq<bytes> {
    if ContentDefinedChunk in actions then Parts(DEFAULT_RULE, payload)
    else if FixedChunk in actions then FixedParts(payload, DEFAULT_BLOCK)
    else FixedParts(payload, Max(1, |payload|))
  }

  function StorageNamespace(wu: WorkUnit, mode: Mode): string {
    if mode == Enforce then wu.namespace else "shadow-" + wu.namespace
  }

  /** `put_chunks`: one put per chunk, in order, stopping at the first failure. */
  function PutAll(z: Compressor, d: Disk, tenant: string, namespace: string, chunks: seq<Chunk>, compress: bool)
    : (Disk, Result<seq<Segment>>)
    decreases |chunks|
  {
    if chunks == [] then (d, Ok([]))
    else
      var c := chunks[0];
      var (d1, r) := PutSpec(z, d, Request(tenant, namespace, c, compress));
      if r.Raise? then (d1, Raise(r.error))
      else
        var (d2, rest) := PutAll(z, d1, tenant, namespace, chunks[1..], compress);
        (d2, Prepend([Segment(r.value, c.offset, c.offset + |c.data|)], rest))
  }

  function StoredBytes(segments: seq<Segment>): nat {
    if segments == [] then 0 else segments[0].stored.storedSize + StoredBytes(segments[1..])
  }

  function StoredOf(segments: seq<Segment>): seq<StoredChunk> {
    if segments == [] then [] else [segments[0].stored] + StoredOf(segments[1..])
  }

  function Observation(wu: WorkUnit): Manifest {
    Manifest(wu.id, Sha256(wu.payload), |wu.payload|, 0, [], Planned, Telemetry(Observe, |wu.payload|, 0, 0, 0))
  }

  function StoredManifest(wu: WorkUnit, mode: Mode, segments: seq<Segment>): Manifest {
    var n, stored := |wu.payload|, StoredBytes(segments);
    Manifest(wu.id, Sha256(wu.payload), n, stored, segments, if mode == Enforce then Active else Superseded,
             Telemetry(mode, n, stored, Max(0, n - stored), |segments|))
  }

  /** The disk afterwards, and the manifest written or the exception. */
  function Execute(z: Compressor, d: Disk, wu: WorkUnit, mode: Mode, o: Orders): (Disk, Result<Manifest>) {
    if o.approvalMissing then (d, Raise(PolicyDenied))
    else if mode == Observe then (d, Ok(Observation(wu)))
    else
      var chunks := Located(LayoutParts(wu.payload, o.actions), 0);
      var (d1, stored) := PutAll(z, d, wu.tenant, StorageNamespace(wu, mode), chunks, ZstdAction in o.actions);
      (d1,
       var segments :- stored;
       var restored :- ReadAll(z, d1.files, StoredOf(segments));
       if Sha256(restored) != Sha256(wu.payload) then Raise(VerifierFailed)
       else if exists v :: v in o.requiredVerifiers && v !in EXACT_VERIFIERS then Raise(VerifierFailed)
       else Ok(StoredManifest(wu, mode, segments)))
  }

  // ----- Restoring -----

  /** The exceptions that restoring turns into a rehydration failure. */
  function Wrapped(e: Error): Error {
    if e in {FileNotFound, ValueError, KeyError} then RehydrationFailed else e
  }

  function RestoreWhole(z: Compressor, files: map<Ref, bytes>, m: Manifest): Result<bytes> {
    match ReadAll(z, files, StoredOf(m.segments))
    case Raise(e) => Raise(Wrapped(e))
    case Ok(data) => if Sha256(data) != m.wholeSha256 then Raise(RehydrationFailed) else Ok(data)
  }

  /** Stable sort on the start offset. */
  function Insert(s: Segment, sorted: seq<Segment>): seq<Segment> {
    if sorted == [] || s.logicalStart <= sorted[0].logicalStart then [s] + sorted
    else [sorted[0]] + Insert(s, sorted[1..])
  }

  function SortByStart(segments: seq<Segment>): seq<Segment> {
    if segments == [] then [] else Insert(segments[0], SortByStart(segments[1..]))
  }

  predicate Outside(s: Segment, start: int, end: int) { s.logicalEnd <= start || s.logicalStart >= end }

  /** The clipped bytes of one overlapping segment. */
  function Clip(z: Compressor, files: map<Ref, bytes>, s: Segment, start: int, end: int): Result<bytes>
    requires start < end && !Outside(s, start, end)
  {
    var data :- ReadStored(z, files, s.stored);
    if |data| != s.logicalEnd - s.logicalStart then Raise(ValueError)
    else
      Ok(data[Max(start, s.logicalStart) - s.logicalStart..Min(end, s.logicalEnd) - s.logicalStart])
  }

  function ClipAll(z: Compressor, files: map<Ref, bytes>, segments: seq<Segment>, start: int, end: int): Result<bytes>
    requires start < end
  {
    if segments == [] then Ok([])
    else if Outside(segments[0], start, end) then ClipAll(z, files, segments[1..], start, end)
    else
      var first :- Clip(z, files, segments[0], start, end);
      Prepend(first, ClipAll(z, files, segments[1..], start, end))
  }

  function RestoreRange(z: Compressor, files: map<Ref, bytes>, m: Manifest, start: int, end: int): Result<bytes> {
    var stop := Min(end, m.logicalSize);
    if start < 0 || end < start then Raise(ValueError)
    else if start >= stop then Ok([])
    else match ClipAll(z, files, SortByStart(m.segments), start, stop)
      case Raise(e) => Raise(Wrapped(e))
      case Ok(data) => if |data| != stop - start then Raise(RehydrationFailed) else Ok(data)
  }

  /** The executor over its chunk store and its manifest store. */
  class ExactExecutor {
    const store: LocalChunkStore
    var manifests: map<string, Manifest>

    constructor (lib: Library)
      ensures manifests == map[] && fresh(store)
      ensures store.lib == lib && store.State() == Disk(map[], map[])
    {
      store := new LocalChunkStore(lib);
      manifests := map[];
    }

    /** `zstd` says whether this process has zstandard installed. */
    method ExecuteExactObject(wu: WorkUnit, mode: Mode, o: Orders, manifestId: string, zstd: bool) returns (r: Result<string>)
      requires manifestId !in manifests
      modifies this, store
      ensures var (d, m) := Execute(store.lib.With(zstd), old(store.State()), wu, mode, o);
              && store.State() == d
              && r == (match m case Ok(_) => Ok(manifestId) case Raise(e) => Raise(e))
              && manifests == (match m case Ok(x) => old(manifests)[manifestId := x] case Raise(_) => old(manifests))
    {
      if o.approvalMissing {
        return Raise(PolicyDenied);
      }
      if mode == Observe {
        manifests := manifests[manifestId := Observation(wu)];
        return Ok(manifestId);
      }
      hide PutAll, ReadAll, LayoutParts, Located, StoredManifest;
      var chunks := LayoutChunks(wu.payload, o.actions);
      var stored := StoreChunks(wu.tenant, StorageNamespace(wu, mode), chunks, ZstdAction in o.actions, zstd);
      if stored.Raise? {
        return Raise(stored.error);
      }
      var restored := store.Rehydrate(StoredOf(stored.value), zstd);
      if restored.Raise? {
        return Raise(restored.error);
      }
      if Sha256(restored.value) != Sha256(wu.payload) {
        return Raise(VerifierFailed);
      }
      if exists v :: v in o.requiredVerifiers && v !in EXACT_VERIFIERS {
        return Raise(VerifierFailed);
      }
      manifests := manifests[manifestId := StoredManifest(wu, mode, stored.value)];
      r := Ok(manifestId);
    }

    method StoreChunks(tenant: string, namespace: string, chunks: seq<Chunk>, compress: bool, zstd: bool)
      returns (r: Result<seq<Segment>>)
      modifies store
      ensures (store.State(), r) == PutAll(store.lib.With(zstd), old(store.State()), tenant, namespace, chunks, compress)
    {
      hide PutSpec;
      var segments: seq<Segment> := [];
      ghost var all := PutAll(store.lib.With(zstd), store.State(), tenant, namespace, chunks, compress);
      assert chunks[0..] == chunks;
      PrependNothing(all.1);
      for i := 0 to |chunks|
        invariant var rest := PutAll(store.lib.With(zstd), store.State(), tenant, namespace, chunks[i..], compress);
                  all == (rest.0, Prepend(segments, rest.1))
      {
        assert chunks[i..][0] == chunks[i] && chunks[i..][1..] == chunks[i + 1..];
        var c := chunks[i];
        var stored := store.PutChunk(Request(tenant, namespace, c, compress), zstd);
        if stored.Raise? {
          return Raise(stored.error);
        }
        var segment := Segment(stored.value, c.offset, c.offset + |c.data|);
        PrependTwice(segments, [segment], PutAll(store.lib.With(zstd), store.State(), tenant, namespace, chunks[i + 1..], compress).1);
        segments := segments + [segment];
      }
      assert segments + [] == segments;
      r := Ok(segments);
    }

    static method LayoutChunks(payload: bytes, actions: set<Name>) returns (chunks: seq<Chunk>)
      ensures chunks == Located(LayoutParts(payload, actions), 0)
    {
      var r;
      if ContentDefinedChunk in actions {
        r := ContentDefinedChunks(payload, 2048, 12, 8192);
        ScanEmpty(DEFAULT_RULE);
      } else if FixedChunk in actions {
        r := FixedChunks(payload, DEFAULT_BLOCK);
      } else {
        r := FixedChunks(payload, Max(1, |payload|));
      }
      chunks := r.value;
    }

    method RehydrateManifest(manifestId: string, zstd: bool) returns (r: Result<bytes>)
      ensures r == if manifestId !in manifests then Raise(KeyError)
                   else RestoreWhole(store.lib.With(zstd), store.files, manifests[manifestId])
    {
      if manifestId !in manifests {
        return Raise(KeyError);
      }
      var m := manifests[manifestId];
      var data := store.Rehydrate(StoredOf(m.segments), zstd);
      if data.Raise? {
        return Raise(Wrapped(data.error));
      }
      if Sha256(data.value) != m.wholeSha256 {
        return Raise(RehydrationFailed);
      }
      r := data;
    }

    method RehydrateManifestRange(manifestId: string, start: int, end: int, zstd: bool) returns (r: Result<bytes>)
      ensures r == if start < 0 || end < start then Raise(ValueError)
                   else if manifestId !in manifests then Raise(KeyError)
                   else RestoreRange(store.lib.With(zstd), store.files, manifests[manifestId], start, end)
    {
      if start < 0 || end < start {
        return Raise(ValueError);
      }
      if manifestId !in manifests {
        return Raise(KeyError);
      }
      var m := manifests[manifestId];
      var stop := Min(end, m.logicalSize);
      if start >= stop {
        return Ok([]);
      }
      var segments := SortByStart(m.segments);
      var pieces: bytes := [];
      assert segments[0..] == segments;
      PrependNothing(ClipAll(store.lib.With(zstd), store.files, segments, start, stop));
      for i := 0 to |segments|
        invariant ClipAll(store.lib.With(zstd), store.files, segments, start, stop)
               == Prepend(pieces, ClipAll(store.lib.With(zstd), store.files, segments[i..], start, stop))
      {
        assert segments[i..][0] == segments[i] && segments[i..][1..] == segments[i + 1..];
        var s := segments[i];
        if s.logicalEnd <= start || s.logicalStart >= stop {
          continue;
        }
        var data := store.Read(s.stored, zstd);
        if data.Raise? {
          return Raise(Wrapped(data.error));
        }
        if |data.value| != s.logicalEnd - s.logicalStart {
          return Raise(RehydrationFailed);
        }
        var piece := data.value[Max(start, s.logicalStart) - s.logicalStart..Min(stop, s.logicalEnd) - s.logicalStart];
        PrependTwice(pieces, piece, ClipAll(store.lib.With(zstd), store.files, segments[i + 1..], start, stop));
        pieces := pieces + piece;
      }
      assert pieces + [] == pieces;
      if |pieces| != stop - start {
        return Raise(RehydrationFailed);
      }
      r := Ok(pieces);
    }
  }

  // ----- What a manifest promises -----

  /** The segments are non-empty, lie end to end from `offset`, and their digests spell out `payload`. */
  ghost predicate Covers(segments: seq<Segment>, offset: nat, payload: bytes) {
    if segments == [] then payload == []
    else
      var s := segments[0];
      var n := |s.stored.digest.content|;
      && 0 < n <= |payload| && payload[..n] == s.stored.digest.content
      && s.logicalStart == offset && s.logicalEnd == offset + n
      && Covers(segments[1..], offset + n, payload[n..])
  }

  ghost predicate Describes(m: Manifest, payload: bytes) {
    m.wholeSha256 == Sha256(payload) && m.logicalSize == |payload| && Covers(m.segments, 0, payload)
  }

  ghost predicate AllIssued(d: Disk, segments: seq<Segment>) {
    forall i :: 0 <= i < |segments| ==>
      Issued(d, segments[i].stored, segments[i].stored.digest.content)
  }

  lemma LayoutConcat(payload: bytes, actions: set<Name>)
    ensures Concat(LayoutParts(payload, actions)) == payload
    ensures forall i :: 0 <= i < |LayoutParts(payload, actions)| ==> LayoutParts(payload, actions)[i] != []
  {
    hide Parts, FixedParts;
    PartsAreChunking(DEFAULT_RULE, payload);
  }

  /** Some part is stored already in a codec this process lacks. */
  predicate AnyStuck(z: Compressor, d: Disk, tenant: string, namespace: string, parts: seq<bytes>, compress: bool) {
    exists i :: 0 <= i < |parts| && StuckPart(z, d, tenant, namespace, parts[i], compress)
  }

  predicate StuckPart(z: Compressor, d: Disk, tenant: string, namespace: string, part: bytes, compress: bool) {
    Stuck(z, d, Request(tenant, namespace, Chunk(0, part, Sha256(part)), compress))
  }

  /** Some segment has a codec the reader lacks. */
  predicate AnyLocked(z: Compressor, segments: seq<Segment>) {
    exists i :: 0 <= i < |segments| && Locked(z, segments[i].stored)
  }

  /** A process puts only what it can itself decode, so its puts make no part stuck. */
  lemma PutSticksNone(
      z: Compressor, d: Disk, p: Request, tenant: string, namespace: string, part: bytes, compress: bool)
    requires Consistent(z.lib, d) && p.Honest()
    ensures StuckPart(z, PutSpec(z, d, p).0, tenant, namespace, part, compress)
       <==> StuckPart(z, d, tenant, namespace, part, compress)
  {
    NotIndexed(z.lib, d, p);
    hide Consistent, ReadStored;
  }

  lemma StuckSplits(
      z: Compressor, d: Disk, d': Disk, tenant: string, namespace: string, parts: seq<bytes>, compress: bool)
    requires parts != []
    requires forall part :: StuckPart(z, d', tenant, namespace, part, compress)
                       <==> StuckPart(z, d, tenant, namespace, part, compress)
    ensures AnyStuck(z, d, tenant, namespace, parts, compress) <==>
              || StuckPart(z, d, tenant, namespace, parts[0], compress)
              || AnyStuck(z, d', tenant, namespace, parts[1..], compress)
  {
    hide StuckPart;
    assert parts == [parts[0]] + parts[1..];
    if AnyStuck(z, d, tenant, namespace, parts, compress) {
      var i :| 0 <= i < |parts| && StuckPart(z, d, tenant, namespace, parts[i], compress);
      if i > 0 {
        assert StuckPart(z, d', tenant, namespace, parts[1..][i - 1], compress);
      }
    }
    if AnyStuck(z, d', tenant, namespace, parts[1..], compress) {
      var i :| 0 <= i < |parts[1..]| && StuckPart(z, d', tenant, namespace, parts[1..][i], compress);
      assert StuckPart(z, d, tenant, namespace, parts[i + 1], compress);
    }
  }

  /** The outcome of storing a partition of the payload. */
  ghost predicate PutsOk(
      z: Compressor, d: Disk, d': Disk, r: Result<seq<Segment>>, stuck: bool, offset: nat, payload: bytes)
  {
    && Consistent(z.lib, d') && Extends(d, d')
    && if stuck then r == Raise(RuntimeError)
       else
         && r.Ok? && AllIssued(d', r.value) && Covers(r.value, offset, payload)
         && StoredBytes(r.value) <= |payload| && !AnyLocked(z, r.value)
  }

  /**
   * Storing a partition of the payload yields issued segments that cover it and
   * that this process can decode, unless some part is stuck.
   */
  lemma {:induction false} PutAllCovers(
      z: Compressor, d: Disk, tenant: string, namespace: string, parts: seq<bytes>, offset: nat, compress: bool)
    requires z.lib.Lossless() && Consistent(z.lib, d)
    requires forall i :: 0 <= i < |parts| ==> parts[i] != []
    ensures var (d', r) := PutAll(z, d, tenant, namespace, Located(parts, offset), compress);
            PutsOk(z, d, d', r, AnyStuck(z, d, tenant, namespace, parts, compress), offset, Concat(parts))
    decreases |parts|
  {
    hide *;
    if parts == [] {
      NothingPut(z, d, tenant, namespace, parts, offset, compress);
    } else {
      var part, rest := parts[0], parts[1..];
      var p := Request(tenant, namespace, Chunk(offset, part, Sha256(part)), compress);
      assert p.Honest() by { LabelledIsHonest(p); }
      PutKeepsEntries(z, d, p);
      FirstPut(z, d, tenant, namespace, parts, offset, compress);
      var (d1, r) := PutSpec(z, d, p);
      StuckIgnoresOffset(z, d, tenant, namespace, part, compress, offset);
      StuckAfter(z, d, p, tenant, namespace, parts, compress);
      if r.Ok? {
        PutAllCovers(z, d1, tenant, namespace, rest, offset + |part|, compress);
        var (d2, tail) := PutAll(z, d1, tenant, namespace, Located(rest, offset + |part|), compress);
        var stuck := AnyStuck(z, d1, tenant, namespace, rest, compress);
        ConcatHead(parts);
        PutOneMore(z, d, d1, d2, r.value, tail, stuck, offset, part, Concat(rest));
      } else {
        NonePut(z, d, d1, offset, Concat(parts));
      }
    }
  }

  lemma NothingPut(
      z: Compressor, d: Disk, tenant: string, namespace: string, parts: seq<bytes>, offset: nat, compress: bool)
    requires Consistent(z.lib, d) && parts == []
    ensures PutAll(z, d, tenant, namespace, Located(parts, offset), compress) == (d, Ok([]))
    ensures PutsOk(z, d, d, Ok([]), AnyStuck(z, d, tenant, namespace, parts, compress), offset, Concat(parts))
  {
    hide Consistent, Extends;
    ExtendsRefl(d);
  }

  lemma LabelledIsHonest(p: Request)
    requires p.chunk.sha256 == Sha256(p.chunk.data)
    ensures p.Honest()
  {}

  lemma FirstPut(
      z: Compressor, d: Disk, tenant: string, namespace: string, parts: seq<bytes>, offset: nat, compress: bool)
    requires parts != []
    ensures var (part, next) := (parts[0], offset + |parts[0]|);
            var (d1, r) := PutSpec(z, d, Request(tenant, namespace, Chunk(offset, part, Sha256(part)), compress));
            var (d2, tail) := PutAll(z, d1, tenant, namespace, Located(parts[1..], next), compress);
            PutAll(z, d, tenant, namespace, Located(parts, offset), compress)
            == if r.Raise? then (d1, Raise(r.error)) else (d2, Prepend([Segment(r.value, offset, next)], tail))
  {
    hide PutSpec;
    var chunk := Chunk(offset, parts[0], Sha256(parts[0]));
    var rest := Located(parts[1..], offset + |parts[0]|);
    assert Located(parts, offset) == [chunk] + rest && Located(parts, offset)[1..] == rest;
  }

  /** Before a put, something is stuck if and only if that put is or something of the rest is after it. */
  lemma StuckAfter(
      z: Compressor, d: Disk, p: Request, tenant: string, namespace: string, parts: seq<bytes>, compress: bool)
    requires parts != [] && Consistent(z.lib, d) && p.Honest()
    ensures AnyStuck(z, d, tenant, namespace, parts, compress) <==>
              || StuckPart(z, d, tenant, namespace, parts[0], compress)
              || AnyStuck(z, PutSpec(z, d, p).0, tenant, namespace, parts[1..], compress)
  {
    hide Consistent, PutSpec, StuckPart, AnyStuck;
    forall other
      ensures StuckPart(z, PutSpec(z, d, p).0, tenant, namespace, other, compress)
         <==> StuckPart(z, d, tenant, namespace, other, compress)
    {
      PutSticksNone(z, d, p, tenant, namespace, other, compress);
    }
    StuckSplits(z, d, PutSpec(z, d, p).0, tenant, namespace, parts, compress);
  }

  lemma NonePut(z: Compressor, d: Disk, d': Disk, offset: nat, payload: bytes)
    requires Consistent(z.lib, d') && Extends(d, d')
    ensures PutsOk(z, d, d', Raise(RuntimeError), true, offset, payload)
  {
    hide Consistent, Extends;
  }

  lemma PutOneMore(
      z: Compressor, d: Disk, d1: Disk, d2: Disk, v: StoredChunk, tail: Result<seq<Segment>>, stuck: bool, offset: nat,
      part: bytes, rest: bytes)
    requires Consistent(z.lib, d1) && Extends(d, d1) && Issued(d1, v, part) && !Locked(z, v) && part != []
    requires PutsOk(z, d1, d2, tail, stuck, offset + |part|, rest)
    ensures PutsOk(z, d, d2, Prepend([Segment(v, offset, offset + |part|)], tail), stuck, offset, part + rest)
  {
    hide Consistent, Extends, Issued, Locked, Covers, AllIssued, AnyLocked, StoredBytes;
    ExtendsTrans(d, d1, d2);
    if tail.Ok? {
      IssuedFacts(z, d1, v, part);
      IssuedPersists(d1, d2, v, part);
      CoverOne(z, d2, Segment(v, offset, offset + |part|), tail.value, offset, part, rest);
    }
  }

  lemma ConcatHead(parts: seq<bytes>)
    requires parts != []
    ensures Concat(parts) == parts[0] + Concat(parts[1..])
  {}

  lemma StuckIgnoresOffset(
      z: Compressor, d: Disk, tenant: string, namespace: string, part: bytes, compress: bool, offset: nat)
    ensures Stuck(z, d, Request(tenant, namespace, Chunk(offset, part, Sha256(part)), compress))
       <==> StuckPart(z, d, tenant, namespace, part, compress)
  {
    hide Locked;
  }

  lemma CoverOne(
      z: Compressor, d: Disk, s: Segment, tail: seq<Segment>, offset: nat, part: bytes, rest: bytes)
    requires part != [] && s.logicalStart == offset && s.logicalEnd == offset + |part|
    requires s.stored.digest == Sha256(part) && s.stored.storedSize <= |part| && Issued(d, s.stored, part)
    requires !Locked(z, s.stored) && !AnyLocked(z, tail)
    requires AllIssued(d, tail) && Covers(tail, offset + |part|, rest) && StoredBytes(tail) <= |rest|
    ensures AllIssued(d, [s] + tail) && Covers([s] + tail, offset, part + rest)
    ensures StoredBytes([s] + tail) <= |part + rest| && !AnyLocked(z, [s] + tail)
  {
    hide Issued, Locked;
    var all := [s] + tail;
    assert all[1..] == tail;
    assert (part + rest)[..|part|] == part && (part + rest)[|part|..] == rest;
  }

  lemma IssuedFacts(z: Compressor, d: Disk, s: StoredChunk, data: bytes)
    requires Consistent(z.lib, d) && Issued(d, s, data)
    ensures s.digest == Sha256(data) && s.storedSize <= |data|
  {
    IssuedIsReadable(z, d, s, data);
  }

  /** Reading issued segments that cover a payload gives the payload, unless a codec is missing. */
  lemma {:induction false} ReadAllCovers(z: Compressor, d: Disk, segments: seq<Segment>, offset: nat, payload: bytes)
    requires Consistent(z.lib, d) && AllIssued(d, segments) && Covers(segments, offset, payload)
    ensures ReadAll(z, d.files, StoredOf(segments)) == if AnyLocked(z, segments) then Raise(RuntimeError) else Ok(payload)
  {
    if segments != [] {
      hide Consistent, Issued, ReadStored, Locked;
      var s, rest := segments[0], segments[1..];
      var n := |s.stored.digest.content|;
      IssuedIsReadable(z, d, s.stored, s.stored.digest.content);
      ReadAllCovers(z, d, rest, offset + n, payload[n..]);
      LockedSplits(z, segments);
      assert payload[..n] + payload[n..] == payload;
      assert StoredOf(segments)[1..] == StoredOf(rest);
    }
  }

  lemma LockedSplits(z: Compressor, segments: seq<Segment>)
    requires segments != []
    ensures AnyLocked(z, segments) <==> Locked(z, segments[0].stored) || AnyLocked(z, segments[1..])
  {
    hide Locked;
    assert segments == [segments[0]] + segments[1..];
    if AnyLocked(z, segments) {
      var i :| 0 <= i < |segments| && Locked(z, segments[i].stored);
      if i > 0 { assert Locked(z, segments[1..][i - 1].stored); }
    }
    if AnyLocked(z, segments[1..]) {
      var i :| 0 <= i < |segments[1..]| && Locked(z, segments[1..][i].stored);
      assert Locked(z, segments[i + 1].stored);
    }
  }

  /**
   * Enforce and shadow executions of an approved work unit succeed exactly when
   * every required verifier is implemented and no part is stored already in a
   * codec this process lacks; the manifest then describes the payload in segments
   * it can decode, its byte accounts balance, and nothing stored before is disturbed.
   */
  lemma ExecuteStoresPayload(z: Compressor, d: Disk, wu: WorkUnit, mode: Mode, o: Orders)
    requires z.lib.Lossless() && Consistent(z.lib, d) && !o.approvalMissing && mode != Observe
    ensures var (d', m) := Execute(z, d, wu, mode, o);
            && Consistent(z.lib, d') && Extends(d, d')
            && (m.Ok? <==>
                  && (forall v :: v in o.requiredVerifiers ==> v in EXACT_VERIFIERS)
                  && !AnyStuck(z, d, wu.tenant, StorageNamespace(wu, mode), LayoutParts(wu.payload, o.actions),
                               ZstdAction in o.actions))
            && (m.Ok? ==>
                  && Describes(m.value, wu.payload) && AllIssued(d', m.value.segments)
                  && m.value.telemetry.bytesIn == |wu.payload|
                  && m.value.telemetry.bytesIn == m.value.telemetry.bytesStored + m.value.telemetry.bytesAvoided
                  && m.value.telemetry.bytesStored == StoredBytes(m.value.segments))
  {
    hide Consistent, Extends, AllIssued, PutAll, LayoutParts, Located, Covers, ReadAll, AnyStuck, AnyLocked;
    LayoutConcat(wu.payload, o.actions);
    var parts := LayoutParts(wu.payload, o.actions);
    var namespace := StorageNamespace(wu, mode);
    PutAllCovers(z, d, wu.tenant, namespace, parts, 0, ZstdAction in o.actions);
    var (d1, stored) := PutAll(z, d, wu.tenant, namespace, Located(parts, 0), ZstdAction in o.actions);
    if stored.Ok? {
      ReadAllCovers(z, d1, stored.value, 0, wu.payload);
    }
  }

  // ----- How an object is laid out -----

  /** The segment of a part: its digest, its place, and for whom and how it was stored. */
  ghost predicate SegmentOf(
      s: Segment, part: bytes, offset: nat, tenant: string, namespace: string, compress: bool)
  {
    && s.stored.digest == Sha256(part) && s.logicalStart == offset && s.logicalEnd == offset + |part|
    && s.stored.tenant == tenant && s.stored.namespace == namespace
    && (!s.stored.dedupeHit && !compress ==> !s.stored.compressed && s.stored.storedSize == |part|)
  }

  lemma PutIsSegment(z: Compressor, d: Disk, p: Request)
    requires Consistent(z.lib, d) && p.Honest() && PutSpec(z, d, p).1.Ok?
    ensures var r := PutSpec(z, d, p).1.value;
            && r.digest == p.chunk.sha256 && r.tenant == p.tenant && r.namespace == p.namespace
            && (!r.dedupeHit && !p.compress ==> !r.compressed && r.storedSize == |p.chunk.data|)
  {
    if Known(d, p) {
      OneEntry(z.lib, d, p.IndexKey());
    }
    hide ReadStored, Consistent;
  }

  /** How long the parts before the i-th are together. */
  function LengthBefore(parts: seq<bytes>, i: nat): nat
    requires i <= |parts|
  {
    if i == 0 then 0 else |parts[0]| + LengthBefore(parts[1..], i - 1)
  }

  lemma {:induction false} PutAllLaysOut(
      z: Compressor, d: Disk, tenant: string, namespace: string, parts: seq<bytes>, offset: nat, compress: bool, i: nat)
    requires z.lib.Lossless() && Consistent(z.lib, d) && i < |parts|
    requires PutAll(z, d, tenant, namespace, Located(parts, offset), compress).1.Ok?
    ensures var segments := PutAll(z, d, tenant, namespace, Located(parts, offset), compress).1.value;
            |segments| == |parts|
            && SegmentOf(segments[i], parts[i], offset + LengthBefore(parts, i), tenant, namespace, compress)
    decreases |parts|
  {
    hide Consistent, PutSpec, Stuck, PutAll, Located;
    var part, rest := parts[0], parts[1..];
    var p := Request(tenant, namespace, Chunk(offset, part, Sha256(part)), compress);
    FirstPut(z, d, tenant, namespace, parts, offset, compress);
    PutKeepsEntries(z, d, p);
    PutIsSegment(z, d, p);
    var d1 := PutSpec(z, d, p).0;
    if rest == [] {
      NonePutOk(z, d1, tenant, namespace, rest, offset + |part|, compress);
    } else {
      PutAllLaysOut(z, d1, tenant, namespace, rest, offset + |part|, compress, if i > 0 then i - 1 else 0);
    }
  }

  lemma NonePutOk(
      z: Compressor, d: Disk, tenant: string, namespace: string, parts: seq<bytes>, offset: nat, compress: bool)
    requires parts == []
    ensures PutAll(z, d, tenant, namespace, Located(parts, offset), compress) == (d, Ok([]))
  {}

  /** The layout a plan asks for: the default content-defined chunks, blocks of a mebibyte, or the whole in one piece. */
  ghost predicate LaidOut(parts: seq<bytes>, payload: bytes, actions: set<Name>) {
    if ContentDefinedChunk in actions then parts == Parts(CutRule(2048, 12, 8192), payload)
    else if FixedChunk in actions then parts == FixedParts(payload, 0x10_0000)
    else parts == if payload == [] then [] else [payload]
  }

  lemma LayoutIs(payload: bytes, actions: set<Name>)
    ensures LaidOut(LayoutParts(payload, actions), payload, actions)
  {
    hide Parts;
  }

  /**
   * A manifest that was stored has a segment for each part of the planned layout,
   * for the tenant and its namespace, or in shadow mode a namespace of its own,
   * uncompressed where the plan does not compress and the chunk is new; it is
   * active in enforce mode alone.
   */
  lemma ExecuteLaysOut(z: Compressor, d: Disk, wu: WorkUnit, mode: Mode, o: Orders) returns (parts: seq<bytes>)
    requires z.lib.Lossless() && Consistent(z.lib, d) && mode != Observe
    requires Execute(z, d, wu, mode, o).1.Ok?
    ensures LaidOut(parts, wu.payload, o.actions)
    ensures var m := Execute(z, d, wu, mode, o).1.value;
            && |m.segments| == |parts|
            && (forall i :: 0 <= i < |parts| ==>
                  SegmentOf(m.segments[i], parts[i], LengthBefore(parts, i), wu.tenant,
                            if mode == Enforce then wu.namespace else "shadow-" + wu.namespace, ZstdAction in o.actions))
            && m.workUnitId == wu.id && m.telemetry.mode == mode && m.telemetry.chunkCount == |parts|
            && (m.state == Active <==> mode == Enforce) && (m.state == Superseded <==> mode == Shadow)
  {
    parts := LayoutParts(wu.payload, o.actions);
    LayoutIs(wu.payload, o.actions);
    hide LayoutParts, LaidOut, Consistent, PutAll, Located, ReadAll, SegmentOf, LengthBefore;
    var namespace := StorageNamespace(wu, mode);
    if parts == [] {
      NonePutOk(z, d, wu.tenant, namespace, parts, 0, ZstdAction in o.actions);
    } else {
      PutAllLaysOut(z, d, wu.tenant, namespace, parts, 0, ZstdAction in o.actions, 0);
    }
    forall i | 0 <= i < |parts|
      ensures SegmentOf(Execute(z, d, wu, mode, o).1.value.segments[i], parts[i], LengthBefore(parts, i), wu.tenant,
                        if mode == Enforce then wu.namespace else "shadow-" + wu.namespace, ZstdAction in o.actions)
    {
      PutAllLaysOut(z, d, wu.tenant, namespace, parts, 0, ZstdAction in o.actions, i);
    }
  }

  /** Work that needs approval, or a verifier other than the restore check, is refused; an observation is planned and stores nothing. */
  lemma ExecuteRefuses(z: Compressor, d: Disk, wu: WorkUnit, mode: Mode, o: Orders)
    ensures o.approvalMissing ==> Execute(z, d, wu, mode, o) == (d, Raise(PolicyDenied))
    ensures mode != Observe && (exists v :: v in o.requiredVerifiers && v != "sha256_restore" && v != "sha256_restore@0") ==>
              Execute(z, d, wu, mode, o).1.Raise?
    ensures mode != Observe && !o.approvalMissing && Execute(z, d, wu, mode, o.(requiredVerifiers := [])).1.Ok? ==>
              Execute(z, d, wu, mode, o).1 == Execute(z, d, wu, mode, o.(requiredVerifiers := [])).1
              || Execute(z, d, wu, mode, o).1 == Raise(VerifierFailed)
    ensures mode == Observe && !o.approvalMissing ==>
              Execute(z, d, wu, mode, o).1.Ok? && Execute(z, d, wu, mode, o).1.value.state == Planned
              && Execute(z, d, wu, mode, o).1.value.segments == [] && Execute(z, d, wu, mode, o).0 == d
  {
    hide PutAll, ReadAll, LayoutParts, Located;
  }

  lemma {:induction false} ReadAllRaises(z: Compressor, files: map<Ref, bytes>, segments: seq<StoredChunk>)
    ensures ReadAll(z, files, segments).Raise? ==>
              ReadAll(z, files, segments).error in {FileNotFound, ValueError, RuntimeError, OperationFailed}
  {
    if segments != [] {
      ReadAllRaises(z, files, segments[1..]);
    }
  }

  lemma {:induction false} ClipAllRaises(
      z: Compressor, files: map<Ref, bytes>, segments: seq<Segment>, start: int, end: int)
    requires start < end
    ensures ClipAll(z, files, segments, start, end).Raise? ==>
              ClipAll(z, files, segments, start, end).error in {FileNotFound, ValueError, RuntimeError, OperationFailed}
  {
    if segments != [] {
      ClipAllRaises(z, files, segments[1..], start, end);
    }
  }

  /** A missing file, a wrong digest or size and a gap all surface as a failed rehydration; only a missing codec and the decompressor's own error do not. */
  lemma RestoreRaises(z: Compressor, files: map<Ref, bytes>, m: Manifest, start: nat, end: nat)
    requires start <= end
    ensures RestoreWhole(z, files, m).Raise? ==>
              RestoreWhole(z, files, m).error in {RehydrationFailed, RuntimeError, OperationFailed}
    ensures RestoreRange(z, files, m, start, end).Raise? ==>
              RestoreRange(z, files, m, start, end).error in {RehydrationFailed, RuntimeError, OperationFailed}
  {
    ReadAllRaises(z, files, StoredOf(m.segments));
    var stop := Min(end, m.logicalSize);
    if start < stop {
      ClipAllRaises(z, files, SortByStart(m.segments), start, stop);
    }
    hide ReadAll, ClipAll;
  }

  /** Whatever a store holds, a manifest that is written restores to the payload at once. */
  lemma ExecuteRestores(z: Compressor, d: Disk, wu: WorkUnit, mode: Mode, o: Orders)
    requires mode != Observe && Execute(z, d, wu, mode, o).1.Ok?
    ensures RestoreWhole(z, Execute(z, d, wu, mode, o).0.files, Execute(z, d, wu, mode, o).1.value) == Ok(wu.payload)
  {
    hide PutAll, ReadAll, LayoutParts, Located, StoredOf;
  }

  /** What a manifest counts as stored is what its segments take, one by one; an observation counts the payload alone. */
  lemma StoredIsCounted(z: Compressor, d: Disk, wu: WorkUnit, mode: Mode, o: Orders)
    requires Execute(z, d, wu, mode, o).1.Ok?
    ensures var m := Execute(z, d, wu, mode, o).1.value;
            && m.storedSize == StoredBytes(m.segments) && m.telemetry.bytesStored == m.storedSize
            && m.telemetry.bytesIn == |wu.payload| == m.logicalSize && m.wholeSha256 == Sha256(wu.payload)
            && (mode == Observe ==> m.telemetry == Telemetry(Observe, |wu.payload|, 0, 0, 0))
  {
    hide PutAll, ReadAll, LayoutParts, Located;
  }

  lemma {:induction false} StoredBytesAdd(xs: seq<Segment>, s: Segment)
    ensures StoredBytes([]) == 0 && StoredBytes(xs + [s]) == StoredBytes(xs) + s.stored.storedSize
  {
    if xs == [] {
      assert [] + [s] == [s];
    } else {
      assert (xs + [s])[1..] == xs[1..] + [s];
      StoredBytesAdd(xs[1..], s);
    }
  }

  // ----- The order of the segments -----

  /** The segments that start there, in their order. */
  function StartingAt(segments: seq<Segment>, start: int): seq<Segment> {
    if segments == [] then []
    else (if segments[0].logicalStart == start then [segments[0]] else []) + StartingAt(segments[1..], start)
  }

  ghost predicate Ordered(segments: seq<Segment>) {
    forall i, j :: 0 <= i < j < |segments| ==> segments[i].logicalStart <= segments[j].logicalStart
  }

  /** Sorting keeps all segments, puts them in the order of their starts, and leaves those with one start in their order. */
  lemma {:induction false} SortIs(segments: seq<Segment>, start: int)
    ensures multiset(SortByStart(segments)) == multiset(segments) && Ordered(SortByStart(segments))
    ensures StartingAt(SortByStart(segments), start) == StartingAt(segments, start)
  {
    if segments != [] {
      var sorted := SortByStart(segments[1..]);
      SortIs(segments[1..], start);
      InsertHolds(segments[0], sorted);
      InsertOrders(segments[0], sorted);
      InsertIsStable(segments[0], sorted, start);
      hide Insert, Ordered;
      assert segments == [segments[0]] + segments[1..];
    }
  }

  lemma {:induction false} InsertHolds(s: Segment, sorted: seq<Segment>)
    ensures multiset(Insert(s, sorted)) == multiset(sorted) + multiset{s}
  {
    if sorted != [] && s.logicalStart > sorted[0].logicalStart {
      assert sorted == [sorted[0]] + sorted[1..];
      InsertHolds(s, sorted[1..]);
    }
  }

  lemma {:induction false} InsertOrders(s: Segment, sorted: seq<Segment>)
    requires Ordered(sorted)
    ensures Ordered(Insert(s, sorted))
  {
    if sorted != [] && s.logicalStart > sorted[0].logicalStart {
      var first, rest := sorted[0], sorted[1..];
      InsertOrders(s, rest);
      var inserted := Insert(s, rest);
      InsertHolds(s, rest);
      hide Insert;
      forall i | 0 <= i < |inserted|
        ensures first.logicalStart <= inserted[i].logicalStart
      {
        assert inserted[i] in multiset(inserted);
        assert inserted[i] == s || inserted[i] in rest;
      }
    }
  }

  lemma StartingAtCons(s: Segment, rest: seq<Segment>, start: int)
    ensures StartingAt([s] + rest, start) == if s.logicalStart == start then [s] + StartingAt(rest, start) else StartingAt(rest, start)
  {
    assert ([s] + rest)[1..] == rest;
  }

  lemma {:induction false} InsertIsStable(s: Segment, sorted: seq<Segment>, start: int)
    ensures StartingAt(Insert(s, sorted), start) ==
              if s.logicalStart == start then [s] + StartingAt(sorted, start) else StartingAt(sorted, start)
  {
    if sorted == [] || s.logicalStart <= sorted[0].logicalStart {
      StartingAtCons(s, sorted, start);
    } else {
      var first, rest := sorted[0], sorted[1..];
      assert sorted == [first] + rest;
      InsertIsStable(s, rest, start);
      StartingAtCons(first, rest, start);
      StartingAtCons(first, Insert(s, rest), start);
      hide StartingAt;
    }
  }

  /** A segment that has a byte in the range. */
  predicate Touched(s: Segment, start: int, end: int) { s.logicalStart < end && start < s.logicalEnd }

  /** A range restore depends on the files of the segments it touches, and on no other file. */
  lemma RangeReadsTouched(z: Compressor, files: map<Ref, bytes>, files': map<Ref, bytes>, m: Manifest, start: int, end: int)
    requires forall s :: s in m.segments && Touched(s, start, Min(end, m.logicalSize)) ==>
               (s.stored.ref in files <==> s.stored.ref in files')
               && (s.stored.ref in files ==> files[s.stored.ref] == files'[s.stored.ref])
    ensures RestoreRange(z, files, m, start, end) == RestoreRange(z, files', m, start, end)
  {
    var stop := Min(end, m.logicalSize);
    if start < stop {
      SortIs(m.segments, 0);
      var sorted := SortByStart(m.segments);
      forall i | 0 <= i < |sorted|
        ensures sorted[i] in m.segments
      {
        assert sorted[i] in multiset(sorted);
      }
      hide ClipAll, SortByStart;
      ClipReadsTouched(z, files, files', sorted, start, stop);
    }
  }

  lemma {:induction false} ClipReadsTouched(
      z: Compressor, files: map<Ref, bytes>, files': map<Ref, bytes>, segments: seq<Segment>, start: int, end: int)
    requires start < end
    requires forall s :: s in segments && Touched(s, start, end) ==>
               (s.stored.ref in files <==> s.stored.ref in files')
               && (s.stored.ref in files ==> files[s.stored.ref] == files'[s.stored.ref])
    ensures ClipAll(z, files, segments, start, end) == ClipAll(z, files', segments, start, end)
  {
    if segments != [] {
      ClipReadsTouched(z, files, files', segments[1..], start, end);
      assert segments[0] in segments;
    }
  }

  /** And it raises if the file of one of them is missing. */
  lemma RangeNeedsTouched(z: Compressor, files: map<Ref, bytes>, m: Manifest, start: nat, end: nat, s: Segment)
    requires s in m.segments && Touched(s, start, Min(end, m.logicalSize)) && start < Min(end, m.logicalSize)
    requires s.stored.ref !in files
    ensures RestoreRange(z, files, m, start, end).Raise?
  {
    SortIs(m.segments, 0);
    var sorted := SortByStart(m.segments);
    assert s in multiset(sorted);
    hide ClipAll, SortByStart;
    ClipNeedsTouched(z, files, sorted, start, Min(end, m.logicalSize), s);
  }

  lemma {:induction false} ClipNeedsTouched(
      z: Compressor, files: map<Ref, bytes>, segments: seq<Segment>, start: int, end: int, s: Segment)
    requires start < end && s in segments && Touched(s, start, end) && s.stored.ref !in files
    ensures ClipAll(z, files, segments, start, end).Raise?
  {
    if segments[0] != s {
      ClipNeedsTouched(z, files, segments[1..], start, end, s);
    }
  }

  // ----- Range reads refine slicing -----

  /** `payload[start:min(end, len(payload))]` */
  function Slice(payload: bytes, start: nat, end: nat): bytes {
    var stop := Min(end, |payload|);
    if start >= stop then [] else payload[start..stop]
  }

  function Clamp(x: int, high: nat): (r: nat) { Max(0, Min(x, high)) }

  /** The part of a payload laid at `offset` that falls in `[start, end)`. */
  function Visible(payload: bytes, offset: nat, start: nat, end: nat): bytes
    requires start < end
  {
    payload[Clamp(start - offset, |payload|)..Clamp(end - offset, |payload|)]
  }

  /** One segment contributes exactly its visible bytes. */
  lemma ClipIsVisible(z: Compressor, files: map<Ref, bytes>, s: Segment, data: bytes, start: nat, end: nat)
    requires start < end && s.stored.digest == Sha256(data)
    requires s.logicalStart >= 0 && s.logicalEnd == s.logicalStart + |data|
    ensures Outside(s, start, end) ==> Visible(data, s.logicalStart, start, end) == []
    ensures !Outside(s, start, end) ==>
              var r := Clip(z, files, s, start, end); r.Ok? ==> r.value == Visible(data, s.logicalStart, start, end)
  {
    hide ReadStored;
    ReadNeverLies(z, files, s.stored);
  }

  lemma VisibleEmpty(offset: nat, start: nat, end: nat)
    requires start < end
    ensures Visible([], offset, start, end) == []
  {}

  /** Whatever the files hold, the clipped segments are the wanted window or an exception. */
  lemma {:induction false} ClipAllIsVisible(
      z: Compressor, files: map<Ref, bytes>, segments: seq<Segment>, offset: nat, payload: bytes, start: nat, end: nat)
    requires Covers(segments, offset, payload) && start < end
    ensures var r := ClipAll(z, files, segments, start, end); r.Ok? ==> r.value == Visible(payload, offset, start, end)
    decreases |segments|
  {
    VisibleEmpty(offset, start, end);
    if segments != [] {
      hide ReadStored, Visible, Clip;
      var s := segments[0];
      var n := |s.stored.digest.content|;
      ClipIsVisible(z, files, s, payload[..n], start, end);
      ClipAllIsVisible(z, files, segments[1..], offset + n, payload[n..], start, end);
      VisibleSplits(payload, offset, n, start, end);
    }
  }

  lemma SliceSplits<T>(s: seq<T>, a: nat, n: nat, b: nat)
    requires a <= b <= |s| && n <= |s|
    ensures s[a..b] == s[..n][Min(a, n)..Min(b, n)] + s[n..][Max(a, n) - n..Max(b, n) - n]
  {
    assert s[..n][Min(a, n)..Min(b, n)] == s[Min(a, n)..Min(b, n)];
    assert s[n..][Max(a, n) - n..Max(b, n) - n] == s[Max(a, n)..Max(b, n)];
  }

  lemma ClampSplits(x: int, high: nat, n: nat)
    requires n <= high
    ensures Min(Clamp(x, high), n) == Clamp(x, n)
    ensures Max(Clamp(x, high), n) - n == Clamp(x - n, high - n)
  {}

  lemma VisibleSplits(payload: bytes, offset: nat, n: nat, start: nat, end: nat)
    requires 0 < n <= |payload| && start < end
    ensures Visible(payload, offset, start, end)
         == Visible(payload[..n], offset, start, end) + Visible(payload[n..], offset + n, start, end)
  {
    hide Clamp;
    var size := |payload|;
    ClampSplits(start - offset, size, n);
    ClampSplits(end - offset, size, n);
    ClampGrows(start - offset, end - offset, size);
    SliceSplits(payload, Clamp(start - offset, size), n, Clamp(end - offset, size));
  }

  lemma ClampGrows(x: int, y: int, high: nat)
    requires x <= y
    ensures Clamp(x, high) <= Clamp(y, high) <= high
  {}

  lemma {:induction false} CoversSorted(segments: seq<Segment>, offset: nat, payload: bytes)
    requires Covers(segments, offset, payload)
    ensures SortByStart(segments) == segments
    ensures forall i :: 0 <= i < |segments| ==> segments[i].logicalStart >= offset
  {
    if segments != [] {
      var n := |segments[0].stored.digest.content|;
      CoversSorted(segments[1..], offset + n, payload[n..]);
      assert [segments[0]] + segments[1..] == segments;
    }
  }

  /** Some segment that the range touches has a codec the reader lacks. */
  predicate LockedIn(z: Compressor, segments: seq<Segment>, start: int, end: int) {
    exists i :: 0 <= i < |segments| && !Outside(segments[i], start, end) && Locked(z, segments[i].stored)
  }

  lemma LockedInSplits(z: Compressor, segments: seq<Segment>, start: int, end: int)
    requires segments != []
    ensures LockedIn(z, segments, start, end) <==>
              (!Outside(segments[0], start, end) && Locked(z, segments[0].stored)) || LockedIn(z, segments[1..], start, end)
  {
    hide Locked, Outside;
    if LockedIn(z, segments, start, end) {
      var i :| 0 <= i < |segments| && !Outside(segments[i], start, end) && Locked(z, segments[i].stored);
      if i > 0 { assert segments[1..][i - 1] == segments[i]; }
    }
    if LockedIn(z, segments[1..], start, end) {
      var i :| 0 <= i < |segments[1..]| && !Outside(segments[1..][i], start, end) && Locked(z, segments[1..][i].stored);
      assert segments[i + 1] == segments[1..][i];
    }
  }

  lemma {:induction false} ClipAllReads(
      z: Compressor, d: Disk, segments: seq<Segment>, offset: nat, payload: bytes, start: nat, end: nat)
    requires Consistent(z.lib, d) && AllIssued(d, segments) && Covers(segments, offset, payload) && start < end
    ensures var r := ClipAll(z, d.files, segments, start, end);
            if LockedIn(z, segments, start, end) then r == Raise(RuntimeError) else r.Ok?
    decreases |segments|
  {
    if segments != [] {
      hide Consistent, Issued, ReadStored, Locked;
      var s := segments[0];
      IssuedIsReadable(z, d, s.stored, s.stored.digest.content);
      var n := |s.stored.digest.content|;
      LockedInSplits(z, segments, start, end);
      hide LockedIn;
      ClipAllReads(z, d, segments[1..], offset + n, payload[n..], start, end);
    }
  }

  /** With arbitrary chunk files, a restore returns the stored bytes or raises: never other bytes. */
  lemma RestoreNeverLies(z: Compressor, files: map<Ref, bytes>, m: Manifest, payload: bytes, start: nat, end: nat)
    requires Describes(m, payload) && start <= end
    ensures RestoreWhole(z, files, m).Ok? ==> RestoreWhole(z, files, m).value == payload
    ensures RestoreRange(z, files, m, start, end).Ok? ==>
              RestoreRange(z, files, m, start, end).value == Slice(payload, start, end)
  {
    hide ReadAll, ClipAll;
    CoversSorted(m.segments, 0, payload);
    var stop := Min(end, |payload|);
    if start < stop {
      ClipAllIsVisible(z, files, m.segments, 0, payload, start, stop);
    }
  }

  /** With the files the store wrote, each restore succeeds if and only if the reader has the codecs of what it touches. */
  lemma RestoreReads(z: Compressor, d: Disk, m: Manifest, payload: bytes, start: nat, end: nat)
    requires Consistent(z.lib, d) && AllIssued(d, m.segments) && Describes(m, payload) && start <= end
    ensures RestoreWhole(z, d.files, m) == if AnyLocked(z, m.segments) then Raise(RuntimeError) else Ok(payload)
    ensures RestoreRange(z, d.files, m, start, end) ==
              if start < Min(end, |payload|) && LockedIn(z, m.segments, start, Min(end, |payload|))
              then Raise(RuntimeError) else Ok(Slice(payload, start, end))
  {
    hide Consistent, AllIssued, ReadAll, ClipAll, Covers, AnyLocked, LockedIn;
    CoversSorted(m.segments, 0, payload);
    ReadAllCovers(z, d, m.segments, 0, payload);
    var stop := Min(end, |payload|);
    if start < stop {
      ClipAllReads(z, d, m.segments, 0, payload, start, stop);
      ClipAllIsVisible(z, d.files, m.segments, 0, payload, start, stop);
    }
    RestoreNeverLies(z, d.files, m, payload, start, end);
  }

  /**
   * An object that was stored in enforce or shadow mode reads back, whole and by
   * every range, as slices of its payload, after any later puts and crashes, for
   * every reader that has the codecs of what it touches and for no other.
   */
  lemma StoredObjectReadsBack(
      lib: Library, d: Disk, wu: WorkUnit, mode: Mode, o: Orders, zstd: bool, later: seq<Op>, reader: bool, start: nat,
      end: nat)
    requires lib.Lossless() && Consistent(lib, d) && !o.approvalMissing && mode != Observe && AllHonest(later)
    requires Execute(lib.With(zstd), d, wu, mode, o).1.Ok? && start <= end
    ensures var (d', m) := Execute(lib.With(zstd), d, wu, mode, o);
            var files, z := Run(lib, d', later).files, lib.With(reader);
            && RestoreWhole(z, files, m.value)
               == (if AnyLocked(z, m.value.segments) then Raise(RuntimeError) else Ok(wu.payload))
            && RestoreRange(z, files, m.value, start, end)
               == (if start < Min(end, |wu.payload|) && LockedIn(z, m.value.segments, start, Min(end, |wu.payload|))
                   then Raise(RuntimeError) else Ok(Slice(wu.payload, start, end)))
  {
    hide Consistent, Extends, Execute, Describes, Issued, RestoreWhole, RestoreRange, AnyLocked, LockedIn, AnyStuck;
    ExecuteStoresPayload(lib.With(zstd), d, wu, mode, o);
    var (d', m) := Execute(lib.With(zstd), d, wu, mode, o);
    RunExtends(lib, d', later);
    var d2 := Run(lib, d', later);
    forall i | 0 <= i < |m.value.segments|
      ensures Issued(d2, m.value.segments[i].stored, m.value.segments[i].stored.digest.content)
    {
      IssuedPersists(d', d2, m.value.segments[i].stored, m.value.segments[i].stored.digest.content);
    }
    RestoreReads(lib.With(reader), d2, m.value, wu.payload, start, end);
  }

  /** An observed object stores nothing, so restoring it raises unless nothing is asked for. */
  lemma ObservationIsNotRestorable(z: Compressor, d: Disk, wu: WorkUnit, o: Orders, start: nat, end: nat)
    requires !o.approvalMissing && start <= end
    ensures Execute(z, d, wu, Observe, o).0 == d
    ensures var m := Execute(z, d, wu, Observe, o).1.value;
            && (RestoreWhole(z, d.files, m) == if wu.payload == [] then Ok([]) else Raise(RehydrationFailed))
            && (RestoreRange(z, d.files, m, start, end)
                == if Slice(wu.payload, start, end) == [] then Ok([]) else Raise(RehydrationFailed))
  {}
}
