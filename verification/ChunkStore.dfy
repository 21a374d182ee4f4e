/** The deduplicating chunk store: python/urp/chunk_store.py over python/urp/transforms.py. */
module ChunkStore {
  import opened Common
  import opened Chunking

  datatype Codec = Zstd | Zlib

  /** The compression libraries, seen through their two calls. */
  datatype Library = Library(deflate: (Codec, bytes) -> bytes, inflate: (Codec, bytes) -> Option<bytes>) {
    ghost predicate Lossless() {
      forall c: Codec, x: bytes :: inflate(c, deflate(c, x)) == Some(x)
    }

    function With(zstdInstalled: bool): Compressor { Compressor(this, zstdInstalled) }
  }

  /** What one process finds: zlib always, zstandard if it is installed there. */
  datatype Compressor = Compressor(lib: Library, zstdInstalled: bool) {
    function Default(): Codec { if zstdInstalled then Zstd else Zlib }

    /** `ZstdLikePlugin(codec=codec).decompress(payload)` */
    function Decompress(codec: Codec, payload: bytes): Result<bytes> {
      if codec == Zstd && !zstdInstalled then Raise(RuntimeError)
      else match lib.inflate(codec, payload)
        case None => Raise(OperationFailed)
        case Some(data) => Ok(data)
    }

    /** The payload to store and the codec used, if compressing pays off. */
    function Encode(data: bytes, compress: bool): (bytes, Option<Codec>) {
      var packed := lib.deflate(Default(), data);
      if compress && |packed| < |data| then (packed, Some(Default())) else (data, None)
    }
  }

  /** The text whose hash names a dedupe domain. */
  function Domain(tenant: string, namespace: string): string { tenant + ['\0'] + namespace }

  /** The file `domain-<hash>/<digest>`. */
  datatype Ref = Ref(domain: string, digest: Digest)

  /** The hash of domain and digest that keys the index. */
  datatype Key = Key(domain: string, digest: Digest)

  datatype StoredChunk = StoredChunk(
    digest: Digest,
    tenant: string,
    namespace: string,
    ref: Ref,
    compressed: bool,
    codec: Option<Codec>,
    logicalSize: nat,
    storedSize: nat,
    dedupeHit: bool)
  {
    predicate NeedsZstd() { compressed && codec == Some(Zstd) }
  }

  datatype Disk = Disk(files: map<Ref, bytes>, index: map<Key, StoredChunk>)

  function ReadStored(z: Compressor, files: map<Ref, bytes>, stored: StoredChunk): Result<bytes> {
    if stored.ref !in files then Raise(FileNotFound)
    else if stored.compressed && stored.codec == None then Raise(ValueError)
    else
      var payload :-
        if stored.compressed then z.Decompress(stored.codec.value, files[stored.ref])
        else Ok(files[stored.ref]);
      if Sha256(payload) != stored.digest then Raise(ValueError) else Ok(payload)
  }

  /** One request to store a chunk for a tenant's namespace. */
  datatype Request = Request(tenant: string, namespace: string, chunk: Chunk, compress: bool) {
    /** Both chunkers label a chunk with the digest of its own bytes. */
    predicate Honest() { chunk.sha256 == Sha256(chunk.data) }
    function FileRef(): Ref { Ref(Domain(tenant, namespace), chunk.sha256) }
    function IndexKey(): Key { Key(Domain(tenant, namespace), chunk.sha256) }
  }

  predicate Known(d: Disk, p: Request) { p.FileRef() in d.files && p.IndexKey() in d.index }

  /** The disk after the payload file is written and before the index is. */
  function WritePayload(z: Compressor, d: Disk, p: Request): Disk {
    if Known(d, p) then d else d.(files := d.files[p.FileRef() := z.Encode(p.chunk.data, p.compress).0])
  }

  function NewEntry(z: Compressor, p: Request): StoredChunk {
    var (payload, codec) := z.Encode(p.chunk.data, p.compress);
    StoredChunk(p.chunk.sha256, p.tenant, p.namespace, p.FileRef(), codec.Some?, codec,
                |p.chunk.data|, |payload|, false)
  }

  function PutSpec(z: Compressor, d: Disk, p: Request): (Disk, Result<StoredChunk>) {
    if Known(d, p) then
      var candidate := d.index[p.IndexKey()].(tenant := p.tenant, namespace := p.namespace, dedupeHit := true);
      match ReadStored(z, d.files, candidate)
      case Ok(_) => (d, Ok(candidate))
      case Raise(e) => (d, Raise(e))
    else
      var entry := NewEntry(z, p);
      (Disk(WritePayload(z, d, p).files, d.index[p.IndexKey() := entry]), Ok(entry))
  }

  /** What a read gives for each state of the file, in the order in which it is examined. */
  lemma ReadGives(z: Compressor, files: map<Ref, bytes>, stored: StoredChunk)
    ensures var r := ReadStored(z, files, stored);
            if stored.ref !in files then r == Raise(FileNotFound)
            else if !stored.compressed then
              r == if Sha256(files[stored.ref]) == stored.digest then Ok(files[stored.ref]) else Raise(ValueError)
            else if stored.codec == None then r == Raise(ValueError)
            else if stored.codec == Some(Zstd) && !z.zstdInstalled then r == Raise(RuntimeError)
            else
              var inflated := z.lib.inflate(stored.codec.value, files[stored.ref]);
              if inflated == None then r == Raise(OperationFailed)
              else r == if Sha256(inflated.value) == stored.digest then Ok(inflated.value) else Raise(ValueError)
  {}

  /** The store object; a method body that holds the file lock is one step. */
  class LocalChunkStore {
    const lib: Library
    var files: map<Ref, bytes>
    var index: map<Key, StoredChunk>

    ghost function State(): Disk reads this { Disk(files, index) }

    constructor (lib: Library)
      ensures this.lib == lib && State() == Disk(map[], map[])
    {
      this.lib := lib;
      files, index := map[], map[];
    }

    /** `read_stored`: whatever the file holds, bytes that are returned are those the digest covers. */
    method Read(stored: StoredChunk, zstd: bool) returns (r: Result<bytes>)
      ensures r == ReadStored(lib.With(zstd), files, stored)
      ensures r.Ok? ==> Sha256(r.value) == stored.digest
    {
      if stored.ref !in files {
        return Raise(FileNotFound);
      }
      var payload := files[stored.ref];
      if stored.compressed {
        if stored.codec == None {
          return Raise(ValueError);
        }
        var restored := lib.With(zstd).Decompress(stored.codec.value, payload);
        if restored.Raise? {
          return restored;
        }
        payload := restored.value;
      }
      if Sha256(payload) != stored.digest {
        return Raise(ValueError);
      }
      r := Ok(payload);
    }

    method PutChunk(p: Request, zstd: bool) returns (r: Result<StoredChunk>)
      modifies this
      ensures (State(), r) == PutSpec(lib.With(zstd), old(State()), p)
    {
      var z := lib.With(zstd);
      if p.FileRef() in files && p.IndexKey() in index {
        var existing := index[p.IndexKey()];
        var candidate := existing.(tenant := p.tenant, namespace := p.namespace, dedupeHit := true);
        var check := Read(candidate, zstd);
        return if check.Raise? then Raise(check.error) else Ok(candidate);
      }
      var payload, codec := p.chunk.data, None;
      if p.compress {
        var packed := lib.deflate(z.Default(), p.chunk.data);
        if |packed| < |p.chunk.data| {
          payload, codec := packed, Some(z.Default());
        }
      }
      files := files[p.FileRef() := payload];
      assert State() == WritePayload(z, old(State()), p);
      var stored := StoredChunk(p.chunk.sha256, p.tenant, p.namespace, p.FileRef(), codec.Some?, codec,
                                |p.chunk.data|, |payload|, false);
      index := index[p.IndexKey() := stored];
      r := Ok(stored);
    }

    method Rehydrate(segments: seq<StoredChunk>, zstd: bool) returns (r: Result<bytes>)
      ensures r == ReadAll(lib.With(zstd), files, segments)
    {
      var z := lib.With(zstd);
      var data: bytes := [];
      PrependNothing(ReadAll(z, files, segments));
      assert segments[0..] == segments;
      for i := 0 to |segments|
        invariant ReadAll(z, files, segments) == Prepend(data, ReadAll(z, files, segments[i..]))
      {
        assert segments[i..][0] == segments[i] && segments[i..][1..] == segments[i + 1..];
        var part := Read(segments[i], zstd);
        if part.Raise? {
          return Raise(part.error);
        }
        PrependTwice(data, part.value, ReadAll(z, files, segments[i + 1..]));
        data := data + part.value;
      }
      assert data + [] == data;
      r := Ok(data);
    }
  }

  /** `b"".join(read_stored(s) for s in segments)`, stopping at the first failure. */
  function ReadAll(z: Compressor, files: map<Ref, bytes>, segments: seq<StoredChunk>): Result<bytes> {
    if segments == [] then Ok([])
    else
      var first :- ReadStored(z, files, segments[0]);
      Prepend(first, ReadAll(z, files, segments[1..]))
  }

  // ----- Runs -----

  /** Every index entry names its own file, decodes to the bytes of its digest where its codec is installed, and never grows them. */
  ghost predicate Consistent(lib: Library, d: Disk) {
    forall k :: k in d.index ==> EntryOk(lib, d, k)
  }

  ghost predicate EntryOk(lib: Library, d: Disk, k: Key)
    requires k in d.index
  {
    var e := d.index[k];
    && e.ref == Ref(k.domain, k.digest) && e.digest == k.digest
    && ReadStored(lib.With(true), d.files, e) == Ok(k.digest.content)
    && e.storedSize == |d.files[e.ref]| <= e.logicalSize == |k.digest.content|
  }

  /** The segment `s` was issued for `data` from an index entry that is still there. */
  ghost predicate Issued(d: Disk, s: StoredChunk, data: bytes) {
    var k := Key(s.ref.domain, s.digest);
    && s.digest == Sha256(data)
    && k in d.index
    && d.index[k] == s.(tenant := d.index[k].tenant, namespace := d.index[k].namespace,
                        dedupeHit := d.index[k].dedupeHit)
  }

  /** The reader lacks the codec of the segment. */
  predicate Locked(z: Compressor, s: StoredChunk) { s.NeedsZstd() && !z.zstdInstalled }

  /** An issued segment reads back its bytes if and only if its codec is installed for the reader. */
  lemma IssuedIsReadable(z: Compressor, d: Disk, s: StoredChunk, data: bytes)
    requires Consistent(z.lib, d) && Issued(d, s, data)
    ensures ReadStored(z, d.files, s) == if Locked(z, s) then Raise(RuntimeError) else Ok(data)
    ensures s.storedSize <= s.logicalSize == |data|
  {
    assert EntryOk(z.lib, d, Key(s.ref.domain, s.digest));
  }

  /** What either half of a put may do to a consistent disk: add files and entries, alter none that is indexed. */
  ghost predicate Extends(d: Disk, d': Disk) {
    && (forall k :: k in d.index ==> k in d'.index && d'.index[k] == d.index[k])
    && (forall k :: k in d.index && d.index[k].ref in d.files ==>
          d.index[k].ref in d'.files && d'.files[d.index[k].ref] == d.files[d.index[k].ref])
  }

  lemma WriteKeepsEntries(z: Compressor, d: Disk, p: Request)
    requires Consistent(z.lib, d)
    ensures var d' := WritePayload(z, d, p); Consistent(z.lib, d') && Extends(d, d')
  {
    hide ReadStored;
    var d' := WritePayload(z, d, p);
    forall k | k in d.index
      ensures EntryOk(z.lib, d', k) && d.index[k].ref in d.files && d.index[k].ref in d'.files
           && d'.files[d.index[k].ref] == d.files[d.index[k].ref]
    {
      OneEntry(z.lib, d, k);
      EntryHasFile(z.lib, d, k);
      assert k == p.IndexKey() ==> Known(d, p);
      EntryKept(z.lib, d, d', k);
    }
  }

  lemma EntryHasFile(lib: Library, d: Disk, k: Key)
    requires k in d.index && EntryOk(lib, d, k)
    ensures d.index[k].ref in d.files && d.index[k].ref == Ref(k.domain, k.digest)
  {}

  lemma EntryKept(lib: Library, d: Disk, d': Disk, k: Key)
    requires k in d.index && EntryOk(lib, d, k) && k in d'.index && d'.index[k] == d.index[k]
    requires d.index[k].ref in d.files && d.index[k].ref in d'.files
    requires d'.files[d.index[k].ref] == d.files[d.index[k].ref]
    ensures EntryOk(lib, d', k)
  {}

  /** A put of a chunk that is stored already, in a codec this process lacks. */
  predicate Stuck(z: Compressor, d: Disk, p: Request) {
    Known(d, p) && Locked(z, d.index[p.IndexKey()])
  }

  lemma EncodeDecodes(z: Compressor, files: map<Ref, bytes>, p: Request)
    requires z.lib.Lossless() && p.Honest()
    requires p.FileRef() in files && files[p.FileRef()] == z.Encode(p.chunk.data, p.compress).0
    ensures ReadStored(z.lib.With(true), files, NewEntry(z, p)) == Ok(p.chunk.data)
  {
    assert z.lib.inflate(z.Default(), z.lib.deflate(z.Default(), p.chunk.data)) == Some(p.chunk.data);
  }

  lemma NewEntryOk(z: Compressor, d: Disk, p: Request)
    requires z.lib.Lossless() && p.Honest() && p.IndexKey() in d.index && d.index[p.IndexKey()] == NewEntry(z, p)
    requires p.FileRef() in d.files && d.files[p.FileRef()] == z.Encode(p.chunk.data, p.compress).0
    ensures EntryOk(z.lib, d, p.IndexKey())
  {
    EncodeDecodes(z, d.files, p);
    hide ReadStored;
  }

  /**
   * A put of an honest chunk keeps every earlier entry. It raises if and only if
   * the chunk is stored already in a codec this process lacks; otherwise it
   * issues a segment that this process can decode.
   */
  lemma PutKeepsEntries(z: Compressor, d: Disk, p: Request)
    requires z.lib.Lossless() && Consistent(z.lib, d) && p.Honest()
    ensures var (d', r) := PutSpec(z, d, p);
            && Consistent(z.lib, d') && Extends(d, d')
            && (if Stuck(z, d, p) then r == Raise(RuntimeError)
                else r.Ok? && Issued(d', r.value, p.chunk.data) && !Locked(z, r.value))
  {
    WriteKeepsEntries(z, d, p);
    if Known(d, p) {
      KnownPut(z, d, p);
    } else {
      NewPut(z, d, p);
    }
  }

  lemma KnownPut(z: Compressor, d: Disk, p: Request)
    requires Consistent(z.lib, d) && p.Honest() && Known(d, p)
    ensures var (d', r) := PutSpec(z, d, p);
            && d' == d
            && (if Stuck(z, d, p) then r == Raise(RuntimeError)
                else r.Ok? && Issued(d, r.value, p.chunk.data) && !Locked(z, r.value))
  {
    assert EntryOk(z.lib, d, p.IndexKey());
  }

  lemma NewPut(z: Compressor, d: Disk, p: Request)
    requires z.lib.Lossless() && Consistent(z.lib, d) && p.Honest() && !Known(d, p)
    ensures var (d', r) := PutSpec(z, d, p);
            && Consistent(z.lib, d') && Extends(d, d')
            && r.Ok? && Issued(d', r.value, p.chunk.data) && !Locked(z, r.value)
  {
    WriteKeepsEntries(z, d, p);
    var d' := PutSpec(z, d, p).0;
    hide ReadStored, Consistent;
    NotIndexed(z.lib, d, p);
    forall k | k in d'.index
      ensures EntryOk(z.lib, d', k)
    {
      if k == p.IndexKey() {
        NewEntryOk(z, d', p);
      } else {
        OneEntry(z.lib, WritePayload(z, d, p), k);
        EntryHasFile(z.lib, WritePayload(z, d, p), k);
        EntryKept(z.lib, WritePayload(z, d, p), d', k);
      }
    }
    AllEntries(z.lib, d');
  }

  lemma NotIndexed(lib: Library, d: Disk, p: Request)
    requires Consistent(lib, d)
    ensures p.IndexKey() in d.index ==> Known(d, p)
  {
    if p.IndexKey() in d.index { EntryHasFile(lib, d, p.IndexKey()); }
  }

  lemma OneEntry(lib: Library, d: Disk, k: Key)
    requires Consistent(lib, d) && k in d.index
    ensures EntryOk(lib, d, k)
  {}

  lemma AllEntries(lib: Library, d: Disk)
    requires forall k :: k in d.index ==> EntryOk(lib, d, k)
    ensures Consistent(lib, d)
  {}

  /** A put, or a put that crashes between the payload write and the index write, by a process with or without zstandard. */
  datatype Op = Complete(put: Request, zstd: bool) | Crashed(put: Request, zstd: bool)

  function Step(lib: Library, d: Disk, op: Op): Disk {
    match op
    case Complete(p, zstd) => PutSpec(lib.With(zstd), d, p).0
    case Crashed(p, zstd) => WritePayload(lib.With(zstd), d, p)
  }

  function Run(lib: Library, d: Disk, ops: seq<Op>): Disk
    decreases |ops|
  {
    if ops == [] then d else Run(lib, Step(lib, d, ops[0]), ops[1..])
  }

  predicate AllHonest(ops: seq<Op>) { forall i :: 0 <= i < |ops| ==> ops[i].put.Honest() }

  lemma {:induction false} RunExtends(lib: Library, d: Disk, ops: seq<Op>)
    requires lib.Lossless() && Consistent(lib, d) && AllHonest(ops)
    ensures Consistent(lib, Run(lib, d, ops)) && Extends(d, Run(lib, d, ops))
    decreases |ops|
  {
    if ops != [] {
      hide Consistent, Extends, PutSpec, WritePayload, Stuck;
      var d' := Step(lib, d, ops[0]);
      if ops[0].Complete? {
        PutKeepsEntries(lib.With(ops[0].zstd), d, ops[0].put);
      } else {
        WriteKeepsEntries(lib.With(ops[0].zstd), d, ops[0].put);
      }
      RunExtends(lib, d', ops[1..]);
      ExtendsTrans(d, d', Run(lib, d', ops[1..]));
    } else {
      ExtendsRefl(d);
    }
  }

  lemma ExtendsRefl(d: Disk)
    ensures Extends(d, d)
  {}

  lemma ExtendsTrans(a: Disk, b: Disk, c: Disk)
    requires Extends(a, b) && Extends(b, c)
    ensures Extends(a, c)
  {
    forall k | k in a.index && a.index[k].ref in a.files
      ensures a.index[k].ref in c.files && c.files[a.index[k].ref] == a.files[a.index[k].ref]
    {
      assert k in b.index && b.index[k].ref in b.files;
    }
  }

  lemma IssuedPersists(d: Disk, d': Disk, s: StoredChunk, data: bytes)
    requires Issued(d, s, data) && Extends(d, d')
    ensures Issued(d', s, data)
  {}

  /**
   * Over any run of puts by any tenants, with or without compression, with
   * zstandard installed for some and not for others and with crashes anywhere: a
   * put raises exactly when it is stuck; a segment it returned decodes to its
   * bytes at the end of the run for every reader that has its codec, and for no
   * other, and takes no more room than they do.
   */
  lemma SegmentsStayReadable(
      lib: Library, d: Disk, before: seq<Op>, p: Request, zstd: bool, after: seq<Op>, reader: bool)
    requires lib.Lossless() && Consistent(lib, d) && AllHonest(before) && p.Honest() && AllHonest(after)
    ensures var d0 := Run(lib, d, before);
            var (d1, r) := PutSpec(lib.With(zstd), d0, p);
            && (r.Ok? <==> !Stuck(lib.With(zstd), d0, p))
            && (r.Ok? ==>
                  && ReadStored(lib.With(reader), Run(lib, d1, after).files, r.value)
                     == (if Locked(lib.With(reader), r.value) then Raise(RuntimeError) else Ok(p.chunk.data))
                  && r.value.storedSize <= r.value.logicalSize == |p.chunk.data|)
  {
    hide Consistent, Extends, PutSpec, Issued, Stuck, Locked, ReadStored;
    RunExtends(lib, d, before);
    var d0 := Run(lib, d, before);
    PutKeepsEntries(lib.With(zstd), d0, p);
    var (d1, r) := PutSpec(lib.With(zstd), d0, p);
    if r.Ok? {
      RunExtends(lib, d1, after);
      IssuedPersists(d1, Run(lib, d1, after), r.value, p.chunk.data);
      IssuedIsReadable(lib.With(reader), Run(lib, d1, after), r.value, p.chunk.data);
    }
  }

  // ----- Who shares chunks -----

  const NOTHING := Disk(map[], map[])

  predicate PutBefore(ops: seq<Op>, p: Request) {
    exists i :: 0 <= i < |ops| && ops[i].Complete? && SameText(ops[i].put, p)
  }

  /** The same tenant and namespace as far as their joined text tells, and the same bytes. */
  predicate SameText(q: Request, p: Request) {
    && q.tenant + ['\0'] + q.namespace == p.tenant + ['\0'] + p.namespace
    && q.chunk.sha256 == p.chunk.sha256
  }

  lemma NothingIsConsistent(lib: Library)
    ensures Consistent(lib, NOTHING)
  {}

  /** A chunk is indexed if and only if a completed put was made for it. */
  lemma {:induction false} IndexedIffPut(lib: Library, d: Disk, ops: seq<Op>, p: Request)
    requires lib.Lossless() && Consistent(lib, d) && AllHonest(ops)
    ensures p.IndexKey() in Run(lib, d, ops).index <==> p.IndexKey() in d.index || PutBefore(ops, p)
    decreases |ops|
  {
    hide Consistent, PutSpec, WritePayload, Stuck, SameText;
    if ops != [] {
      var op, rest := ops[0], ops[1..];
      var d' := Step(lib, d, op);
      if op.Complete? {
        PutKeepsEntries(lib.With(op.zstd), d, op.put);
      } else {
        WriteKeepsEntries(lib.With(op.zstd), d, op.put);
      }
      StepIndexes(lib, d, op, p);
      IndexedIffPut(lib, d', rest, p);
      assert forall i :: 0 <= i < |rest| ==> rest[i] == ops[i + 1];
      if PutBefore(ops, p) && !(op.Complete? && SameText(op.put, p)) {
        var i :| 0 <= i < |ops| && ops[i].Complete? && SameText(ops[i].put, p);
        assert rest[i - 1] == ops[i];
      }
    }
  }

  lemma StepIndexes(lib: Library, d: Disk, op: Op, p: Request)
    requires Consistent(lib, d)
    ensures p.IndexKey() in Step(lib, d, op).index <==>
              p.IndexKey() in d.index || (op.Complete? && SameText(op.put, p))
  {
    hide ReadStored, Consistent;
  }

  lemma NulAt(t: string, n: string)
    requires '\0' !in t
    ensures var x := t + ['\0'] + n;
            x[|t|] == '\0' && (forall i :: 0 <= i < |t| ==> x[i] != '\0') && x[..|t|] == t && x[|t| + 1..] == n
  {}

  /** Without a NUL in the first halves, the joined text gives both halves back. */
  lemma FirstNul(t: string, n: string, u: string, m: string)
    requires '\0' !in t && '\0' !in u && t + ['\0'] + n == u + ['\0'] + m
    ensures t == u && n == m
  {
    NulAt(t, n);
    NulAt(u, m);
  }

  lemma SameTextIff(q: Request, p: Request)
    requires q.Honest() && p.Honest() && '\0' !in q.tenant && '\0' !in p.tenant
    ensures SameText(q, p) <==> q.tenant == p.tenant && q.namespace == p.namespace && q.chunk.data == p.chunk.data
  {
    if SameText(q, p) {
      FirstNul(q.tenant, q.namespace, p.tenant, p.namespace);
    }
  }

  /**
   * Over any run from an empty store, for tenants without a NUL: a put is a
   * dedupe hit, or stuck, if and only if an earlier completed put had the same
   * tenant, namespace and bytes.
   */
  lemma HitIffPutBefore(lib: Library, ops: seq<Op>, p: Request, zstd: bool)
    requires lib.Lossless() && AllHonest(ops) && p.Honest()
    requires '\0' !in p.tenant && forall i :: 0 <= i < |ops| ==> '\0' !in ops[i].put.tenant
    ensures var r := PutSpec(lib.With(zstd), Run(lib, NOTHING, ops), p).1;
            var before := exists i :: 0 <= i < |ops| && ops[i].Complete? && ops[i].put.tenant == p.tenant
                                      && ops[i].put.namespace == p.namespace && ops[i].put.chunk.data == p.chunk.data;
            && (r.Ok? ==> (r.value.dedupeHit <==> before))
            && (r.Raise? ==> before)
  {
    hide Consistent, Run, ReadStored, SameText;
    NothingIsConsistent(lib);
    RunExtends(lib, NOTHING, ops);
    IndexedIffPut(lib, NOTHING, ops, p);
    var d := Run(lib, NOTHING, ops);
    NotIndexed(lib, d, p);
    PutKeepsEntries(lib.With(zstd), d, p);
    forall i | 0 <= i < |ops|
      ensures SameText(ops[i].put, p) <==>
                ops[i].put.tenant == p.tenant && ops[i].put.namespace == p.namespace
                && ops[i].put.chunk.data == p.chunk.data
    {
      SameTextIff(ops[i].put, p);
    }
  }

  lemma IssuedRef(z: Compressor, d: Disk, p: Request)
    requires Consistent(z.lib, d)
    ensures var r := PutSpec(z, d, p).1; r.Ok? ==> r.value.ref == Ref(p.tenant + ['\0'] + p.namespace, p.chunk.sha256)
  {
    hide ReadStored;
    if Known(d, p) {
      OneEntry(z.lib, d, p.IndexKey());
    }
  }

  /** Two segments share a file if and only if they were issued for the same tenant, namespace and bytes. */
  lemma SharedIffSame(z: Compressor, d: Disk, p: Request, z': Compressor, d': Disk, q: Request)
    requires Consistent(z.lib, d) && Consistent(z'.lib, d') && p.Honest() && q.Honest()
    requires '\0' !in p.tenant && '\0' !in q.tenant
    requires PutSpec(z, d, p).1.Ok? && PutSpec(z', d', q).1.Ok?
    ensures PutSpec(z, d, p).1.value.ref == PutSpec(z', d', q).1.value.ref <==>
              p.tenant == q.tenant && p.namespace == q.namespace && p.chunk.data == q.chunk.data
  {
    hide PutSpec, Consistent;
    IssuedRef(z, d, p);
    IssuedRef(z', d', q);
    SameTextIff(p, q);
  }

  /** A NUL in a tenant's name joins two tenants: the second one's put is a hit on the first one's file. */
  lemma NulTenantsShare(lib: Library, chunk: Chunk)
    requires lib.Lossless() && chunk.sha256 == Sha256(chunk.data)
    ensures var first := Request("a" + ['\0'] + "b", "c", chunk, false);
            var second := Request("a", "b" + ['\0'] + "c", chunk, false);
            var (d, r) := PutSpec(lib.With(true), NOTHING, first);
            var again := PutSpec(lib.With(true), d, second).1;
            r.Ok? && again.Ok? && again.value.dedupeHit && again.value.ref == r.value.ref
  {
    var first := Request("a" + ['\0'] + "b", "c", chunk, false);
    var second := Request("a", "b" + ['\0'] + "c", chunk, false);
    assert first.tenant + ['\0'] + first.namespace == second.tenant + ['\0'] + second.namespace;
    assert first.FileRef() == second.FileRef() && first.IndexKey() == second.IndexKey();
  }

  /** What a new chunk takes: the shorter of the bytes and their compressed form, or the bytes where compression is off. */
  lemma NewChunkSize(z: Compressor, d: Disk, p: Request)
    ensures var r := PutSpec(z, d, p).1;
            r.Ok? && !r.value.dedupeHit ==>
              var packed := z.lib.deflate(if z.zstdInstalled then Zstd else Zlib, p.chunk.data);
              && r.value.storedSize == (if p.compress then Min(|packed|, |p.chunk.data|) else |p.chunk.data|)
              && (r.value.compressed <==> p.compress && |packed| < |p.chunk.data|)
              && r.value.codec == (if r.value.compressed then Some(if z.zstdInstalled then Zstd else Zlib) else None)
              && r.value.logicalSize == |p.chunk.data|
              && r.value.tenant == p.tenant && r.value.namespace == p.namespace
  {}

  /** A chunk that zstandard shortens, stored from an empty store where it is installed: elsewhere the put is stuck and the segment locked. */
  lemma MissingCodecIsReachable(lib: Library, p: Request)
    requires lib.Lossless() && p.Honest() && p.compress && |lib.deflate(Zstd, p.chunk.data)| < |p.chunk.data|
    ensures var (d, r) := PutSpec(lib.With(true), Disk(map[], map[]), p);
            && r.Ok? && Locked(lib.With(false), r.value)
            && ReadStored(lib.With(false), d.files, r.value) == Raise(RuntimeError)
            && PutSpec(lib.With(false), d, p).1 == Raise(RuntimeError)
  {}

  /** Whatever happens to the files, a read that returns at all returns the bytes of the digest. */
  lemma ReadNeverLies(z: Compressor, files: map<Ref, bytes>, s: StoredChunk)
    ensures ReadStored(z, files, s).Ok? ==> ReadStored(z, files, s).value == s.digest.content
  {}
}
