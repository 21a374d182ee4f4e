/** Backup and restore of the state directory: python/urp/disaster_recovery.py. */
module Recovery {
  import opened Common

  /** A relative path by its parts, and a directory as its files. */
  type Path = seq<string>
  type Files = map<Path, bytes>

  const INCLUDED: set<string> := {
    "approval_signing.key", "approvals", "cache", "checkpoints", "chunks", "kms_keys.json", "kms_master.key",
    "ledger.jsonl", "logs.jsonl", "manifests", "manifests.sqlite3", "plans", "plugins", "policies",
    "route_feedback.jsonl", "scheduler_jobs.jsonl", "traces.jsonl", "work_units"}

  const BACKUP_VERSION := "urp.backup.v2"
  const MAX_FILES: nat := 1_000_000
  const MAX_BYTES: nat := 1024 * 1024 * 1024 * 1024

  datatype Record = Record(sha256: Digest, size: nat)

  /** The hash of the manifest's file table, and its keyed signature. */
  datatype ContentHash = ContentHash(files: map<Path, Record>)
  datatype Signature = Mac(key: string, hash: ContentHash)

  datatype Manifest = Manifest(
    version: string, files: map<Path, Record>, contentHash: ContentHash, signature: Option<Signature>)

  /** What stands between the slashes of an entry's name; empty parts and dots are still there. */
  type RawName = seq<string>

  datatype EntryKind = FileEntry | DirectoryEntry | SymlinkEntry

  datatype ZipEntry = ZipEntry(name: RawName, data: bytes, kind: EntryKind)

  /** The entries besides the manifest, the parsed manifest if there is one, and its size. */
  datatype Archive = Archive(entries: seq<ZipEntry>, manifest: Option<Manifest>, manifestSize: nat)

  // ----- What is exported -----

  predicate EndsWith(s: string, suffix: string) { |suffix| <= |s| && s[|s| - |suffix|..] == suffix }

  predicate Skipped(name: string) {
    || EndsWith(name, ".lock") || EndsWith(name, "-wal") || EndsWith(name, "-shm")
    || ".backup" <= name
  }

  predicate Exported(path: Path, output: Option<Path>) {
    path != [] && path[0] in INCLUDED && Some(path) != output && !Skipped(path[|path| - 1])
  }

  function ExportedFiles(files: Files, output: Option<Path>): Files {
    map p | p in files && Exported(p, output) :: files[p]
  }

  function RecordOf(data: bytes): Record { Record(Sha256(data), |data|) }

  function Table(files: Files): map<Path, Record> { map p | p in files :: RecordOf(files[p]) }

  function SignedManifest(table: map<Path, Record>, key: Option<string>): Manifest {
    Manifest(BACKUP_VERSION, table, ContentHash(table),
             if key.Some? then Some(Mac(key.value, ContentHash(table))) else None)
  }

  /**
   * An export holds a file with its bytes if and only if its path begins at one of
   * the included names, at any depth, it is not the archive itself, and its name
   * neither ends like a lock or a database side file nor starts like a backup.
   */
  lemma ExportedIff(files: Files, output: Option<Path>, p: Path)
    ensures p in ExportedFiles(files, output) <==>
              && p in files && p != [] && output != Some(p) && p[0] in INCLUDED
              && var name := p[|p| - 1];
                 !Ends(name, 5, ".lock") && !Ends(name, 4, "-wal") && !Ends(name, 4, "-shm") && !Starts(name, 7, ".backup")
    ensures p in ExportedFiles(files, output) ==> ExportedFiles(files, output)[p] == files[p]
  {
    hide INCLUDED, Skipped, Ends, Starts;
    if p != [] {
      SkippedIff(p[|p| - 1]);
    }
  }

  predicate Ends(name: string, n: nat, with: string) { |name| >= n && name[|name| - n..] == with }

  predicate Starts(name: string, n: nat, with: string) { |name| >= n && name[..n] == with }

  lemma SkippedIff(name: string)
    ensures Skipped(name) <==>
              Ends(name, 5, ".lock") || Ends(name, 4, "-wal") || Ends(name, 4, "-shm") || Starts(name, 7, ".backup")
  {
    var lock, wal, shm, backup := ".lock", "-wal", "-shm", ".backup";
    assert |lock| == 5 && |wal| == 4 && |shm| == 4 && |backup| == 7;
    EndsIff(name, lock);
    EndsIff(name, wal);
    EndsIff(name, shm);
    StartsIff(name, backup);
    hide EndsWith, Ends, Starts;
  }

  lemma EndsIff(name: string, suffix: string)
    ensures EndsWith(name, suffix) <==> Ends(name, |suffix|, suffix)
  {}

  lemma StartsIff(name: string, prefix: string)
    ensures prefix <= name <==> Starts(name, |prefix|, prefix)
  {}

  /** The chunks, the manifests, the ledger, the checkpoints and the caches are among what is included. */
  lemma IncludedAre()
    ensures INCLUDED == {
              "approval_signing.key", "approvals", "cache", "checkpoints", "chunks", "kms_keys.json", "kms_master.key",
              "ledger.jsonl", "logs.jsonl", "manifests", "manifests.sqlite3", "plans", "plugins", "policies",
              "route_feedback.jsonl", "scheduler_jobs.jsonl", "traces.jsonl", "work_units"}
  {}

  /** A file at either path needs a directory where the other one is. */
  predicate Blocks(p: Path, q: Path) { p < q || q < p }

  predicate Blocked(files: Files, p: Path) { exists q :: q in files && Blocks(p, q) }

  /** The paths of the files of one directory tree. */
  ghost predicate Tree(paths: set<Path>) { forall p, q :: p in paths && q in paths ==> !Blocks(p, q) }

  /** The entries hold exactly these files, each once. */
  ghost predicate Packs(entries: seq<ZipEntry>, files: Files) {
    && (forall e :: e in entries ==> e.kind == FileEntry && e.name in files && e.data == files[e.name])
    && FileNames(entries) == files.Keys
    && DistinctNames(entries)
  }

  predicate DistinctNames(entries: seq<ZipEntry>) {
    forall i, j :: 0 <= i < j < |entries| ==> !SameEntry(entries[i], entries[j])
  }

  /** A directory's name ends in a slash, so it never equals a file's. */
  predicate SameEntry(a: ZipEntry, b: ZipEntry) {
    a.name == b.name && (a.kind == DirectoryEntry <==> b.kind == DirectoryEntry)
  }

  method ExportState(files: Files, output: Option<Path>, key: Option<string>, manifestSize: nat)
    returns (a: Archive)
    ensures Packs(a.entries, ExportedFiles(files, output))
    ensures a.manifest == Some(SignedManifest(Table(ExportedFiles(files, output)), key))
    ensures a.manifestSize == manifestSize
  {
    hide Packs, Exported;
    var wanted := ExportedFiles(files, output);
    var rest := wanted.Keys;
    var entries: seq<ZipEntry> := [];
    var table: map<Path, Record> := map[];
    ghost var packed: Files := map[];
    PackNone();
    while rest != {}
      invariant rest <= wanted.Keys
      invariant packed == map p | p in wanted && p !in rest :: wanted[p]
      invariant Packs(entries, packed) && table == Table(packed)
      decreases rest
    {
      var path :| path in rest;
      PackOne(entries, packed, path, wanted[path]);
      entries := entries + [ZipEntry(path, wanted[path], FileEntry)];
      table := table[path := RecordOf(wanted[path])];
      rest := rest - {path};
      packed := packed[path := wanted[path]];
    }
    assert packed == wanted;
    a := Archive(entries, Some(SignedManifest(table, key)), manifestSize);
  }

  lemma PackNone()
    ensures Packs([], map[])
  {}

  lemma PackOne(entries: seq<ZipEntry>, files: Files, path: Path, data: bytes)
    requires Packs(entries, files) && path !in files
    ensures Packs(entries + [ZipEntry(path, data, FileEntry)], files[path := data])
    ensures Table(files[path := data]) == Table(files)[path := RecordOf(data)]
  {
    var e := ZipEntry(path, data, FileEntry);
    NamesSnoc(entries, e);
    forall i, j | 0 <= i < j < |entries + [e]|
      ensures !SameEntry((entries + [e])[i], (entries + [e])[j])
    {
      if j == |entries| {
        assert entries[i] in entries;
      }
    }
  }

  lemma NamesSnoc(entries: seq<ZipEntry>, e: ZipEntry)
    ensures FileNames(entries + [e]) == FileNames(entries) + if e.kind == DirectoryEntry then {} else {e.name}
  {
    assert forall x :: x in entries + [e] <==> x in entries || x == e;
  }

  // ----- Verified extraction -----

  function TotalSize(entries: seq<ZipEntry>): nat {
    if entries == [] then 0 else TotalSize(entries[..|entries| - 1]) + |entries[|entries| - 1].data|
  }

  /** `PurePosixPath(name).parts` of a relative name: empty parts and single dots fold away. */
  function Folded(raw: RawName): Path {
    if raw == [] then []
    else
      var n := |raw| - 1;
      Folded(raw[..n]) + if raw[n] == "" || raw[n] == "." then [] else [raw[n]]
  }

  /** `_validate_archive_name` lets the name through: it is relative, not empty, and never goes up. */
  predicate NameOk(raw: RawName) {
    !(|raw| > 1 && raw[0] == "") && Folded(raw) != [] && ".." !in Folded(raw)
  }

  /** A path as a directory walk yields it. */
  predicate SafePath(p: Path) { p != [] && forall i :: 0 <= i < |p| ==> p[i] !in {"", ".", ".."} }

  lemma {:induction false} SafeIsFolded(p: Path)
    requires forall i :: 0 <= i < |p| ==> p[i] !in {"", ".", ".."}
    ensures Folded(p) == p
  {
    if p != [] {
      SafeIsFolded(p[..|p| - 1]);
    }
  }

  predicate ManifestValid(m: Manifest, key: Option<string>) {
    && m.version == BACKUP_VERSION
    && m.contentHash == ContentHash(m.files)
    && (key.Some? ==> m.signature == Some(Mac(key.value, m.contentHash)))
  }

  function FileNames(entries: seq<ZipEntry>): set<Path> {
    set e | e in entries && e.kind != DirectoryEntry :: e.name
  }

  /** The paths the files are written to. */
  function Targets(names: set<RawName>): set<Path> { set n | n in names :: Folded(n) }

  /** The checks made before any entry is extracted. */
  predicate Admissible(a: Archive, key: Option<string>) {
    && |a.entries| + 1 <= MAX_FILES
    && TotalSize(a.entries) + a.manifestSize <= MAX_BYTES
    && DistinctNames(a.entries)
    && a.manifest.Some? && ManifestValid(a.manifest.value, key)
    && a.manifest.value.files.Keys == FileNames(a.entries)
  }

  predicate EntryGood(e: ZipEntry, m: Manifest) {
    && NameOk(e.name) && e.kind != SymlinkEntry
    && e.name in m.files && RecordOf(e.data) == m.files[e.name]
  }

  function Unpacked(entries: seq<ZipEntry>): Files {
    if entries == [] then map[]
    else
      var e := entries[|entries| - 1];
      var before := Unpacked(entries[..|entries| - 1]);
      if e.kind == DirectoryEntry then before else before[Folded(e.name) := e.data]
  }

  predicate AllGood(entries: seq<ZipEntry>, m: Manifest) {
    forall i :: 0 <= i < |entries| ==> entries[i].kind == DirectoryEntry || EntryGood(entries[i], m)
  }

  /** What the extraction loop leaves in an empty staging directory, or its exception. */
  function Extracted(entries: seq<ZipEntry>, m: Manifest): Result<Files> {
    if entries == [] then Ok(map[])
    else
      var e := entries[|entries| - 1];
      var before :- Extracted(entries[..|entries| - 1], m);
      if e.kind == DirectoryEntry then Ok(before)
      else if !EntryGood(e, m) then Raise(ValueError)
      else if Blocked(before, Folded(e.name)) then Raise(OperationFailed)
      else Ok(before[Folded(e.name) := e.data])
  }

  function Accepted(a: Archive, key: Option<string>): Result<Files> {
    if !Admissible(a, key) then Raise(ValueError) else Extracted(a.entries, a.manifest.value)
  }

  /** `_extract_verified` into an empty staging directory. */
  method ExtractVerified(a: Archive, key: Option<string>) returns (r: Result<Files>)
    ensures r == Accepted(a, key)
  {
    if !Admissible(a, key) {
      return Raise(ValueError);
    }
    hide Admissible, NameOk, Folded, Blocked, Extracted;
    var m := a.manifest.value;
    AdmissibleNames(a, key);
    var staging: Files := map[];
    NothingExtracted(m);
    for i := 0 to |a.entries|
      invariant Extracted(a.entries[..i], m) == Ok(staging)
    {
      ExtractOne(a.entries, i, m);
      var e := a.entries[i];
      if e.kind == DirectoryEntry {
        continue;
      }
      assert e.name in FileNames(a.entries);
      if !NameOk(e.name) || e.kind == SymlinkEntry {
        return Raise(ValueError);
      }
      if RecordOf(e.data) != m.files[e.name] {
        return Raise(ValueError);
      }
      if Blocked(staging, Folded(e.name)) {
        return Raise(OperationFailed);
      }
      staging := staging[Folded(e.name) := e.data];
    }
    assert a.entries[..|a.entries|] == a.entries;
    r := Ok(staging);
  }

  lemma NothingExtracted(m: Manifest)
    ensures Extracted([], m) == Ok(map[])
  {}

  /** One entry more; an exception it raises is the exception of the whole. */
  lemma ExtractOne(entries: seq<ZipEntry>, i: nat, m: Manifest)
    requires i < |entries| && Extracted(entries[..i], m).Ok?
    ensures var e, before := entries[i], Extracted(entries[..i], m).value;
            var r := if e.kind == DirectoryEntry then Ok(before)
                     else if !EntryGood(e, m) then Raise(ValueError)
                     else if Blocked(before, Folded(e.name)) then Raise(OperationFailed)
                     else Ok(before[Folded(e.name) := e.data]);
            Extracted(entries[..i + 1], m) == r && (r.Raise? ==> Extracted(entries, m) == r)
  {
    hide EntryGood, Blocked;
    assert entries[..i + 1][..i] == entries[..i];
    if Extracted(entries[..i + 1], m).Raise? {
      RaisedEarlier(entries, i + 1, m);
    }
  }

  lemma {:induction false} RaisedEarlier(entries: seq<ZipEntry>, n: nat, m: Manifest)
    requires n <= |entries| && Extracted(entries[..n], m).Raise?
    ensures Extracted(entries, m) == Extracted(entries[..n], m)
  {
    if n == |entries| {
      assert entries[..n] == entries;
    } else {
      assert entries[..|entries| - 1][..n] == entries[..n];
      RaisedEarlier(entries[..|entries| - 1], n, m);
    }
  }

  /** Extraction goes through if and only if every entry is good and the files form a tree, and then unpacks them all. */
  lemma {:induction false} ExtractedIff(entries: seq<ZipEntry>, m: Manifest)
    ensures var r := Extracted(entries, m);
            && (r.Ok? <==> AllGood(entries, m) && Tree(Targets(FileNames(entries))))
            && (r.Ok? ==> r.value == Unpacked(entries))
            && Unpacked(entries).Keys == Targets(FileNames(entries))
  {
    if entries != [] {
      hide EntryGood, Blocks, Folded, Tree, Targets, FileNames, AllGood, Blocked;
      var n := |entries| - 1;
      var before, e := entries[..n], entries[n];
      ExtractedIff(before, m);
      assert entries == before + [e];
      NamesSnoc(before, e);
      GoodSnoc(before, e, m);
      TargetsSnoc(FileNames(before), e.name);
      TreeSnoc(Unpacked(before), Folded(e.name));
    }
  }

  lemma GoodSnoc(entries: seq<ZipEntry>, e: ZipEntry, m: Manifest)
    ensures AllGood(entries + [e], m) <==> AllGood(entries, m) && (e.kind == DirectoryEntry || EntryGood(e, m))
  {
    hide EntryGood;
    var all := entries + [e];
    assert all[|entries|] == e;
    assert forall i :: 0 <= i < |entries| ==> all[i] == entries[i];
  }

  lemma TreeSnoc(files: Files, p: Path)
    ensures Tree(files.Keys + {p}) <==> Tree(files.Keys) && !Blocked(files, p)
  {
    if Tree(files.Keys + {p}) {
      forall q | q in files
        ensures !Blocks(p, q)
      {
        assert p in files.Keys + {p} && q in files.Keys + {p};
      }
    }
  }

  lemma AdmissibleNames(a: Archive, key: Option<string>)
    requires Admissible(a, key)
    ensures a.manifest.value.files.Keys == FileNames(a.entries)
  {}

  lemma TargetsSnoc(names: set<RawName>, name: RawName)
    ensures Targets(names + {name}) == Targets(names) + {Folded(name)}
    ensures Targets(names + {}) == Targets(names)
  {
    hide Folded;
    assert names + {} == names;
  }

  /** Each file unpacked is that of some entry whose name folds to its path. */
  lemma {:induction false} UnpackedFrom(entries: seq<ZipEntry>, m: Manifest, p: Path) returns (name: RawName)
    requires AllGood(entries, m) && p in Unpacked(entries)
    ensures name in FileNames(entries) && Folded(name) == p
    ensures name in m.files && RecordOf(Unpacked(entries)[p]) == m.files[name]
  {
    var n := |entries| - 1;
    var before, e := entries[..n], entries[n];
    hide Folded, NameOk, FileNames;
    assert entries == before + [e];
    assert e.kind == DirectoryEntry || EntryGood(e, m);
    NamesSnoc(before, e);
    if e.kind != DirectoryEntry && Folded(e.name) == p {
      name := e.name;
    } else {
      assert forall i :: 0 <= i < n ==> before[i] == entries[i];
      name := UnpackedFrom(before, m, p);
    }
  }

  lemma {:induction false} FoldedJoins(x: RawName, y: RawName)
    ensures Folded(x + y) == Folded(x) + Folded(y)
  {
    if y == [] {
      assert x + y == x;
    } else {
      FoldedJoins(x, y[..|y| - 1]);
      assert (x + y)[..|x + y| - 1] == x + y[..|y| - 1];
    }
  }

  lemma FoldedPart(part: string)
    ensures Folded([part]) == if part == "" || part == "." then [] else [part]
    ensures Folded([]) == []
  {
    assert [part][..0] == [];
  }

  lemma {:induction false} FoldedHolds(raw: RawName, part: string)
    ensures part in Folded(raw) <==> part in raw && part != "" && part != "."
  {
    if raw != [] {
      FoldedHolds(raw[..|raw| - 1], part);
      assert raw == raw[..|raw| - 1] + [raw[|raw| - 1]];
    }
  }

  /** A name is let through if and only if it does not start with a slash, never goes up, and has some other part than dots. */
  lemma NameOkIff(raw: RawName)
    ensures NameOk(raw) <==>
              && (|raw| > 1 ==> raw[0] != "")
              && ".." !in raw
              && exists part :: part in raw && part != "" && part != "."
  {
    FoldedHolds(raw, "..");
    if Folded(raw) != [] {
      FoldedHolds(raw, Folded(raw)[0]);
    }
    if part :| part in raw && part != "" && part != "." {
      FoldedHolds(raw, part);
    }
    hide Folded;
  }

  /** What an accepted archive has, entry by entry, and that nothing more is asked of one. */
  lemma AcceptedIff(a: Archive, key: Option<string>)
    ensures Accepted(a, key).Ok? <==>
              && |a.entries| < 1_000_000 && TotalSize(a.entries) + a.manifestSize <= 0x100_0000_0000
              && (forall i, j :: 0 <= i < j < |a.entries| && a.entries[i].name == a.entries[j].name ==>
                    (a.entries[i].kind == DirectoryEntry <==> a.entries[j].kind != DirectoryEntry))
              && a.manifest.Some? && a.manifest.value.version == "urp.backup.v2"
              && a.manifest.value.contentHash == ContentHash(a.manifest.value.files)
              && (key.Some? ==> a.manifest.value.signature == Some(Mac(key.value, ContentHash(a.manifest.value.files))))
              && (forall n :: n in a.manifest.value.files <==>
                    exists e :: e in a.entries && e.kind != DirectoryEntry && e.name == n)
              && (forall e :: e in a.entries && e.kind != DirectoryEntry ==>
                    && e.kind == FileEntry && NameOk(e.name) && e.name in a.manifest.value.files
                    && a.manifest.value.files[e.name] == Record(Sha256(e.data), |e.data|))
              && Tree(Targets(FileNames(a.entries)))
  {
    hide NameOk, Tree, TotalSize, Extracted, Targets;
    if a.manifest.Some? {
      var m := a.manifest.value;
      ExtractedIff(a.entries, m);
      hide Unpacked;
      GoodIff(a.entries, m);
      assert m.files.Keys == FileNames(a.entries) <==>
               forall n :: n in m.files <==> exists e :: e in a.entries && e.kind != DirectoryEntry && e.name == n;
    }
    hide AllGood, FileNames;
  }

  lemma TotalSizeSnoc(entries: seq<ZipEntry>, e: ZipEntry)
    ensures TotalSize([]) == 0 && TotalSize(entries + [e]) == TotalSize(entries) + |e.data|
  {
    assert (entries + [e])[..|entries|] == entries;
  }

  lemma GoodIff(entries: seq<ZipEntry>, m: Manifest)
    ensures AllGood(entries, m) <==>
              forall e :: e in entries && e.kind != DirectoryEntry ==>
                && e.kind == FileEntry && NameOk(e.name) && e.name in m.files
                && m.files[e.name] == Record(Sha256(e.data), |e.data|)
  {
    hide NameOk;
    if AllGood(entries, m) {
      forall e | e in entries && e.kind != DirectoryEntry
        ensures e.kind == FileEntry && NameOk(e.name) && e.name in m.files
        ensures m.files[e.name] == Record(Sha256(e.data), |e.data|)
      {
        var i :| 0 <= i < |entries| && entries[i] == e;
      }
    }
  }

  /** Names that fold to one path agree on its digest and size. */
  ghost predicate FoldsAgree(table: map<RawName, Record>) {
    forall x, y :: x in table && y in table && Folded(x) == Folded(y) ==> table[x] == table[y]
  }

  /** No two names fold to one path. */
  ghost predicate FoldsApart(names: set<RawName>) {
    forall x, y :: x in names && y in names && Folded(x) == Folded(y) ==> x == y
  }

  /**
   * An accepted archive unpacks to a file for every name of its table. Every name
   * finds the content its table describes if and only if names that fold to one
   * path agree on it, and the files are as many as the names if and only if no
   * two fold to one path.
   */
  lemma AcceptedIsTable(a: Archive, key: Option<string>)
    requires Accepted(a, key).Ok?
    ensures var files, table := Accepted(a, key).value, a.manifest.value.files;
            && files.Keys == Targets(table.Keys)
            && (forall n :: n in table ==> Folded(n) in files)
            && ((forall n :: n in table ==> RecordOf(files[Folded(n)]) == table[n]) <==> FoldsAgree(table))
            && (|files| == |table| <==> FoldsApart(table.Keys))
  {
    hide Unpacked, AllGood, FileNames, ManifestValid, TotalSize, DistinctNames, Tree, Extracted, Folded;
    var m := a.manifest.value;
    ExtractedIff(a.entries, m);
    AdmissibleNames(a, key);
    var files, table := Accepted(a, key).value, m.files;
    if FoldsAgree(table) {
      forall n | n in table
        ensures RecordOf(files[Folded(n)]) == table[n]
      {
        var from := UnpackedFrom(a.entries, m, Folded(n));
      }
    }
    TargetsCount(table.Keys);
    assert |files| == |files.Keys| && |table| == |table.Keys|;
  }

  lemma {:induction false} TargetsCount(names: set<RawName>)
    ensures |Targets(names)| <= |names|
    ensures |Targets(names)| == |names| <==> FoldsApart(names)
    decreases |names|
  {
    hide Folded;
    if names == {} {
      assert Targets(names) == {};
    } else {
      var x :| x in names;
      var rest := names - {x};
      TargetsCount(rest);
      TargetsSnoc(rest, x);
      assert names == rest + {x};
      if Folded(x) in Targets(rest) {
        var y :| y in rest && Folded(y) == Folded(x);
        assert Targets(names) == Targets(rest);
        assert !FoldsApart(names);
      } else {
        assert FoldsApart(names) <==> FoldsApart(rest) by { ApartSplits(rest, x); }
      }
    }
  }

  lemma ApartSplits(rest: set<RawName>, x: RawName)
    requires Folded(x) !in Targets(rest)
    ensures FoldsApart(rest + {x}) <==> FoldsApart(rest)
  {
    hide Folded;
  }

  /** An archive without a signature that lists `a` and `./a` is accepted and unpacks one file, the later one. */
  lemma TwoNamesOneFile(x: bytes, y: bytes, manifestSize: nat)
    requires |x| + |y| + manifestSize <= MAX_BYTES
    ensures var table: map<RawName, Record> := map[["a"] := RecordOf(x), [".", "a"] := RecordOf(y)];
            var entries := [ZipEntry(["a"], x, FileEntry), ZipEntry([".", "a"], y, FileEntry)];
            Accepted(Archive(entries, Some(SignedManifest(table, None)), manifestSize), None) == Ok(map[["a"] := y])
  {
    var first, second := ZipEntry(["a"], x, FileEntry), ZipEntry([".", "a"], y, FileEntry);
    var entries := [first, second];
    var table: map<RawName, Record> := map[["a"] := RecordOf(x), [".", "a"] := RecordOf(y)];
    var m := SignedManifest(table, None);
    var a := Archive(entries, Some(m), manifestSize);
    assert |first.name| != |second.name|;
    assert entries[..1] == [first] && [first][..0] == [];
    assert FileNames(entries) == table.Keys by {
      assert forall e :: e in entries <==> e == first || e == second;
    }
    assert TotalSize([first]) == |x| && TotalSize(entries) == |x| + |y|;
    assert Admissible(a, None);
    assert [".", "a"][..1] == ["."] && ["."][..0] == [] && ["a"][..0] == [];
    assert Folded(["."]) == [] && Folded(["a"]) == ["a"] && Folded([".", "a"]) == ["a"];
    assert EntryGood(first, m) && EntryGood(second, m);
    assert Extracted([first], m) == Ok(map[["a"] := x]);
    assert map[["a"] := x][["a"] := y] == map[["a"] := y];
  }

  /** A walk lists names of which none is empty or a dot or two. */
  lemma SafePathIff(p: Path)
    ensures SafePath(p) <==> p != [] && "" !in p && "." !in p && ".." !in p
  {}

  lemma SafeNames(files: Files)
    requires forall p :: p in files ==> SafePath(p)
    ensures forall p :: p in files ==> Folded(p) == p && NameOk(p)
    ensures Targets(files.Keys) == files.Keys && FoldsAgree(Table(files))
  {
    forall p | p in files
      ensures Folded(p) == p && NameOk(p)
    {
      SafeIsFolded(p);
    }
  }

  /** An accepted archive whose table is that of files from a directory walk unpacks to just these files. */
  lemma AcceptedIsWalked(a: Archive, key: Option<string>, files: Files)
    requires Accepted(a, key).Ok? && a.manifest.value.files == Table(files)
    requires forall p :: p in files ==> SafePath(p)
    ensures Accepted(a, key) == Ok(files)
  {
    hide Accepted, Folded, SafePath, NameOk, FoldsAgree, FoldsApart, Targets;
    AcceptedIsTable(a, key);
    SafeNames(files);
    var found := Accepted(a, key).value;
    assert Table(files).Keys == files.Keys;
    assert found.Keys == files.Keys;
    forall p | p in files
      ensures found[p] == files[p]
    {
      assert p in Table(files) && RecordOf(found[Folded(p)]) == Table(files)[p];
    }
    assert found == files;
  }

  /** Importing what was exported from a directory yields exactly the included files, whenever the archive is within the limits. */
  lemma ExportImports(a: Archive, files: Files, output: Option<Path>, key: Option<string>, readKey: Option<string>)
    requires Packs(a.entries, ExportedFiles(files, output))
    requires a.manifest == Some(SignedManifest(Table(ExportedFiles(files, output)), key))
    requires Tree(files.Keys) && forall p :: p in files ==> SafePath(p)
    requires readKey == None || readKey == key
    ensures Accepted(a, readKey) ==
              if |a.entries| + 1 <= MAX_FILES && TotalSize(a.entries) + a.manifestSize <= MAX_BYTES
              then Ok(ExportedFiles(files, output)) else Raise(ValueError)
  {
    hide Unpacked, TotalSize, Extracted, Blocks, EntryGood, SafePath, Folded, NameOk, Targets;
    var wanted := ExportedFiles(files, output);
    SafeNames(wanted);
    PackedGood(a.entries, wanted, a.manifest.value);
    ExtractedIff(a.entries, a.manifest.value);
    if Admissible(a, readKey) {
      AcceptedIsWalked(a, readKey, wanted);
    }
  }

  lemma PackedGood(entries: seq<ZipEntry>, files: Files, m: Manifest)
    requires Packs(entries, files) && m.files == Table(files) && forall p :: p in files ==> SafePath(p)
    ensures AllGood(entries, m)
  {
    SafeNames(files);
    hide NameOk, SafePath, Folded;
    forall i | 0 <= i < |entries|
      ensures EntryGood(entries[i], m)
    {
      assert entries[i] in entries;
    }
  }

  /** With a signing key set, an accepted archive whose signature a real export made unpacks to that export. */
  lemma SignatureFixesContent(a: Archive, key: string, files: Files)
    requires Accepted(a, Some(key)).Ok?
    requires a.manifest.value.signature == SignedManifest(Table(files), Some(key)).signature
    requires forall p :: p in files ==> SafePath(p)
    ensures Accepted(a, Some(key)) == Ok(files)
  {
    hide Extracted, FileNames, TotalSize, DistinctNames, SafePath;
    AcceptedIsWalked(a, Some(key), files);
  }

  // ----- Replacing -----

  /** The step of a replace that raises; a rename or a removal either happens or does not. */
  datatype Fault = NoFault | ClearingStale | MovingOld | MovingNew | MovingNewAndRollback | DiscardingOld

  /** The state directory and the directory a replace of this process moves it to. */
  datatype Disk = Disk(state: Option<Files>, previous: Option<Files>)

  function Replace(d: Disk, staging: Files, fault: Fault): (Disk, Result<()>) {
    if d.previous.Some? && fault == ClearingStale then (d, Raise(OperationFailed))
    else if d.state.Some? && fault == MovingOld then (Disk(d.state, None), Raise(OperationFailed))
    else if fault == MovingNew || (fault == MovingNewAndRollback && d.state == None) then
      (Disk(d.state, None), Raise(OperationFailed))
    else if fault == MovingNewAndRollback then (Disk(None, d.state), Raise(OperationFailed))
    else if d.state.Some? && fault == DiscardingOld then (Disk(Some(staging), d.state), Raise(OperationFailed))
    else (Disk(Some(staging), None), Ok(()))
  }

  /**
   * A replace that succeeds leaves exactly the archive's files. One that raises
   * leaves the old state if and only if there was none, or the step that raised
   * is neither the final clean-up nor the rollback; the clean-up leaves the new
   * state, the rollback leaves the old one aside.
   */
  lemma ReplaceOutcome(d: Disk, staging: Files, fault: Fault)
    requires d.state != Some(staging)
    ensures var (d', r) := Replace(d, staging, fault);
            && (r.Ok? ==> d' == Disk(Some(staging), None))
            && (r.Ok? <==>
                  || fault == NoFault || (fault == ClearingStale && d.previous == None)
                  || (d.state == None && (fault == MovingOld || fault == DiscardingOld)))
            && (r.Raise? ==>
                  (d'.state == d.state <==> d.state == None || fault !in {MovingNewAndRollback, DiscardingOld}))
            && (r.Raise? && d.state.Some? && fault == DiscardingOld ==> d' == Disk(Some(staging), d.state))
            && (r.Raise? && d.state.Some? && fault == MovingNewAndRollback ==> d' == Disk(None, d.state))
            && (r.Raise? ==> r.error == OperationFailed)
  {}

  /** The disk at the start of a replace and after each of its renames and removals: where a crash can leave it. */
  function Trace(d: Disk, staging: Files, fault: Fault): seq<Disk> {
    [d] +
    if d.previous.Some? && fault == ClearingStale then []
    else
      (if d.previous.Some? then [Disk(d.state, None)] else []) +
      if d.state.Some? && fault == MovingOld then []
      else
        (if d.state.Some? then [Disk(None, d.state)] else []) +
        if fault == MovingNew then (if d.state.Some? then [Disk(d.state, None)] else [])
        else if fault == MovingNewAndRollback then []
        else
          [Disk(Some(staging), d.state)] +
          if d.state == None || fault == DiscardingOld then [] else [Disk(Some(staging), None)]
  }

  lemma TraceEnds(d: Disk, staging: Files, fault: Fault)
    ensures var t := Trace(d, staging, fault); t[0] == d && t[|t| - 1] == Replace(d, staging, fault).0
  {}

  /** Neither the state directory nor the one set aside holds any of these. */
  ghost predicate Lost(d: Disk, kept: set<Files>) {
    && (d.state.Some? ==> d.state.value !in kept)
    && (d.previous.Some? ==> d.previous.value !in kept)
  }

  /** The place between the two renames of a replace that finds a state directory. */
  function Gap(d: Disk): nat { if d.previous.Some? then 2 else 1 }

  /**
   * A replace that crashes, at any point and on any error path, and a second one
   * by the same process id: the old files, the first archive's and the second's
   * are all gone if and only if the first crashed between its renames and the
   * second raised when it moved the new files in.
   */
  lemma RetryLosesIff(d: Disk, first: Files, fault: Fault, i: nat, second: Files, fault': Fault)
    requires d.state.Some? && i < |Trace(d, first, fault)|
    ensures var crashed := Trace(d, first, fault)[i];
            Lost(Replace(crashed, second, fault').0, {d.state.value, first, second}) <==>
              i == Gap(d) && (fault' == MovingNew || fault' == MovingNewAndRollback)
  {
    var crashed := Trace(d, first, fault)[i];
    CrashedDisk(d, first, fault, i);
    TraceEnds(crashed, second, fault');
    SecondCrashLosesIff(d, first, fault, i, second, fault', |Trace(crashed, second, fault')| - 1);
    hide Lost, Replace;
    if i == Gap(d) {
      assert crashed == Disk(None, d.state);
    }
  }

  /** The same when the second crashes too: it has just removed the set-aside files and not yet moved the new ones in. */
  lemma SecondCrashLosesIff(d: Disk, first: Files, fault: Fault, i: nat, second: Files, fault': Fault, j: nat)
    requires d.state.Some? && i < |Trace(d, first, fault)|
    requires j < |Trace(Trace(d, first, fault)[i], second, fault')|
    ensures Lost(Trace(Trace(d, first, fault)[i], second, fault')[j], {d.state.value, first, second})
       <==> i == Gap(d) && j == 1
  {
    CrashedDisk(d, first, fault, i);
    var crashed := Trace(d, first, fault)[i];
    if crashed.state.Some? {
      CrashedDisk(crashed, second, fault', j);
      hide Trace;
    } else {
      assert crashed == Disk(None, d.state);
    }
  }

  lemma CrashedDisk(d: Disk, staging: Files, fault: Fault, i: nat)
    requires d.state.Some? && i < |Trace(d, staging, fault)|
    ensures var x := Trace(d, staging, fault)[i];
            && (x.state == None <==> i == Gap(d))
            && (x.state == None ==> x == Disk(None, d.state))
            && (x.state.Some? ==> x.state == d.state || x.state == Some(staging))
  {}

  /** One call of a replace, and the place in its trace where it crashed, or its end. */
  datatype Attempt = Attempt(staging: Files, fault: Fault, stop: nat)

  function Stop(d: Disk, a: Attempt): nat { Min(a.stop, |Trace(d, a.staging, a.fault)| - 1) }

  function AfterAttempt(d: Disk, a: Attempt): Disk { Trace(d, a.staging, a.fault)[Stop(d, a)] }

  /** Neither directory is there: every copy of the state is gone. */
  predicate Empty(d: Disk) { d.state == None && d.previous == None }

  /** It found only the set-aside files, removed them, and stopped there. */
  predicate Destroys(d: Disk, a: Attempt) { d.state == None && d.previous.Some? && Stop(d, a) == 1 }

  predicate EverEmpty(d: Disk, attempts: seq<Attempt>)
    decreases |attempts|
  {
    Empty(d) || (attempts != [] && EverEmpty(AfterAttempt(d, attempts[0]), attempts[1..]))
  }

  predicate EverDestroys(d: Disk, attempts: seq<Attempt>)
    decreases |attempts|
  {
    attempts != [] && (Destroys(d, attempts[0]) || EverDestroys(AfterAttempt(d, attempts[0]), attempts[1..]))
  }

  lemma EmptiesIffDestroys(d: Disk, a: Attempt)
    requires !Empty(d)
    ensures Empty(AfterAttempt(d, a)) <==> Destroys(d, a)
  {}

  /**
   * Over any run of replaces by one process id, each with any fault and any
   * crash, every copy is gone at some moment if and only if some replace
   * started with only the set-aside files and stopped right after removing them.
   */
  lemma {:induction false} EmptyIffDestroyed(d: Disk, attempts: seq<Attempt>)
    requires !Empty(d)
    ensures EverEmpty(d, attempts) <==> EverDestroys(d, attempts)
    decreases |attempts|
  {
    if attempts != [] {
      hide AfterAttempt, Destroys;
      var a := attempts[0];
      EmptiesIffDestroys(d, a);
      if !Empty(AfterAttempt(d, a)) {
        EmptyIffDestroyed(AfterAttempt(d, a), attempts[1..]);
      }
    }
  }

  // ----- Merging -----

  /**
   * Merging the listed files one by one; the write at position `failAt` raises,
   * and so does one where a file stands in for a directory or the other way round.
   */
  function Merge(state: Files, staging: Files, order: seq<Path>, failAt: Option<nat>): (Files, Result<()>)
    requires forall p :: p in order ==> p in staging
    decreases |order|
  {
    if order == [] then (state, Ok(()))
    else
      var p := order[0];
      var later := if failAt == None || failAt.value == 0 then None else Some(failAt.value - 1);
      if p in state then
        if state[p] != staging[p] then (state, Raise(FileExists)) else Merge(state, staging, order[1..], later)
      else if Blocked(state, p) || failAt == Some(0) then (state, Raise(OperationFailed))
      else Merge(state[p := staging[p]], staging, order[1..], later)
  }

  ghost predicate Conflict(state: Files, staging: Files, order: seq<Path>)
    requires forall p :: p in order ==> p in staging
  {
    exists p :: p in order && Obstructed(state, staging, p)
  }

  /** Another file stands at the path, or on the way to it, or below it. */
  predicate Obstructed(state: Files, staging: Files, p: Path)
    requires p in staging
  {
    if p in state then state[p] != staging[p] else Blocked(state, p)
  }

  /** What stands in the way of a file: another one there, or one above or below it. */
  lemma ObstructedIff(state: Files, staging: Files, p: Path)
    requires p in staging
    ensures Obstructed(state, staging, p) <==>
              if p in state then state[p] != staging[p]
              else exists q :: q in state && q != p && (q == p[..Min(|q|, |p|)] || p == q[..Min(|q|, |p|)])
  {
    forall q | q in state
      ensures Blocks(p, q) <==> q != p && (q == p[..Min(|q|, |p|)] || p == q[..Min(|q|, |p|)])
    {}
    hide Blocks;
  }

  /** Whatever stops it, a merge never alters or removes a file that was there and adds only archive files. */
  lemma {:induction false} MergeKeepsExisting(state: Files, staging: Files, order: seq<Path>, failAt: Option<nat>)
    requires forall p :: p in order ==> p in staging
    ensures var s := Merge(state, staging, order, failAt).0;
            && (forall p :: p in state ==> p in s && s[p] == state[p])
            && (forall p :: p in s && p !in state ==> p in order && s[p] == staging[p])
    decreases |order|
  {
    if order != [] {
      hide Blocked;
      var p := order[0];
      var later := if failAt == None || failAt.value == 0 then None else Some(failAt.value - 1);
      MergeKeepsExisting(if p in state then state else state[p := staging[p]], staging, order[1..], later);
    }
  }

  /**
   * A merge that no write error stops succeeds if and only if no file it brings
   * is obstructed, and then holds every archive file.
   */
  lemma {:induction false} MergeSucceedsIff(state: Files, staging: Files, order: seq<Path>, failAt: Option<nat>)
    requires Tree(staging.Keys) && forall p :: p in order ==> p in staging
    ensures var (s, r) := Merge(state, staging, order, failAt);
            && (r.Ok? ==> !Conflict(state, staging, order) && forall p :: p in order ==> p in s && s[p] == staging[p])
            && (failAt == None && !Conflict(state, staging, order) ==> r.Ok?)
    decreases |order|
  {
    if order != [] {
      hide Conflict, Tree, Blocked;
      var p, rest := order[0], order[1..];
      assert order == [p] + rest;
      var later := if failAt == None || failAt.value == 0 then None else Some(failAt.value - 1);
      var next := if p in state then state else state[p := staging[p]];
      MergeSucceedsIff(next, staging, rest, later);
      MergeKeepsExisting(next, staging, rest, later);
      ConflictStep(state, staging, p, rest);
    }
  }

  lemma ConflictStep(state: Files, staging: Files, p: Path, rest: seq<Path>)
    requires Tree(staging.Keys) && p in staging && forall q :: q in rest ==> q in staging
    ensures var next := if p in state then state else state[p := staging[p]];
            Conflict(state, staging, [p] + rest) <==> Obstructed(state, staging, p) || Conflict(next, staging, rest)
  {
    hide Obstructed, Tree;
    var next := if p in state then state else state[p := staging[p]];
    assert forall q :: q in [p] + rest <==> q == p || q in rest;
    if p !in state && !Obstructed(state, staging, p) {
      forall q | q in staging
        ensures Obstructed(next, staging, q) <==> Obstructed(state, staging, q)
      {
        WriteObstructsNoOther(state, staging, p, q);
      }
    }
  }

  lemma WriteObstructsNoOther(state: Files, staging: Files, p: Path, q: Path)
    requires Tree(staging.Keys) && p in staging && q in staging && p !in state && !Obstructed(state, staging, p)
    ensures Obstructed(state[p := staging[p]], staging, q) <==> Obstructed(state, staging, q)
  {
    hide Blocks;
    var next := state[p := staging[p]];
    assert !Blocks(q, p);
    if Blocked(state, q) {
      var x :| x in state && Blocks(q, x);
      assert x in next;
    }
  }

  /** Another content at a path raises as an existing file, anything else as a failed operation. */
  lemma {:induction false} MergeRaises(state: Files, staging: Files, order: seq<Path>, failAt: Option<nat>)
    requires forall p :: p in order ==> p in staging
    ensures var r := Merge(state, staging, order, failAt).1;
            r.Raise? ==> r.error == OperationFailed
                         || (r.error == FileExists && exists p :: p in order && p in state && state[p] != staging[p])
    decreases |order|
  {
    if order != [] {
      hide Blocked;
      var p := order[0];
      var later := if failAt == None || failAt.value == 0 then None else Some(failAt.value - 1);
      MergeRaises(if p in state then state else state[p := staging[p]], staging, order[1..], later);
      assert order == [p] + order[1..];
    }
  }

  /** A write that fails raises, wherever it comes. */
  lemma {:induction false} FailedWriteRaises(state: Files, staging: Files, order: seq<Path>, k: nat)
    requires (forall p :: p in order ==> p in staging) && k < |order|
    requires order[k] !in state && order[k] !in order[..k]
    ensures Merge(state, staging, order, Some(k)).1.Raise?
    decreases |order|
  {
    if k > 0 {
      hide Blocked;
      var p := order[0];
      assert p == order[..k][0] && order[1..][k - 1] == order[k] && order[1..][..k - 1] == order[..k][1..];
      FailedWriteRaises(if p in state then state else state[p := staging[p]], staging, order[1..], k - 1);
    }
  }

  /** One where nothing is to be written, because the file is there already, has no effect. */
  lemma {:induction false} UnwrittenCannotFail(state: Files, staging: Files, order: seq<Path>, k: nat)
    requires forall p :: p in order ==> p in staging
    requires k < |order| ==> order[k] in state
    ensures Merge(state, staging, order, Some(k)) == Merge(state, staging, order, None)
    decreases |order|
  {
    if order != [] && k > 0 {
      hide Blocked;
      var p := order[0];
      UnwrittenCannotFail(if p in state then state else state[p := staging[p]], staging, order[1..], k - 1);
    }
  }

  /** Over the whole archive, in any order: success yields the union, and an empty state receives exactly the archive. */
  lemma MergeIsUnion(state: Files, staging: Files, order: seq<Path>, failAt: Option<nat>)
    requires Tree(staging.Keys) && forall p :: p in order <==> p in staging
    ensures Merge(state, staging, order, failAt).1.Ok? ==> Merge(state, staging, order, failAt).0 == state + staging
    ensures Merge(map[], staging, order, None) == (staging, Ok(()))
  {
    MergeKeepsExisting(state, staging, order, failAt);
    MergeSucceedsIff(state, staging, order, failAt);
    MergeKeepsExisting(map[], staging, order, None);
    MergeSucceedsIff(map[], staging, order, None);
    assert !Conflict(map[], staging, order);
    var (s, r) := Merge(map[], staging, order, None);
    assert s == staging && r.Ok? && r.value == ();
  }

  /** A state exported and imported again, merged into an empty directory or replacing any other, is the included files. */
  lemma ExportedStateComesBack(
      a: Archive, files: Files, output: Option<Path>, key: Option<string>, readKey: Option<string>, order: seq<Path>,
      other: Disk)
    requires Packs(a.entries, ExportedFiles(files, output))
    requires a.manifest == Some(SignedManifest(Table(ExportedFiles(files, output)), key))
    requires Tree(files.Keys) && forall p :: p in files ==> SafePath(p)
    requires readKey == None || readKey == key
    requires Accepted(a, readKey).Ok? && forall p :: p in order <==> p in Accepted(a, readKey).value
    ensures var staging := Accepted(a, readKey).value;
            && Merge(map[], staging, order, None) == (ExportedFiles(files, output), Ok(()))
            && Replace(other, staging, NoFault) == (Disk(Some(ExportedFiles(files, output)), None), Ok(()))
  {
    hide Packs, Accepted, Merge, SafePath, Exported, Blocks;
    ExportImports(a, files, output, key, readKey);
    MergeIsUnion(map[], ExportedFiles(files, output), order, None);
  }

  // ----- The importer -----

  class StateDirectory {
    var state: Option<Files>
    var previous: Option<Files>

    ghost function View(): Disk reads this { Disk(state, previous) }

    constructor (state: Option<Files>)
      ensures View() == Disk(state, None)
    {
      this.state, previous := state, None;
    }

    /** `trace` is the disk after each rename and removal. */
    method ReplaceState(staging: Files, fault: Fault) returns (r: Result<()>, ghost trace: seq<Disk>)
      modifies this
      ensures (View(), r) == Replace(old(View()), staging, fault)
      ensures trace == Trace(old(View()), staging, fault) && View() == trace[|trace| - 1]
    {
      TraceEnds(View(), staging, fault);
      trace := [View()];
      if previous.Some? {
        if fault == ClearingStale {
          r := Raise(OperationFailed);
          return;
        }
        previous := None;
        trace := trace + [View()];
      }
      var failed := false;
      if state.Some? {
        if fault == MovingOld {
          failed := true;
        } else {
          previous := state;
          state := None;
          trace := trace + [View()];
        }
      }
      if !failed {
        if fault == MovingNew || fault == MovingNewAndRollback {
          failed := true;
        } else {
          state := Some(staging);
          trace := trace + [View()];
        }
      }
      if failed {
        r := Raise(OperationFailed);
        if state == None && previous.Some? && fault != MovingNewAndRollback {
          state := previous;
          previous := None;
          trace := trace + [View()];
        }
        return;
      }
      if previous.Some? {
        if fault == DiscardingOld {
          r := Raise(OperationFailed);
          return;
        }
        previous := None;
        trace := trace + [View()];
      }
      r := Ok(());
    }

    method MergeState(staging: Files, order: seq<Path>, failAt: Option<nat>) returns (r: Result<()>)
      requires forall p :: p in order ==> p in staging
      modifies this
      ensures previous == old(previous)
      ensures var (s, result) := Merge(if old(state).Some? then old(state).value else map[], staging, order, failAt);
              r == result && state == Some(s)
    {
      var files: Files := if state.Some? then state.value else map[];
      ghost var start := files;
      state := Some(files);
      var left := failAt;
      assert order[0..] == order;
      for i := 0 to |order|
        invariant previous == old(previous) && state == Some(files)
        invariant Merge(files, staging, order[i..], left) == Merge(start, staging, order, failAt)
      {
        assert order[i..][0] == order[i] && order[i..][1..] == order[i + 1..];
        var p := order[i];
        if p in files {
          if files[p] != staging[p] {
            return Raise(FileExists);
          }
        } else {
          if Blocked(files, p) || left == Some(0) {
            return Raise(OperationFailed);
          }
          files := files[p := staging[p]];
          state := Some(files);
        }
        left := if left == None || left.value == 0 then None else Some(left.value - 1);
      }
      r := Ok(());
    }

    /** `import_state`: nothing is touched unless the whole archive has been verified. */
    method ImportState(a: Archive, key: Option<string>, replace: bool, order: seq<Path>, fault: Fault,
                       failAt: Option<nat>) returns (r: Result<()>)
      requires Accepted(a, key).Ok? ==> forall p :: p in order <==> p in Accepted(a, key).value
      modifies this
      ensures Accepted(a, key).Raise? ==> r == Raise(Accepted(a, key).error) && View() == old(View())
      ensures Accepted(a, key).Ok? && replace ==>
                (View(), r) == Replace(old(View()), Accepted(a, key).value, fault)
      ensures Accepted(a, key).Ok? && !replace ==>
                var (s, result) :=
                  Merge(if old(state).Some? then old(state).value else map[], Accepted(a, key).value, order, failAt);
                r == result && state == Some(s) && previous == old(previous)
    {
      hide Replace, Merge, Accepted;
      var staging := ExtractVerified(a, key);
      if staging.Raise? {
        return Raise(staging.error);
      }
      if replace {
        ghost var trace;
        r, trace := ReplaceState(staging.value, fault);
      } else {
        r := MergeState(staging.value, order, failAt);
      }
    }
  }
}
