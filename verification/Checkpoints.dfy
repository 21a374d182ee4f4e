/** Checkpoints stored as chains of block deltas: python/urp/checkpoints.py. */
module Checkpoints {
  import opened Common
  import opened Chunking

  datatype FileName = BaseFile(id: string) | BlockFile(id: string, index: nat)

  datatype Block = Block(index: nat, ref: FileName, size: nat, sha256: Digest)

  datatype Manifest =
    | Base(sha256: Digest, size: nat)
    | Delta(
        baseId: string,
        sha256: Digest,
        size: nat,
        blockSize: nat,
        changed: seq<Block>,
        baseBlockCount: nat,
        targetBlockCount: nat,
        bytesAvoided: nat)
  {
    predicate Valid() { Delta? ==> blockSize > 0 }
  }

  type CheckpointManifest = m: Manifest | m.Valid() witness Base(Sha256([]), 0)

  datatype Store = Store(files: map<FileName, bytes>, manifests: map<string, CheckpointManifest>)

  // ----- Identifiers -----

  predicate AlphaNum(c: char) { 'A' <= c <= 'Z' || 'a' <= c <= 'z' || '0' <= c <= '9' }

  predicate ValidId(id: string) {
    && 1 <= |id| <= 128 && AlphaNum(id[0])
    && forall i :: 0 <= i < |id| ==> AlphaNum(id[i]) || id[i] in {'.', '_', '-'}
  }

  /** An id is 1 to 128 letters, digits, dots, underscores and dashes, the first a letter or a digit, so it stays in its directory. */
  lemma ValidIdIs(id: string)
    ensures ValidId(id) <==>
              && 0 < |id| <= 128 && id[0] !in {'.', '_', '-'}
              && forall i :: 0 <= i < |id| ==>
                   'a' <= id[i] <= 'z' || 'A' <= id[i] <= 'Z' || '0' <= id[i] <= '9' || id[i] in {'.', '_', '-'}
    ensures ValidId(id) ==> '/' !in id && '\\' !in id && id != "." && id != ".."
  {}

  /** The name of a file in the checkpoint directory. */
  function Rendered(f: FileName): string {
    match f
    case BaseFile(id) => id + ".base"
    case BlockFile(id, index) => id + ".block." + Decimal(index)
  }

  lemma LastDot(id: string, d: string)
    requires '.' !in d
    ensures var s := id + ".block." + d;
            && s[|id| + 6] == '.' && (forall i :: |id| + 6 < i < |s| ==> s[i] != '.')
            && s[..|id|] == id && s[|id| + 7..] == d && |s| == |id| + 7 + |d|
  {
    var s := id + ".block." + d;
    assert ".block."[6] == '.' && |".block."| == 7;
    assert s == (id + ".block.") + d;
    assert s[|id| + 6] == ".block."[6];
  }

  /** No two files, of one checkpoint or of two, have the same name, and none is called like a manifest. */
  lemma FileNamesApart(f: FileName, g: FileName, id: string)
    ensures Rendered(f) == Rendered(g) ==> f == g
    ensures Rendered(f) != id + ".json"
  {
    LastOfName(f);
    LastOfName(g);
    assert (id + ".json")[|id + ".json"| - 1] == ".json"[4] == 'n';
    if Rendered(f) == Rendered(g) {
      if f.BlockFile? && g.BlockFile? {
        BlockNamesApart(f.id, f.index, g.id, g.index);
      } else if f.BaseFile? && g.BaseFile? {
        assert |f.id| == |g.id| && Rendered(f)[..|f.id|] == f.id && Rendered(g)[..|g.id|] == g.id;
      }
    }
  }

  lemma BlockNamesApart(x: string, i: nat, y: string, j: nat)
    requires x + ".block." + Decimal(i) == y + ".block." + Decimal(j)
    ensures x == y && i == j
  {
    DecimalSpells(i);
    DecimalSpells(j);
    hide Decimal, NumberOf;
    assert '.' !in Decimal(i) && '.' !in Decimal(j);
    LastDot(x, Decimal(i));
    LastDot(y, Decimal(j));
    assert |x| == |y|;
    assert Decimal(i) == Decimal(j);
  }

  lemma LastOfName(f: FileName)
    ensures var s := Rendered(f);
            s != "" && if f.BaseFile? then s[|s| - 1] == 'e' else '0' <= s[|s| - 1] <= '9'
  {
    if f.BaseFile? {
      assert Rendered(f)[|f.id| + 4] == ".base"[4] == 'e';
    } else {
      DecimalSpells(f.index);
      var d := Decimal(f.index);
      assert Rendered(f)[|Rendered(f)| - 1] == d[|d| - 1];
    }
  }

  // ----- Computing a delta -----

  predicate Differs(base: seq<bytes>, target: seq<bytes>, i: nat)
    requires i < |target|
  {
    i >= |base| || base[i] != target[i]
  }

  /** The changed blocks among the first `n` of the target. */
  function ChangedBlocks(id: string, base: seq<bytes>, target: seq<bytes>, n: nat): seq<Block>
    requires n <= |target|
  {
    if n == 0 then []
    else
      var before := ChangedBlocks(id, base, target, n - 1);
      if Differs(base, target, n - 1)
      then before + [Block(n - 1, BlockFile(id, n - 1), |target[n - 1]|, Sha256(target[n - 1]))]
      else before
  }

  /** The files once those blocks are written. */
  function WriteBlocks(
      files: map<FileName, bytes>, id: string, base: seq<bytes>, target: seq<bytes>, n: nat): map<FileName, bytes>
    requires n <= |target|
  {
    if n == 0 then files
    else
      var before := WriteBlocks(files, id, base, target, n - 1);
      if Differs(base, target, n - 1) then before[BlockFile(id, n - 1) := target[n - 1]] else before
  }

  function SumSizes(changed: seq<Block>): nat {
    if changed == [] then 0 else SumSizes(changed[..|changed| - 1]) + changed[|changed| - 1].size
  }

  function DeltaManifest(id: string, baseId: string, blockSize: nat, base: bytes, data: bytes): CheckpointManifest
    requires blockSize > 0
  {
    var source, target := FixedParts(base, blockSize), FixedParts(data, blockSize);
    var changed := ChangedBlocks(id, source, target, |target|);
    Delta(baseId, Sha256(data), |data|, blockSize, changed, |source|, |target|, Max(0, |data| - SumSizes(changed)))
  }

  // ----- Reading a chain -----

  /** Pad with empty blocks up to `n`. */
  function Pad(blocks: seq<bytes>, n: nat): seq<bytes>
    decreases n - |blocks|
  {
    if |blocks| < n then Pad(blocks + [[]], n) else blocks
  }

  function Overwrite(files: map<FileName, bytes>, blocks: seq<bytes>, changed: seq<Block>): Result<seq<bytes>>
    decreases |changed|
  {
    if changed == [] then Ok(blocks)
    else
      var b := changed[0];
      if b.ref !in files then Raise(FileNotFound)
      else if Sha256(files[b.ref]) != b.sha256 then Raise(ValueError)
      else if b.index >= |blocks| then Raise(IndexError)
      else Overwrite(files, blocks[b.index := files[b.ref]], changed[1..])
  }

  function Rebuild(files: map<FileName, bytes>, base: bytes, m: CheckpointManifest): Result<bytes>
    requires m.Delta?
  {
    var blocks :- Overwrite(files, Pad(FixedParts(base, m.blockSize), m.targetBlockCount), m.changed);
    var joined := Concat(blocks);
    var data := joined[..Min(m.size, |joined|)];
    if Sha256(data) != m.sha256 then Raise(ValueError) else Ok(data)
  }

  /** Reading with room for `frames` nested calls; None when the chain goes deeper. */
  function Read(s: Store, id: string, frames: nat): Option<Result<bytes>>
    decreases frames
  {
    if frames == 0 then None
    else if !ValidId(id) then Some(Raise(ValueError))
    else if id !in s.manifests then Some(Raise(FileNotFound))
    else
      match s.manifests[id]
      case Base(sha256, _) =>
        if BaseFile(id) !in s.files then Some(Raise(FileNotFound))
        else if Sha256(s.files[BaseFile(id)]) != sha256 then Some(Raise(ValueError))
        else Some(Ok(s.files[BaseFile(id)]))
      case Delta(baseId, _, _, _, _, _, _, _) =>
        match Read(s, baseId, frames - 1)
        case None => None
        case Some(Raise(e)) => Some(Raise(e))
        case Some(Ok(base)) => Some(Rebuild(s.files, base, s.manifests[id]))
  }

  /** What the caller sees: the interpreter raises when its stack is full. */
  function ReadWithin(s: Store, id: string, frames: nat): Result<bytes> {
    match Read(s, id, frames) case Some(r) => r case None => Raise(RecursionError)
  }

  /** What raises in a read of a full checkpoint, and with what. */
  lemma FullReadGives(s: Store, id: string, frames: nat)
    requires frames > 0 && (id in s.manifests ==> s.manifests[id].Base?)
    ensures var r, f := ReadWithin(s, id, frames), BaseFile(id);
            if !ValidId(id) then r == Raise(ValueError)
            else if id !in s.manifests || f !in s.files then r == Raise(FileNotFound)
            else r == if s.manifests[id].sha256 == Sha256(s.files[f]) then Ok(s.files[f]) else Raise(ValueError)
    ensures ReadWithin(s, id, 0) == Raise(RecursionError)
  {}

  /** The block's file is there with the digest that was recorded. */
  predicate Intact(files: map<FileName, bytes>, b: Block) { b.ref in files && Sha256(files[b.ref]) == b.sha256 }

  /** A delta is rebuilt, or a block file is missing, or a file or the whole does not have the digest that was recorded. */
  lemma RebuildGives(files: map<FileName, bytes>, base: bytes, m: CheckpointManifest)
    requires m.Delta? && forall i :: 0 <= i < |m.changed| ==> m.changed[i].index < m.targetBlockCount
    ensures var r := Rebuild(files, base, m);
            && (r.Ok? ==> Sha256(r.value) == m.sha256 && forall b :: b in m.changed ==> Intact(files, b))
            && (r.Raise? ==> r.error == ValueError || (r.error == FileNotFound && exists b :: b in m.changed && b.ref !in files))
  {
    hide FixedParts;
    var blocks := Pad(FixedParts(base, m.blockSize), m.targetBlockCount);
    PadIsLong(FixedParts(base, m.blockSize), m.targetBlockCount);
    hide Pad;
    OverwriteGives(files, blocks, m.changed);
  }

  lemma {:induction false} PadIsLong(blocks: seq<bytes>, n: nat)
    ensures |Pad(blocks, n)| >= n
    decreases n - |blocks|
  {
    if |blocks| < n {
      PadIsLong(blocks + [[]], n);
    }
  }

  lemma {:induction false} OverwriteGives(files: map<FileName, bytes>, blocks: seq<bytes>, changed: seq<Block>)
    requires forall i :: 0 <= i < |changed| ==> changed[i].index < |blocks|
    ensures var r := Overwrite(files, blocks, changed);
            && (r.Ok? <==> forall b :: b in changed ==> Intact(files, b))
            && (r.Raise? ==> r.error == ValueError || (r.error == FileNotFound && exists b :: b in changed && b.ref !in files))
    decreases |changed|
  {
    assert changed != [] ==> changed[0] in changed;
    if changed != [] && Intact(files, changed[0]) {
      var b, rest := changed[0], changed[1..];
      assert changed == [b] + rest;
      OverwriteGives(files, blocks[b.index := files[b.ref]], rest);
    }
  }

  /** A bad id is refused with nothing changed, and so is a delta on a base that does not read. */
  lemma PutRefuses(s: Store, blockSize: nat, baseId: string, id: string, data: bytes, base: Result<bytes>)
    requires blockSize > 0
    ensures !ValidId(id) ==> PutBaseSpec(s, id, data) == (s, Raise(ValueError))
    ensures !ValidId(id) || !ValidId(baseId) ==> PutDeltaSpec(s, blockSize, baseId, id, data, base) == (s, Raise(ValueError))
    ensures ValidId(id) && ValidId(baseId) && base.Raise? ==>
              PutDeltaSpec(s, blockSize, baseId, id, data, base) == (s, Raise(base.error))
  {
    hide FixedParts, ChangedBlocks, WriteBlocks, ValidId;
  }

  // ----- Putting -----

  function PutBaseSpec(s: Store, id: string, data: bytes): (Store, Result<CheckpointManifest>) {
    var m: CheckpointManifest := Base(Sha256(data), |data|);
    if !ValidId(id) then (s, Raise(ValueError))
    else (Store(s.files[BaseFile(id) := data], s.manifests[id := m]), Ok(m))
  }

  /** Storing a delta against the bytes `base` that reading its base returned. */
  function PutDeltaSpec(s: Store, blockSize: nat, baseId: string, id: string, data: bytes, base: Result<bytes>)
    : (Store, Result<CheckpointManifest>)
    requires blockSize > 0
  {
    if !ValidId(baseId) || !ValidId(id) then (s, Raise(ValueError))
    else if base.Raise? then (s, Raise(base.error))
    else
      var source, target := FixedParts(base.value, blockSize), FixedParts(data, blockSize);
      var m := DeltaManifest(id, baseId, blockSize, base.value, data);
      (Store(WriteBlocks(s.files, id, source, target, |target|), s.manifests[id := m]), Ok(m))
  }

  class CheckpointDeltaStore {
    const blockSize: nat
    var files: map<FileName, bytes>
    var manifests: map<string, CheckpointManifest>

    ghost function State(): Store reads this { Store(files, manifests) }

    constructor (blockSize: nat)
      requires blockSize > 0
      ensures this.blockSize == blockSize && State() == Store(map[], map[])
    {
      this.blockSize := blockSize;
      files, manifests := map[], map[];
    }

    method PutBase(id: string, data: bytes) returns (r: Result<CheckpointManifest>)
      modifies this
      ensures (State(), r) == PutBaseSpec(old(State()), id, data)
    {
      if !ValidId(id) {
        return Raise(ValueError);
      }
      files := files[BaseFile(id) := data];
      var m: CheckpointManifest := Base(Sha256(data), |data|);
      manifests := manifests[id := m];
      r := Ok(m);
    }

    /** `frames` is how many nested calls the interpreter has room for, this one included. */
    method PutDelta(baseId: string, id: string, data: bytes, frames: nat) returns (r: Result<CheckpointManifest>)
      requires blockSize > 0 && frames > 0
      modifies this
      ensures (State(), r)
           == PutDeltaSpec(old(State()), blockSize, baseId, id, data, ReadWithin(old(State()), baseId, frames - 1))
    {
      hide ReadWithin, FixedParts, ChangedBlocks, WriteBlocks, Located;
      if !ValidId(baseId) || !ValidId(id) {
        return Raise(ValueError);
      }
      var base := ReadCheckpoint(baseId, frames - 1);
      if base.Raise? {
        return Raise(base.error);
      }
      var oldParts := Blocks(base.value, blockSize);
      var target := Blocks(data, blockSize);
      var changed: seq<Block> := [];
      NoBlocks(files, id, oldParts, target);
      for i := 0 to |target|
        invariant unchanged(this`manifests)
        invariant changed == ChangedBlocks(id, oldParts, target, i)
        invariant files == WriteBlocks(old(files), id, oldParts, target, i)
      {
        NextBlock(old(files), id, oldParts, target, i);
        if i >= |oldParts| || oldParts[i] != target[i] {
          var ref := BlockFile(id, i);
          files := files[ref := target[i]];
          changed := changed + [Block(i, ref, |target[i]|, Sha256(target[i]))];
        }
      }
      var m: CheckpointManifest :=
        Delta(baseId, Sha256(data), |data|, blockSize, changed, |oldParts|, |target|,
              Max(0, |data| - SumSizes(changed)));
      manifests := manifests[id := m];
      r := Ok(m);
    }

    method ReadCheckpoint(id: string, frames: nat) returns (r: Result<bytes>)
      ensures r == ReadWithin(State(), id, frames)
      decreases frames
    {
      if frames == 0 {
        return Raise(RecursionError);
      }
      if !ValidId(id) {
        return Raise(ValueError);
      }
      if id !in manifests {
        return Raise(FileNotFound);
      }
      var m := manifests[id];
      if m.Base? {
        if BaseFile(id) !in files {
          return Raise(FileNotFound);
        }
        var data := files[BaseFile(id)];
        return if Sha256(data) != m.sha256 then Raise(ValueError) else Ok(data);
      }
      var base := ReadCheckpoint(m.baseId, frames - 1);
      if base.Raise? {
        return base;
      }
      r := Apply(base.value, m);
    }

    /** The loop part of `read`: pad, overwrite in place, join, cut, check. */
    method Apply(base: bytes, m: CheckpointManifest) returns (r: Result<bytes>)
      requires m.Delta?
      ensures r == Rebuild(files, base, m)
    {
      hide FixedParts, Concat;
      var blocks := Blocks(base, m.blockSize);
      ghost var start := blocks;
      while |blocks| < m.targetBlockCount
        invariant Pad(blocks, m.targetBlockCount) == Pad(start, m.targetBlockCount)
      {
        blocks := blocks + [[]];
      }
      ghost var padded := blocks;
      assert m.changed[0..] == m.changed;
      for i := 0 to |m.changed|
        invariant Overwrite(files, blocks, m.changed[i..]) == Overwrite(files, padded, m.changed)
      {
        assert m.changed[i..][0] == m.changed[i] && m.changed[i..][1..] == m.changed[i + 1..];
        var c := m.changed[i];
        if c.ref !in files {
          return Raise(FileNotFound);
        }
        if Sha256(files[c.ref]) != c.sha256 {
          return Raise(ValueError);
        }
        if c.index >= |blocks| {
          return Raise(IndexError);
        }
        blocks := blocks[c.index := files[c.ref]];
      }
      var joined := Concat(blocks);
      var data := joined[..Min(m.size, |joined|)];
      r := if Sha256(data) != m.sha256 then Raise(ValueError) else Ok(data);
    }

    static method Blocks(data: bytes, blockSize: nat) returns (blocks: seq<bytes>)
      requires blockSize > 0
      ensures blocks == FixedParts(data, blockSize)
    {
      var chunks := FixedChunks(data, blockSize);
      blocks := seq(|chunks.value|, i requires 0 <= i < |chunks.value| => chunks.value[i].data);
      DataOfLocated(FixedParts(data, blockSize), 0);
    }
  }

  lemma {:induction false} DataOfLocated(parts: seq<bytes>, offset: nat)
    ensures var chunks := Located(parts, offset);
            seq(|chunks|, i requires 0 <= i < |chunks| => chunks[i].data) == parts
  {
    var chunks := Located(parts, offset);
    if parts == [] {
      assert seq(|chunks|, i requires 0 <= i < |chunks| => chunks[i].data) == [];
    } else {
      forall i | 0 <= i < |parts|
        ensures |chunks| == |parts| && chunks[i].data == parts[i]
      {
        LocatedContiguous(parts, offset, i);
      }
      assert |chunks| == |parts| by { assert parts[0] == parts[0]; LocatedLength(parts, offset); }
    }
  }

  lemma NoBlocks(files: map<FileName, bytes>, id: string, base: seq<bytes>, target: seq<bytes>)
    ensures ChangedBlocks(id, base, target, 0) == [] && WriteBlocks(files, id, base, target, 0) == files
  {}

  lemma NextBlock(files: map<FileName, bytes>, id: string, base: seq<bytes>, target: seq<bytes>, i: nat)
    requires i < |target|
    ensures ChangedBlocks(id, base, target, i + 1)
         == ChangedBlocks(id, base, target, i)
          + if Differs(base, target, i) then [Block(i, BlockFile(id, i), |target[i]|, Sha256(target[i]))] else []
    ensures WriteBlocks(files, id, base, target, i + 1)
         == if Differs(base, target, i) then WriteBlocks(files, id, base, target, i)[BlockFile(id, i) := target[i]]
            else WriteBlocks(files, id, base, target, i)
  {}

  // ----- A delta rebuilds its target -----

  lemma {:induction false} WrittenBlocks(
      files: map<FileName, bytes>, id: string, base: seq<bytes>, target: seq<bytes>, n: nat, i: nat)
    requires i < n <= |target| && Differs(base, target, i)
    ensures var f := WriteBlocks(files, id, base, target, n);
            BlockFile(id, i) in f && f[BlockFile(id, i)] == target[i]
  {
    if i < n - 1 {
      WrittenBlocks(files, id, base, target, n - 1, i);
    }
  }

  /** `blocks` agrees with the target on its first `n` entries and with the padded base after that. */
  ghost predicate PatchedUpTo(blocks: seq<bytes>, padded: seq<bytes>, target: seq<bytes>, n: nat)
    requires n <= |target| <= |padded|
  {
    && |blocks| == |padded|
    && (forall i :: 0 <= i < n ==> blocks[i] == target[i])
    && (forall i :: n <= i < |padded| ==> blocks[i] == padded[i])
  }

  lemma {:induction false} OverwriteSnoc(files: map<FileName, bytes>, blocks: seq<bytes>, changed: seq<Block>, b: Block)
    ensures Overwrite(files, blocks, changed + [b])
         == match Overwrite(files, blocks, changed)
            case Raise(e) => Raise(e)
            case Ok(done) => Overwrite(files, done, [b])
    decreases |changed|
  {
    if changed == [] {
      assert [] + [b] == [b];
    } else {
      var c := changed[0];
      assert (changed + [b])[0] == c && (changed + [b])[1..] == changed[1..] + [b];
      if c.ref in files && Sha256(files[c.ref]) == c.sha256 && c.index < |blocks| {
        OverwriteSnoc(files, blocks[c.index := files[c.ref]], changed[1..], b);
      }
    }
  }

  lemma OverwriteOne(files: map<FileName, bytes>, blocks: seq<bytes>, b: Block)
    requires b.ref in files && Sha256(files[b.ref]) == b.sha256 && b.index < |blocks|
    ensures Overwrite(files, blocks, [b]) == Ok(blocks[b.index := files[b.ref]])
  {
    assert [b][1..] == [];
  }

  lemma {:induction false} OverwriteReaches(
      files: map<FileName, bytes>, id: string, base: seq<bytes>, target: seq<bytes>, padded: seq<bytes>, n: nat)
    requires n <= |target| <= |padded| && |base| <= |padded|
    requires forall i :: 0 <= i < |base| ==> padded[i] == base[i]
    requires forall i :: 0 <= i < |target| && Differs(base, target, i) ==>
               BlockFile(id, i) in files && files[BlockFile(id, i)] == target[i]
    ensures var r := Overwrite(files, padded, ChangedBlocks(id, base, target, n));
            r.Ok? && PatchedUpTo(r.value, padded, target, n)
  {
    if n > 0 {
      hide Overwrite;
      OverwriteReaches(files, id, base, target, padded, n - 1);
      var before := ChangedBlocks(id, base, target, n - 1);
      var done := Overwrite(files, padded, before).value;
      if Differs(base, target, n - 1) {
        var b := Block(n - 1, BlockFile(id, n - 1), |target[n - 1]|, Sha256(target[n - 1]));
        OverwriteSnoc(files, padded, before, b);
        OverwriteOne(files, done, b);
      }
    } else {
      assert Overwrite(files, padded, []) == Ok(padded);
    }
  }

  lemma {:induction false} PadShape(blocks: seq<bytes>, n: nat)
    ensures |Pad(blocks, n)| == Max(|blocks|, n) && blocks <= Pad(blocks, n)
    decreases n - |blocks|
  {
    if |blocks| < n {
      PadShape(blocks + [[]], n);
    }
  }

  /** For any base and target, of any lengths, applying the delta to the base gives the target back. */
  lemma DeltaRebuilds(files: map<FileName, bytes>, id: string, baseId: string, blockSize: nat, base: bytes, data: bytes)
    requires blockSize > 0
    requires var source, target := FixedParts(base, blockSize), FixedParts(data, blockSize);
             forall i :: 0 <= i < |target| && Differs(source, target, i) ==>
               BlockFile(id, i) in files && files[BlockFile(id, i)] == target[i]
    ensures Rebuild(files, base, DeltaManifest(id, baseId, blockSize, base, data)) == Ok(data)
  {
    hide FixedParts, Overwrite, ChangedBlocks, Pad, Concat;
    var source, target := FixedParts(base, blockSize), FixedParts(data, blockSize);
    var padded := Pad(source, |target|);
    PadShape(source, |target|);
    OverwriteReaches(files, id, source, target, padded, |target|);
    var blocks := Overwrite(files, padded, ChangedBlocks(id, source, target, |target|)).value;
    assert blocks == target + blocks[|target|..];
    ConcatAppend(target, blocks[|target|..]);
    assert Concat(target) == data;
    assert (data + Concat(blocks[|target|..]))[..|data|] == data;
  }

  /** The bytes of the target blocks that the base holds at the same index. */
  function UnchangedBytes(base: seq<bytes>, target: seq<bytes>, n: nat): nat
    requires n <= |target|
  {
    if n == 0 then 0
    else
      UnchangedBytes(base, target, n - 1)
      + if n - 1 < |base| && base[n - 1] == target[n - 1] then |target[n - 1]| else 0
  }

  lemma {:induction false} SizesAddUp(id: string, base: seq<bytes>, target: seq<bytes>, n: nat)
    requires n <= |target|
    ensures SumSizes(ChangedBlocks(id, base, target, n)) + UnchangedBytes(base, target, n) == |Concat(target[..n])|
  {
    if n == 0 {
      assert target[..0] == [];
    } else {
      SizesAddUp(id, base, target, n - 1);
      assert target[..n] == target[..n - 1] + [target[n - 1]];
      ConcatSnoc(target[..n - 1], target[n - 1]);
      var before, all := ChangedBlocks(id, base, target, n - 1), ChangedBlocks(id, base, target, n);
      if Differs(base, target, n - 1) {
        assert all[..|all| - 1] == before;
      }
    }
  }

  /** `bytes_avoided` is the size of the unchanged blocks, so its clamp at zero never acts. */
  lemma BytesAvoidedIsUnchanged(id: string, baseId: string, blockSize: nat, base: bytes, data: bytes)
    requires blockSize > 0
    ensures var m := DeltaManifest(id, baseId, blockSize, base, data);
            var source, target := FixedParts(base, blockSize), FixedParts(data, blockSize);
            && m.bytesAvoided == UnchangedBytes(source, target, |target|)
            && m.bytesAvoided == |data| - SumSizes(m.changed)
  {
    hide FixedParts;
    var source, target := FixedParts(base, blockSize), FixedParts(data, blockSize);
    SizesAddUp(id, source, target, |target|);
    assert target[..|target|] == target;
  }

  /** Each of the changed blocks is the target's block at an index the base does not agree on. */
  lemma {:induction false} ChangedAt(id: string, base: seq<bytes>, target: seq<bytes>, n: nat, k: nat)
    requires n <= |target| && k < |ChangedBlocks(id, base, target, n)|
    ensures var b := ChangedBlocks(id, base, target, n)[k];
            && b.index < n && !(b.index < |base| && base[b.index] == target[b.index])
            && b == Block(b.index, BlockFile(id, b.index), |target[b.index]|, Sha256(target[b.index]))
  {
    if k < |ChangedBlocks(id, base, target, n - 1)| {
      ChangedAt(id, base, target, n - 1, k);
    }
  }

  /** They are in order. */
  lemma {:induction false} ChangedInOrder(id: string, base: seq<bytes>, target: seq<bytes>, n: nat, k: nat, l: nat)
    requires n <= |target| && k < l < |ChangedBlocks(id, base, target, n)|
    ensures ChangedBlocks(id, base, target, n)[k].index < ChangedBlocks(id, base, target, n)[l].index
  {
    if l < |ChangedBlocks(id, base, target, n - 1)| {
      ChangedInOrder(id, base, target, n - 1, k, l);
    } else {
      ChangedAt(id, base, target, n - 1, k);
    }
  }

  /** None is missing. */
  lemma {:induction false} NoChangeMissing(id: string, base: seq<bytes>, target: seq<bytes>, n: nat, i: nat)
    requires i < n <= |target| && !(i < |base| && base[i] == target[i])
    ensures exists k :: 0 <= k < |ChangedBlocks(id, base, target, n)| && ChangedBlocks(id, base, target, n)[k].index == i
  {
    var before, all := ChangedBlocks(id, base, target, n - 1), ChangedBlocks(id, base, target, n);
    if i < n - 1 {
      NoChangeMissing(id, base, target, n - 1, i);
      var k :| 0 <= k < |before| && before[k].index == i;
      assert all[k] == before[k];
    } else {
      assert all[|before|].index == i;
    }
  }

  lemma {:induction false} WrittenAre(
      files: map<FileName, bytes>, id: string, base: seq<bytes>, target: seq<bytes>, n: nat, i: nat)
    requires n <= |target|
    ensures var f, name := WriteBlocks(files, id, base, target, n), BlockFile(id, i);
            if i < n && !(i < |base| && base[i] == target[i]) then name in f && f[name] == target[i]
            else (name in f <==> name in files) && (name in f ==> f[name] == files[name])
  {
    if n > 0 {
      WrittenAre(files, id, base, target, n - 1, i);
    }
  }

  /**
   * A delta records a block, and its put writes that block's file, if and only if
   * the base has no block at the index or another one; every other block file
   * stays as it was.
   */
  lemma DeltaHoldsChanged(
      s: Store, blockSize: nat, baseId: string, id: string, base: bytes, data: bytes, i: nat)
    requires blockSize > 0 && ValidId(baseId) && ValidId(id)
    ensures var s' := PutDeltaSpec(s, blockSize, baseId, id, data, Ok(base)).0;
            var source, target := FixedParts(base, blockSize), FixedParts(data, blockSize);
            var name := BlockFile(id, i);
            && id in s'.manifests && s'.manifests[id].Delta?
            && ((exists k :: 0 <= k < |s'.manifests[id].changed| && s'.manifests[id].changed[k].index == i) <==>
                  i < |target| && (i >= |source| || source[i] != target[i]))
            && (if i < |target| && (i >= |source| || source[i] != target[i])
                then name in s'.files && s'.files[name] == target[i]
                else (name in s'.files <==> name in s.files) && (name in s.files ==> s'.files[name] == s.files[name]))
  {
    hide FixedParts, ChangedBlocks, WriteBlocks, ValidId;
    var source, target := FixedParts(base, blockSize), FixedParts(data, blockSize);
    var changed := ChangedBlocks(id, source, target, |target|);
    forall k | 0 <= k < |changed|
      ensures var j := changed[k].index; j < |target| && (j >= |source| || source[j] != target[j])
    {
      ChangedAt(id, source, target, |target|, k);
    }
    if i < |target| && (i >= |source| || source[i] != target[i]) {
      NoChangeMissing(id, source, target, |target|, i);
    }
    WrittenAre(s.files, id, source, target, |target|, i);
  }

  lemma {:induction false} SameBlocksUnchanged(id: string, blocks: seq<bytes>, n: nat)
    requires n <= |blocks|
    ensures ChangedBlocks(id, blocks, blocks, n) == []
  {
    if n > 0 {
      SameBlocksUnchanged(id, blocks, n - 1);
    }
  }

  /** The same bytes again take no block and avoid all of them. */
  lemma EqualDataTakesNothing(id: string, baseId: string, blockSize: nat, data: bytes)
    requires blockSize > 0
    ensures var m := DeltaManifest(id, baseId, blockSize, data, data); m.changed == [] && m.bytesAvoided == |data|
  {
    SameBlocksUnchanged(id, FixedParts(data, blockSize), |FixedParts(data, blockSize)|);
    hide FixedParts;
  }

  // ----- Runs -----

  /** What every checkpoint was put with, and how many deltas its chain has. */
  datatype History = History(contents: map<string, bytes>, depth: map<string, nat>)

  ghost predicate Stands(s: Store, g: History, id: string)
    requires id in s.manifests && id in g.contents && id in g.depth
  {
    var m := s.manifests[id];
    && ValidId(id)
    && match m
       case Base(sha256, _) =>
         && g.depth[id] == 0
         && BaseFile(id) in s.files && s.files[BaseFile(id)] == g.contents[id]
         && sha256 == Sha256(g.contents[id])
       case Delta(baseId, _, _, blockSize, _, _, _, _) =>
         && baseId in g.contents && baseId in g.depth && g.depth[id] == g.depth[baseId] + 1
         && m == DeltaManifest(id, baseId, blockSize, g.contents[baseId], g.contents[id])
         && var source, target := FixedParts(g.contents[baseId], blockSize), FixedParts(g.contents[id], blockSize);
            forall i :: 0 <= i < |target| && Differs(source, target, i) ==>
              BlockFile(id, i) in s.files && s.files[BlockFile(id, i)] == target[i]
  }

  ghost predicate Sound(s: Store, g: History) {
    && s.manifests.Keys == g.contents.Keys == g.depth.Keys
    && forall id :: id in s.manifests ==> Stands(s, g, id)
  }

  /** In a sound store a read returns what was put if and only if the stack has room for its chain, and else overflows it. */
  lemma {:induction false} SoundReads(s: Store, g: History, id: string, frames: nat)
    requires Sound(s, g) && id in g.contents
    ensures Read(s, id, frames) == if g.depth[id] < frames then Some(Ok(g.contents[id])) else None
    decreases frames
  {
    hide Stands, ValidId, FixedParts, Rebuild, DeltaManifest;
    if frames > 0 {
      StandsFacts(s, g, id);
      if s.manifests[id].Delta? {
        DeltaFacts(s, g, id);
        SoundReads(s, g, s.manifests[id].baseId, frames - 1);
      } else {
        BaseFacts(s, g, id);
      }
    }
  }

  lemma BaseFacts(s: Store, g: History, id: string)
    requires id in s.manifests && id in g.contents && id in g.depth && Stands(s, g, id) && s.manifests[id].Base?
    ensures BaseFile(id) in s.files && s.files[BaseFile(id)] == g.contents[id]
    ensures s.manifests[id].sha256 == Sha256(g.contents[id]) && g.depth[id] == 0
  {}

  lemma DeltaFacts(s: Store, g: History, id: string)
    requires id in s.manifests && id in g.contents && id in g.depth && Stands(s, g, id) && s.manifests[id].Delta?
    ensures var baseId := s.manifests[id].baseId;
            && baseId in g.contents && baseId in g.depth && g.depth[id] == g.depth[baseId] + 1
            && Rebuild(s.files, g.contents[baseId], s.manifests[id]) == Ok(g.contents[id])
  {
    hide ValidId, FixedParts, Rebuild, DeltaManifest;
    var m := s.manifests[id];
    DeltaRebuilds(s.files, id, m.baseId, m.blockSize, g.contents[m.baseId], g.contents[id]);
  }

  lemma {:induction false} WriteBlocksFrame(
      files: map<FileName, bytes>, id: string, base: seq<bytes>, target: seq<bytes>, n: nat, f: FileName)
    requires n <= |target| && f in files && !(f.BlockFile? && f.id == id)
    ensures f in WriteBlocks(files, id, base, target, n) && WriteBlocks(files, id, base, target, n)[f] == files[f]
  {
    if n > 0 {
      WriteBlocksFrame(files, id, base, target, n - 1, f);
    }
  }

  /** Files of other checkpoints are all that a standing checkpoint needs kept. */
  lemma StandsFrame(s: Store, s': Store, g: History, g': History, id: string)
    requires id in s.manifests && id in g.contents && id in g.depth && Stands(s, g, id)
    requires id in s'.manifests && s'.manifests[id] == s.manifests[id]
    requires forall k :: k in g.contents ==> k in g'.contents && g'.contents[k] == g.contents[k]
    requires forall k :: k in g.depth ==> k in g'.depth && g'.depth[k] == g.depth[k]
    requires forall f :: f in s.files && f.id == id ==> f in s'.files && s'.files[f] == s.files[f]
    ensures Stands(s', g', id)
  {
    hide FixedParts, DeltaManifest, ValidId;
  }

  lemma PutBaseSound(s: Store, g: History, id: string, data: bytes)
    requires Sound(s, g) && ValidId(id) && id !in s.manifests
    ensures Sound(PutBaseSpec(s, id, data).0, History(g.contents[id := data], g.depth[id := 0]))
  {
    hide Stands, ValidId;
    var s', g' := PutBaseSpec(s, id, data).0, History(g.contents[id := data], g.depth[id := 0]);
    forall k | k in s'.manifests
      ensures Stands(s', g', k)
    {
      if k == id {
        BaseStands(s', g', id);
      } else {
        StandsFrame(s, s', g, g', k);
      }
    }
  }

  lemma BaseStands(s: Store, g: History, id: string)
    requires id in s.manifests && id in g.contents && id in g.depth && ValidId(id)
    requires s.manifests[id] == Base(Sha256(g.contents[id]), |g.contents[id]|) && g.depth[id] == 0
    requires BaseFile(id) in s.files && s.files[BaseFile(id)] == g.contents[id]
    ensures Stands(s, g, id)
  {
    hide ValidId;
  }

  lemma PutDeltaSound(s: Store, g: History, blockSize: nat, baseId: string, id: string, data: bytes)
    requires Sound(s, g) && blockSize > 0 && ValidId(id) && baseId in s.manifests && id !in s.manifests
    ensures Sound(PutDeltaSpec(s, blockSize, baseId, id, data, Ok(g.contents[baseId])).0,
                  History(g.contents[id := data], g.depth[id := g.depth[baseId] + 1]))
  {
    hide Stands, ValidId, FixedParts, WriteBlocks, DeltaManifest;
    assert ValidId(baseId) by { StandsFacts(s, g, baseId); }
    var base := g.contents[baseId];
    var s' := PutDeltaSpec(s, blockSize, baseId, id, data, Ok(base)).0;
    var g' := History(g.contents[id := data], g.depth[id := g.depth[baseId] + 1]);
    var source, target := FixedParts(base, blockSize), FixedParts(data, blockSize);
    forall k | k in s'.manifests
      ensures Stands(s', g', k)
    {
      if k == id {
        DeltaStands(s, s', g', blockSize, baseId, id);
      } else {
        forall f | f in s.files && f.id == k
          ensures f in s'.files && s'.files[f] == s.files[f]
        {
          WriteBlocksFrame(s.files, id, source, target, |target|, f);
        }
        StandsFrame(s, s', g, g', k);
      }
    }
  }

  lemma StandsFacts(s: Store, g: History, id: string)
    requires id in s.manifests && id in g.contents && id in g.depth && Stands(s, g, id)
    ensures ValidId(id)
  {}

  lemma DeltaStands(s: Store, s': Store, g: History, blockSize: nat, baseId: string, id: string)
    requires blockSize > 0 && ValidId(id) && id in g.contents && id in g.depth && baseId in g.contents && baseId in g.depth
    requires id in s'.manifests && g.depth[id] == g.depth[baseId] + 1
    requires s'.manifests[id] == DeltaManifest(id, baseId, blockSize, g.contents[baseId], g.contents[id])
    requires var source, target := FixedParts(g.contents[baseId], blockSize), FixedParts(g.contents[id], blockSize);
             s'.files == WriteBlocks(s.files, id, source, target, |target|)
    ensures Stands(s', g, id)
  {
    hide ValidId, FixedParts, ChangedBlocks, WriteBlocks;
    var source, target := FixedParts(g.contents[baseId], blockSize), FixedParts(g.contents[id], blockSize);
    forall i | 0 <= i < |target| && Differs(source, target, i)
      ensures BlockFile(id, i) in s'.files && s'.files[BlockFile(id, i)] == target[i]
    {
      WrittenBlocks(s.files, id, source, target, |target|, i);
    }
  }

  /** One call on the store; a crash writes some files of a checkpoint and no manifest. */
  datatype Op =
    | Full(id: string, data: bytes)
    | Diff(id: string, data: bytes, baseId: string, blockSize: nat)
    | CrashedFull(id: string, data: bytes)
    | CrashedDiff(id: string, data: bytes, baseId: string, blockSize: nat, written: nat)

  predicate IsDiff(op: Op) { op.Diff? || op.CrashedDiff? }

  /** One call by a caller with room for `frames` nested calls; a delta put spends one before it reads its base. */
  function Step(s: Store, op: Op, frames: nat): (Store, Result<CheckpointManifest>)
    requires frames > 0 && (IsDiff(op) ==> op.blockSize > 0)
  {
    match op
    case Full(id, data) => PutBaseSpec(s, id, data)
    case Diff(id, data, baseId, blockSize) =>
      PutDeltaSpec(s, blockSize, baseId, id, data, ReadWithin(s, baseId, frames - 1))
    case CrashedFull(id, data) =>
      (if ValidId(id) then s.(files := s.files[BaseFile(id) := data]) else s, Raise(OperationFailed))
    case CrashedDiff(id, data, baseId, blockSize, written) =>
      var base := ReadWithin(s, baseId, frames - 1);
      if !ValidId(baseId) || !ValidId(id) then (s, Raise(ValueError))
      else if base.Raise? then (s, Raise(base.error))
      else
        var source, target := FixedParts(base.value, blockSize), FixedParts(data, blockSize);
        (s.(files := WriteBlocks(s.files, id, source, target, Min(written, |target|))), Raise(OperationFailed))
  }

  /** A crashed full put has done what the complete one does, but for the manifest. */
  lemma CrashedFullIsPart(s: Store, id: string, data: bytes, frames: nat)
    requires frames > 0
    ensures Step(s, CrashedFull(id, data), frames).0 == Store(Step(s, Full(id, data), frames).0.files, s.manifests)
  {}

  /** So has a crashed delta put that wrote all its blocks, and one that did not come that far has written the first ones alone. */
  lemma CrashedDiffIsPart(s: Store, id: string, data: bytes, baseId: string, blockSize: nat, written: nat, frames: nat, i: nat)
    requires frames > 0 && blockSize > 0
    ensures var full := Step(s, Diff(id, data, baseId, blockSize), frames);
            var part := Step(s, CrashedDiff(id, data, baseId, blockSize, written), frames).0;
            var source, name := if i < written then full.0 else s, BlockFile(id, i);
            && part.manifests == s.manifests
            && (full.1.Raise? ==> part == s)
            && (name in part.files <==> name in source.files)
            && (name in part.files ==> part.files[name] == source.files[name])
  {
    var base := ReadWithin(s, baseId, frames - 1);
    if ValidId(baseId) && ValidId(id) && base.Ok? {
      hide ReadWithin, FixedParts, DeltaManifest, WriteBlocks, ValidId;
      var source, target := FixedParts(base.value, blockSize), FixedParts(data, blockSize);
      WrittenAre(s.files, id, source, target, |target|, i);
      WrittenAre(s.files, id, source, target, Min(written, |target|), i);
    }
  }

  predicate Sized(ops: seq<Op>) { forall i :: 0 <= i < |ops| && IsDiff(ops[i]) ==> ops[i].blockSize > 0 }

  function Run(s: Store, ops: seq<Op>, frames: nat): Store
    requires frames > 0 && Sized(ops)
    decreases |ops|
  {
    if ops == [] then s else Run(Step(s, ops[0], frames).0, ops[1..], frames)
  }

  /** Every operation names a checkpoint that has not been put yet. */
  ghost predicate Fresh(s: Store, ops: seq<Op>, frames: nat)
    requires frames > 0 && Sized(ops)
    decreases |ops|
  {
    ops == [] || (ops[0].id !in s.manifests && Fresh(Step(s, ops[0], frames).0, ops[1..], frames))
  }

  lemma CrashSound(s: Store, s': Store, g: History, id: string)
    requires Sound(s, g) && id !in s.manifests && s'.manifests == s.manifests
    requires forall f :: f in s.files && f.id != id ==> f in s'.files && s'.files[f] == s.files[f]
    ensures Sound(s', g)
  {
    hide Stands;
    forall k | k in s'.manifests
      ensures Stands(s', g, k)
    {
      StandsFrame(s, s', g, g, k);
    }
  }

  /** The later history knows all that the earlier one does. */
  ghost predicate Remembers(g: History, g': History) {
    && (forall k :: k in g.contents ==> k in g'.contents && g'.contents[k] == g.contents[k])
    && (forall k :: k in g.depth ==> k in g'.depth && g'.depth[k] == g.depth[k])
  }

  /** A step on a fresh id keeps the store sound; a put that succeeds records its bytes in a chain the stack has room for. */
  lemma StepSound(s: Store, g: History, op: Op, frames: nat) returns (g': History)
    requires Sound(s, g) && op.id !in s.manifests && frames > 0 && (IsDiff(op) ==> op.blockSize > 0)
    ensures Sound(Step(s, op, frames).0, g') && Remembers(g, g')
    ensures Step(s, op, frames).1.Ok? ==>
              op.id in g'.contents && op.id in g'.depth && g'.contents[op.id] == op.data && g'.depth[op.id] < frames
  {
    hide Stands, FixedParts, WriteBlocks, ValidId, ReadWithin, DeltaManifest;
    g' := g;
    match op
    case Full(id, data) =>
      if ValidId(id) {
        PutBaseSound(s, g, id, data);
        g' := History(g.contents[id := data], g.depth[id := 0]);
      }
    case Diff(id, data, baseId, blockSize) =>
      ReadIsContents(s, g, baseId, frames - 1);
      if ReadWithin(s, baseId, frames - 1).Ok? && ValidId(id) && ValidId(baseId) {
        PutDeltaSound(s, g, blockSize, baseId, id, data);
        g' := History(g.contents[id := data], g.depth[id := g.depth[baseId] + 1]);
      }
    case CrashedFull(id, data) =>
      CrashSound(s, Step(s, op, frames).0, g, id);
    case CrashedDiff(id, data, baseId, blockSize, written) =>
      var base := ReadWithin(s, baseId, frames - 1);
      if base.Ok? && ValidId(id) && ValidId(baseId) {
        var source, target := FixedParts(base.value, blockSize), FixedParts(data, blockSize);
        forall f | f in s.files && f.id != id
          ensures f in Step(s, op, frames).0.files && Step(s, op, frames).0.files[f] == s.files[f]
        {
          WriteBlocksFrame(s.files, id, source, target, Min(written, |target|), f);
        }
        CrashSound(s, Step(s, op, frames).0, g, id);
      }
  }

  /** Reading succeeds exactly for what was put in a chain the stack has room for, and gives what was put. */
  lemma ReadIsContents(s: Store, g: History, id: string, frames: nat)
    requires Sound(s, g)
    ensures ReadWithin(s, id, frames).Ok? <==> id in g.contents && g.depth[id] < frames
    ensures ReadWithin(s, id, frames).Ok? ==> ReadWithin(s, id, frames) == Ok(g.contents[id])
  {
    hide Stands, ValidId;
    if id in g.contents {
      hide Read;
      SoundReads(s, g, id, frames);
    }
  }

  lemma {:induction false} RunSound(s: Store, g: History, ops: seq<Op>, frames: nat) returns (g': History)
    requires frames > 0 && Sized(ops) && Sound(s, g) && Fresh(s, ops, frames)
    ensures Sound(Run(s, ops, frames), g') && Remembers(g, g')
    decreases |ops|
  {
    g' := g;
    if ops != [] {
      hide Sound, Step, Remembers;
      var g1 := StepSound(s, g, ops[0], frames);
      g' := RunSound(Step(s, ops[0], frames).0, g1, ops[1..], frames);
      RemembersTrans(g, g1, g');
    } else {
      hide Sound;
    }
  }

  lemma RemembersTrans(a: History, b: History, c: History)
    requires Remembers(a, b) && Remembers(b, c)
    ensures Remembers(a, c)
  {}

  const EMPTY := Store(map[], map[])

  /**
   * With fresh ids, over any run of base and delta puts of any lengths, chains
   * of any depth and crashes between files: a put that succeeded reads back its
   * bytes, whatever is put or crashes afterwards, by every caller with at least
   * the stack that the puts had.
   */
  lemma PutsReadBack(before: seq<Op>, op: Op, after: seq<Op>, frames: nat, room: nat)
    requires 0 < frames <= room && Sized(before) && (IsDiff(op) ==> op.blockSize > 0) && Sized(after)
    requires Fresh(EMPTY, before, frames)
    requires var s := Run(EMPTY, before, frames);
             && op.id !in s.manifests
             && Fresh(Step(s, op, frames).0, after, frames)
             && Step(s, op, frames).1.Ok?
    ensures var s := Run(EMPTY, before, frames);
            ReadWithin(Run(Step(s, op, frames).0, after, frames), op.id, room) == Ok(op.data)
  {
    hide Step, Stands, ReadWithin;
    var g0 := RunSound(EMPTY, History(map[], map[]), before, frames);
    var s := Run(EMPTY, before, frames);
    var g1 := StepSound(s, g0, op, frames);
    var s1 := Step(s, op, frames).0;
    var g2 := RunSound(s1, g1, after, frames);
    ReadIsContents(Run(s1, after, frames), g2, op.id, room);
  }

  // ----- Files that change, and ids that are reused -----

  /** Whatever happens to the files, a read that returns gives bytes matching the manifest's digest. */
  lemma ReadMatchesManifest(s: Store, files: map<FileName, bytes>, id: string, frames: nat)
    requires id in s.manifests
    ensures match Read(s.(files := files), id, frames)
            case Some(Ok(data)) => data == s.manifests[id].sha256.content
            case _ => true
  {}

  /** `id` is `from` or one of its first `steps` ancestors. */
  predicate OnChain(s: Store, from: string, id: string, steps: nat)
    decreases steps
  {
    from == id ||
    (&& steps > 0 && ValidId(from) && from in s.manifests && s.manifests[from].Delta?
     && OnChain(s, s.manifests[from].baseId, id, steps - 1))
  }

  /** Every delta refers to block files of its own id, as `put_delta` names them. */
  ghost predicate OwnFiles(s: Store) {
    forall k :: k in s.manifests && s.manifests[k].Delta? ==>
      forall i :: 0 <= i < |s.manifests[k].changed| ==> s.manifests[k].changed[i].ref.id == k
  }

  lemma {:induction false} ChangedAreOwn(id: string, base: seq<bytes>, target: seq<bytes>, n: nat)
    requires n <= |target|
    ensures forall i :: 0 <= i < |ChangedBlocks(id, base, target, n)| ==> ChangedBlocks(id, base, target, n)[i].ref.id == id
  {
    if n > 0 {
      ChangedAreOwn(id, base, target, n - 1);
    }
  }

  /** Every call keeps it, whether or not its id is fresh. */
  lemma StepKeepsOwnFiles(s: Store, op: Op, frames: nat)
    requires OwnFiles(s) && frames > 0 && (IsDiff(op) ==> op.blockSize > 0)
    ensures OwnFiles(Step(s, op, frames).0)
  {
    hide FixedParts, WriteBlocks, ChangedBlocks, ValidId, ReadWithin;
    if op.Diff? && Step(s, op, frames).1.Ok? {
      var base := ReadWithin(s, op.baseId, frames - 1).value;
      var target := FixedParts(op.data, op.blockSize);
      ChangedAreOwn(op.id, FixedParts(base, op.blockSize), target, |target|);
    }
  }

  lemma {:induction false} RunKeepsOwnFiles(s: Store, ops: seq<Op>, frames: nat)
    requires OwnFiles(s) && frames > 0 && Sized(ops)
    ensures OwnFiles(Run(s, ops, frames))
    decreases |ops|
  {
    if ops != [] {
      hide Step, OwnFiles;
      StepKeepsOwnFiles(s, ops[0], frames);
      RunKeepsOwnFiles(Step(s, ops[0], frames).0, ops[1..], frames);
    }
  }

  lemma {:induction false} OverwriteFrame(
      f: map<FileName, bytes>, f': map<FileName, bytes>, blocks: seq<bytes>, changed: seq<Block>)
    requires forall i :: 0 <= i < |changed| ==>
               (changed[i].ref in f <==> changed[i].ref in f')
               && (changed[i].ref in f ==> f'[changed[i].ref] == f[changed[i].ref])
    ensures Overwrite(f', blocks, changed) == Overwrite(f, blocks, changed)
    decreases |changed|
  {
    if changed != [] && changed[0].ref in f && changed[0].index < |blocks| {
      OverwriteFrame(f, f', blocks[changed[0].index := f[changed[0].ref]], changed[1..]);
    }
  }

  /** Nothing that belongs to an id other than `id` differs between the two stores. */
  ghost predicate SameBut(s: Store, s': Store, id: string) {
    && (forall k :: k != id ==> (k in s.manifests <==> k in s'.manifests))
    && (forall k :: k != id && k in s.manifests ==> s'.manifests[k] == s.manifests[k])
    && (forall f: FileName :: f.id != id ==> (f in s.files <==> f in s'.files))
    && (forall f: FileName :: f.id != id && f in s.files ==> s'.files[f] == s.files[f])
  }

  lemma {:induction false} ReadOffChain(s: Store, s': Store, id: string, from: string, frames: nat)
    requires OwnFiles(s) && SameBut(s, s', id) && !OnChain(s, from, id, frames)
    ensures Read(s', from, frames) == Read(s, from, frames)
    decreases frames
  {
    if frames > 0 && ValidId(from) && from in s.manifests && s.manifests[from].Delta? {
      hide FixedParts, Pad, ValidId, Overwrite;
      var m := s.manifests[from];
      ReadOffChain(s, s', id, m.baseId, frames - 1);
      forall b | Read(s, m.baseId, frames - 1) == Some(Ok(b))
        ensures Rebuild(s'.files, b, m) == Rebuild(s.files, b, m)
      {
        OverwriteFrame(s.files, s'.files, Pad(FixedParts(b, m.blockSize), m.targetBlockCount), m.changed);
      }
    }
  }

  lemma {:induction false} ReadOnLoop(s: Store, s': Store, id: string, baseId: string, n: nat, x: string, k: nat, frames: nat)
    requires SameBut(s, s', id) && ValidId(id) && id in s'.manifests
    requires s'.manifests[id].Delta? && s'.manifests[id].baseId == baseId
    requires OnChain(s, baseId, id, n) && OnChain(s, x, id, k)
    ensures Read(s', x, frames) == None
    decreases frames
  {
    if frames > 0 {
      hide ValidId, Rebuild;
      if x == id {
        ReadOnLoop(s, s', id, baseId, n, baseId, n, frames - 1);
      } else {
        ReadOnLoop(s, s', id, baseId, n, s.manifests[x].baseId, k - 1, frames - 1);
      }
    }
  }

  lemma WriteBlocksOnlyOwn(
      files: map<FileName, bytes>, id: string, base: seq<bytes>, target: seq<bytes>, n: nat, f: FileName)
    requires n <= |target| && f.id != id
    ensures f in files <==> f in WriteBlocks(files, id, base, target, n)
    ensures f in files ==> WriteBlocks(files, id, base, target, n)[f] == files[f]
  {}

  /** A call changes nothing that belongs to another id. */
  lemma StepSameBut(s: Store, op: Op, frames: nat)
    requires frames > 0 && (IsDiff(op) ==> op.blockSize > 0)
    ensures SameBut(s, Step(s, op, frames).0, op.id)
  {
    hide FixedParts, WriteBlocks, ChangedBlocks, ValidId, ReadWithin;
    var s' := Step(s, op, frames).0;
    if IsDiff(op) && ReadWithin(s, op.baseId, frames - 1).Ok? {
      var base := ReadWithin(s, op.baseId, frames - 1).value;
      var source, target := FixedParts(base, op.blockSize), FixedParts(op.data, op.blockSize);
      var n := if op.Diff? then |target| else Min(op.written, |target|);
      forall f: FileName | f.id != op.id
        ensures f in s.files <==> f in s'.files
        ensures f in s.files ==> s'.files[f] == s.files[f]
      {
        WriteBlocksOnlyOwn(s.files, op.id, source, target, n, f);
      }
    }
  }

  /**
   * Without any assumption on ids, after any run: a call under `op.id`, fresh or
   * not, complete or crashed, changes no read of a checkpoint whose chain does
   * not hold `op.id`.
   */
  lemma OffChainUnchanged(before: seq<Op>, op: Op, frames: nat, id: string, room: nat)
    requires frames > 0 && Sized(before) && (IsDiff(op) ==> op.blockSize > 0)
    requires !OnChain(Run(EMPTY, before, frames), id, op.id, room)
    ensures var s := Run(EMPTY, before, frames);
            Read(Step(s, op, frames).0, id, room) == Read(s, id, room)
  {
    hide Step, Run, OnChain, SameBut, Read;
    RunKeepsOwnFiles(EMPTY, before, frames) by { assert OwnFiles(EMPTY); }
    var s := Run(EMPTY, before, frames);
    StepSameBut(s, op, frames);
    ReadOffChain(s, Step(s, op, frames).0, op.id, id, room);
  }

  /**
   * Without any assumption on ids, after any run: a delta put that succeeds
   * reads back if and only if its id is neither its base nor an ancestor of the
   * base. Otherwise the chain is a loop and the read overflows every stack.
   */
  lemma DeltaReadsBackIff(before: seq<Op>, op: Op, frames: nat)
    requires frames > 0 && Sized(before) && op.Diff? && op.blockSize > 0
    requires Step(Run(EMPTY, before, frames), op, frames).1.Ok?
    ensures var s := Run(EMPTY, before, frames);
            var s' := Step(s, op, frames).0;
            && (!OnChain(s, op.baseId, op.id, frames - 1) ==> Read(s', op.id, frames) == Some(Ok(op.data)))
            && (OnChain(s, op.baseId, op.id, frames - 1) ==> forall f :: Read(s', op.id, f) == None)
  {
    hide FixedParts, ChangedBlocks, WriteBlocks, Rebuild, ValidId, Overwrite, Run, Sized;
    RunKeepsOwnFiles(EMPTY, before, frames) by { assert OwnFiles(EMPTY); }
    var s := Run(EMPTY, before, frames);
    var s' := Step(s, op, frames).0;
    StepSameBut(s, op, frames);
    var base := ReadWithin(s, op.baseId, frames - 1).value;
    if OnChain(s, op.baseId, op.id, frames - 1) {
      forall f
        ensures Read(s', op.id, f) == None
      {
        ReadOnLoop(s, s', op.id, op.baseId, frames - 1, op.id, 0, f);
      }
    } else {
      ReadOffChain(s, s', op.id, op.baseId, frames - 1);
      WrittenDeltaRebuilds(s.files, op.id, op.baseId, op.blockSize, base, op.data);
    }
  }

  /** The blocks a delta put writes rebuild its bytes. */
  lemma WrittenDeltaRebuilds(
      files: map<FileName, bytes>, id: string, baseId: string, blockSize: nat, base: bytes, data: bytes)
    requires blockSize > 0
    ensures var source, target := FixedParts(base, blockSize), FixedParts(data, blockSize);
            Rebuild(WriteBlocks(files, id, source, target, |target|), base, DeltaManifest(id, baseId, blockSize, base, data))
            == Ok(data)
  {
    hide FixedParts, ChangedBlocks, WriteBlocks, Rebuild, Overwrite;
    var source, target := FixedParts(base, blockSize), FixedParts(data, blockSize);
    var files' := WriteBlocks(files, id, source, target, |target|);
    forall i | 0 <= i < |target| && Differs(source, target, i)
      ensures BlockFile(id, i) in files' && files'[BlockFile(id, i)] == target[i]
    {
      WrittenBlocks(files, id, source, target, |target|, i);
    }
    DeltaRebuilds(files', id, baseId, blockSize, base, data);
  }

  lemma OnePut(s: Store, op: Op, rest: seq<Op>, frames: nat)
    requires frames > 0 && Sized([op] + rest)
    ensures (IsDiff(op) ==> op.blockSize > 0) && Sized(rest)
    ensures Run(s, [op] + rest, frames) == Run(Step(s, op, frames).0, rest, frames)
  {
    hide Step;
    var ops := [op] + rest;
    assert ops[0] == op && ops[1..] == rest;
    assert forall i :: 0 <= i < |rest| ==> rest[i] == ops[i + 1];
  }

  /** A base and a delta on it, put by a caller with room for two nested calls or more. */
  lemma BaseAndDelta(a: string, x: bytes, b: string, y: bytes, blockSize: nat, frames: nat) returns (g: History)
    requires ValidId(a) && ValidId(b) && a != b && blockSize > 0 && frames >= 2
    ensures var ops := [Full(a, x)] + ([Diff(b, y, a, blockSize)] + []);
            Sized(ops) &&
            var s := Run(EMPTY, ops, frames);
            && Sound(s, g) && g == History(map[a := x, b := y], map[a := 0, b := 1])
            && s.manifests[b].Delta? && s.manifests[b].baseId == a
  {
    hide Stands, ValidId, FixedParts, WriteBlocks, ReadWithin;
    var p1, p2 := Full(a, x), Diff(b, y, a, blockSize);
    OnePut(EMPTY, p1, [p2] + [], frames);
    var s1 := Step(EMPTY, p1, frames).0;
    var g1 := History(map[a := x], map[a := 0]);
    PutBaseSound(EMPTY, History(map[], map[]), a, x);
    ReadIsContents(s1, g1, a, frames - 1);
    OnePut(s1, p2, [], frames);
    PutDeltaSound(s1, g1, blockSize, a, b, y);
    g := History(map[a := x, b := y], map[a := 0, b := 1]);
    assert g == History(g1.contents[b := y], g1.depth[b := 1]);
  }

  /** A stored chain can be longer than a reader's stack: the delta just put needs two nested reads. */
  lemma ShortStackIsReachable(a: string, x: bytes, b: string, y: bytes, blockSize: nat, frames: nat)
    requires ValidId(a) && ValidId(b) && a != b && blockSize > 0 && frames >= 2
    ensures var ops := [Full(a, x)] + ([Diff(b, y, a, blockSize)] + []);
            Sized(ops) &&
            var s := Run(EMPTY, ops, frames);
            ReadWithin(s, b, 2) == Ok(y) && ReadWithin(s, b, 1) == Raise(RecursionError)
  {
    hide Run, Sound, Read, ValidId;
    var g := BaseAndDelta(a, x, b, y, blockSize, frames);
    var s := Run(EMPTY, [Full(a, x)] + ([Diff(b, y, a, blockSize)] + []), frames);
    assert b in g.contents by { assert g.contents[b] == y; }
    SoundReads(s, g, b, 2);
    SoundReads(s, g, b, 1);
  }

  /** A loop can be put: the base again as a delta on its own delta. The put succeeds and no read of it ends. */
  lemma LoopIsReachable(a: string, x: bytes, b: string, y: bytes, z: bytes, blockSize: nat, frames: nat)
    requires ValidId(a) && ValidId(b) && a != b && blockSize > 0 && frames >= 3
    ensures var ops := [Full(a, x)] + ([Diff(b, y, a, blockSize)] + []);
            Sized(ops) &&
            var s := Run(EMPTY, ops, frames);
            var op := Diff(a, z, b, blockSize);
            && Step(s, op, frames).1.Ok?
            && OnChain(s, b, a, frames - 1)
            && forall f :: Read(Step(s, op, frames).0, a, f) == None
  {
    hide Run, Sound, Read, ValidId, FixedParts, WriteBlocks, DeltaManifest;
    var g := BaseAndDelta(a, x, b, y, blockSize, frames);
    var ops := [Full(a, x)] + ([Diff(b, y, a, blockSize)] + []);
    var s, op := Run(EMPTY, ops, frames), Diff(a, z, b, blockSize);
    assert b in g.contents by { assert g.contents[b] == y; }
    SoundReads(s, g, b, frames - 1);
    assert b in s.manifests by { SoundKeys(s, g); }
    DeltaReadsBackIff(ops, op, frames);
  }

  lemma SoundKeys(s: Store, g: History)
    requires Sound(s, g)
    ensures s.manifests.Keys == g.contents.Keys
  {}
}
