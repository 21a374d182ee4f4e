/** S3-style multipart uploads: the multipart methods of python/urp/adapters.py. */
module Multipart {
  import opened Common
  import Text

  datatype Status = Open | Completing

  datatype PartRecord = PartRecord(sha256: Digest, size: nat)

  datatype Meta = Meta(tenant: string, bucket: string, key: string, parts: map<nat, PartRecord>, status: Status)

  /** The upload's directory; `meta` is its meta.json, `files` its part files by number. */
  datatype Upload = Upload(present: bool, meta: Option<Meta>, files: map<nat, bytes>)

  const GONE := Upload(false, None, map[])

  // ----- Part numbers in ascending order -----

  lemma {:induction false} LeastExists(s: set<nat>)
    requires s != {}
    ensures exists m :: m in s && forall x :: x in s ==> m <= x
  {
    var a :| a in s;
    var rest := s - {a};
    if rest == {} {
      assert s == {a};
      assert a in s && forall x :: x in s ==> a <= x;
    } else {
      LeastExists(rest);
      var m :| m in rest && forall x :: x in rest ==> m <= x;
      var least := Min(a, m);
      assert forall x :: x in s ==> x == a || x in rest;
      assert least in s && forall x :: x in s ==> least <= x;
    }
  }

  function Least(s: set<nat>): (m: nat)
    requires s != {}
    ensures m in s && forall x :: x in s ==> m <= x
  {
    LeastExists(s);
    var m :| m in s && forall x :: x in s ==> m <= x;
    m
  }

  /** `sorted(...)` of the part numbers. */
  function Ascending(numbers: set<nat>): (r: seq<nat>)
    ensures forall n :: n in r <==> n in numbers
    ensures forall i, j :: 0 <= i < j < |r| ==> r[i] < r[j]
    decreases |numbers|
  {
    if numbers == {} then [] else [Least(numbers)] + Ascending(numbers - {Least(numbers)})
  }

  // ----- The locked sections -----

  /** The checks every locked section starts with. */
  function OpenMeta(u: Upload, tenant: string): Result<Meta> {
    if !u.present then Raise(KeyError)
    else if u.meta == None then Raise(FileNotFound)
    else if u.meta.value.tenant != tenant then Raise(TenantMismatch)
    else if u.meta.value.status != Open then Raise(ValueError)
    else Ok(u.meta.value)
  }

  function CheckUpload(u: Upload, tenant: string, number: int): Result<Meta> {
    if number <= 0 || number > 10_000 then Raise(ValueError) else OpenMeta(u, tenant)
  }

  /** The directory after the part file is written and before the meta is. */
  function WritePartFile(u: Upload, tenant: string, number: int, body: bytes): Upload {
    if CheckUpload(u, tenant, number).Raise? then u else u.(files := u.files[number := body])
  }

  function UploadSpec(u: Upload, tenant: string, number: int, body: bytes): (Upload, Result<Digest>) {
    match CheckUpload(u, tenant, number)
    case Raise(e) => (u, Raise(e))
    case Ok(m) =>
      var parts := m.parts[number := PartRecord(Sha256(body), |body|)];
      (WritePartFile(u, tenant, number, body).(meta := Some(m.(parts := parts))), Ok(Sha256(body)))
  }

  /** The part bodies in the given order, each checked against its record. */
  function VerifiedBodies(parts: map<nat, PartRecord>, files: map<nat, bytes>, numbers: seq<nat>): Result<seq<bytes>>
    requires forall n :: n in numbers ==> n in parts
  {
    if numbers == [] then Ok([])
    else
      var n := numbers[0];
      if n !in files then Raise(FileNotFound)
      else if |files[n]| != parts[n].size || Sha256(files[n]) != parts[n].sha256 then Raise(ValueError)
      else
        var rest :- VerifiedBodies(parts, files, numbers[1..]);
        Ok([files[n]] + rest)
  }

  /** The first locked section of completing: verify, assemble, mark. */
  function BeginSpec(u: Upload, tenant: string): (Upload, Result<bytes>) {
    match OpenMeta(u, tenant)
    case Raise(e) => (u, Raise(e))
    case Ok(m) =>
      if m.parts == map[] then (u, Raise(ValueError))
      else match VerifiedBodies(m.parts, u.files, Ascending(m.parts.Keys))
        case Raise(e) => (u, Raise(e))
        case Ok(bodies) => (u.(meta := Some(m.(status := Completing))), Ok(Concat(bodies)))
  }

  /** The handler of a failed put. */
  function ReopenSpec(u: Upload): Upload {
    if !u.present || u.meta == None then u else u.(meta := Some(u.meta.value.(status := Open)))
  }

  function RemoveSpec(u: Upload, tenant: string, expected: Status): (Upload, Result<()>) {
    if u.meta == None then (u, Raise(FileNotFound))
    else if u.meta.value.tenant != tenant then (u, Raise(TenantMismatch))
    else if u.meta.value.status != expected then (u, Raise(ValueError))
    else (GONE, Ok(()))
  }

  function AbortSpec(u: Upload, tenant: string): (Upload, Result<()>) {
    if !u.present then (u, Ok(())) else RemoveSpec(u, tenant, Open)
  }

  /** What became of put_object; it may raise after it has stored its manifest. */
  datatype PutOutcome = Returned | Failed | FailedAfterStoring

  /** Complete run by one caller without interference: the directory, the result, and the bodies stored. */
  function CompleteSpec(u: Upload, tenant: string, put: PutOutcome): (Upload, Result<bytes>, seq<bytes>) {
    var (u1, body) := BeginSpec(u, tenant);
    if body.Raise? then (u1, body, [])
    else if put != Returned then
      (ReopenSpec(u1), Raise(OperationFailed), if put == FailedAfterStoring then [body.value] else [])
    else
      var (u2, removed) := RemoveSpec(u1, tenant, Completing);
      (u2, if removed.Raise? then Raise(removed.error) else body, [body.value])
  }

  class LocalS3Adapter {
    const tenant: string
    var uploads: map<string, Upload>
    /** Bodies that put_object stored, by bucket and key, latest last. */
    var objects: seq<(string, string, bytes)>

    constructor (tenant: string)
      ensures this.tenant == tenant && uploads == map[] && objects == []
    {
      this.tenant := tenant;
      uploads, objects := map[], [];
    }

    function Dir(id: string): (u: Upload)
      reads this
      ensures id in uploads ==> u == uploads[id]
      ensures id !in uploads ==> !u.present
    {
      if id in uploads then uploads[id] else GONE
    }

    method CreateMultipartUpload(bucket: string, key: string, id: string) returns (r: Result<string>)
      requires id !in uploads
      modifies this
      ensures objects == old(objects)
      ensures Text.Split(bucket) == [] || key == "" ==> r == Raise(ValueError) && uploads == old(uploads)
      ensures Text.Split(bucket) != [] && key != "" ==>
                && r == Ok(id)
                && uploads == old(uploads)[id := Upload(true, Some(Meta(tenant, bucket, key, map[], Open)), map[])]
    {
      if Text.Split(bucket) == [] || key == "" {
        return Raise(ValueError);
      }
      uploads := uploads[id := Upload(true, Some(Meta(tenant, bucket, key, map[], Open)), map[])];
      r := Ok(id);
    }

    method UploadPart(id: string, number: int, body: bytes) returns (r: Result<Digest>)
      modifies this
      ensures objects == old(objects)
      ensures var (u, result) := UploadSpec(old(Dir(id)), tenant, number, body);
              r == result && uploads == if r.Ok? then old(uploads)[id := u] else old(uploads)
    {
      if number <= 0 || number > 10_000 {
        return Raise(ValueError);
      }
      var u := Dir(id);
      var checked := OpenMeta(u, tenant);
      if checked.Raise? {
        return Raise(checked.error);
      }
      var digest := Sha256(body);
      uploads := uploads[id := u.(files := u.files[number := body])];
      assert uploads[id] == WritePartFile(u, tenant, number, body);
      var meta := checked.value.(parts := checked.value.parts[number := PartRecord(digest, |body|)]);
      uploads := uploads[id := uploads[id].(meta := Some(meta))];
      r := Ok(digest);
    }

    /** The body to store; afterwards the upload is marked as completing. */
    method BeginComplete(id: string) returns (r: Result<bytes>)
      modifies this
      ensures objects == old(objects)
      ensures var (u, result) := BeginSpec(old(Dir(id)), tenant);
              r == result && uploads == if r.Ok? then old(uploads)[id := u] else old(uploads)
    {
      var u := Dir(id);
      var checked := OpenMeta(u, tenant);
      if checked.Raise? {
        return Raise(checked.error);
      }
      var parts := checked.value.parts;
      if parts == map[] {
        return Raise(ValueError);
      }
      var bodies := ReadParts(parts, u.files);
      if bodies.Raise? {
        return Raise(bodies.error);
      }
      uploads := uploads[id := u.(meta := Some(checked.value.(status := Completing)))];
      r := Ok(Concat(bodies.value));
    }

    static method ReadParts(parts: map<nat, PartRecord>, files: map<nat, bytes>) returns (r: Result<seq<bytes>>)
      ensures r == VerifiedBodies(parts, files, Ascending(parts.Keys))
    {
      hide Ascending;
      var numbers := Ascending(parts.Keys);
      var bodies: seq<bytes> := [];
      ghost var all := VerifiedBodies(parts, files, numbers);
      assert numbers[0..] == numbers;
      PrependNothing(all);
      for i := 0 to |numbers|
        invariant all == Prepend(bodies, VerifiedBodies(parts, files, numbers[i..]))
      {
        assert numbers[i..][0] == numbers[i] && numbers[i..][1..] == numbers[i + 1..];
        var n := numbers[i];
        if n !in files {
          return Raise(FileNotFound);
        }
        var data := files[n];
        if |data| != parts[n].size || Sha256(data) != parts[n].sha256 {
          return Raise(ValueError);
        }
        PrependTwice(bodies, [data], VerifiedBodies(parts, files, numbers[i + 1..]));
        bodies := bodies + [data];
      }
      assert bodies + [] == bodies;
      r := Ok(bodies);
    }

    method CompleteMultipartUpload(id: string, put: PutOutcome) returns (r: Result<bytes>)
      modifies this
      ensures var (u, result, stored) := CompleteSpec(old(Dir(id)), tenant, put);
              && r == result
              && uploads == (if BeginSpec(old(Dir(id)), tenant).1.Ok? then old(uploads)[id := u] else old(uploads))
              && objects == if stored == [] then old(objects)
                            else old(objects) + [(old(Dir(id)).meta.value.bucket, old(Dir(id)).meta.value.key, stored[0])]
    {
      hide VerifiedBodies, Ascending;
      var body := BeginComplete(id);
      if body.Raise? {
        return body;
      }
      var u := Dir(id);
      if put != Failed {
        objects := objects + [(u.meta.value.bucket, u.meta.value.key, body.value)];
      }
      if put != Returned {
        if u.present {
          uploads := uploads[id := u.(meta := Some(u.meta.value.(status := Open)))];
        }
        return Raise(OperationFailed);
      }
      uploads := uploads[id := GONE];
      assert uploads == old(uploads)[id := GONE];
      r := body;
    }

    method AbortMultipartUpload(id: string) returns (r: Result<()>)
      modifies this
      ensures objects == old(objects)
      ensures var (u, result) := AbortSpec(old(Dir(id)), tenant);
              r == result && Dir(id) == u && (uploads == old(uploads) || uploads == old(uploads)[id := u])
    {
      var u := Dir(id);
      if !u.present {
        return Ok(());
      }
      if u.meta == None {
        return Raise(FileNotFound);
      }
      if u.meta.value.tenant != tenant {
        return Raise(TenantMismatch);
      }
      if u.meta.value.status != Open {
        return Raise(ValueError);
      }
      uploads := uploads[id := GONE];
      r := Ok(());
    }
  }

  /** When a part is taken, and what changes then: its file and its record. */
  lemma UploadTakesIff(u: Upload, tenant: string, number: int, body: bytes)
    ensures var (u', r) := UploadSpec(u, tenant, number, body);
            && (r.Ok? <==>
                  1 <= number <= 10_000 && u.present && u.meta.Some? && u.meta.value.tenant == tenant
                  && u.meta.value.status == Open)
            && (r.Raise? ==> u' == u)
            && (r.Ok? ==>
                  && r.value == Sha256(body)
                  && u' == Upload(true, Some(u.meta.value.(parts := u.meta.value.parts[number := PartRecord(Sha256(body), |body|)])),
                                  u.files[number := body]))
  {}

  /** When completing begins: the upload is the tenant's and open, has parts, and every part file is what was recorded. */
  lemma BeginTakesIff(u: Upload, tenant: string)
    ensures var (u', r) := BeginSpec(u, tenant);
            && (r.Ok? <==>
                  u.present && u.meta.Some? && u.meta.value.tenant == tenant && u.meta.value.status == Open
                  && u.meta.value.parts != map[]
                  && forall n :: n in u.meta.value.parts ==>
                       n in u.files && u.meta.value.parts[n] == PartRecord(Sha256(u.files[n]), |u.files[n]|))
            && (r.Raise? ==> u' == u)
            && (r.Ok? ==> u' == u.(meta := Some(u.meta.value.(status := Completing))))
  {
    hide VerifiedBodies, Ascending;
    if u.meta.Some? {
      VerifiedIff(u.meta.value.parts, u.files, Ascending(u.meta.value.parts.Keys));
    }
  }

  lemma {:induction false} VerifiedIff(parts: map<nat, PartRecord>, files: map<nat, bytes>, numbers: seq<nat>)
    requires forall n :: n in numbers ==> n in parts
    ensures VerifiedBodies(parts, files, numbers).Ok? <==>
              forall n :: n in numbers ==> n in files && parts[n] == PartRecord(Sha256(files[n]), |files[n]|)
  {
    if numbers != [] {
      VerifiedIff(parts, files, numbers[1..]);
      assert forall n :: n in numbers <==> n == numbers[0] || n in numbers[1..];
    }
  }

  /** A missing upload aborts at once; any other if and only if it is the tenant's and open, and then it is gone. */
  lemma AbortTakesIff(u: Upload, tenant: string)
    ensures var (u', r) := AbortSpec(u, tenant);
            && (!u.present ==> r.Ok? && u' == u)
            && (u.present ==>
                  && (r.Ok? <==> u.meta.Some? && u.meta.value.tenant == tenant && u.meta.value.status == Open)
                  && u' == if r.Ok? then GONE else u)
  {}

  /** What a call that needs an open upload of the tenant raises where there is none. */
  function Refusal(u: Upload, tenant: string): Error {
    if !u.present then KeyError
    else if u.meta == None then FileNotFound
    else if u.meta.value.tenant != tenant then TenantMismatch
    else ValueError
  }

  /** The exceptions of the four calls. */
  lemma CallsRaise(u: Upload, tenant: string, number: int, body: bytes)
    ensures UploadSpec(u, tenant, number, body).1.Raise? ==>
              UploadSpec(u, tenant, number, body).1.error == if 1 <= number <= 10_000 then Refusal(u, tenant) else ValueError
    ensures BeginSpec(u, tenant).1.Raise? ==>
              BeginSpec(u, tenant).1.error == Refusal(u, tenant)
              || (BeginSpec(u, tenant).1.error == FileNotFound && exists n :: n in u.meta.value.parts && n !in u.files)
    ensures AbortSpec(u, tenant).1.Raise? ==> AbortSpec(u, tenant).1.error == Refusal(u, tenant)
    ensures BeginSpec(u, tenant).1.Ok? ==>
              CompleteSpec(u, tenant, Failed).1 == CompleteSpec(u, tenant, FailedAfterStoring).1 == Raise(OperationFailed)
  {
    hide VerifiedBodies, Ascending;
    if u.meta.Some? {
      BodiesRaise(u.meta.value.parts, u.files, Ascending(u.meta.value.parts.Keys));
    }
  }

  /** A missing file and a wrong one raise differently, the first of them in ascending order counts. */
  lemma {:induction false} BodiesRaise(parts: map<nat, PartRecord>, files: map<nat, bytes>, numbers: seq<nat>)
    requires forall n :: n in numbers ==> n in parts
    ensures var r := VerifiedBodies(parts, files, numbers);
            r.Raise? ==> r.error == ValueError || (r.error == FileNotFound && exists n :: n in numbers && n !in files)
    ensures (exists n :: n in numbers && n !in files)
            && (forall n :: n in numbers && n in files ==> parts[n] == PartRecord(Sha256(files[n]), |files[n]|)) ==>
              VerifiedBodies(parts, files, numbers) == Raise(FileNotFound)
  {
    if numbers != [] {
      BodiesRaise(parts, files, numbers[1..]);
      assert forall n :: n in numbers <==> n == numbers[0] || n in numbers[1..];
    }
  }

  // ----- The life of one upload -----

  /** A complete call past its first locked section, with the body it carries and the parts recorded then. */
  datatype Flight = NoCall | Carrying(body: bytes, parts: map<nat, bytes>) | PutDone

  /** A body stored, the parts recorded when its complete began, and whether its put returned. */
  datatype Object = Object(body: bytes, parts: map<nat, bytes>, returned: bool)

  /**
   * The directory; the body last recorded for each part; the complete call in
   * flight; the objects stored; and how many complete calls have returned success.
   */
  datatype Life = Life(
    u: Upload, recorded: map<nat, bytes>, flight: Flight, stored: seq<Object>, successes: nat)

  datatype Op =
    | UploadPart(number: int, body: bytes)
    | CrashedUpload(number: int, body: bytes)
    | Begin
    | PutReturns
    | PutRaises
    | PutStoresAndRaises
    | CallerDies
    | Finish
    | CrashedFinish(left: set<nat>, metaLeft: bool)
    | Abort
    | CrashedAbort(left: set<nat>, metaLeft: bool)

  /** A removal cut short: some part files and perhaps the meta are left. */
  function PartlyRemoved(u: Upload, left: set<nat>, metaLeft: bool): Upload {
    u.(files := map n | n in u.files && n in left :: u.files[n], meta := if metaLeft then u.meta else None)
  }

  /** Calls by the owning tenant; every locked section is one step, and calls interleave freely. */
  function Step(tenant: string, s: Life, op: Op): Life {
    match op
    case UploadPart(number, body) =>
      var (u, r) := UploadSpec(s.u, tenant, number, body);
      if r.Raise? then s else s.(u := u, recorded := s.recorded[number := body])
    case CrashedUpload(number, body) => s.(u := WritePartFile(s.u, tenant, number, body))
    case Begin =>
      var (u, r) := BeginSpec(s.u, tenant);
      if r.Raise? then s else s.(u := u, flight := Carrying(r.value, s.recorded))
    case PutReturns =>
      if s.flight.Carrying? then
        s.(flight := PutDone, stored := s.stored + [Object(s.flight.body, s.flight.parts, true)])
      else s
    case PutRaises => if s.flight.Carrying? then s.(flight := NoCall, u := ReopenSpec(s.u)) else s
    case PutStoresAndRaises =>
      if s.flight.Carrying? then
        s.(flight := NoCall, u := ReopenSpec(s.u), stored := s.stored + [Object(s.flight.body, s.flight.parts, false)])
      else s
    case CallerDies => s.(flight := NoCall)
    case Finish =>
      if s.flight != PutDone then s
      else
        var (u, r) := RemoveSpec(s.u, tenant, Completing);
        s.(u := u, flight := NoCall, successes := s.successes + if r.Ok? then 1 else 0)
    case CrashedFinish(left, metaLeft) =>
      if s.flight != PutDone || RemoveSpec(s.u, tenant, Completing).1.Raise? then s
      else s.(u := PartlyRemoved(s.u, left, metaLeft), flight := NoCall)
    case Abort => s.(u := AbortSpec(s.u, tenant).0)
    case CrashedAbort(left, metaLeft) =>
      if !s.u.present || RemoveSpec(s.u, tenant, Open).1.Raise? then s
      else s.(u := PartlyRemoved(s.u, left, metaLeft))
  }

  function Run(tenant: string, s: Life, ops: seq<Op>): Life
    decreases |ops|
  {
    if ops == [] then s else Run(tenant, Step(tenant, s, ops[0]), ops[1..])
  }

  /** A complete that nothing interferes with is three of these steps. */
  lemma CompleteIsThreeSteps(tenant: string, s: Life, put: PutOutcome)
    requires s.flight == NoCall && BeginSpec(s.u, tenant).1.Ok?
    ensures var outcome := match put case Returned => PutReturns case Failed => PutRaises case FailedAfterStoring => PutStoresAndRaises;
            var s' := Step(tenant, Step(tenant, Step(tenant, s, Begin), outcome), Finish);
            var (u, r, stored) := CompleteSpec(s.u, tenant, put);
            && s'.u == u && s'.flight == NoCall && s'.recorded == s.recorded
            && s'.successes == s.successes + (if r.Ok? then 1 else 0)
            && s'.stored == if stored == [] then s.stored else s.stored + [Object(stored[0], s.recorded, put == Returned)]
  {
    hide VerifiedBodies, Ascending;
  }

  /** An upload or an abort is one; a call in flight does not change it. */
  lemma OtherCallsAreOneStep(tenant: string, s: Life, number: int, body: bytes)
    ensures var s', (u, r) := Step(tenant, s, UploadPart(number, body)), UploadSpec(s.u, tenant, number, body);
            && s' == s.(u := u, recorded := s'.recorded)
            && s'.recorded == if r.Ok? then s.recorded[number := body] else s.recorded
    ensures Step(tenant, s, Abort) == s.(u := AbortSpec(s.u, tenant).0)
  {}

  /** A crashed upload wrote the part file that a whole one writes, and no record of it. */
  lemma CrashedUploadIsPart(tenant: string, s: Life, number: int, body: bytes)
    ensures Step(tenant, s, CrashedUpload(number, body))
         == s.(u := s.u.(files := UploadSpec(s.u, tenant, number, body).0.files))
  {}

  /** A removal that crashed has left any of the files, wherever a whole one removes all of them, and nothing is written. */
  lemma CrashedRemovalIsPart(tenant: string, s: Life, left: set<nat>, metaLeft: bool, n: nat)
    ensures var s' := Step(tenant, s, CrashedAbort(left, metaLeft));
            if Step(tenant, s, Abort) == s then s' == s
            else
              && s' == s.(u := s'.u) && s'.u.present && s'.u.meta == (if metaLeft then s.u.meta else None)
              && (n in s'.u.files <==> n in s.u.files && n in left) && (n in s'.u.files ==> s'.u.files[n] == s.u.files[n])
    ensures s.flight == PutDone && RemoveSpec(s.u, tenant, Completing).1.Ok? ==>
              var s' := Step(tenant, s, CrashedFinish(left, metaLeft));
              && s' == s.(u := s'.u, flight := NoCall)
              && s'.u.present == s.u.present && s'.u.meta == (if metaLeft then s.u.meta else None)
              && (n in s'.u.files <==> n in s.u.files && n in left) && (n in s'.u.files ==> s'.u.files[n] == s.u.files[n])
  {}

  function Created(tenant: string, bucket: string, key: string): Life {
    Life(Upload(true, Some(Meta(tenant, bucket, key, map[], Open)), map[]), map[], NoCall, [], 0)
  }

  function BodiesOf(recorded: map<nat, bytes>, numbers: seq<nat>): seq<bytes>
    requires forall n :: n in numbers ==> n in recorded
  {
    if numbers == [] then [] else [recorded[numbers[0]]] + BodiesOf(recorded, numbers[1..])
  }

  /** The recorded bodies joined in ascending part number. */
  function Assembled(recorded: map<nat, bytes>): bytes {
    Concat(BodiesOf(recorded, Ascending(recorded.Keys)))
  }

  ghost predicate Recorded(m: Meta, recorded: map<nat, bytes>) {
    && m.parts.Keys == recorded.Keys
    && forall n :: n in m.parts ==> m.parts[n] == PartRecord(Sha256(recorded[n]), |recorded[n]|)
  }

  /** The put of the last object has returned. */
  predicate Settled(s: Life) { s.stored != [] && s.stored[|s.stored| - 1].returned }

  ghost predicate LifeOk(tenant: string, s: Life) {
    && (s.u.meta.Some? ==> s.u.present && s.u.meta.value.tenant == tenant && Recorded(s.u.meta.value, s.recorded))
    && (s.flight != NoCall ==> s.u.meta.Some? && s.u.meta.value.status == Completing)
    && (s.flight.Carrying? ==>
          !Settled(s) && s.flight.parts == s.recorded && s.flight.body == Assembled(s.recorded))
    && (s.flight == PutDone ==> Settled(s) && s.successes == 0)
    && s.successes <= (if Settled(s) then 1 else 0)
    && (forall i :: 0 <= i < |s.stored| ==> s.stored[i].body == Assembled(s.stored[i].parts))
    && (forall i :: 0 <= i < |s.stored| - 1 ==> !s.stored[i].returned)
    && (Settled(s) ==>
          && s.stored[|s.stored| - 1].parts == s.recorded
          && (s.u.meta.Some? ==> s.u.meta.value.status == Completing))
  }

  lemma {:induction false} VerifiedAreRecorded(m: Meta, recorded: map<nat, bytes>, files: map<nat, bytes>, numbers: seq<nat>)
    requires Recorded(m, recorded) && forall n :: n in numbers ==> n in m.parts
    ensures var r := VerifiedBodies(m.parts, files, numbers);
            && (r.Ok? <==> forall n :: n in numbers ==> n in files && files[n] == recorded[n])
            && (r.Ok? ==> r.value == BodiesOf(recorded, numbers))
  {
    if numbers != [] {
      VerifiedAreRecorded(m, recorded, files, numbers[1..]);
      assert forall n :: n in numbers <==> n == numbers[0] || n in numbers[1..];
    }
  }

  /** Completing takes the recorded bodies in ascending order, or raises. */
  lemma BeginAssembles(u: Upload, tenant: string, recorded: map<nat, bytes>)
    requires u.meta.Some? && Recorded(u.meta.value, recorded)
    ensures BeginSpec(u, tenant).1.Ok? ==> BeginSpec(u, tenant).1.value == Assembled(recorded)
  {
    hide VerifiedBodies, BodiesOf, Ascending;
    var numbers := Ascending(recorded.Keys);
    VerifiedAreRecorded(u.meta.value, recorded, u.files, numbers);
  }

  lemma StepOk(tenant: string, s: Life, op: Op)
    requires LifeOk(tenant, s)
    ensures LifeOk(tenant, Step(tenant, s, op))
  {
    hide VerifiedBodies, Assembled, Ascending;
    if op.Begin? && s.u.meta.Some? {
      BeginAssembles(s.u, tenant, s.recorded);
    }
  }

  lemma {:induction false} RunKeepsLife(tenant: string, s: Life, ops: seq<Op>)
    requires LifeOk(tenant, s)
    ensures LifeOk(tenant, Run(tenant, s, ops))
    decreases |ops|
  {
    hide Step;
    if ops != [] {
      StepOk(tenant, s, ops[0]);
      RunKeepsLife(tenant, Step(tenant, s, ops[0]), ops[1..]);
    }
  }

  lemma CreatedOk(tenant: string, bucket: string, key: string)
    ensures LifeOk(tenant, Created(tenant, bucket, key)) && !Settled(Created(tenant, bucket, key))
  {}

  /**
   * From its creation, over every interleaving of uploads, completes, aborts
   * and crashes: every object stored is the ascending concatenation of the parts
   * recorded when its complete began, only the last can come from a put that
   * returned, and then it holds the parts last recorded; at most one complete
   * succeeds, and only with such a put.
   */
  lemma StoredIsAssembled(tenant: string, bucket: string, key: string, ops: seq<Op>)
    ensures var s := Run(tenant, Created(tenant, bucket, key), ops);
            && (forall o :: o in s.stored ==> o.body == Assembled(o.parts))
            && (forall i :: 0 <= i < |s.stored| - 1 ==> !s.stored[i].returned)
            && (Settled(s) ==> s.stored[|s.stored| - 1].body == Assembled(s.recorded))
            && s.successes <= (if Settled(s) then 1 else 0)
  {
    hide Run, Assembled;
    CreatedOk(tenant, bucket, key);
    RunKeepsLife(tenant, Created(tenant, bucket, key), ops);
  }

  /** How many puts of the run raised after they had stored their object. */
  function LatePuts(tenant: string, s: Life, ops: seq<Op>): nat
    decreases |ops|
  {
    if ops == [] then 0
    else
      (if ops[0].PutStoresAndRaises? && s.flight.Carrying? then 1 else 0)
      + LatePuts(tenant, Step(tenant, s, ops[0]), ops[1..])
  }

  lemma StepStores(tenant: string, s: Life, op: Op)
    requires LifeOk(tenant, s)
    ensures var s' := Step(tenant, s, op);
            |s'.stored| - (if Settled(s') then 1 else 0)
              == |s.stored| - (if Settled(s) then 1 else 0)
                 + (if op.PutStoresAndRaises? && s.flight.Carrying? then 1 else 0)
  {
    hide Recorded, Assembled, BeginSpec, UploadSpec, RemoveSpec, AbortSpec, WritePartFile, ReopenSpec;
  }

  /** From its creation, an upload stores one object for each put that raised after storing, and one more if a put returned. */
  lemma ObjectsStored(tenant: string, bucket: string, key: string, ops: seq<Op>)
    ensures var start := Created(tenant, bucket, key);
            var s := Run(tenant, start, ops);
            |s.stored| == LatePuts(tenant, start, ops) + if Settled(s) then 1 else 0
  {
    CreatedOk(tenant, bucket, key);
    CountStored(tenant, Created(tenant, bucket, key), ops);
  }

  lemma {:induction false} CountStored(tenant: string, s: Life, ops: seq<Op>)
    requires LifeOk(tenant, s)
    ensures var s' := Run(tenant, s, ops);
            |s'.stored| - (if Settled(s') then 1 else 0)
              == |s.stored| - (if Settled(s) then 1 else 0) + LatePuts(tenant, s, ops)
    decreases |ops|
  {
    if ops != [] {
      hide Step, LifeOk, Settled;
      StepOk(tenant, s, ops[0]);
      StepStores(tenant, s, ops[0]);
      CountStored(tenant, Step(tenant, s, ops[0]), ops[1..]);
    }
  }

  /** While one call completes, no upload, complete or abort gets through. */
  lemma CompletingIsLocked(u: Upload, tenant: string, number: int, body: bytes)
    requires u.present && u.meta.Some? && u.meta.value.status == Completing
    ensures UploadSpec(u, tenant, number, body).0 == u && UploadSpec(u, tenant, number, body).1.Raise?
    ensures BeginSpec(u, tenant).0 == u && BeginSpec(u, tenant).1.Raise?
    ensures AbortSpec(u, tenant).0 == u && AbortSpec(u, tenant).1.Raise?
    ensures WritePartFile(u, tenant, number, body) == u
  {}

  /** A put that raises gives the upload back exactly as it was, so completing again stores the same body again. */
  lemma FailedPutRestores(u: Upload, tenant: string, put: PutOutcome, again: PutOutcome)
    requires BeginSpec(u, tenant).1.Ok? && put != Returned
    ensures var (u', r, stored) := CompleteSpec(u, tenant, put);
            && u' == u && r == Raise(OperationFailed)
            && (stored == [] <==> put == Failed)
            && (stored != [] ==> stored == [BeginSpec(u, tenant).1.value])
            && CompleteSpec(u', tenant, again) == CompleteSpec(u, tenant, again)
  {
    hide VerifiedBodies, Ascending;
  }

  /** A complete succeeds if and only if it begins and its put returns; it stores what it then returns. */
  lemma CompleteTakesIff(u: Upload, tenant: string, put: PutOutcome)
    ensures var (u', r, stored) := CompleteSpec(u, tenant, put);
            && (r.Ok? <==> BeginSpec(u, tenant).1.Ok? && put == Returned)
            && (r.Ok? ==> r == BeginSpec(u, tenant).1 && stored == [r.value] && u' == GONE)
            && (BeginSpec(u, tenant).1.Raise? ==> u' == u && r == BeginSpec(u, tenant).1 && stored == [])
  {
    hide VerifiedBodies, Ascending;
  }

  /** A complete that succeeds stored one body and removed the upload, and completing it again raises. */
  lemma CompleteIsOnce(u: Upload, tenant: string, put: PutOutcome)
    requires CompleteSpec(u, tenant, put).1.Ok?
    ensures CompleteSpec(u, tenant, put).0 == GONE && |CompleteSpec(u, tenant, put).2| == 1
    ensures forall t, p :: CompleteSpec(GONE, t, p) == (GONE, Raise(KeyError), [])
  {
    hide VerifiedBodies, Ascending;
  }

  /**
   * A crash between the part file and the meta: completing still succeeds if and
   * only if the part was never recorded or the torn body is the recorded one;
   * otherwise it raises the verification error.
   */
  lemma TornPart(u: Upload, tenant: string, recorded: map<nat, bytes>, number: int, body: bytes)
    requires u.meta.Some? && Recorded(u.meta.value, recorded) && BeginSpec(u, tenant).1.Ok?
    requires 1 <= number <= 10_000
    ensures var r := BeginSpec(WritePartFile(u, tenant, number, body), tenant).1;
            && (r.Ok? <==> number !in recorded || body == recorded[number])
            && (r.Ok? ==> r.value == Assembled(recorded))
            && (r.Raise? ==> r.error == ValueError)
  {
    hide VerifiedBodies, BodiesOf, Ascending, Assembled;
    var numbers := Ascending(recorded.Keys);
    AscendingKeys(recorded);
    var torn := WritePartFile(u, tenant, number, body);
    VerifiedAreRecorded(u.meta.value, recorded, u.files, numbers);
    VerifiedAreRecorded(u.meta.value, recorded, torn.files, numbers);
    BeginAssembles(torn, tenant, recorded);
    assert forall n :: n in numbers ==> n in u.files && u.files[n] == recorded[n];
    PresentPartsRaiseNoOther(u.meta.value.parts, torn.files, numbers);
    if number in recorded && body != recorded[number] {
      assert number in numbers && torn.files[number] != recorded[number];
    }
  }

  /** With every file present only the verification error is left. */
  lemma {:induction false} PresentPartsRaiseNoOther(parts: map<nat, PartRecord>, files: map<nat, bytes>, numbers: seq<nat>)
    requires forall n :: n in numbers ==> n in parts && n in files
    ensures var r := VerifiedBodies(parts, files, numbers); r.Raise? ==> r.error == ValueError
  {
    if numbers != [] {
      PresentPartsRaiseNoOther(parts, files, numbers[1..]);
    }
  }

  lemma AscendingKeys(recorded: map<nat, bytes>)
    ensures forall n :: n in Ascending(recorded.Keys) <==> n in recorded
  {}
}
