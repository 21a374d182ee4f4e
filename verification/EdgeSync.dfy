/** Delayed replication of the ledger from an edge site: python/urp/edge_sync.py. */
module EdgeSync {
  import opened Common
  import opened Ledger

  datatype Batch = Batch(siteId: string, events: seq<Event>)

  datatype Cursor = Cursor(siteId: string, eventId: string, eventHash: Option<ChainHash>)

  datatype Receipt = Receipt(events: nat, lastEventHash: Option<ChainHash>)

  datatype Outcome = Outcome(events: nat, cursor: Option<string>)

  /** An id as `new_id` draws it, and the id and time given to the sink's n-th event. */
  type NewId = id: string | SchemaId(id) witness FirstId()

  function FirstId(): (id: string)
    ensures SchemaId(id)
  {
    var id := "evt_0";
    assert id[4] == '0' && IdChar(id[4]);
    assert id[4..] == [id[4]] && id[..4] == "evt_";
    id
  }

  type Stamp = nat -> (NewId, string)

  // ----- The sending side -----

  /** How many of the events lie up to and including the last one with this id; None if there is none. */
  function CountThrough(events: seq<Event>, id: string): Option<nat> {
    if events == [] then None
    else if events[|events| - 1].body.eventId == id then Some(|events|)
    else CountThrough(events[..|events| - 1], id)
  }

  function PendingEvents(visible: seq<Event>, siteId: string, cursor: Option<Cursor>, limit: int): Result<seq<Event>> {
    if limit <= 0 || limit > 10_000 then Raise(ValueError)
    else if cursor.Some? && cursor.value.siteId != siteId then Raise(ValueError)
    else
      var start := if cursor == None || cursor.value.eventId == "" then Some(0)
                   else CountThrough(visible, cursor.value.eventId);
      if start == None || start.value > |visible| then Raise(ValueError)
      else Ok(visible[start.value..Min(start.value + limit, |visible|)])
  }

  /** What is pending, given what reading the local ledger file yields, which may have been tampered with. */
  function Outstanding(
      local: Result<seq<Event>>, current: Option<string>, siteId: string, cursor: Option<Cursor>, limit: int)
    : Result<seq<Event>>
  {
    if limit <= 0 || limit > 10_000 then Raise(ValueError)
    else
      var events :- local;
      if !Chained(events) then Raise(ValueError)
      else PendingEvents(Visible(events, current), siteId, cursor, limit)
  }

  // ----- The accepting side -----

  /** How many leading events of a batch pass the sink's chain check. */
  function GoodRun(events: seq<Event>, previous: Option<ChainHash>): (n: nat)
    ensures n <= |events|
  {
    if events == [] || events[0] != events[0].WithChainHash(previous) then 0
    else 1 + GoodRun(events[1..], events[0].eventHash)
  }

  predicate Foreign(e: Event, current: Option<string>) { current.Some? && e.body.tenant != current.value }

  /** How many leading events the sink's ledger takes: not another tenant's, and not without one. */
  function TakenRun(events: seq<Event>, current: Option<string>): (n: nat)
    ensures n <= |events|
  {
    if events == [] || Foreign(events[0], current) || events[0].body.tenant == "" then 0
    else 1 + TakenRun(events[1..], current)
  }

  /** Where it stops short, the event is foreign or without a tenant. */
  lemma {:induction false} TakenRunStops(events: seq<Event>, current: Option<string>)
    ensures var n := TakenRun(events, current);
            && (n < |events| ==> Foreign(events[n], current) || events[n].body.tenant == "")
            && forall i :: 0 <= i < n ==> !Foreign(events[i], current) && events[i].body.tenant != ""
  {
    if events != [] && !Foreign(events[0], current) && events[0].body.tenant != "" {
      TakenRunStops(events[1..], current);
    }
  }

  /** The sink takes the first n events if and only if each has a tenant, the bound one where there is one, and not the next. */
  lemma TakenRunIff(events: seq<Event>, current: Option<string>, n: nat)
    ensures TakenRun(events, current) == n <==>
              && n <= |events|
              && (forall i :: 0 <= i < n ==> events[i].body.tenant != "" && (current == None || events[i].body.tenant == current.value))
              && (n < |events| ==> events[n].body.tenant == "" || (current.Some? && events[n].body.tenant != current.value))
  {
    TakenRunStops(events, current);
    hide TakenRun;
  }

  function FirstPrev(events: seq<Event>): Option<ChainHash> {
    if events == [] then None else events[0].prevHash
  }

  function EdgeBody(siteId: string, e: Event, stamp: (string, string)): Body {
    e.body.(eventId := stamp.0,
            eventType := "edge.sync." + e.body.eventType,
            actor := Some("edge:" + siteId),
            details := FromEdge(e.body.eventId, e.eventHash, e.body.details),
            createdAt := stamp.1)
  }

  /** What the sink records of an event: its type under a prefix, the site as actor, and its id and hash among the details. */
  ghost predicate IsMirror(siteId: string, e: Event, m: Body) {
    && m.eventType == "edge.sync." + e.body.eventType
    && m.actor == Some("edge:" + siteId)
    && m.details == FromEdge(e.body.eventId, e.eventHash, e.body.details)
    && m.tenant == e.body.tenant && m.workUnitId == e.body.workUnitId && m.manifestId == e.body.manifestId
    && m.policyBundleId == e.body.policyBundleId && m.decision == e.body.decision && m.traceId == e.body.traceId
  }

  /** A mirrored event determines the site and the event it came from, with the whole history its hash covers. */
  lemma MirrorDeterminesSource(siteId: string, e: Event, siteId': string, e': Event, m: Body)
    requires IsMirror(siteId, e, m) && IsMirror(siteId', e', m)
    requires e == e.WithChainHash(e.prevHash) && e' == e'.WithChainHash(e'.prevHash)
    ensures siteId == siteId' && e == e'
  {
    var prefix := "edge:";
    assert (prefix + siteId)[5..] == siteId && (prefix + siteId')[5..] == siteId';
  }

  /** The sink's ledger holds, after `before`, one event for each of `events` in order. */
  ghost predicate Mirrors(siteId: string, before: seq<Event>, events: seq<Event>, after: seq<Event>) {
    && |after| == |before| + |events|
    && before <= after
    && forall i :: 0 <= i < |events| ==>
         IsMirror(siteId, events[i], after[|before| + i].body)
  }

  lemma MirrorsNone(siteId: string, before: seq<Event>, events: seq<Event>)
    ensures Mirrors(siteId, before, events[..0], before)
  {}

  lemma MirrorsSnoc(siteId: string, before: seq<Event>, events: seq<Event>, after: seq<Event>, i: nat, e: Event, stamp: (string, string))
    requires i < |events| && Mirrors(siteId, before, events[..i], after)
    requires e.body == EdgeBody(siteId, events[i], stamp)
    ensures Mirrors(siteId, before, events[..i + 1], after + [e])
  {
    assert events[..i + 1] == events[..i] + [events[i]];
    assert IsMirror(siteId, events[i], e.body);
  }

  class LocalLedgerSink {
    const ledger: JSONLLedger

    constructor (ledger: JSONLLedger)
      ensures this.ledger == ledger
    {
      this.ledger := ledger;
    }

    method Accept(batch: Batch, current: Option<string>, stamp: Stamp) returns (r: Result<Receipt>, ghost taken: nat)
      requires ledger.Valid()
      modifies ledger
      ensures ledger.Valid()
      ensures taken == Min(GoodRun(batch.events, FirstPrev(batch.events)), TakenRun(batch.events, current))
      ensures Mirrors(batch.siteId, old(ledger.events), batch.events[..taken], ledger.events)
      ensures r == if taken == |batch.events| then Ok(Receipt(|batch.events|, LastHash(batch.events)))
                   else if taken < GoodRun(batch.events, FirstPrev(batch.events)) && Foreign(batch.events[taken], current)
                   then Raise(TenantMismatch)
                   else Raise(ValueError)
    {
      hide Mirrors, Render, Chained, SchemaId;
      var events := batch.events;
      MirrorsNone(batch.siteId, ledger.events, events);
      var previous := if events == [] then None else events[0].prevHash;
      assert events[0..] == events;
      for i := 0 to |events|
        invariant ledger.Valid()
        invariant GoodRun(events, FirstPrev(events)) == i + GoodRun(events[i..], previous)
        invariant TakenRun(events, current) == i + TakenRun(events[i..], current)
        invariant Mirrors(batch.siteId, old(ledger.events), events[..i], ledger.events)
      {
        assert events[i..][0] == events[i] && events[i..][1..] == events[i + 1..];
        var event := events[i];
        taken := i;
        if event.prevHash != previous || event.WithChainHash(event.prevHash).eventHash != event.eventHash {
          r := Raise(ValueError);
          return;
        }
        var s := stamp(i);
        ghost var before := ledger.events;
        var appended := ledger.Append(Event(EdgeBody(batch.siteId, event, s), None, None), current);
        if appended.Raise? {
          r := Raise(appended.error);
          return;
        }
        MirrorsSnoc(batch.siteId, old(ledger.events), events, before, i, appended.value, s);
        previous := event.eventHash;
      }
      taken := |events|;
      assert events[..|events|] == events;
      r := Ok(Receipt(|events|, if events == [] then None else events[|events| - 1].eventHash));
    }
  }

  /** One step of the search from the end. */
  lemma CountThroughStep(events: seq<Event>, id: string)
    ensures events == [] ==> CountThrough(events, id) == None
    ensures events != [] ==>
              CountThrough(events, id) == if events[|events| - 1].body.eventId == id then Some(|events|)
                                          else CountThrough(events[..|events| - 1], id)
  {}

  /** The pending events by where the cursor stands among the visible ones. */
  lemma PendingIs(visible: seq<Event>, siteId: string, cursor: Option<Cursor>, limit: int)
    requires 0 < limit <= 10_000
    ensures cursor.Some? && cursor.value.siteId != siteId ==> PendingEvents(visible, siteId, cursor, limit) == Raise(ValueError)
    ensures cursor == None || (cursor.value.siteId == siteId && cursor.value.eventId == "") ==>
              PendingEvents(visible, siteId, cursor, limit) == Ok(visible[..Min(limit, |visible|)])
    ensures cursor.Some? && cursor.value.siteId == siteId && cursor.value.eventId != "" ==>
              var n := CountThrough(visible, cursor.value.eventId);
              && (n == None ==> PendingEvents(visible, siteId, cursor, limit) == Raise(ValueError))
              && (n.Some? && n.value <= |visible| ==>
                    PendingEvents(visible, siteId, cursor, limit)
                    == Ok(visible[n.value..][..Min(limit, |visible| - n.value)]))
  {
    hide CountThrough;
    if cursor.Some? && cursor.value.eventId != "" {
      var n := CountThrough(visible, cursor.value.eventId);
      if n.Some? && n.value <= |visible| {
        var from, size := n.value, Min(limit, |visible| - n.value);
        assert Min(from + limit, |visible|) == from + size;
        assert visible[from..from + size] == visible[from..][..size];
      }
    }
  }

  class DelayedLedgerSync {
    const ledger: JSONLLedger
    const siteId: string
    var cursor: Option<Cursor>

    constructor (ledger: JSONLLedger, siteId: string)
      ensures this.ledger == ledger && this.siteId == siteId && cursor == None
    {
      this.ledger, this.siteId := ledger, siteId;
      cursor := None;
    }

    method Pending(limit: int, current: Option<string>) returns (r: Result<Batch>)
      ensures var pending := Outstanding(ReadFile(ledger.codec, ledger.file), current, siteId, cursor, limit);
              r == if pending.Raise? then Raise(pending.error) else Ok(Batch(siteId, pending.value))
    {
      hide ReadFile, Visible, Chained, CountThrough, PendingEvents;
      if limit <= 0 || limit > 10_000 {
        return Raise(ValueError);
      }
      var ok := ledger.VerifyChain();
      if ok.Raise? {
        return Raise(ok.error);
      }
      if !ok.value {
        return Raise(ValueError);
      }
      var visible := ledger.Read(current);
      var events := visible.value;
      PendingIs(events, siteId, cursor, limit);
      if cursor.Some? && cursor.value.siteId != siteId {
        return Raise(ValueError);
      }
      if cursor.Some? && cursor.value.eventId != "" {
        var index := |events|;
        assert events[..|events|] == events;
        while index > 0 && events[index - 1].body.eventId != cursor.value.eventId
          invariant 0 <= index <= |events|
          invariant CountThrough(events, cursor.value.eventId) == CountThrough(events[..index], cursor.value.eventId)
        {
          CountThroughStep(events[..index], cursor.value.eventId);
          assert events[..index][..index - 1] == events[..index - 1];
          index := index - 1;
        }
        CountThroughStep(events[..index], cursor.value.eventId);
        if index == 0 {
          return Raise(ValueError);
        }
        events := events[index..];
      }
      r := Ok(Batch(siteId, events[..Min(limit, |events|)]));
    }

    /** `sent` is what the sink recorded, also when the call fails. */
    method Sync(sink: LocalLedgerSink, limit: int, current: Option<string>, stamp: Stamp)
      returns (r: Result<Outcome>, ghost sent: seq<Event>)
      requires sink.ledger.Valid() && sink.ledger != ledger
      modifies this, sink.ledger
      ensures sink.ledger.Valid() && Mirrors(siteId, old(sink.ledger.events), sent, sink.ledger.events)
      ensures Settles(siteId, old(cursor), Outstanding(ReadFile(ledger.codec, ledger.file), current, siteId, old(cursor), limit),
                      current, cursor, sent)
      ensures match Outstanding(ReadFile(ledger.codec, ledger.file), current, siteId, old(cursor), limit)
              case Raise(e) => r == Raise(e)
              case Ok(events) =>
                if sent != events then r == Raise(ValueError)
                else r == Ok(Outcome(|events|, if cursor == None then None else Some(cursor.value.eventId)))
    {
      hide Mirrors, PendingEvents, Visible, GoodRun, TakenRun, Outstanding, ReadFile, Chained, Render, SchemaId;
      MirrorsNone(siteId, sink.ledger.events, []);
      EmptyRun();
      sent := [];
      OutstandingIsVisible(ReadFile(ledger.codec, ledger.file), current, siteId, cursor, limit);
      var pending := Pending(limit, current);
      if pending.Raise? {
        r := Raise(pending.error);
        return;
      }
      var batch := pending.value;
      if batch.events == [] {
        r := Ok(Outcome(0, if cursor == None then None else Some(cursor.value.eventId)));
        return;
      }
      TakenRunStops(batch.events, current);
      var receipt, n := sink.Accept(batch, current, stamp);
      sent := batch.events[..n];
      if receipt.Raise? {
        r := Raise(receipt.error);
        return;
      }
      var last := batch.events[|batch.events| - 1];
      if receipt.value.lastEventHash != last.eventHash {
        r := Raise(ValueError);
        return;
      }
      cursor := Some(Cursor(siteId, last.body.eventId, last.eventHash));
      r := Ok(Outcome(|batch.events|, Some(last.body.eventId)));
    }
  }

  /** What a sync makes of the cursor and sends: the cursor moves exactly when all of a batch was taken. */
  ghost predicate Settles(
      siteId: string, cursor: Option<Cursor>, pending: Result<seq<Event>>, current: Option<string>, next: Option<Cursor>,
      sent: seq<Event>)
  {
    if pending.Raise? then next == cursor && sent == []
    else
      var events := pending.value;
      && sent == events[..Min(GoodRun(events, FirstPrev(events)), TakenRun(events, current))]
      && next == if sent != events || events == [] then cursor
                 else Some(Cursor(siteId, events[|events| - 1].body.eventId, events[|events| - 1].eventHash))
  }

  /** On a ledger that only appends of complete events wrote, and with no tenant bound, that is the sync step of the runs below. */
  lemma SettledIsStep(
      codec: LineCodec, events: seq<Event>, siteId: string, cursor: Option<Cursor>, limit: int, next: Option<Cursor>,
      sent: seq<Event>, delivered: seq<Event>)
    requires codec.Faithful() && Chained(events) && AllComplete(events)
    requires forall e :: e in events ==> Admitted(e.body)
    requires Settles(siteId, cursor, Outstanding(ReadFile(codec, Render(codec, events)), None, siteId, cursor, limit), None,
                     next, sent)
    ensures Step(siteId, Site(events, cursor, delivered), Op.Sync(limit)) == Site(events, next, delivered + sent)
  {
    hide PendingEvents, Outstanding, ReadFile, Render, GoodRun, TakenRun, Chained, AllComplete, Admitted;
    LocalPending(codec, events, siteId, cursor, limit);
    assert delivered + [] == delivered;
  }

  lemma OutstandingIsVisible(
      local: Result<seq<Event>>, current: Option<string>, siteId: string, cursor: Option<Cursor>, limit: int)
    ensures var r := Outstanding(local, current, siteId, cursor, limit);
            r.Ok? && current.Some? ==> forall e :: e in r.value ==> e.body.tenant == current.value
  {
    if local.Ok? {
      VisibleIsOwn(local.value, current);
      PendingIsVisible(Visible(local.value, current), siteId, cursor, limit);
    }
  }

  /** On a ledger that appends have written, what is outstanding is what the protocol below has pending. */
  lemma LocalPending(codec: LineCodec, events: seq<Event>, siteId: string, cursor: Option<Cursor>, limit: int)
    requires codec.Faithful() && Chained(events) && AllComplete(events)
    requires forall e :: e in events ==> Admitted(e.body)
    ensures Outstanding(ReadFile(codec, Render(codec, events)), None, siteId, cursor, limit)
         == PendingEvents(events, siteId, cursor, limit)
    ensures var pending := PendingEvents(events, siteId, cursor, limit);
            pending.Ok? ==> TakenRun(pending.value, None) == |pending.value|
  {
    hide ReadFile, Render, Chained, AllComplete, SchemaId;
    ReadRendered(codec, events);
    VisibleIsOwn(events, None);
    PendingIsVisible(events, siteId, cursor, limit);
    var pending := PendingEvents(events, siteId, cursor, limit);
    if pending.Ok? {
      TakenRunStops(pending.value, None);
      assert forall e :: e in pending.value ==> e.body.tenant != "";
    }
  }

  lemma PendingIsVisible(visible: seq<Event>, siteId: string, cursor: Option<Cursor>, limit: int)
    ensures var r := PendingEvents(visible, siteId, cursor, limit);
            r.Ok? ==> forall e :: e in r.value ==> e in visible
  {}

  lemma EmptyRun()
    ensures GoodRun([], None) == 0 && TakenRun([], None) == 0
  {}

  lemma {:induction false} VisibleIsOwn(events: seq<Event>, current: Option<string>)
    ensures current == None ==> Visible(events, current) == events
    ensures current.Some? ==> forall e :: e in Visible(events, current) ==> e.body.tenant == current.value
  {
    if events != [] {
      VisibleIsOwn(events[1..], current);
    }
  }

  lemma SliceOfSlice<T>(s: seq<T>, from: nat, to: nat, n: nat)
    requires from + n <= to <= |s|
    ensures s[from..to][..n] == s[from..from + n]
  {}

  lemma {:induction false} CountThroughNone(events: seq<Event>, id: string)
    ensures CountThrough(events, id) == None <==> forall e :: e in events ==> e.body.eventId != id
    ensures CountThrough(events, id).Some? ==> CountThrough(events, id).value <= |events|
  {
    if events != [] {
      CountThroughNone(events[..|events| - 1], id);
      assert events == events[..|events| - 1] + [events[|events| - 1]];
    }
  }

  /** When the sender has nothing to send but an exception. */
  lemma PendingRaisesIff(
      local: Result<seq<Event>>, current: Option<string>, siteId: string, cursor: Option<Cursor>, limit: int)
    ensures Outstanding(local, current, siteId, cursor, limit).Raise? <==>
              || limit < 1 || limit > 10_000 || local.Raise? || !Chained(local.value)
              || (cursor.Some? && cursor.value.siteId != siteId)
              || (cursor.Some? && cursor.value.eventId != ""
                  && forall e :: e in Visible(local.value, current) ==> e.body.eventId != cursor.value.eventId)
    ensures Outstanding(local, current, siteId, cursor, limit).Raise? ==>
              Outstanding(local, current, siteId, cursor, limit).error ==
                if 1 <= limit <= 10_000 && local.Raise? then local.error else ValueError
    ensures Outstanding(local, current, siteId, cursor, limit).Ok? ==>
              |Outstanding(local, current, siteId, cursor, limit).value| <= limit
  {
    hide Visible, Chained, CountThrough;
    if local.Ok? && cursor.Some? {
      CountThroughNone(Visible(local.value, current), cursor.value.eventId);
    }
  }

  // ----- When a batch passes the sink's check -----

  lemma {:induction false} FullRunIffChained(events: seq<Event>, previous: Option<ChainHash>)
    ensures GoodRun(events, previous) == |events| <==> ChainedFrom(events, previous)
  {
    if events != [] {
      FullRunIffChained(events[1..], events[0].eventHash);
    }
  }

  /** Two positions of a verified ledger with the same hash are the same position. */
  lemma SameHashSamePlace(ledger: seq<Event>, i: nat, j: nat)
    requires Chained(ledger) && i < |ledger| && j < |ledger|
    requires ledger[i].eventHash == ledger[j].eventHash
    ensures i == j
  {
    SliceIsChained(ledger, None, 0, i + 1);
    SliceIsChained(ledger, None, 0, j + 1);
    HeadDeterminesHistory(ledger[0..i + 1], ledger[0..j + 1]);
    assert |ledger[0..i + 1]| == i + 1;
  }

  lemma LinkAt(ledger: seq<Event>, i: nat)
    requires Chained(ledger) && i < |ledger|
    ensures ledger[i] == ledger[i].WithChainHash(if i == 0 then None else ledger[i - 1].eventHash)
    ensures ledger[i].eventHash.Some?
  {
    SliceIsChained(ledger, None, i, i + 1);
    assert ledger[i..i + 1][0] == ledger[i];
  }

  /** The positions follow one another. */
  ghost predicate Adjacent(at: seq<nat>) {
    forall k :: 0 <= k < |at| - 1 ==> at[k + 1] == at[k] + 1
  }

  /** The positions `at` pick the events of the batch out of the ledger. */
  ghost predicate PickedAt(ledger: seq<Event>, batch: seq<Event>, at: seq<nat>) {
    |at| == |batch| && forall k :: 0 <= k < |batch| ==> at[k] < |ledger| && batch[k] == ledger[at[k]]
  }

  /**
   * A batch of ledger events passes the sink's chain check if and only if the
   * events stand next to each other in the ledger.
   */
  lemma {:induction false} AcceptedIffContiguous(ledger: seq<Event>, batch: seq<Event>, at: seq<nat>)
    requires Chained(ledger) && PickedAt(ledger, batch, at)
    ensures GoodRun(batch, FirstPrev(batch)) == |batch| <==> Adjacent(at)
  {
    FullRunIffChained(batch, FirstPrev(batch));
    if batch != [] {
      LinkAt(ledger, at[0]);
      ChainedIffContiguous(ledger, batch, at);
    }
  }

  lemma {:induction false} ChainedIffContiguous(ledger: seq<Event>, batch: seq<Event>, at: seq<nat>)
    requires Chained(ledger) && batch != [] && PickedAt(ledger, batch, at)
    ensures ChainedFrom(batch, batch[0].prevHash) <==> Adjacent(at)
    decreases |batch|
  {
    LinkAt(ledger, at[0]);
    if |batch| > 1 {
      LinkAt(ledger, at[1]);
      ChainedIffContiguous(ledger, batch[1..], at[1..]);
      assert at[1..][0] == at[1] && batch[1..][0] == batch[1];
      if batch[1].prevHash == batch[0].eventHash {
        assert at[1] > 0;
        SameHashSamePlace(ledger, at[1] - 1, at[0]);
      }
      assert batch[1].prevHash == batch[0].eventHash <==> at[1] == at[0] + 1;
      if at[1] == at[0] + 1 && Adjacent(at[1..]) {
        forall k | 0 <= k < |at| - 1
          ensures at[k + 1] == at[k] + 1
        {
          if k > 0 { assert at[1..][k] == at[1..][k - 1] + 1; }
        }
      }
      if Adjacent(at) {
        assert at[0 + 1] == at[0] + 1;
        forall k | 0 <= k < |at[1..]| - 1
          ensures at[1..][k + 1] == at[1..][k] + 1
        {
          assert at[(k + 1) + 1] == at[k + 1] + 1;
        }
      }
    }
  }

  /** Strictly ascending positions with no event of `tenant` between neighbours. */
  ghost predicate Successive(events: seq<Event>, tenant: string, at: seq<nat>) {
    && (forall k :: 0 <= k < |at| ==> at[k] < |events|)
    && forall k :: 0 <= k < |at| - 1 ==> at[k] < at[k + 1] && ForeignBetween(events, tenant, at[k], at[k + 1])
  }

  ghost predicate ForeignBetween(events: seq<Event>, tenant: string, from: nat, to: nat)
    requires to <= |events|
  {
    forall p :: from < p < to ==> events[p].body.tenant != tenant
  }

  /** Where the tenant's own events stand in the ledger. */
  function Positions(events: seq<Event>, tenant: string): seq<nat> {
    if events == [] then []
    else
      var n := |events| - 1;
      Positions(events[..n], tenant) + if events[n].body.tenant == tenant then [n] else []
  }

  lemma {:induction false} VisibleSnoc(events: seq<Event>, e: Event, tenant: string)
    ensures Visible(events + [e], Some(tenant))
         == Visible(events, Some(tenant)) + if e.body.tenant == tenant then [e] else []
  {
    if events == [] {
      assert events + [e] == [e] && [e][1..] == [];
    } else {
      assert (events + [e])[1..] == events[1..] + [e];
      VisibleSnoc(events[1..], e, tenant);
    }
  }

  ghost predicate ForeignAfter(events: seq<Event>, tenant: string, at: seq<nat>) {
    at != [] ==> at[|at| - 1] < |events| && ForeignBetween(events, tenant, at[|at| - 1], |events|)
  }

  lemma PickedSnoc(events: seq<Event>, e: Event, batch: seq<Event>, at: seq<nat>)
    requires PickedAt(events, batch, at)
    ensures PickedAt(events + [e], batch + [], at + []) && PickedAt(events + [e], batch + [e], at + [|events|])
  {}

  lemma SuccessiveSnoc(events: seq<Event>, e: Event, tenant: string, at: seq<nat>)
    requires Successive(events, tenant, at) && ForeignAfter(events, tenant, at)
    ensures var more := if e.body.tenant == tenant then [|events|] else [];
            Successive(events + [e], tenant, at + more) && ForeignAfter(events + [e], tenant, at + more)
  {
    var more := if e.body.tenant == tenant then [|events|] else [];
    var all := at + more;
    forall k | 0 <= k < |all| - 1
      ensures all[k] < all[k + 1] && ForeignBetween(events + [e], tenant, all[k], all[k + 1])
    {
      if k < |at| - 1 {
        assert ForeignBetween(events, tenant, at[k], at[k + 1]);
      }
    }
  }

  /** A tenant sees exactly its own events, in ledger order. */
  lemma {:induction false} VisiblePositions(events: seq<Event>, tenant: string)
    ensures PickedAt(events, Visible(events, Some(tenant)), Positions(events, tenant))
    ensures Successive(events, tenant, Positions(events, tenant))
    ensures ForeignAfter(events, tenant, Positions(events, tenant))
  {
    if events == [] {
      assert Visible(events, Some(tenant)) == [];
    } else {
      hide Visible, PickedAt, Successive, ForeignAfter;
      var n := |events| - 1;
      var before := events[..n];
      VisiblePositions(before, tenant);
      assert events == before + [events[n]];
      VisibleSnoc(before, events[n], tenant);
      PickedSnoc(before, events[n], Visible(before, Some(tenant)), Positions(before, tenant));
      SuccessiveSnoc(before, events[n], tenant, Positions(before, tenant));
    }
  }

  lemma {:induction false} StepsOfOne(at: seq<nat>, k: nat)
    requires Adjacent(at)
    requires k < |at|
    ensures at[k] == at[0] + k
  {
    if k > 0 { StepsOfOne(at, k - 1); }
  }

  lemma {:induction false} Ascending(events: seq<Event>, tenant: string, at: seq<nat>, i: nat, j: nat)
    requires Successive(events, tenant, at) && i <= j < |at|
    ensures at[i] <= at[j]
  {
    if i < j { Ascending(events, tenant, at, i, j - 1); }
  }

  /**
   * With a tenant bound, a pending batch passes the sink's check if and only if
   * no event of another tenant lies between its first and its last event.
   */
  lemma TenantBatchAcceptedIff(ledger: seq<Event>, tenant: string, from: nat, to: nat) returns (first: nat, last: nat)
    requires Chained(ledger) && from < to <= |Visible(ledger, Some(tenant))|
    ensures var batch := Visible(ledger, Some(tenant))[from..to];
            && first <= last < |ledger| && ledger[first] == batch[0] && ledger[last] == batch[|batch| - 1]
            && (GoodRun(batch, FirstPrev(batch)) == |batch| <==> AllOwn(ledger, tenant, first, last))
  {
    hide *;
    var visible, all := Visible(ledger, Some(tenant)), Positions(ledger, tenant);
    VisiblePositions(ledger, tenant);
    PickedSlice(ledger, visible, all, from, to);
    var batch, at := visible[from..to], all[from..to];
    first, last := at[0], at[|at| - 1];
    Ascending(ledger, tenant, all, from, to - 1);
    VisibleIsOwn(ledger, Some(tenant));
    AcceptedIffContiguous(ledger, batch, at);
    if Adjacent(at) {
      ContiguousIsOwn(ledger, tenant, batch, at);
    }
    if AllOwn(ledger, tenant, first, last) {
      OwnIsContiguous(ledger, tenant, all, from, to);
    }
  }

  lemma PickedSlice(ledger: seq<Event>, batch: seq<Event>, at: seq<nat>, from: nat, to: nat)
    requires PickedAt(ledger, batch, at) && from < to <= |batch|
    ensures |at| == |batch| && PickedAt(ledger, batch[from..to], at[from..to])
    ensures at[from] < |ledger| && ledger[at[from]] == batch[from]
    ensures at[to - 1] < |ledger| && ledger[at[to - 1]] == batch[to - 1]
  {}

  ghost predicate AllOwn(ledger: seq<Event>, tenant: string, first: nat, last: nat)
    requires last < |ledger|
  {
    forall p :: first <= p <= last ==> ledger[p].body.tenant == tenant
  }

  lemma ContiguousIsOwn(ledger: seq<Event>, tenant: string, batch: seq<Event>, at: seq<nat>)
    requires PickedAt(ledger, batch, at) && at != []
    requires Adjacent(at)
    requires forall e :: e in batch ==> e.body.tenant == tenant
    ensures at[|at| - 1] < |ledger| && AllOwn(ledger, tenant, at[0], at[|at| - 1])
  {
    StepsOfOne(at, |at| - 1);
    forall p | at[0] <= p <= at[|at| - 1]
      ensures ledger[p].body.tenant == tenant
    {
      StepsOfOne(at, p - at[0]);
      assert batch[p - at[0]] in batch;
    }
  }

  lemma OwnIsContiguous(ledger: seq<Event>, tenant: string, all: seq<nat>, from: nat, to: nat)
    requires Successive(ledger, tenant, all) && from < to <= |all|
    requires all[to - 1] < |ledger| && AllOwn(ledger, tenant, all[from], all[to - 1])
    ensures Adjacent(all[from..to])
  {
    forall k | 0 <= k < to - from - 1
      ensures all[from..to][k + 1] == all[from..to][k] + 1
    {
      assert ForeignBetween(ledger, tenant, all[from + k], all[from + k + 1]);
      Ascending(ledger, tenant, all, from, from + k);
      Ascending(ledger, tenant, all, from + k + 1, to - 1);
      var next := Min(all[from + k] + 1, all[from + k + 1]);
      assert ledger[next].body.tenant == tenant;
    }
  }

  /** With a tenant bound, another tenant's event between two of its own makes every sync of both fail. */
  lemma TenantFilterBreaksChain(a: Body, b: Body, c: Body)
    requires a.tenant == c.tenant != b.tenant
    ensures var e1 := Event(a, None, None).WithChainHash(None);
            var e2 := Event(b, None, None).WithChainHash(e1.eventHash);
            var e3 := Event(c, None, None).WithChainHash(e2.eventHash);
            var pending := PendingEvents(Visible([e1, e2, e3], Some(a.tenant)), "site", None, 500);
            && Chained([e1, e2, e3])
            && pending == Ok([e1, e3])
            && GoodRun([e1, e3], FirstPrev([e1, e3])) == 1
  {
    var e1 := Event(a, None, None).WithChainHash(None);
    var e2 := Event(b, None, None).WithChainHash(e1.eventHash);
    var e3 := Event(c, None, None).WithChainHash(e2.eventHash);
    AppendKeepsChain([], Event(a, None, None));
    assert [] + [e1] == [e1];
    AppendKeepsChain([e1], Event(b, None, None));
    assert [e1] + [e2] == [e1, e2];
    AppendKeepsChain([e1, e2], Event(c, None, None));
    assert [e1, e2] + [e3] == [e1, e2, e3];
    assert Visible([e3], Some(a.tenant)) == [e3] + Visible([], Some(a.tenant));
    assert [e2, e3][1..] == [e3] && [e1, e2, e3][1..] == [e2, e3];
    assert [e1] + [e3] == [e1, e3] && [e3] + [] == [e3];
    assert [e1, e3][1..] == [e3];
    assert Visible([e2, e3], Some(a.tenant)) == [e3];
    assert [e1, e3][0..2] == [e1, e3];
  }

  // ----- Runs of the protocol -----

  /** The local ledger, the cursor file, and what the sink has recorded, in order. */
  datatype Site = Site(events: seq<Event>, cursor: Option<Cursor>, delivered: seq<Event>)

  /** A sync may crash when the sink has recorded `recorded` events and before the cursor is written. */
  datatype Op = Append(body: Body) | Sync(limit: int) | CrashedSync(limit: int, recorded: nat)

  /** The sink records the verified run of the batch, and the cursor moves when that is all of it. */
  function Synced(siteId: string, s: Site, pending: Result<seq<Event>>): Site {
    if pending.Raise? then s
    else
      var batch := pending.value;
      var n := GoodRun(batch, FirstPrev(batch));
      var sent := s.(delivered := s.delivered + batch[..n]);
      if n < |batch| || batch == [] then sent
      else sent.(cursor := Some(Cursor(siteId, batch[n - 1].body.eventId, batch[n - 1].eventHash)))
  }

  function Step(siteId: string, s: Site, op: Op): Site {
    match op
    case Append(body) =>
      if !Admitted(body) then s
      else s.(events := s.events + [Event(body, None, None).WithChainHash(LastHash(s.events))])
    case Sync(limit) => Synced(siteId, s, PendingEvents(s.events, siteId, s.cursor, limit))
    case CrashedSync(limit, recorded) =>
      (match PendingEvents(s.events, siteId, s.cursor, limit)
       case Raise(_) => s
       case Ok(batch) => s.(delivered := s.delivered + batch[..Min(recorded, GoodRun(batch, FirstPrev(batch)))]))
  }

  /** An append adds the event at the end, or, refused by the schema, nothing. */
  lemma AppendAdds(siteId: string, s: Site, body: Body)
    ensures var s' := Step(siteId, s, Append(body));
            && s'.cursor == s.cursor && s'.delivered == s.delivered && s.events <= s'.events
            && |s'.events| == |s.events| + (if Admitted(body) then 1 else 0)
            && (Admitted(body) ==> s'.events[|s.events|].body == body && s'.events[|s.events|].prevHash == LastHash(s.events))
  {}

  /** A sync that crashes has sent any number of the events that a whole one sends, and the cursor stays. */
  lemma CrashedSyncSends(siteId: string, s: Site, limit: int, sent: seq<Event>)
    ensures (exists n: nat :: Step(siteId, s, CrashedSync(limit, n)) == s.(delivered := s.delivered + sent)) <==>
              s.delivered + sent <= Step(siteId, s, Sync(limit)).delivered
  {
    hide PendingEvents, GoodRun;
    var all := Step(siteId, s, Sync(limit)).delivered;
    var pending := PendingEvents(s.events, siteId, s.cursor, limit);
    assert s.delivered <= all;
    if s.delivered + sent <= all {
      var crashed := Step(siteId, s, CrashedSync(limit, |sent|));
      assert all[..|s.delivered| + |sent|] == s.delivered + sent;
      if pending.Ok? {
        var batch := pending.value;
        assert all == s.delivered + batch[..GoodRun(batch, FirstPrev(batch))];
        assert sent == (s.delivered + sent)[|s.delivered|..] == all[|s.delivered|..|s.delivered| + |sent|];
        assert batch[..|sent|] == sent;
      } else {
        assert sent == [];
        assert s.delivered + [] == s.delivered;
      }
      assert crashed == s.(delivered := s.delivered + sent);
    }
  }

  /** New events have a time, and ids of their own. */
  ghost predicate FreshIds(siteId: string, s: Site, ops: seq<Op>)
    decreases |ops|
  {
    ops == [] ||
    (&& (ops[0].Append? && Admitted(ops[0].body) ==>
           Complete(ops[0].body) && forall e :: e in s.events ==> e.body.eventId != ops[0].body.eventId)
     && FreshIds(siteId, Step(siteId, s, ops[0]), ops[1..]))
  }

  function Run(siteId: string, s: Site, ops: seq<Op>): Site
    decreases |ops|
  {
    if ops == [] then s else Run(siteId, Step(siteId, s, ops[0]), ops[1..])
  }

  ghost predicate DistinctIds(events: seq<Event>) {
    && (forall i :: 0 <= i < |events| ==> events[i].body.eventId != "")
    && forall i, j :: 0 <= i < j < |events| ==> events[i].body.eventId != events[j].body.eventId
  }

  /** How many events the cursor covers. */
  function Covered(s: Site): Option<nat> {
    if s.cursor == None then Some(0) else CountThrough(s.events, s.cursor.value.eventId)
  }

  /** An event is recorded only when its predecessor in the ledger has been recorded before it. */
  ghost predicate NoGaps(events: seq<Event>, delivered: seq<Event>) {
    forall p :: 0 <= p < |delivered| ==> FollowsPredecessor(events, delivered, p)
  }

  ghost predicate FollowsPredecessor(events: seq<Event>, delivered: seq<Event>, p: nat)
    requires p < |delivered|
  {
    exists i :: 0 <= i < |events| && delivered[p] == events[i] && (i > 0 ==> events[i - 1] in delivered[..p])
  }

  ghost predicate SiteOk(siteId: string, s: Site) {
    && Chained(s.events) && DistinctIds(s.events)
    && (s.cursor.Some? ==> s.cursor.value.siteId == siteId && s.cursor.value.eventId != "")
    && Covered(s).Some? && Covered(s).value <= |s.events|
    && (forall i :: 0 <= i < Covered(s).value ==> s.events[i] in s.delivered)
    && NoGaps(s.events, s.delivered)
  }

  lemma {:induction false} CountThroughAt(events: seq<Event>, i: nat)
    requires DistinctIds(events) && i < |events|
    ensures CountThrough(events, events[i].body.eventId) == Some(i + 1)
  {
    if i < |events| - 1 {
      CountThroughAt(events[..|events| - 1], i);
    }
  }

  lemma CountThroughSnoc(events: seq<Event>, e: Event, id: string)
    ensures CountThrough(events + [e], id) ==
            if e.body.eventId == id then Some(|events| + 1) else CountThrough(events, id)
  {
    assert (events + [e])[..|events|] == events;
  }

  lemma {:induction false} CountThroughFinds(events: seq<Event>, id: string)
    ensures match CountThrough(events, id)
            case None => forall e :: e in events ==> e.body.eventId != id
            case Some(n) => 0 < n <= |events| && events[n - 1].body.eventId == id
  {
    if events != [] {
      CountThroughFinds(events[..|events| - 1], id);
      assert events == events[..|events| - 1] + [events[|events| - 1]];
    }
  }

  /** The pending batch is the ledger run right after the cursor and passes the sink. */
  lemma BatchOfSite(siteId: string, s: Site, limit: int)
    requires SiteOk(siteId, s) && 1 <= limit <= 10_000
    ensures var from := Covered(s).value;
            var batch := s.events[from..Min(from + limit, |s.events|)];
            && PendingEvents(s.events, siteId, s.cursor, limit) == Ok(batch)
            && GoodRun(batch, FirstPrev(batch)) == |batch|
  {
    hide NoGaps, DistinctIds, CountThrough, ChainedFrom, GoodRun;
    var from := Covered(s).value;
    var to := Min(from + limit, |s.events|);
    var batch := s.events[from..to];
    SliceIsChained(s.events, None, from, to);
    FullRunIffChained(batch, FirstPrev(batch));
    if batch != [] {
      LinkAt(s.events, from);
    }
  }

  lemma NoGapsGrow(events: seq<Event>, delivered: seq<Event>, from: nat, n: nat)
    requires NoGaps(events, delivered) && from + n <= |events|
    requires from > 0 ==> events[from - 1] in delivered
    ensures NoGaps(events, delivered + events[from..from + n])
  {
    var all := delivered + events[from..from + n];
    forall p | 0 <= p < |all|
      ensures FollowsPredecessor(events, all, p)
    {
      if p < |delivered| {
        assert FollowsPredecessor(events, delivered, p);
        assert all[..p] == delivered[..p];
      } else {
        var i := from + (p - |delivered|);
        assert all[p] == events[i];
        if i > from {
          assert all[..p][p - 1] == events[i - 1];
        } else if i > 0 {
          assert all[..p] == delivered;
        }
      }
    }
  }

  lemma NoGapsAppend(events: seq<Event>, e: Event, delivered: seq<Event>)
    requires NoGaps(events, delivered)
    ensures NoGaps(events + [e], delivered)
  {
    forall p | 0 <= p < |delivered|
      ensures FollowsPredecessor(events + [e], delivered, p)
    {
      assert FollowsPredecessor(events, delivered, p);
      var i :| 0 <= i < |events| && delivered[p] == events[i] && (i > 0 ==> events[i - 1] in delivered[..p]);
      assert (events + [e])[i] == events[i] && (i > 0 ==> (events + [e])[i - 1] == events[i - 1]);
    }
  }

  lemma DistinctSnoc(events: seq<Event>, e: Event)
    requires DistinctIds(events) && e.body.eventId != ""
    requires forall f :: f in events ==> f.body.eventId != e.body.eventId
    ensures DistinctIds(events + [e])
  {
    assert forall i :: 0 <= i < |events| ==> events[i] in events;
  }

  lemma CoveredSnoc(s: Site, e: Event)
    requires forall f :: f in s.events ==> f.body.eventId != e.body.eventId
    requires Covered(s).Some?
    ensures Covered(s.(events := s.events + [e])) == Covered(s)
  {
    if s.cursor.Some? {
      CountThroughSnoc(s.events, e, s.cursor.value.eventId);
      CountThroughFinds(s.events, s.cursor.value.eventId);
      hide CountThrough;
    }
  }

  lemma AppendStepOk(siteId: string, s: Site, body: Body)
    requires SiteOk(siteId, s)
    requires Admitted(body) ==> Complete(body) && forall e :: e in s.events ==> e.body.eventId != body.eventId
    ensures SiteOk(siteId, Step(siteId, s, Append(body)))
    ensures Covered(Step(siteId, s, Append(body))) == Covered(s)
  {
    AdmittedHasId(body);
    hide Chained, NoGaps, Admitted, DistinctIds, Covered;
    if !Admitted(body) {
      return;
    }
    var e := Event(body, None, None).WithChainHash(LastHash(s.events));
    AppendKeepsChain(s.events, Event(body, None, None));
    NoGapsAppend(s.events, e, s.delivered);
    DistinctSnoc(s.events, e);
    CoveredSnoc(s, e);
  }

  lemma AdmittedHasId(body: Body)
    ensures Admitted(body) ==> body.eventId != ""
  {}

  lemma SyncResult(siteId: string, s: Site, limit: int)
    requires SiteOk(siteId, s) && 1 <= limit <= 10_000
    ensures var from := Covered(s).value;
            var to := Min(from + limit, |s.events|);
            Step(siteId, s, Sync(limit)) ==
              Site(s.events,
                   if from == to then s.cursor
                   else Some(Cursor(siteId, s.events[to - 1].body.eventId, s.events[to - 1].eventHash)),
                   s.delivered + s.events[from..to])
  {
    hide NoGaps, DistinctIds, Chained, PendingEvents, GoodRun, CountThrough;
    BatchOfSite(siteId, s, limit);
    var from := Covered(s).value;
    var batch := s.events[from..Min(from + limit, |s.events|)];
    assert batch[..|batch|] == batch;
  }

  lemma PrefixDelivered(events: seq<Event>, delivered: seq<Event>, from: nat, to: nat)
    requires from <= to <= |events|
    requires forall i :: 0 <= i < from ==> events[i] in delivered
    ensures forall i :: 0 <= i < to ==> events[i] in delivered + events[from..to]
  {
    forall i | 0 <= i < to
      ensures events[i] in delivered + events[from..to]
    {
      if i >= from { assert events[from..to][i - from] == events[i]; }
    }
  }

  /** A completed sync delivers the next run and moves the cursor to its end. */
  lemma SyncStepOk(siteId: string, s: Site, limit: int)
    requires SiteOk(siteId, s) && 1 <= limit <= 10_000
    ensures var s' := Step(siteId, s, Sync(limit));
            var from := Covered(s).value;
            var to := Min(from + limit, |s.events|);
            && SiteOk(siteId, s') && Covered(s') == Some(to)
            && s'.events == s.events && s'.delivered == s.delivered + s.events[from..to]
  {
    hide Chained, NoGaps, Step, CountThrough, DistinctIds;
    SyncResult(siteId, s, limit);
    var from := Covered(s).value;
    var to := Min(from + limit, |s.events|);
    NoGapsGrow(s.events, s.delivered, from, to - from);
    PrefixDelivered(s.events, s.delivered, from, to);
    if from < to {
      LastIsCounted(s.events, to);
    }
  }

  lemma LastIsCounted(events: seq<Event>, to: nat)
    requires DistinctIds(events) && 0 < to <= |events|
    ensures events[to - 1].body.eventId != ""
    ensures CountThrough(events, events[to - 1].body.eventId) == Some(to)
  {
    CountThroughAt(events, to - 1);
  }

  /** A crash between recording and the cursor write loses nothing: the batch will be sent again. */
  lemma CrashStepOk(siteId: string, s: Site, limit: int, recorded: nat)
    requires SiteOk(siteId, s) && 1 <= limit <= 10_000
    ensures var s' := Step(siteId, s, CrashedSync(limit, recorded));
            SiteOk(siteId, s') && Covered(s') == Covered(s)
  {
    hide Chained, NoGaps, PendingEvents, GoodRun;
    BatchOfSite(siteId, s, limit);
    var from := Covered(s).value;
    var batch := s.events[from..Min(from + limit, |s.events|)];
    var n := Min(recorded, |batch|);
    SliceOfSlice(s.events, from, Min(from + limit, |s.events|), n);
    NoGapsGrow(s.events, s.delivered, from, n);
  }

  lemma StepOk(siteId: string, s: Site, op: Op)
    requires SiteOk(siteId, s) && FreshIds(siteId, s, [op])
    ensures SiteOk(siteId, Step(siteId, s, op))
    ensures Covered(s).value <= Covered(Step(siteId, s, op)).value
  {
    hide SiteOk;
    match op
    case Append(body) => AppendStepOk(siteId, s, body);
    case Sync(limit) =>
      if 1 <= limit <= 10_000 {
        SyncStepOk(siteId, s, limit);
        CoveredInRange(siteId, s);
      }
    case CrashedSync(limit, recorded) =>
      if 1 <= limit <= 10_000 { CrashStepOk(siteId, s, limit, recorded); }
  }

  lemma CoveredInRange(siteId: string, s: Site)
    requires SiteOk(siteId, s)
    ensures Covered(s).Some? && Covered(s).value <= |s.events|
  {}

  lemma {:induction false} RunKeepsSite(siteId: string, s: Site, ops: seq<Op>)
    requires SiteOk(siteId, s) && FreshIds(siteId, s, ops)
    ensures SiteOk(siteId, Run(siteId, s, ops))
    decreases |ops|
  {
    if ops != [] {
      hide SiteOk, Step;
      assert FreshIds(siteId, s, [ops[0]]) by { assert [ops[0]][1..] == []; }
      StepOk(siteId, s, ops[0]);
      RunKeepsSite(siteId, Step(siteId, s, ops[0]), ops[1..]);
    }
  }

  const START := Site([], None, [])

  lemma StartOk(siteId: string)
    ensures SiteOk(siteId, START) && Covered(START) == Some(0)
  {}

  /**
   * From an empty site, over every interleaving of appends, syncs and crashes:
   * the ledger stays chained, every event up to the cursor has been recorded by
   * the sink, and nothing else is recorded than ledger events, each after its
   * predecessor in the ledger.
   */
  lemma AtLeastOnceInOrder(siteId: string, ops: seq<Op>)
    requires FreshIds(siteId, START, ops)
    ensures var s := Run(siteId, START, ops);
            && Chained(s.events)
            && Covered(s).Some? && Covered(s).value <= |s.events|
            && (forall i :: 0 <= i < Covered(s).value ==> s.events[i] in s.delivered)
            && (forall p :: 0 <= p < |s.delivered| ==> FollowsPredecessor(s.events, s.delivered, p))
  {
    hide Run, FollowsPredecessor;
    StartOk(siteId);
    RunKeepsSite(siteId, START, ops);
  }

  /** In every state a run from an empty site reaches, the pending batch is the ledger run right after the cursor and passes the sink. */
  lemma BatchIsNextRun(siteId: string, ops: seq<Op>, limit: int)
    requires FreshIds(siteId, START, ops) && 1 <= limit <= 10_000
    ensures var s := Run(siteId, START, ops);
            && Covered(s).Some? && Covered(s).value <= |s.events|
            && var from := Covered(s).value;
               var batch := s.events[from..Min(from + limit, |s.events|)];
               && PendingEvents(s.events, siteId, s.cursor, limit) == Ok(batch)
               && GoodRun(batch, FirstPrev(batch)) == |batch|
  {
    hide Run, PendingEvents, GoodRun, SiteOk;
    StartOk(siteId);
    RunKeepsSite(siteId, START, ops);
    var s := Run(siteId, START, ops);
    CoveredInRange(siteId, s);
    BatchOfSite(siteId, s, limit);
  }

  lemma {:induction false} RunKeepsPrefix(siteId: string, s: Site, ops: seq<Op>)
    requires SiteOk(siteId, s) && FreshIds(siteId, s, ops)
    requires s.delivered == s.events[..Covered(s).value]
    requires forall i :: 0 <= i < |ops| ==> !ops[i].CrashedSync?
    ensures var s' := Run(siteId, s, ops);
            SiteOk(siteId, s') && s'.delivered == s'.events[..Covered(s').value]
    decreases |ops|
  {
    if ops != [] {
      hide SiteOk, Step;
      var s' := Step(siteId, s, ops[0]);
      assert FreshIds(siteId, s, [ops[0]]) by { assert [ops[0]][1..] == []; }
      StepOk(siteId, s, ops[0]);
      CoveredInRange(siteId, s);
      CoveredInRange(siteId, s');
      StepExact(siteId, s, ops[0]);
      RunKeepsPrefix(siteId, s', ops[1..]);
    }
  }

  /** From an empty site and without crashes, the sink has recorded exactly the ledger up to the cursor, each event once. */
  lemma ExactlyOnceWithoutCrashes(siteId: string, ops: seq<Op>)
    requires FreshIds(siteId, START, ops)
    requires forall i :: 0 <= i < |ops| ==> !ops[i].CrashedSync?
    ensures var s := Run(siteId, START, ops);
            && Covered(s).Some? && Covered(s).value <= |s.events|
            && s.delivered == s.events[..Covered(s).value]
  {
    hide Run, SiteOk;
    StartOk(siteId);
    RunKeepsPrefix(siteId, START, ops);
    CoveredInRange(siteId, Run(siteId, START, ops));
  }

  lemma StepExact(siteId: string, s: Site, op: Op)
    requires SiteOk(siteId, s) && FreshIds(siteId, s, [op]) && !op.CrashedSync?
    requires s.delivered == s.events[..Covered(s).value]
    requires SiteOk(siteId, Step(siteId, s, op))
    ensures var s' := Step(siteId, s, op); s'.delivered == s'.events[..Covered(s').value]
  {
    hide SiteOk;
    CoveredInRange(siteId, s);
    match op
    case Append(body) => AppendStepOk(siteId, s, body);
    case Sync(limit) =>
      if 1 <= limit <= 10_000 {
        SyncStepOk(siteId, s, limit);
        var from := Covered(s).value;
        var to := Min(from + limit, |s.events|);
        assert s.events[..from] + s.events[from..to] == s.events[..to];
      }
  }

  /** In every state a run from an empty site reaches, a sync shrinks the backlog by the limit, down to nothing. */
  lemma SyncProgress(siteId: string, ops: seq<Op>, limit: int)
    requires FreshIds(siteId, START, ops) && 1 <= limit <= 10_000
    ensures var s := Run(siteId, START, ops);
            var s' := Step(siteId, s, Sync(limit));
            && Covered(s).Some? && Covered(s').Some? && s'.events == s.events
            && var remaining, remaining' := |s.events| - Covered(s).value, |s'.events| - Covered(s').value;
               remaining' == remaining - Min(limit, remaining)
  {
    hide Run, SiteOk, Step;
    StartOk(siteId);
    RunKeepsSite(siteId, START, ops);
    var s := Run(siteId, START, ops);
    SyncStepOk(siteId, s, limit);
    CoveredInRange(siteId, s);
  }
}
