/** The hash-chained JSONL ledger: python/urp/ledger.py and LedgerEvent of python/urp/contracts.py. */
module Ledger {
  import opened Common
  import Text

  // ----- Events and their chain -----

  datatype Details =
    | Plain(text: string)
    | FromEdge(sourceEventId: string, sourceEventHash: Option<ChainHash>, sourceDetails: Details)

  /** Every field of an event but its two hashes. */
  datatype Body = Body(
    eventId: string,
    eventType: string,
    tenant: string,
    workUnitId: Option<string>,
    manifestId: Option<string>,
    policyBundleId: Option<string>,
    actor: Option<string>,
    decision: Option<string>,
    details: Details,
    traceId: Option<string>,
    createdAt: string)

  /** `stable_json_hash` of the event with `prev_hash` set and `event_hash` blank. */
  datatype ChainHash = ChainHash(body: Body, prev: Option<ChainHash>)

  datatype Event = Event(body: Body, prevHash: Option<ChainHash>, eventHash: Option<ChainHash>) {
    function WithChainHash(prev: Option<ChainHash>): Event { Event(body, prev, Some(ChainHash(body, prev))) }
  }

  predicate IdChar(c: char) { 'A' <= c <= 'Z' || 'a' <= c <= 'z' || '0' <= c <= '9' || c == '_' || c == '-' }

  predicate IdTail(tail: string) { tail != "" && forall i :: 0 <= i < |tail| ==> IdChar(tail[i]) }

  /** The pattern of an event id, whose `$` also matches before a final line feed. */
  predicate SchemaId(id: string) {
    && |id| > 4 && id[..4] == "evt_"
    && IdTail(if id[|id| - 1] == '\n' then id[4..|id| - 1] else id[4..])
  }

  /** The event schema's checks; that the time is a date is checked only by an optional package. */
  predicate Admitted(b: Body) { SchemaId(b.eventId) && b.tenant != "" }

  /** `from_dict` puts a new id or time where there is none. */
  predicate Complete(b: Body) { b.eventId != "" && b.createdAt != "" }

  ghost predicate AllComplete(events: seq<Event>) { forall e :: e in events ==> Complete(e.body) }

  function LastHash(events: seq<Event>): Option<ChainHash> {
    if events == [] then None else events[|events| - 1].eventHash
  }

  /** Each event hashes itself over the hash of the one before, starting from `prev`. */
  predicate ChainedFrom(events: seq<Event>, prev: Option<ChainHash>) {
    events == [] ||
    (&& events[0] == events[0].WithChainHash(prev)
     && ChainedFrom(events[1..], events[0].eventHash))
  }

  predicate Chained(events: seq<Event>) { ChainedFrom(events, None) }

  lemma {:induction false} ChainedSnoc(events: seq<Event>, e: Event, prev: Option<ChainHash>)
    ensures ChainedFrom(events + [e], prev) <==>
              ChainedFrom(events, prev)
              && e == e.WithChainHash(if events == [] then prev else LastHash(events))
  {
    if events == [] {
      assert events + [e] == [e];
    } else {
      assert (events + [e])[1..] == events[1..] + [e];
      ChainedSnoc(events[1..], e, events[0].eventHash);
    }
  }

  /** Appending the way the ledger does keeps the chain. */
  lemma AppendKeepsChain(events: seq<Event>, e: Event)
    requires Chained(events)
    ensures Chained(events + [e.WithChainHash(LastHash(events))])
  {
    ChainedSnoc(events, e.WithChainHash(LastHash(events)), None);
  }

  /** The head hash determines the whole history. */
  lemma {:induction false} HeadDeterminesHistory(xs: seq<Event>, ys: seq<Event>)
    requires Chained(xs) && Chained(ys) && LastHash(xs) == LastHash(ys)
    ensures xs == ys
    decreases |xs|
  {
    if xs == [] || ys == [] {
      HeadlessIsEmpty(xs);
      HeadlessIsEmpty(ys);
    } else {
      var x, y := xs[|xs| - 1], ys[|ys| - 1];
      var xs', ys' := xs[..|xs| - 1], ys[..|ys| - 1];
      assert xs == xs' + [x] && ys == ys' + [y];
      ChainedSnoc(xs', x, None);
      ChainedSnoc(ys', y, None);
      HeadDeterminesHistory(xs', ys');
    }
  }

  lemma HeadlessIsEmpty(xs: seq<Event>)
    requires Chained(xs)
    ensures LastHash(xs) == None <==> xs == []
  {
    if xs != [] {
      assert xs == xs[..|xs| - 1] + [xs[|xs| - 1]];
      ChainedSnoc(xs[..|xs| - 1], xs[|xs| - 1], None);
    }
  }

  /** A contiguous run of a chained ledger is chained from the event before it. */
  lemma {:induction false} SliceIsChained(events: seq<Event>, prev: Option<ChainHash>, i: nat, j: nat)
    requires ChainedFrom(events, prev) && i <= j <= |events|
    ensures ChainedFrom(events[i..j], if i == 0 then prev else events[i - 1].eventHash)
  {
    if i > 0 {
      SliceIsChained(events[1..], events[0].eventHash, i - 1, j - 1);
      assert events[1..][i - 1..j - 1] == events[i..j];
    } else if j > 0 {
      SliceIsChained(events[1..], events[0].eventHash, 0, j - 1);
      assert events[0..j][1..] == events[1..][0..j - 1];
    }
  }

  // ----- Lines of the file -----

  const LF: byte := 10
  const CR: byte := 13

  predicate IsBreak(c: byte) { c == LF || c == CR }

  /** Nothing but the white space that `str.strip` takes away. */
  predicate Blank(line: bytes) { forall i :: 0 <= i < |line| ==> Text.IsSpace(line[i] as char) }

  /** How one event becomes a line of JSON and back. */
  datatype LineCodec = LineCodec(encode: Event -> bytes, decode: bytes -> Result<Event>) {
    /**
     * `json.dumps` escapes line breaks and yields non-blank text; reading it
     * gives the event back, but for an id or time that was missing.
     */
    ghost predicate Faithful() {
      forall e: Event ::
        && Restores(e, decode(encode(e)))
        && !Blank(encode(e))
        && forall i :: 0 <= i < |encode(e)| ==> !IsBreak(encode(e)[i])
    }
  }

  ghost predicate Restores(e: Event, r: Result<Event>) {
    && r.Ok? && r.value.prevHash == e.prevHash && r.value.eventHash == e.eventHash
    && (r.value.body == e.body <==> Complete(e.body))
  }

  function Render(codec: LineCodec, events: seq<Event>): bytes {
    if events == [] then [] else codec.encode(events[0]) + [LF] + Render(codec, events[1..])
  }

  /** Text-mode lines; a CRLF pair yields an extra blank line, which readers skip. */
  function Lines(file: bytes): (lines: seq<bytes>)
    ensures lines != []
  {
    if file == [] then [[]]
    else
      var rest := Lines(file[1..]);
      if IsBreak(file[0]) then [[]] + rest else [[file[0]] + rest[0]] + rest[1..]
  }

  function DecodeLines(codec: LineCodec, lines: seq<bytes>): Result<seq<Event>> {
    if lines == [] then Ok([])
    else if Blank(lines[0]) then DecodeLines(codec, lines[1..])
    else
      var e :- codec.decode(lines[0]);
      Prepend([e], DecodeLines(codec, lines[1..]))
  }

  function ReadFile(codec: LineCodec, file: bytes): Result<seq<Event>> { DecodeLines(codec, Lines(file)) }

  /** A line of blanks, wherever it stands, is as if it were not there. */
  lemma {:induction false} BlankLinesSkipped(codec: LineCodec, xs: seq<bytes>, line: bytes, ys: seq<bytes>)
    requires forall i :: 0 <= i < |line| ==> line[i] in {9, 10, 11, 12, 13, 28, 29, 30, 31, 32}
    ensures DecodeLines(codec, xs + [line] + ys) == DecodeLines(codec, xs + ys)
  {
    if xs == [] {
      assert ([] + [line] + ys)[1..] == ys && [] + ys == ys;
    } else {
      assert (xs + [line] + ys)[1..] == xs[1..] + [line] + ys && (xs + ys)[1..] == xs[1..] + ys;
      BlankLinesSkipped(codec, xs[1..], line, ys);
    }
  }

  /** Any other line is an event or raises. */
  lemma OtherLinesCount(codec: LineCodec, line: bytes, i: nat)
    requires i < |line| && line[i] !in {9, 10, 11, 12, 13, 28, 29, 30, 31, 32}
    ensures DecodeLines(codec, [line]) ==
              if codec.decode(line).Ok? then Ok([codec.decode(line).value]) else Raise(codec.decode(line).error)
  {
    assert [line][1..] == [];
    assert codec.decode(line).Ok? ==> [codec.decode(line).value] + [] == [codec.decode(line).value];
  }

  lemma {:induction false} LinesCons(line: bytes, rest: bytes)
    requires forall i :: 0 <= i < |line| ==> !IsBreak(line[i])
    ensures Lines(line + [LF] + rest) == [line] + Lines(rest)
  {
    var file := line + [LF] + rest;
    if line == [] {
      assert file[1..] == rest;
    } else {
      assert file[1..] == line[1..] + [LF] + rest;
      LinesCons(line[1..], rest);
      assert [line[0]] + line[1..] == line;
    }
  }

  /** The events as reading their lines yields them. */
  ghost function Restored(codec: LineCodec, events: seq<Event>): seq<Event>
    requires codec.Faithful()
  {
    if events == [] then [] else [codec.decode(codec.encode(events[0])).value] + Restored(codec, events[1..])
  }

  lemma {:induction false} RestoredAt(codec: LineCodec, events: seq<Event>)
    requires codec.Faithful()
    ensures |Restored(codec, events)| == |events|
    ensures forall i :: 0 <= i < |events| ==> Restores(events[i], Ok(Restored(codec, events)[i]))
  {
    if events != [] {
      hide Restores;
      assert Restores(events[0], codec.decode(codec.encode(events[0])));
      RestoredAt(codec, events[1..]);
    }
  }

  lemma CompleteAreRestored(codec: LineCodec, events: seq<Event>)
    requires codec.Faithful() && AllComplete(events)
    ensures Restored(codec, events) == events
  {
    RestoredAt(codec, events);
  }

  /** Reading a file that appends produced gives the restored events: those appended, if all of them were complete. */
  lemma {:induction false} ReadRendered(codec: LineCodec, events: seq<Event>)
    requires codec.Faithful()
    ensures ReadFile(codec, Render(codec, events)) == Ok(Restored(codec, events))
    ensures AllComplete(events) ==> ReadFile(codec, Render(codec, events)) == Ok(events)
  {
    if AllComplete(events) {
      CompleteAreRestored(codec, events);
    }
    if events == [] {
      var lines: seq<bytes> := [[]];
      assert Lines([]) == lines && Blank(lines[0]) && lines[1..] == [];
      assert DecodeLines(codec, lines) == DecodeLines(codec, []);
    } else {
      hide Lines, Restores, AllComplete;
      var line := codec.encode(events[0]);
      LinesCons(line, Render(codec, events[1..]));
      ReadRendered(codec, events[1..]);
      var lines := Lines(Render(codec, events));
      assert lines[0] == line && lines[1..] == Lines(Render(codec, events[1..]));
      assert codec.decode(line).Ok? by { RestoredAt(codec, [events[0]]); LineRestores(codec, events[0]); }
    }
  }

  lemma LineRestores(codec: LineCodec, e: Event)
    requires codec.Faithful()
    ensures Restores(e, codec.decode(codec.encode(e)))
  {}

  lemma {:induction false} LinksIffSame(events: seq<Event>, read: seq<Event>, prev: Option<ChainHash>)
    requires ChainedFrom(events, prev) && |read| == |events|
    requires forall i :: 0 <= i < |events| ==> Restores(events[i], Ok(read[i]))
    ensures ChainedFrom(read, prev) <==> AllComplete(events)
  {
    if events != [] {
      assert Restores(events[0], Ok(read[0]));
      assert read[0] == read[0].WithChainHash(prev) <==> read[0].body == events[0].body;
      LinksIffSame(events[1..], read[1..], events[0].eventHash);
      assert AllComplete(events) <==> Complete(events[0].body) && AllComplete(events[1..]) by {
        assert events == [events[0]] + events[1..];
      }
    }
  }

  /** A file that appends produced verifies if and only if every event had an id and a time. */
  lemma VerifiesIffComplete(codec: LineCodec, events: seq<Event>)
    requires codec.Faithful() && Chained(events)
    ensures ReadFile(codec, Render(codec, events)).Ok?
    ensures Chained(ReadFile(codec, Render(codec, events)).value) <==> AllComplete(events)
  {
    hide ReadFile, Render, Restores;
    ReadRendered(codec, events);
    RestoredAt(codec, events);
    LinksIffSame(events, Restored(codec, events), None);
  }

  /** One event without a time is appended and breaks the chain of the file. */
  lemma UndatedEventBreaksChain(codec: LineCodec, b: Body)
    requires codec.Faithful() && b.createdAt == ""
    ensures var e := Event(b, None, None).WithChainHash(None);
            Chained([e]) && ReadFile(codec, Render(codec, [e])).Ok? && !Chained(ReadFile(codec, Render(codec, [e])).value)
  {
    hide ReadFile, Render;
    var e := Event(b, None, None).WithChainHash(None);
    AppendKeepsChain([], Event(b, None, None));
    assert [] + [e] == [e];
    VerifiesIffComplete(codec, [e]);
    assert e in [e] && !Complete(e.body);
  }

  // ----- The backward tail scan -----

  /** `rstrip(b"\r\n")` */
  function RStrip(s: bytes): bytes {
    if s == [] || !IsBreak(s[|s| - 1]) then s else RStrip(s[..|s| - 1])
  }

  /** What follows the last line feed: `rsplit(b"\n", 1)[-1]`. */
  function AfterLastLF(s: bytes): bytes {
    if s == [] || s[|s| - 1] == LF then [] else AfterLastLF(s[..|s| - 1]) + [s[|s| - 1]]
  }

  /** The last line of the whole file, read in one piece. */
  function TailLine(file: bytes): Option<bytes> {
    if RStrip(file) == [] then None else Some(AfterLastLF(RStrip(file)))
  }

  function TailEvent(codec: LineCodec, file: bytes): Result<Option<Event>> {
    match TailLine(file)
    case None => Ok(None)
    case Some(line) => var e :- codec.decode(line); Ok(Some(e))
  }

  lemma {:induction false} RStripIs(s: bytes) returns (breaks: bytes)
    ensures s == RStrip(s) + breaks && forall i :: 0 <= i < |breaks| ==> breaks[i] == 10 || breaks[i] == 13
    ensures RStrip(s) != [] ==> RStrip(s)[|RStrip(s)| - 1] != 10 && RStrip(s)[|RStrip(s)| - 1] != 13
  {
    if s == [] || !IsBreak(s[|s| - 1]) {
      breaks := [];
    } else {
      var before := RStripIs(s[..|s| - 1]);
      breaks := before + [s[|s| - 1]];
      assert s == s[..|s| - 1] + [s[|s| - 1]];
    }
  }

  lemma {:induction false} AfterLastLFIs(s: bytes) returns (before: bytes)
    ensures s == before + AfterLastLF(s) && 10 !in AfterLastLF(s)
    ensures before == [] || before[|before| - 1] == 10
  {
    if s == [] || s[|s| - 1] == LF {
      before := s;
      assert AfterLastLF(s) == [];
    } else {
      before := AfterLastLFIs(s[..|s| - 1]);
      assert s == s[..|s| - 1] + [s[|s| - 1]];
    }
  }

  /** The last line of any file: what stands between a line feed, or the start, and the breaks at its end, if that is not empty. */
  lemma TailLineIs(file: bytes) returns (before: bytes, breaks: bytes)
    ensures forall i :: 0 <= i < |breaks| ==> breaks[i] == 10 || breaks[i] == 13
    ensures before == [] || before[|before| - 1] == 10
    ensures match TailLine(file)
            case None => file == breaks
            case Some(line) =>
              && file == before + line + breaks && 10 !in line && line != []
              && line[|line| - 1] != 10 && line[|line| - 1] != 13
  {
    hide RStrip, AfterLastLF;
    breaks := RStripIs(file);
    before := AfterLastLFIs(RStrip(file));
    if RStrip(file) == [] {
      before := [];
      assert [] + breaks == breaks;
    }
  }

  lemma {:induction false} RStripJoin(a: bytes, b: bytes)
    ensures RStrip(a + b) == if RStrip(b) == [] then RStrip(a) else a + RStrip(b)
  {
    if b == [] {
      assert a + b == a;
    } else {
      assert (a + b)[..|a + b| - 1] == a + b[..|b| - 1];
      RStripJoin(a, b[..|b| - 1]);
    }
  }

  lemma {:induction false} AfterLastLFJoin(a: bytes, b: bytes)
    requires LF in b
    ensures AfterLastLF(a + b) == AfterLastLF(b)
  {
    if b[|b| - 1] != LF {
      assert b == b[..|b| - 1] + [b[|b| - 1]];
      assert (a + b)[..|a + b| - 1] == a + b[..|b| - 1];
      AfterLastLFJoin(a, b[..|b| - 1]);
    }
  }

  lemma TailOfSuffix(a: bytes, b: bytes)
    requires LF in RStrip(b)
    ensures TailLine(a + b) == TailLine(b)
  {
    RStripJoin(a, b);
    AfterLastLFJoin(a, RStrip(b));
  }

  lemma {:induction false} AfterLastLFWhole(s: bytes)
    requires LF !in s
    ensures AfterLastLF(s) == s
  {
    if s != [] {
      assert s == s[..|s| - 1] + [s[|s| - 1]];
      AfterLastLFWhole(s[..|s| - 1]);
    }
  }

  /** `rendered + line + "\n"` ends in exactly that line. */
  lemma TailOfRendered(before: bytes, line: bytes)
    requires line != [] && (forall i :: 0 <= i < |line| ==> !IsBreak(line[i]))
    requires before == [] || before[|before| - 1] == LF
    ensures TailLine(before + line + [LF]) == Some(line)
  {
    var x := before + line;
    assert (x + [LF])[..|x + [LF]| - 1] == x;
    assert x[|x| - 1] == line[|line| - 1];
    assert RStrip(x + [LF]) == x;
    AfterLine(before, line);
  }

  lemma {:induction false} AfterLine(before: bytes, line: bytes)
    requires (forall i :: 0 <= i < |line| ==> !IsBreak(line[i]))
    requires before == [] || before[|before| - 1] == LF
    ensures AfterLastLF(before + line) == line
  {
    if line == [] {
      assert before + line == before;
    } else {
      var x := before + line;
      assert x[..|x| - 1] == before + line[..|line| - 1];
      AfterLine(before, line[..|line| - 1]);
      assert line[..|line| - 1] + [line[|line| - 1]] == line;
    }
  }

  lemma {:induction false} RenderSnoc(codec: LineCodec, events: seq<Event>, e: Event)
    ensures Render(codec, events + [e]) == Render(codec, events) + (codec.encode(e) + [LF])
  {
    if events == [] {
      assert events + [e] == [e] && [e][1..] == [];
      assert Render(codec, [e]) == codec.encode(e) + [LF] + Render(codec, []);
    } else {
      assert (events + [e])[1..] == events[1..] + [e];
      RenderSnoc(codec, events[1..], e);
    }
  }

  lemma {:induction false} RenderEndsInLF(codec: LineCodec, events: seq<Event>)
    ensures var f := Render(codec, events); f == [] || f[|f| - 1] == LF
  {
    if events != [] {
      assert events == events[..|events| - 1] + [events[|events| - 1]];
      RenderSnoc(codec, events[..|events| - 1], events[|events| - 1]);
    }
  }

  /** On every file that appends produce, the tail is the last event of the full read, or None when there is none. */
  lemma TailIsLastEvent(codec: LineCodec, events: seq<Event>)
    requires codec.Faithful()
    ensures var rows := ReadFile(codec, Render(codec, events));
            && rows.Ok? && |rows.value| == |events|
            && TailEvent(codec, Render(codec, events))
               == Ok(if events == [] then None else Some(rows.value[|events| - 1]))
            && (events != [] ==> rows.value[|events| - 1].eventHash == LastHash(events))
  {
    hide ReadFile, RStrip, AfterLastLF, Restores, AllComplete, TailLine, Render, Restored;
    ReadRendered(codec, events);
    RestoredAt(codec, events);
    if events != [] {
      var before, e := events[..|events| - 1], events[|events| - 1];
      assert events == before + [e];
      RenderSnoc(codec, before, e);
      RenderEndsInLF(codec, before);
      assert codec.encode(e) != [] by { assert Blank([]); }
      TailOfRendered(Render(codec, before), codec.encode(e));
      assert Render(codec, events) == Render(codec, before) + codec.encode(e) + [LF];
      LineRestores(codec, e);
      RestoredLast(codec, events);
      RestoredHash(codec, events);
    } else {
      EmptyTail();
      NothingRendered(codec);
    }
  }

  lemma {:induction false} RestoredLast(codec: LineCodec, events: seq<Event>)
    requires codec.Faithful() && events != []
    ensures |Restored(codec, events)| == |events|
    ensures Restored(codec, events)[|events| - 1] == codec.decode(codec.encode(events[|events| - 1])).value
  {
    RestoredAt(codec, events);
    if |events| > 1 {
      RestoredLast(codec, events[1..]);
    }
  }

  lemma RestoredHash(codec: LineCodec, events: seq<Event>)
    requires codec.Faithful() && events != []
    ensures |Restored(codec, events)| == |events|
    ensures Restored(codec, events)[|events| - 1].eventHash == LastHash(events)
  {
    RestoredAt(codec, events);
    assert Restores(events[|events| - 1], Ok(Restored(codec, events)[|events| - 1]));
  }

  lemma NothingRendered(codec: LineCodec)
    ensures Render(codec, []) == []
  {}

  lemma EmptyTail()
    ensures TailLine([]) == None
  {}

  // ----- The ledger object -----

  class JSONLLedger {
    const codec: LineCodec
    const block: nat
    var file: bytes
    ghost var events: seq<Event>

    ghost predicate Valid()
      reads this
    {
      && block > 0 && codec.Faithful()
      && file == Render(codec, events)
      && Chained(events) && forall e :: e in events ==> Admitted(e.body)
    }

    constructor (codec: LineCodec, block: nat)
      requires codec.Faithful() && block > 0
      ensures Valid() && events == []
    {
      this.codec, this.block := codec, block;
      file, events := [], [];
    }

    /** Reads the file from its end in blocks until the last line is complete. */
    method LastEventUnlocked() returns (r: Result<Option<Event>>)
      requires block > 0
      ensures r == TailEvent(codec, file)
    {
      hide RStrip, AfterLastLF;
      var position := |file|;
      var buffer: bytes := [];
      EmptyTail();
      while position > 0
        invariant 0 <= position <= |file|
        invariant buffer == file[position..]
        invariant position == 0 ==> file == []
      {
        var size := Min(block, position);
        position := position - size;
        buffer := file[position..position + size] + buffer;
        var stripped := RStrip(buffer);
        if position == 0 || LF in stripped {
          if LF in stripped {
            TailOfSuffix(file[..position], buffer);
            assert file[..position] + buffer == file;
          }
          assert TailLine(buffer) == TailLine(file) by { assert position == 0 ==> buffer == file; }
          if stripped == [] {
            return Ok(None);
          }
          var line := AfterLastLF(stripped);
          var e := codec.decode(line);
          return if e.Raise? then Raise(e.error) else Ok(Some(e.value));
        }
      }
      r := Ok(None);
    }

    method Append(event: Event, current: Option<string>) returns (r: Result<Event>)
      requires Valid()
      modifies this
      ensures Valid()
      ensures current.Some? && current.value != event.body.tenant ==>
                r == Raise(TenantMismatch) && events == old(events)
      ensures !(current.Some? && current.value != event.body.tenant) && !Admitted(event.body) ==>
                r == Raise(ValueError) && events == old(events)
      ensures !(current.Some? && current.value != event.body.tenant) && Admitted(event.body) ==>
                r == Ok(event.WithChainHash(LastHash(old(events)))) && events == old(events) + [r.value]
    {
      hide RStrip, AfterLastLF, ReadFile, Restores;
      if current.Some? && event.body.tenant != current.value {
        return Raise(TenantMismatch);
      }
      TailIsLastEvent(codec, events);
      var previous := LastEventUnlocked();
      var chained := event.WithChainHash(if previous.value.Some? then previous.value.value.eventHash else None);
      if !Admitted(chained.body) {
        return Raise(ValueError);
      }
      file := file + (codec.encode(chained) + [LF]);
      RenderSnoc(codec, events, chained);
      AppendKeepsChain(events, event);
      events := events + [chained];
      r := Ok(chained);
    }

    /** `_read_unlocked`: every non-blank line as an event, or the first one's exception. */
    method ReadUnlocked() returns (r: Result<seq<Event>>)
      ensures r == ReadFile(codec, file)
    {
      hide Lines, Blank;
      var lines := Lines(file);
      var events: seq<Event> := [];
      assert lines[0..] == lines;
      PrependNothing(DecodeLines(codec, lines));
      for i := 0 to |lines|
        invariant ReadFile(codec, file) == Prepend(events, DecodeLines(codec, lines[i..]))
      {
        assert lines[i..][0] == lines[i] && lines[i..][1..] == lines[i + 1..];
        if Blank(lines[i]) {
          continue;
        }
        var e := codec.decode(lines[i]);
        if e.Raise? {
          return Raise(e.error);
        }
        PrependTwice(events, [e.value], DecodeLines(codec, lines[i + 1..]));
        events := events + [e.value];
      }
      assert events + [] == events;
      r := Ok(events);
    }

    /** The events visible to the current tenant, all of them when none is bound. */
    method Read(current: Option<string>) returns (r: Result<seq<Event>>)
      ensures ReadFile(codec, file).Raise? ==> r == Raise(ReadFile(codec, file).error)
      ensures ReadFile(codec, file).Ok? ==> r == Ok(Visible(ReadFile(codec, file).value, current))
    {
      var rows := ReadUnlocked();
      r := if rows.Raise? then rows else Ok(Visible(rows.value, current));
    }

    method VerifyChain() returns (r: Result<bool>)
      ensures ReadFile(codec, file).Raise? ==> r == Raise(ReadFile(codec, file).error)
      ensures ReadFile(codec, file).Ok? ==> r == Ok(Chained(ReadFile(codec, file).value))
    {
      var rows := ReadUnlocked();
      if rows.Raise? {
        return Raise(rows.error);
      }
      var ok := VerifyEvents(rows.value);
      r := Ok(ok);
    }
  }

  function Visible(events: seq<Event>, current: Option<string>): seq<Event> {
    if current == None || events == [] then events
    else
      var rest := Visible(events[1..], current);
      if events[0].body.tenant == current.value then [events[0]] + rest else rest
  }

  /** What a tenant sees is the ledger's own events in order: nothing else, and none missing. */
  lemma {:induction false} VisibleJoins(xs: seq<Event>, ys: seq<Event>, tenant: string)
    ensures Visible(xs + ys, Some(tenant)) == Visible(xs, Some(tenant)) + Visible(ys, Some(tenant))
  {
    if xs == [] {
      assert xs + ys == ys;
    } else {
      assert (xs + ys)[1..] == xs[1..] + ys;
      VisibleJoins(xs[1..], ys, tenant);
    }
  }

  lemma VisibleOne(e: Event, tenant: string)
    ensures Visible([e], Some(tenant)) == if e.body.tenant == tenant then [e] else []
    ensures Visible([], Some(tenant)) == [] && Visible([e], None) == [e]
  {
    assert [e][1..] == [];
  }

  predicate Plain(c: char) { '0' <= c <= '9' || 'A' <= c <= 'Z' || 'a' <= c <= 'z' || c == '_' || c == '-' }

  predicate PlainUpTo(id: string, n: int) { 4 < n <= |id| && forall i :: 4 <= i < n ==> Plain(id[i]) }

  /** What the schema asks of an event: some tenant, and an id of `evt_`, plain characters, and at most one line feed after them. */
  lemma AdmittedIff(b: Body)
    ensures Admitted(b) <==>
              var id := b.eventId;
              && b.tenant != "" && |id| > 4 && id[..4] == "evt_"
              && (PlainUpTo(id, |id|) || (id[|id| - 1] == '\n' && PlainUpTo(id, |id| - 1)))
    ensures Admitted(b) ==> (Complete(b) <==> b.createdAt != "")
  {
    var id := b.eventId;
    if |id| > 4 {
      assert Plain(id[|id| - 1]) ==> id[|id| - 1] != '\n';
      TailPlain(id, |id|);
      TailPlain(id, |id| - 1);
      assert id[4..|id|] == id[4..];
    }
  }

  lemma TailPlain(id: string, n: nat)
    requires 4 <= n <= |id|
    ensures IdTail(id[4..n]) <==> PlainUpTo(id, n)
  {
    var tail := id[4..n];
    forall i | 4 <= i < n
      ensures id[i] == tail[i - 4]
    {}
    assert forall i :: 0 <= i < |tail| ==> tail[i] == id[i + 4] && (IdChar(tail[i]) <==> Plain(tail[i]));
  }

  /** The loop of `verify_chain`, over any list of events. */
  method VerifyEvents(events: seq<Event>) returns (ok: bool)
    ensures ok <==> Chained(events)
  {
    var prev: Option<ChainHash> := None;
    assert events[0..] == events;
    for i := 0 to |events|
      invariant Chained(events) <==> ChainedFrom(events[i..], prev)
    {
      assert events[i..][0] == events[i] && events[i..][1..] == events[i + 1..];
      var event := events[i];
      if event.prevHash != prev {
        return false;
      }
      var recalculated := event.WithChainHash(event.prevHash);
      if event.eventHash != recalculated.eventHash {
        return false;
      }
      prev := event.eventHash;
    }
    ok := true;
  }
}
