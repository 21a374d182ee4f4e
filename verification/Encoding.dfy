/** The JSON envelope codec: python/urp/encoding.py. */
module Encoding {
  import opened Common
  import Base64

  /** A dictionary key: a string, or another object with the text `str()` gives it. */
  datatype Key = Text(text: string) | NonText(printed: string)

  datatype Value =
    | Null
    | Bool(b: bool)
    | Num(n: int)
    | Str(s: string)
    | Bytes(data: bytes)
    | List(items: seq<Value>)
    | Tuple(items: seq<Value>)
    | Dict(entries: seq<Entry>)

  /** One key of a dictionary with its value. */
  datatype Entry = Entry(key: Key, value: Value)

  const ENCODING_KEY := "_urp_encoding"
  const DATA_KEY := "data"
  const BASE64 := "base64"

  function KeyText(k: Key): string { if k.Text? then k.text else k.printed }

  /** `str(value)`; containers and bytes print with a bracket or a quote, which base 64 rejects. */
  function Printed(v: Value): string {
    match v
    case Null => "None"
    case Bool(b) => if b then "True" else "False"
    case Num(n) => if n < 0 then "-" + Decimal(-n) else Decimal(n)
    case Str(s) => s
    case _ => "[]"
  }

  /** Assigning to a dictionary under construction: overwrite in place or append. */
  function Assign(entries: seq<Entry>, key: string, v: Value): seq<Entry> {
    if entries == [] then [Entry(Text(key), v)]
    else if entries[0].key == Text(key) then [Entry(Text(key), v)] + entries[1..]
    else [entries[0]] + Assign(entries[1..], key, v)
  }

  /** A dictionary comprehension with string keys. */
  function Gather(pairs: seq<(string, Value)>): seq<Entry> {
    if pairs == [] then []
    else
      var last := pairs[|pairs| - 1];
      Assign(Gather(pairs[..|pairs| - 1]), last.0, last.1)
  }

  function Envelope(data: bytes): Value {
    Dict([Entry(Text(ENCODING_KEY), Str(BASE64)), Entry(Text(DATA_KEY), Str(Base64.Encode(data)))])
  }

  function Encode(v: Value): Value
    decreases v, 1
  {
    match v
    case Bytes(data) => Envelope(data)
    case Dict(entries) => Dict(Gather(EncodeEntries(entries)))
    case List(items) => List(EncodeAll(items))
    case Tuple(items) => List(EncodeAll(items))
    case _ => v
  }

  function EncodeAll(items: seq<Value>): seq<Value>
    decreases items, 0
  {
    if items == [] then [] else [Encode(items[0])] + EncodeAll(items[1..])
  }

  function EncodeEntries(entries: seq<Entry>): seq<(string, Value)>
    decreases entries, 0
  {
    if entries == [] then []
    else [EncodeEntry(entries[0])] + EncodeEntries(entries[1..])
  }

  function EncodeEntry(e: Entry): (string, Value)
    decreases e, 1
  {
    (KeyText(e.key), Encode(e.value))
  }

  /** The value under a key. */
  function Lookup(entries: seq<Entry>, key: string): Option<Value> {
    if entries == [] then None
    else if entries[0].key == Text(key) then Some(entries[0].value)
    else Lookup(entries[1..], key)
  }

  /** Exactly the two envelope keys, and the right encoding named. */
  predicate EnvelopeShaped(entries: seq<Entry>) {
    && |entries| == 2
    && Lookup(entries, ENCODING_KEY) == Some(Str(BASE64))
    && Lookup(entries, DATA_KEY).Some?
  }

  function Decode(v: Value): Result<Value>
    decreases v, 1
  {
    match v
    case Dict(entries) =>
      if EnvelopeShaped(entries) then
        match Base64.Decode(Printed(Lookup(entries, DATA_KEY).value))
        case None => Raise(ValueError)
        case Some(data) => Ok(Bytes(data))
      else
        var pairs :- DecodeEntries(entries);
        Ok(Dict(Gather(pairs)))
    case List(items) =>
      var decoded :- DecodeAll(items);
      Ok(List(decoded))
    case _ => Ok(v)
  }

  function DecodeAll(items: seq<Value>): Result<seq<Value>>
    decreases items, 0
  {
    if items == [] then Ok([])
    else
      var first :- Decode(items[0]);
      var rest :- DecodeAll(items[1..]);
      Ok([first] + rest)
  }

  function DecodeEntries(entries: seq<Entry>): Result<seq<(string, Value)>>
    decreases entries, 0
  {
    if entries == [] then Ok([])
    else
      var first :- DecodeEntry(entries[0]);
      var rest :- DecodeEntries(entries[1..]);
      Ok([first] + rest)
  }

  function DecodeEntry(e: Entry): Result<(string, Value)>
    decreases e, 1
  {
    var v :- Decode(e.value);
    Ok((KeyText(e.key), v))
  }

  // ----- Which values survive -----

  predicate DistinctKeys(entries: seq<Entry>) {
    forall i, j :: 0 <= i < j < |entries| ==> entries[i].key != entries[j].key
  }

  /** Every dictionary inside has distinct keys, as dictionaries do. */
  predicate WellKeyed(v: Value)
    decreases v, 1
  {
    match v
    case Dict(entries) => DistinctKeys(entries) && forall i :: 0 <= i < |entries| ==> WellKeyed(entries[i].value)
    case List(items) => forall i :: 0 <= i < |items| ==> WellKeyed(items[i])
    case Tuple(items) => forall i :: 0 <= i < |items| ==> WellKeyed(items[i])
    case _ => true
  }

  /** String keys only, no tuples, and no dictionary shaped like the bytes envelope. */
  predicate Clean(v: Value)
    decreases v, 1
  {
    match v
    case Dict(entries) => AllText(entries) && !EnvelopeShaped(entries) && CleanEntries(entries)
    case List(items) => CleanAll(items)
    case Tuple(_) => false
    case _ => true
  }

  predicate CleanAll(items: seq<Value>)
    decreases items, 0
  {
    items == [] || (Clean(items[0]) && CleanAll(items[1..]))
  }

  predicate CleanEntries(entries: seq<Entry>)
    decreases entries, 0
  {
    entries == [] || (CleanEntry(entries[0]) && CleanEntries(entries[1..]))
  }

  predicate CleanEntry(e: Entry)
    decreases e, 1
  {
    Clean(e.value)
  }

  predicate AllText(entries: seq<Entry>) {
    forall i :: 0 <= i < |entries| ==> entries[i].key.Text?
  }

  /** Pairs as entries under string keys. */
  function AsEntries(pairs: seq<(string, Value)>): seq<Entry> {
    if pairs == [] then [] else [Entry(Text(pairs[0].0), pairs[0].1)] + AsEntries(pairs[1..])
  }

  lemma {:induction false} AsEntriesAt(pairs: seq<(string, Value)>)
    ensures |AsEntries(pairs)| == |pairs|
    ensures forall i :: 0 <= i < |pairs| ==> AsEntries(pairs)[i] == Entry(Text(pairs[i].0), pairs[i].1)
  {
    if pairs != [] {
      AsEntriesAt(pairs[1..]);
    }
  }

  lemma {:induction false} AssignText(entries: seq<Entry>, key: string, v: Value)
    requires AllText(entries)
    ensures AllText(Assign(entries, key, v))
  {
    if entries != [] && entries[0].key != Text(key) {
      AssignText(entries[1..], key, v);
    }
  }

  lemma {:induction false} GatherText(pairs: seq<(string, Value)>)
    ensures AllText(Gather(pairs))
  {
    if pairs != [] {
      var last := pairs[|pairs| - 1];
      GatherText(pairs[..|pairs| - 1]);
      AssignText(Gather(pairs[..|pairs| - 1]), last.0, last.1);
    }
  }

  lemma {:induction false} AssignNew(entries: seq<Entry>, key: string, v: Value)
    requires forall i :: 0 <= i < |entries| ==> entries[i].key != Text(key)
    ensures Assign(entries, key, v) == entries + [Entry(Text(key), v)]
  {
    if entries != [] {
      AssignNew(entries[1..], key, v);
    }
  }

  predicate DistinctFirsts(pairs: seq<(string, Value)>) {
    forall i, j :: 0 <= i < j < |pairs| ==> pairs[i].0 != pairs[j].0
  }

  /** With distinct keys nothing is overwritten. */
  lemma {:induction false} GatherDistinct(pairs: seq<(string, Value)>)
    requires DistinctFirsts(pairs)
    ensures Gather(pairs) == AsEntries(pairs)
  {
    if pairs != [] {
      var n := |pairs| - 1;
      GatherDistinct(pairs[..n]);
      AsEntriesAt(pairs[..n]);
      AsEntriesAt(pairs);
      AssignNew(AsEntries(pairs[..n]), pairs[n].0, pairs[n].1);
      assert AsEntries(pairs) == AsEntries(pairs[..n]) + [Entry(Text(pairs[n].0), pairs[n].1)];
    }
  }

  lemma {:induction false} EncodedAt(entries: seq<Entry>)
    ensures |EncodeEntries(entries)| == |entries|
    ensures forall i :: 0 <= i < |entries| ==>
              EncodeEntries(entries)[i] == (KeyText(entries[i].key), Encode(entries[i].value))
  {
    if entries != [] {
      EncodedAt(entries[1..]);
    }
  }

  /** Under distinct string keys, encoding a dictionary encodes its values and keeps the rest. */
  lemma EncodedDict(entries: seq<Entry>)
    requires AllText(entries) && DistinctKeys(entries)
    ensures Encode(Dict(entries)) == Dict(AsEntries(EncodeEntries(entries)))
  {
    EncodedAt(entries);
    GatherDistinct(EncodeEntries(entries));
  }

  lemma {:induction false} LookupEncoded(entries: seq<Entry>, key: string)
    requires AllText(entries)
    ensures Lookup(AsEntries(EncodeEntries(entries)), key)
         == match Lookup(entries, key) case None => None case Some(v) => Some(Encode(v))
  {
    if entries != [] {
      var pairs := EncodeEntries(entries);
      assert pairs[1..] == EncodeEntries(entries[1..]);
      assert AsEntries(pairs)[1..] == AsEntries(pairs[1..]);
      LookupEncoded(entries[1..], key);
    }
  }

  lemma OnlyTextEncodesToText(v: Value, s: string)
    ensures Encode(v) == Str(s) <==> v == Str(s)
  {}

  lemma EnvelopeShapeKept(entries: seq<Entry>)
    requires AllText(entries)
    ensures EnvelopeShaped(AsEntries(EncodeEntries(entries))) <==> EnvelopeShaped(entries)
  {
    hide Lookup, Encode;
    EncodedAt(entries);
    AsEntriesAt(EncodeEntries(entries));
    LookupEncoded(entries, ENCODING_KEY);
    LookupEncoded(entries, DATA_KEY);
    if Lookup(entries, ENCODING_KEY).Some? {
      OnlyTextEncodesToText(Lookup(entries, ENCODING_KEY).value, BASE64);
    }
  }

  /** The bytes leaf comes back. */
  lemma BytesRoundTrip(data: bytes)
    ensures Decode(Encode(Bytes(data))) == Ok(Bytes(data))
  {
    Base64.EncodeDecodes(data);
    var entries := Envelope(data).entries;
    assert Lookup(entries, ENCODING_KEY) == Some(Str(BASE64));
    assert entries[0].key != Text(DATA_KEY);
    assert Lookup(entries[1..], DATA_KEY) == Some(Str(Base64.Encode(data)));
  }

  /** The envelope of bytes, key by key. */
  lemma EnvelopeIs(data: bytes)
    ensures Encode(Bytes(data))
         == Dict([Entry(Text("_urp_encoding"), Str("base64")), Entry(Text("data"), Str(Base64.Encode(data)))])
  {}

  lemma {:induction false} LookupIff(entries: seq<Entry>, key: string, v: Value)
    requires DistinctKeys(entries)
    ensures Lookup(entries, key) == Some(v) <==> Entry(Text(key), v) in entries
    ensures Lookup(entries, key) == None <==> forall e :: e in entries ==> e.key != Text(key)
  {
    if entries != [] {
      var rest := entries[1..];
      assert entries == [entries[0]] + rest;
      forall i | 0 <= i < |rest|
        ensures rest[i] == entries[i + 1] && rest[i].key != entries[0].key
      {}
      LookupIff(rest, key, v);
    }
  }

  /** A dictionary is taken for an envelope if and only if it has the two keys, no other, and the first names base 64. */
  lemma EnvelopeShapedIff(entries: seq<Entry>)
    requires DistinctKeys(entries)
    ensures EnvelopeShaped(entries) <==>
              |entries| == 2 && Entry(Text("_urp_encoding"), Str("base64")) in entries
              && exists e :: e in entries && e.key == Text("data")
  {
    hide Lookup, DistinctKeys;
    LookupIff(entries, "_urp_encoding", Str("base64"));
    LookupIff(entries, "data", Null);
  }

  lemma {:induction false} DecodeRaises(v: Value)
    ensures Decode(v).Raise? ==> Decode(v).error == ValueError
    decreases v, 1
  {
    match v
    case Dict(entries) =>
      if !EnvelopeShaped(entries) {
        EntriesRaise(entries);
      }
    case List(items) => AllRaise(items);
    case _ =>
  }

  lemma {:induction false} AllRaise(items: seq<Value>)
    ensures DecodeAll(items).Raise? ==> DecodeAll(items).error == ValueError
    decreases items, 0
  {
    if items != [] {
      DecodeRaises(items[0]);
      AllRaise(items[1..]);
    }
  }

  lemma {:induction false} EntriesRaise(entries: seq<Entry>)
    ensures DecodeEntries(entries).Raise? ==> DecodeEntries(entries).error == ValueError
    decreases entries, 0
  {
    if entries != [] {
      EntryRaises(entries[0]);
      EntriesRaise(entries[1..]);
    }
  }

  lemma EntryRaises(e: Entry)
    ensures DecodeEntry(e).Raise? ==> DecodeEntry(e).error == ValueError
    decreases e, 1
  {
    DecodeRaises(e.value);
  }

  function Enveloped(v: Value): Value {
    Dict([Entry(Text("_urp_encoding"), Str("base64")), Entry(Text("data"), v)])
  }

  /** What stands in an envelope need not be text: None, True and a number whose digits are base 64 decode to bytes. */
  lemma OddEnvelopes(n: nat)
    ensures Decode(Enveloped(Null)) == Ok(Bytes([54, 137, 222])) && Decode(Enveloped(Bool(true))) == Ok(Bytes([78, 187, 158]))
    ensures Decode(Enveloped(Bool(false))) == Raise(ValueError)
    ensures Decode(Enveloped(Num(n))) == Decode(Enveloped(Str(Decimal(n))))
  {
    Opened(Null);
    Opened(Bool(true));
    Opened(Bool(false));
    Opened(Num(n));
    Opened(Str(Decimal(n)));
    hide Decode, Base64.Decode;
    GroupDecodes("None");
    GroupDecodes("True");
    NoGroups("False");
  }

  /** Numbers below zero, containers and bytes never are. */
  lemma OddEnvelopesRaise(v: Value)
    requires v.List? || v.Tuple? || v.Dict? || v.Bytes? || (v.Num? && v.n < 0)
    ensures Decode(Enveloped(v)) == Raise(ValueError)
  {
    Opened(v);
    var s := Printed(v);
    assert s[0] == '-' || s == "[]";
    assert Base64.Value('-') == None && Base64.Value('[') == None;
  }

  lemma Opened(v: Value)
    ensures Decode(Enveloped(v)) ==
              if Base64.Decode(Printed(v)).Some? then Ok(Bytes(Base64.Decode(Printed(v)).value)) else Raise(ValueError)
  {
    var entries := Enveloped(v).entries;
    assert Lookup(entries, DATA_KEY) == Lookup(entries[1..], DATA_KEY) == Some(v);
  }

  lemma GroupDecodes(s: string)
    requires |s| == 4
    ensures Base64.Decode(s) == Base64.DecodeGroup(s, true)
  {
    assert s[..4] == s && s[4..] == [];
    var group := Base64.DecodeGroup(s, true);
    assert group.Some? ==> group.value + [] == group.value;
  }

  lemma NoGroups(s: string)
    requires |s| % 4 != 0
    ensures Base64.Decode(s) == None
  {
    if Base64.Decode(s).Some? {
      Base64.DecodesLetters(s, 0);
    }
  }

  /** A value survives encoding and decoding if and only if it is clean. */
  lemma {:induction false} RoundTripIffClean(v: Value)
    requires WellKeyed(v)
    ensures Decode(Encode(v)) == Ok(v) <==> Clean(v)
    decreases v, 1
  {
    match v
    case Bytes(data) => BytesRoundTrip(data);
    case List(items) =>
      AllRoundTrip(items);
    case Tuple(items) =>
    case Dict(entries) =>
      if AllText(entries) {
        EncodedDict(entries);
        EnvelopeShapeKept(entries);
        if !EnvelopeShaped(entries) {
          EntriesRoundTrip(entries);
          DictRoundTrip(entries);
        }
      } else {
        NonTextLost(entries);
      }
    case _ =>
  }

  lemma NonTextLost(entries: seq<Entry>)
    requires !AllText(entries)
    ensures Decode(Encode(Dict(entries))) != Ok(Dict(entries))
  {
    hide Gather, EncodeEntries, DecodeEntries, EnvelopeShaped, Lookup;
    var encoded := Gather(EncodeEntries(entries));
    var pairs := DecodeEntries(encoded);
    if pairs.Ok? {
      GatherText(pairs.value);
    }
  }

  lemma {:induction false} AllRoundTrip(items: seq<Value>)
    requires forall i :: 0 <= i < |items| ==> WellKeyed(items[i])
    ensures DecodeAll(EncodeAll(items)) == Ok(items) <==> CleanAll(items)
    decreases items, 0
  {
    if items != [] {
      RoundTripIffClean(items[0]);
      AllRoundTrip(items[1..]);
      var encoded := EncodeAll(items);
      assert encoded[0] == Encode(items[0]) && encoded[1..] == EncodeAll(items[1..]);
      assert [items[0]] + items[1..] == items;
    }
  }

  /** The entries a dictionary decodes to, before they are gathered again. */
  lemma {:induction false} EntriesRoundTrip(entries: seq<Entry>)
    requires AllText(entries) && forall i :: 0 <= i < |entries| ==> WellKeyed(entries[i].value)
    ensures var r := DecodeEntries(AsEntries(EncodeEntries(entries)));
            && (r.Ok? ==> |r.value| == |entries| && forall i :: 0 <= i < |entries| ==> r.value[i].0 == entries[i].key.text)
            && (r.Ok? && AsEntries(r.value) == entries <==> CleanEntries(entries))
    decreases entries, 0
  {
    if entries != [] {
      EntryRoundTrips(entries[0]);
      EntriesRoundTrip(entries[1..]);
      var pairs := EncodeEntries(entries);
      assert pairs[1..] == EncodeEntries(entries[1..]);
      assert AsEntries(pairs)[1..] == AsEntries(pairs[1..]);
      var rest := DecodeEntries(AsEntries(pairs[1..]));
      var first := Decode(Encode(entries[0].value));
      if first.Ok? && rest.Ok? {
        var all := [(entries[0].key.text, first.value)] + rest.value;
        assert all[1..] == rest.value;
        assert AsEntries(all) == [Entry(entries[0].key, first.value)] + AsEntries(rest.value);
        assert entries == [entries[0]] + entries[1..];
        assert AsEntries(all)[1..] == AsEntries(rest.value);
      }
    }
  }

  lemma {:induction false} EntryRoundTrips(e: Entry)
    requires WellKeyed(e.value)
    ensures Decode(Encode(e.value)) == Ok(e.value) <==> Clean(e.value)
    decreases e, 1
  {
    RoundTripIffClean(e.value);
  }

  lemma DictRoundTrip(entries: seq<Entry>)
    requires AllText(entries) && DistinctKeys(entries) && !EnvelopeShaped(entries)
    requires !EnvelopeShaped(AsEntries(EncodeEntries(entries)))
    requires Encode(Dict(entries)) == Dict(AsEntries(EncodeEntries(entries)))
    requires var r := DecodeEntries(AsEntries(EncodeEntries(entries)));
             && (r.Ok? ==> |r.value| == |entries| && forall i :: 0 <= i < |entries| ==> r.value[i].0 == entries[i].key.text)
             && (r.Ok? && AsEntries(r.value) == entries <==> CleanEntries(entries))
    ensures Decode(Encode(Dict(entries))) == Ok(Dict(entries)) <==> CleanEntries(entries)
  {
    hide EncodeEntries, DecodeEntries, EnvelopeShaped, AsEntries, Gather;
    var r := DecodeEntries(AsEntries(EncodeEntries(entries)));
    if r.Ok? {
      GatherDistinct(r.value);
    }
  }
}
