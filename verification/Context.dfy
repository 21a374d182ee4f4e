/** The context compiler: python/urp/context.py. */
module Context {
  import opened Common
  import Text

  /** The hash of whitespace-normalised text and role. */
  datatype Fingerprint = Fingerprint(text: string, role: string)

  datatype ContextChunk = ContextChunk(text: string, sourceId: nat, role: string) {
    function Print(): Fingerprint { Fingerprint(Text.Join(Text.Split(text)), role) }
  }

  /** The compiler's variables; `seen` holds the prints of the kept chunks. */
  datatype State = State(
    kept: seq<ContextChunk>, seen: set<Fingerprint>, removed: seq<Fingerprint>, tokensBefore: nat, tokensAfter: nat)

  function ApproximateTokens(text: string): nat {
    if text == [] then 0 else Max(1, (|text| + 3) / 4)
  }

  /** The chunk is new and fits what is left of the budget. */
  predicate Admits(s: State, c: ContextChunk, maxTokens: int) {
    c.Print() !in s.seen && s.tokensAfter + ApproximateTokens(c.text) <= maxTokens
  }

  function Take(s: State, c: ContextChunk, maxTokens: int): State {
    var before := s.tokensBefore + ApproximateTokens(c.text);
    if Admits(s, c, maxTokens) then
      State(s.kept + [c], s.seen + {c.Print()}, s.removed, before, s.tokensAfter + ApproximateTokens(c.text))
    else s.(removed := s.removed + [c.Print()], tokensBefore := before)
  }

  const START := State([], {}, [], 0, 0)

  function Compile(chunks: seq<ContextChunk>, maxTokens: int): State {
    if chunks == [] then START
    else Take(Compile(chunks[..|chunks| - 1], maxTokens), chunks[|chunks| - 1], maxTokens)
  }

  /** A token is four characters, counted up. */
  lemma TokensAreQuarters(text: string)
    ensures ApproximateTokens(text) == 0 <==> text == ""
    ensures text != "" ==> 4 * (ApproximateTokens(text) - 1) < |text| <= 4 * ApproximateTokens(text)
  {}

  /** Two chunks have the same print if and only if they have the same words in the same order and the same role. */
  lemma SamePrintIff(c: ContextChunk, d: ContextChunk)
    ensures c.Print() == d.Print() <==> Text.Split(c.text) == Text.Split(d.text) && c.role == d.role
  {
    hide Text.Split, Text.Join;
    Text.SplitsWords(c.text);
    Text.SplitsWords(d.text);
    Text.SplitJoin(Text.Split(c.text));
    Text.SplitJoin(Text.Split(d.text));
  }

  method CompileContext(chunks: seq<ContextChunk>, maxTokens: int) returns (s: State)
    ensures s == Compile(chunks, maxTokens)
  {
    var seen: set<Fingerprint> := {};
    var kept: seq<ContextChunk> := [];
    var removed: seq<Fingerprint> := [];
    var tokensBefore: nat, tokensAfter: nat := 0, 0;
    hide ApproximateTokens;
    for i := 0 to |chunks|
      invariant State(kept, seen, removed, tokensBefore, tokensAfter) == Compile(chunks[..i], maxTokens)
    {
      assert chunks[..i + 1][..i] == chunks[..i];
      var chunk := chunks[i];
      var chunkTokens := ApproximateTokens(chunk.text);
      tokensBefore := tokensBefore + chunkTokens;
      var fp := chunk.Print();
      if fp in seen {
        removed := removed + [fp];
        continue;
      }
      if tokensAfter + chunkTokens > maxTokens {
        removed := removed + [fp];
        continue;
      }
      seen := seen + {fp};
      kept := kept + [chunk];
      tokensAfter := tokensAfter + chunkTokens;
    }
    assert chunks[..|chunks|] == chunks;
    s := State(kept, seen, removed, tokensBefore, tokensAfter);
  }

  // ----- What compiling keeps and removes -----

  function TokenSum(chunks: seq<ContextChunk>): nat {
    if chunks == [] then 0 else TokenSum(chunks[..|chunks| - 1]) + ApproximateTokens(chunks[|chunks| - 1].text)
  }

  ghost predicate DistinctPrints(chunks: seq<ContextChunk>) {
    forall i, j :: 0 <= i < j < |chunks| ==> chunks[i].Print() != chunks[j].Print()
  }

  /** `xs` is `ys` with some elements left out. */
  ghost predicate Subsequence<T>(xs: seq<T>, ys: seq<T>) {
    if xs == [] then true
    else if ys == [] then false
    else
      || (xs[|xs| - 1] == ys[|ys| - 1] && Subsequence(xs[..|xs| - 1], ys[..|ys| - 1]))
      || Subsequence(xs, ys[..|ys| - 1])
  }

  lemma SubsequenceSnoc<T>(xs: seq<T>, ys: seq<T>, y: T)
    requires Subsequence(xs, ys)
    ensures Subsequence(xs, ys + [y]) && Subsequence(xs + [y], ys + [y])
  {
    assert (xs + [y])[..|xs|] == xs && (ys + [y])[..|ys|] == ys;
  }

  function PrintsOf(chunks: seq<ContextChunk>): set<Fingerprint> { set c | c in chunks :: c.Print() }

  lemma TokenSumSnoc(chunks: seq<ContextChunk>, c: ContextChunk)
    ensures TokenSum(chunks + [c]) == TokenSum(chunks) + ApproximateTokens(c.text)
  {
    assert (chunks + [c])[..|chunks|] == chunks;
  }

  lemma PrintsSnoc(chunks: seq<ContextChunk>, c: ContextChunk)
    requires DistinctPrints(chunks) && c.Print() !in PrintsOf(chunks)
    ensures PrintsOf(chunks + [c]) == PrintsOf(chunks) + {c.Print()} && DistinctPrints(chunks + [c])
  {
    forall i | 0 <= i < |chunks|
      ensures chunks[i].Print() != c.Print()
    {
      assert chunks[i] in chunks;
    }
    assert forall x :: x in chunks + [c] <==> x in chunks || x == c;
  }

  ghost predicate KeptOk(s: State, chunks: seq<ContextChunk>, maxTokens: int) {
    && Subsequence(s.kept, chunks) && DistinctPrints(s.kept) && s.seen == PrintsOf(s.kept)
    && s.tokensAfter == TokenSum(s.kept) && s.tokensBefore == TokenSum(chunks)
    && (s.kept == [] || s.tokensAfter <= maxTokens)
    && |s.kept| + |s.removed| == |chunks|
  }

  lemma TakeKeeps(s: State, chunks: seq<ContextChunk>, c: ContextChunk, maxTokens: int)
    requires KeptOk(s, chunks, maxTokens)
    ensures KeptOk(Take(s, c, maxTokens), chunks + [c], maxTokens)
  {
    hide Subsequence, DistinctPrints, PrintsOf, TokenSum, ApproximateTokens;
    SubsequenceSnoc(s.kept, chunks, c);
    TokenSumSnoc(chunks, c);
    TokenSumSnoc(s.kept, c);
    if Admits(s, c, maxTokens) {
      PrintsSnoc(s.kept, c);
    }
  }

  /** The kept chunks are a subsequence with distinct prints whose tokens add up within the budget. */
  lemma {:induction false} KeptFits(chunks: seq<ContextChunk>, maxTokens: int)
    ensures KeptOk(Compile(chunks, maxTokens), chunks, maxTokens)
    ensures maxTokens >= 0 ==> Compile(chunks, maxTokens).tokensAfter <= maxTokens
  {
    if chunks != [] {
      hide KeptOk, Take;
      var before, c := chunks[..|chunks| - 1], chunks[|chunks| - 1];
      KeptFits(before, maxTokens);
      TakeKeeps(Compile(before, maxTokens), before, c, maxTokens);
      assert before + [c] == chunks;
    }
  }

  /** A chunk is removed exactly when it repeats a chunk already kept or exceeds what is left of the budget. */
  lemma RemovedForCause(chunks: seq<ContextChunk>, maxTokens: int, i: nat)
    requires i < |chunks|
    ensures var s, s' := Compile(chunks[..i], maxTokens), Compile(chunks[..i + 1], maxTokens);
            var repeats := chunks[i].Print() in PrintsOf(s.kept);
            var tooLong := TokenSum(s.kept) + ApproximateTokens(chunks[i].text) > maxTokens;
            && (s'.kept == (if repeats || tooLong then s.kept else s.kept + [chunks[i]]))
            && (s'.removed == (if repeats || tooLong then s.removed + [chunks[i].Print()] else s.removed))
  {
    hide ApproximateTokens, TokenSum, Subsequence, DistinctPrints, PrintsOf;
    KeptFits(chunks[..i], maxTokens);
    assert chunks[..i + 1][..i] == chunks[..i];
  }

  // ----- Chat messages -----

  datatype Message = Message(role: string, content: string)

  predicate IsContext(m: Message) { m.role == "system" || m.role == "developer" || m.role == "tool" }

  /** The context messages as chunks that remember their position. */
  function ChunksOf(messages: seq<Message>): seq<ContextChunk> {
    if messages == [] then []
    else
      var n := |messages| - 1;
      ChunksOf(messages[..n])
      + if IsContext(messages[n]) then [ContextChunk(messages[n].content, n, messages[n].role)] else []
  }

  function SourceIds(kept: seq<ContextChunk>): set<nat> { set c | c in kept :: c.sourceId }

  /** The messages left once context messages outside `ids` are dropped. */
  function Surviving(messages: seq<Message>, ids: set<nat>): seq<Message> {
    if messages == [] then []
    else
      var n := |messages| - 1;
      Surviving(messages[..n], ids) + if IsContext(messages[n]) && n !in ids then [] else [messages[n]]
  }

  function CompiledMessages(messages: seq<Message>, maxTokens: int): seq<Message> {
    Surviving(messages, SourceIds(Compile(ChunksOf(messages), maxTokens).kept))
  }

  method ChunksFromMessages(messages: seq<Message>) returns (chunks: seq<ContextChunk>)
    ensures chunks == ChunksOf(messages)
  {
    chunks := [];
    for i := 0 to |messages|
      invariant chunks == ChunksOf(messages[..i])
    {
      assert messages[..i + 1][..i] == messages[..i];
      if IsContext(messages[i]) {
        chunks := chunks + [ContextChunk(messages[i].content, i, messages[i].role)];
      }
    }
    assert messages[..|messages|] == messages;
  }

  method CompileOpenAiMessages(messages: seq<Message>, maxTokens: int) returns (s: State, result: seq<Message>)
    ensures s == Compile(ChunksOf(messages), maxTokens)
    ensures result == CompiledMessages(messages, maxTokens)
  {
    var chunks := ChunksFromMessages(messages);
    s := CompileContext(chunks, maxTokens);
    var ids := SourceIds(s.kept);
    result := [];
    for i := 0 to |messages|
      invariant result == Surviving(messages[..i], ids)
    {
      assert messages[..i + 1][..i] == messages[..i];
      if IsContext(messages[i]) && i !in ids {
        continue;
      }
      result := result + [messages[i]];
    }
    assert messages[..|messages|] == messages;
  }

  /** Compiling in one pass over the messages: what has been seen, what it cost, what is left. */
  datatype Pass = Pass(seen: set<Fingerprint>, tokens: nat, out: seq<Message>)

  function Admitted(p: Pass, m: Message, maxTokens: int): bool {
    ContextChunk(m.content, 0, m.role).Print() !in p.seen && p.tokens + ApproximateTokens(m.content) <= maxTokens
  }

  function Feed(p: Pass, m: Message, maxTokens: int): Pass {
    if !IsContext(m) then p.(out := p.out + [m])
    else if Admitted(p, m, maxTokens) then
      Pass(p.seen + {ContextChunk(m.content, 0, m.role).Print()}, p.tokens + ApproximateTokens(m.content), p.out + [m])
    else p
  }

  function OnePass(messages: seq<Message>, maxTokens: int): Pass {
    if messages == [] then Pass({}, 0, [])
    else Feed(OnePass(messages[..|messages| - 1], maxTokens), messages[|messages| - 1], maxTokens)
  }

  lemma {:induction false} SurvivingIgnoresLater(messages: seq<Message>, ids: set<nat>, n: nat)
    requires n >= |messages|
    ensures Surviving(messages, ids + {n}) == Surviving(messages, ids)
  {
    if messages != [] {
      SurvivingIgnoresLater(messages[..|messages| - 1], ids, n);
    }
  }

  ghost predicate Agrees(s: State, p: Pass, messages: seq<Message>) {
    && p.seen == s.seen && p.tokens == s.tokensAfter
    && p.out == Surviving(messages, SourceIds(s.kept))
    && forall i :: i in SourceIds(s.kept) ==> i < |messages|
  }

  lemma FeedAgrees(s: State, p: Pass, messages: seq<Message>, m: Message, maxTokens: int)
    requires Agrees(s, p, messages)
    ensures var c := ContextChunk(m.content, |messages|, m.role);
            Agrees(if IsContext(m) then Take(s, c, maxTokens) else s, Feed(p, m, maxTokens), messages + [m])
  {
    hide ApproximateTokens, IsContext;
    var n := |messages|;
    var all := messages + [m];
    assert all[..n] == messages && all[n] == m;
    var c := ContextChunk(m.content, n, m.role);
    assert c.Print() == ContextChunk(m.content, 0, m.role).Print();
    IdsSnoc(s.kept, c);
    SurvivingIgnoresLater(messages, SourceIds(s.kept), n);
  }

  lemma IdsSnoc(kept: seq<ContextChunk>, c: ContextChunk)
    ensures SourceIds(kept + [c]) == SourceIds(kept) + {c.sourceId}
  {
    assert forall x :: x in kept + [c] <==> x in kept || x == c;
  }

  /** Collecting chunks, compiling them and filtering by position is the same as the single pass. */
  lemma {:induction false} CompiledIsOnePass(messages: seq<Message>, maxTokens: int)
    ensures Agrees(Compile(ChunksOf(messages), maxTokens), OnePass(messages, maxTokens), messages)
    ensures OnePass(messages, maxTokens).out == CompiledMessages(messages, maxTokens)
  {
    if messages != [] {
      hide Agrees, Feed, Take, IsContext, Surviving;
      var n := |messages| - 1;
      var before, m := messages[..n], messages[n];
      CompiledIsOnePass(before, maxTokens);
      FeedAgrees(Compile(ChunksOf(before), maxTokens), OnePass(before, maxTokens), before, m, maxTokens);
      assert before + [m] == messages;
      var c := ContextChunk(m.content, n, m.role);
      assert (ChunksOf(before) + [c])[..|ChunksOf(before)|] == ChunksOf(before);
      assert ChunksOf(before) + [] == ChunksOf(before);
    }
    AgreedOut(Compile(ChunksOf(messages), maxTokens), OnePass(messages, maxTokens), messages);
  }

  lemma AgreedOut(s: State, p: Pass, messages: seq<Message>)
    requires Agrees(s, p, messages)
    ensures p.out == Surviving(messages, SourceIds(s.kept))
  {}

  /** A pass over its own output ends in the very same state. */
  lemma {:induction false} PassRepeats(messages: seq<Message>, maxTokens: int)
    ensures OnePass(OnePass(messages, maxTokens).out, maxTokens) == OnePass(messages, maxTokens)
  {
    if messages != [] {
      hide Admitted;
      var before, m := messages[..|messages| - 1], messages[|messages| - 1];
      PassRepeats(before, maxTokens);
      var p := OnePass(before, maxTokens);
      assert (p.out + [m])[..|p.out + [m]| - 1] == p.out;
    }
  }

  /** Compiling compiled messages changes nothing. */
  lemma CompileIsIdempotent(messages: seq<Message>, maxTokens: int)
    ensures var once := CompiledMessages(messages, maxTokens); CompiledMessages(once, maxTokens) == once
  {
    CompiledIsOnePass(messages, maxTokens);
    CompiledIsOnePass(CompiledMessages(messages, maxTokens), maxTokens);
    PassRepeats(messages, maxTokens);
  }

  /** The messages that are not context. */
  function Others(messages: seq<Message>): seq<Message> {
    if messages == [] then []
    else
      var n := |messages| - 1;
      Others(messages[..n]) + if IsContext(messages[n]) then [] else [messages[n]]
  }

  lemma OthersSnoc(messages: seq<Message>, m: Message)
    ensures Others(messages + [m]) == Others(messages) + if IsContext(m) then [] else [m]
  {
    assert (messages + [m])[..|messages|] == messages;
  }

  /** Every other message survives, in order, and the whole result is a subsequence of the input. */
  lemma {:induction false} OthersSurvive(messages: seq<Message>, ids: set<nat>)
    ensures Others(Surviving(messages, ids)) == Others(messages)
    ensures Subsequence(Surviving(messages, ids), messages)
  {
    if messages != [] {
      hide IsContext, Others, Subsequence;
      var n := |messages| - 1;
      var before, m := messages[..n], messages[n];
      OthersSurvive(before, ids);
      var kept := Surviving(before, ids);
      OthersSnoc(before, m);
      OthersSnoc(kept, m);
      SubsequenceSnoc(kept, before, m);
      assert before + [m] == messages && kept + [] == kept;
    }
  }

  lemma SnocCount(messages: seq<Message>, last: Message, m: Message)
    ensures multiset(messages + [last])[m] == multiset(messages)[m] + if last == m then 1 else 0
  {}

  lemma OtherRoles(x: Message, m: Message)
    requires m.role !in {"system", "developer", "tool"}
    ensures IsContext(x) ==> x != m
  {}

  lemma {:induction false} SurvivingCount(messages: seq<Message>, ids: set<nat>, m: Message)
    requires m.role !in {"system", "developer", "tool"}
    ensures multiset(Surviving(messages, ids))[m] == multiset(messages)[m]
  {
    hide IsContext;
    if messages != [] {
      var before, last := messages[..|messages| - 1], messages[|messages| - 1];
      SurvivingCount(before, ids, m);
      OtherRoles(last, m);
      assert messages == before + [last];
      SnocCount(before, last, m);
      SnocCount(Surviving(before, ids), last, m);
      assert Surviving(before, ids) + [] == Surviving(before, ids);
    }
  }

  /** A message of another role than system, developer and tool is there as often as before. */
  lemma ConversationSurvives(messages: seq<Message>, maxTokens: int, m: Message)
    requires m.role !in {"system", "developer", "tool"}
    ensures multiset(CompiledMessages(messages, maxTokens))[m] == multiset(messages)[m]
  {
    SurvivingCount(messages, SourceIds(Compile(ChunksOf(messages), maxTokens).kept), m);
  }

  /** Of two messages of such a role with the same words, where one fits, the second goes; where none fits, both go. */
  lemma RepeatedContextGoes(m: Message, n: Message, maxTokens: int)
    requires m.role in {"system", "developer", "tool"} && n.role == m.role
    requires Text.Split(m.content) == Text.Split(n.content)
    ensures ApproximateTokens(m.content) <= maxTokens ==> CompiledMessages([m, n], maxTokens) == [m]
    ensures ApproximateTokens(m.content) > maxTokens && ApproximateTokens(n.content) > maxTokens ==>
              CompiledMessages([m, n], maxTokens) == []
  {
    hide ApproximateTokens, Text.Split, Text.Join;
    CompiledIsOnePass([m, n], maxTokens);
    assert [m, n][..1] == [m] && [m][..0] == [];
    var p0, p1 := OnePass([], maxTokens), OnePass([m], maxTokens);
    assert p0 == Pass({}, 0, []);
    assert p1 == Feed(p0, m, maxTokens) && OnePass([m, n], maxTokens) == Feed(p1, n, maxTokens);
  }
}
