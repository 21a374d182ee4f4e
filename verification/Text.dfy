/** `str.split()` and `" ".join(...)`, shared by the context compiler and the semantic cache. */
module Text {

  predicate IsSpace(c: char) { c == ' ' || '\t' <= c <= '\r' || 28 <= c as int <= 31 }

  function DropSpaces(s: string): (r: string)
    ensures |r| <= |s|
    ensures r != [] ==> !IsSpace(r[0])
  {
    if s != [] && IsSpace(s[0]) then DropSpaces(s[1..]) else s
  }

  function TakeWord(s: string): (r: string)
    ensures |r| <= |s|
    ensures s != [] && !IsSpace(s[0]) ==> r != []
  {
    if s == [] || IsSpace(s[0]) then [] else [s[0]] + TakeWord(s[1..])
  }

  function Split(s: string): seq<string>
    decreases |s|
  {
    var t := DropSpaces(s);
    if t == [] then [] else [TakeWord(t)] + Split(t[|TakeWord(t)|..])
  }

  function Join(words: seq<string>): string {
    if words == [] then []
    else if |words| == 1 then words[0]
    else words[0] + [' '] + Join(words[1..])
  }

  predicate Word(w: string) { w != "" && forall i :: 0 <= i < |w| ==> !IsSpace(w[i]) }

  lemma {:induction false} TakesWord(w: string, rest: string)
    requires (forall i :: 0 <= i < |w| ==> !IsSpace(w[i])) && (rest == [] || IsSpace(rest[0]))
    ensures TakeWord(w + rest) == w
  {
    if w == [] {
      assert w + rest == rest;
    } else {
      assert (w + rest)[1..] == w[1..] + rest;
      TakesWord(w[1..], rest);
    }
  }

  lemma {:induction false} TakesNoMore(t: string, c: char, y: string)
    requires IsSpace(c)
    ensures TakeWord(t + [c] + y) == TakeWord(t)
  {
    var s := t + [c] + y;
    if t != [] && !IsSpace(t[0]) {
      assert s[1..] == t[1..] + [c] + y;
      TakesNoMore(t[1..], c, y);
    }
  }

  lemma {:induction false} TakesPrefix(s: string)
    ensures TakeWord(s) <= s && forall i :: 0 <= i < |TakeWord(s)| ==> !IsSpace(TakeWord(s)[i])
  {
    if s != [] && !IsSpace(s[0]) {
      TakesPrefix(s[1..]);
    }
  }

  lemma {:induction false} DropsBefore(x: string, c: char, y: string)
    requires IsSpace(c)
    ensures DropSpaces(x + [c] + y) == if DropSpaces(x) == [] then DropSpaces(y) else DropSpaces(x) + [c] + y
    decreases |x|
  {
    var s := x + [c] + y;
    if x == [] {
      assert s == [c] + y && s[1..] == y;
    } else if IsSpace(x[0]) {
      assert s[1..] == x[1..] + [c] + y;
      DropsBefore(x[1..], c, y);
    }
  }

  lemma {:induction false} DropsOnce(s: string)
    ensures DropSpaces(DropSpaces(s)) == DropSpaces(s)
  {
    if s != [] && IsSpace(s[0]) {
      DropsOnce(s[1..]);
    }
  }

  lemma SplitDrops(s: string)
    ensures Split(s) == Split(DropSpaces(s))
  {
    DropsOnce(s);
  }

  /** A word is one piece. */
  lemma SplitWord(w: string)
    requires Word(w)
    ensures Split(w) == [w]
  {
    assert DropSpaces(w) == w;
    TakesWord(w, []);
    assert w + [] == w && w[|w|..] == [];
    assert Split([]) == [];
  }

  /** What stands around a blank is split apart. */
  lemma {:induction false} SplitAtSpace(x: string, c: char, y: string)
    requires IsSpace(c)
    ensures Split(x + [c] + y) == Split(x) + Split(y)
    decreases |x|
  {
    var s, t := x + [c] + y, DropSpaces(x);
    DropsBefore(x, c, y);
    if t == [] {
      SplitDrops(s);
      SplitDrops(y);
      assert Split(x) == [];
      assert [] + Split(y) == Split(y);
    } else {
      var w := TakeWord(t);
      TakesNoMore(t, c, y);
      TakesPrefix(t);
      var rest := t[|w|..];
      assert (t + [c] + y)[|w|..] == rest + [c] + y;
      SplitAtSpace(rest, c, y);
      assert Split(s) == [w] + Split(rest + [c] + y);
      assert Split(x) == [w] + Split(rest);
      assert [w] + (Split(rest) + Split(y)) == [w] + Split(rest) + Split(y);
    }
  }

  /** The pieces are words. */
  lemma {:induction false} SplitsWords(s: string)
    ensures forall i :: 0 <= i < |Split(s)| ==> Word(Split(s)[i])
    decreases |s|
  {
    var t := DropSpaces(s);
    if t != [] {
      TakesPrefix(t);
      SplitsWords(t[|TakeWord(t)|..]);
    }
  }

  /** Splitting what was joined gives the words back. */
  lemma {:induction false} SplitJoin(words: seq<string>)
    requires forall i :: 0 <= i < |words| ==> Word(words[i])
    ensures Split(Join(words)) == words
  {
    if |words| == 1 {
      SplitWord(words[0]);
    } else if |words| > 1 {
      SplitJoin(words[1..]);
      SplitWord(words[0]);
      SplitAtSpace(words[0], ' ', Join(words[1..]));
    }
  }

  /** The blanks are these ten characters. */
  lemma SpacesAre(c: char)
    ensures IsSpace(c) <==> c as int in {9, 10, 11, 12, 13, 28, 29, 30, 31, 32}
  {}
}
