/** The similarity score of the semantic cache: python/urp/semantic_cache.py. */
module Similarity {
  import Text

  function Jaccard<T>(left: set<T>, right: set<T>): real {
    if left == {} && right == {} then 1.0
    else if left == {} || right == {} then 0.0
    else
      assert left + right != {};
      |left * right| as real / |left + right| as real
  }

  function Words(s: string): set<string> { set w | w in Text.Split(s) }

  function Trigrams(s: string): set<string> {
    var compact := Text.Join(Text.Split(s));
    if |compact| <= 3 then (if compact != [] then {compact} else {})
    else Windows(compact)
  }

  /** Every run of three characters. */
  function Windows(s: string): set<string> {
    if |s| < 3 then {} else {s[..3]} + Windows(s[1..])
  }

  /** `semantic_similarity` over the reals. */
  function Score(left: string, right: string): real {
    0.7 * Jaccard(Words(left), Words(right)) + 0.3 * Jaccard(Trigrams(left), Trigrams(right))
  }

  lemma {:induction false} SubsetSmaller<T>(a: set<T>, b: set<T>)
    requires a <= b
    ensures |a| <= |b| && (|a| == |b| ==> a == b)
  {
    assert b == a + (b - a);
    if |b - a| == 0 {
      assert b - a == {};
    }
  }

  lemma Ratio(a: nat, b: nat)
    requires a <= b && b > 0
    ensures 0.0 <= a as real / b as real <= 1.0
    ensures a as real / b as real == 1.0 <==> a == b
  {
    assert a as real <= b as real;
  }

  lemma JaccardRange<T>(left: set<T>, right: set<T>)
    ensures 0.0 <= Jaccard(left, right) <= 1.0
    ensures Jaccard(left, right) == 1.0 <==> left == right
    ensures Jaccard(left, right) == Jaccard(right, left)
  {
    assert left * right == right * left && left + right == right + left;
    if left != {} && right != {} {
      SubsetSmaller(left * right, left + right);
      assert left + right != {};
      Ratio(|left * right|, |left + right|);
      if left * right == left + right {
        assert left == right;
      }
      if left == right {
        assert left * right == left && left + right == left;
      }
    }
  }

  /** Similarity is symmetric, lies in [0, 1], and is 1 exactly for equal word and trigram sets. */
  lemma ScoreRange(left: string, right: string)
    ensures 0.0 <= Score(left, right) <= 1.0
    ensures Score(left, right) == Score(right, left)
    ensures Score(left, right) == 1.0 <==> Words(left) == Words(right) && Trigrams(left) == Trigrams(right)
    ensures left == right ==> Score(left, right) == 1.0
  {
    hide Jaccard, Words, Trigrams;
    JaccardRange(Words(left), Words(right));
    JaccardRange(Trigrams(left), Trigrams(right));
    Weighted(Jaccard(Words(left), Words(right)), Jaccard(Trigrams(left), Trigrams(right)));
  }

  lemma Weighted(a: real, b: real)
    requires 0.0 <= a <= 1.0 && 0.0 <= b <= 1.0
    ensures 0.0 <= 0.7 * a + 0.3 * b <= 1.0
    ensures 0.7 * a + 0.3 * b == 1.0 <==> a == 1.0 && b == 1.0
  {}

  /** The three characters from `i` on. */
  predicate RunAt(s: string, i: nat, g: string) { i + 3 <= |s| && s[i..i + 3] == g }

  /** The words of a text are its pieces, each counted once. */
  lemma WordsAre(s: string, w: string)
    ensures w in Words(s) <==> exists i :: 0 <= i < |Text.Split(s)| && Text.Split(s)[i] == w
    ensures Text.Split(s) == [] <==> Words(s) == {}
  {
    assert Text.Split(s) != [] ==> Text.Split(s)[0] in Words(s);
  }

  lemma {:induction false} WindowsAre(s: string, g: string)
    ensures g in Windows(s) <==> exists i :: RunAt(s, i, g)
  {
    if |s| >= 3 {
      WindowsAre(s[1..], g);
      if i: nat :| RunAt(s, i, g) {
        if i == 0 {
          assert g == s[..3];
        } else {
          assert s[1..][i - 1..i + 2] == s[i..i + 3];
          assert RunAt(s[1..], i - 1, g);
        }
      }
      if i: nat :| RunAt(s[1..], i, g) {
        assert s[1..][i..i + 3] == s[i + 1..i + 4];
        assert RunAt(s, i + 1, g);
      }
      if g == s[..3] {
        assert RunAt(s, 0, g);
      }
    }
  }

  /** The trigrams of the words joined by single blanks: every run of three, or the whole of it when it is no longer. */
  lemma TrigramsAre(s: string, g: string)
    ensures var compact := Text.Join(Text.Split(s));
            g in Trigrams(s) <==>
              if |compact| > 3 then exists i :: RunAt(compact, i, g) else g == compact && compact != ""
  {
    WindowsAre(Text.Join(Text.Split(s)), g);
  }

  /** The score weighs the shared part of all words with seven tenths and that of all trigrams with three. */
  lemma ScoreIs(left: string, right: string)
    requires Words(left) != {} && Words(right) != {} && Trigrams(left) != {} && Trigrams(right) != {}
    ensures var (words, common) := (Words(left) + Words(right), Words(left) * Words(right));
            var (grams, shared) := (Trigrams(left) + Trigrams(right), Trigrams(left) * Trigrams(right));
            && |words| > 0 && |grams| > 0
            && Score(left, right)
               == 7.0 / 10.0 * (|common| as real / |words| as real) + 3.0 / 10.0 * (|shared| as real / |grams| as real)
  {
    hide Words, Trigrams;
    assert Words(left) + Words(right) != {} && Trigrams(left) + Trigrams(right) != {};
  }

  lemma SplitOne(c: char)
    requires !Text.IsSpace(c)
    ensures Text.Split([c]) == [[c]]
  {
    assert Text.DropSpaces([c]) == [c] && Text.TakeWord([c]) == [c] + Text.TakeWord([]) == [c];
    assert Text.DropSpaces([]) == [] && Text.Split([]) == [];
    assert [c][1..] == [];
    assert Text.Split([c]) == [[c]] + Text.Split([]);
  }

  lemma SplitTwo(c: char, d: char)
    requires !Text.IsSpace(c) && !Text.IsSpace(d)
    ensures Text.Split([c, ' ', d]) == [[c], [d]]
  {
    var s := [c, ' ', d];
    SplitOne(d);
    assert s[1..] == [' ', d] && [' ', d][1..] == [d];
    assert Text.DropSpaces([' ', d]) == Text.DropSpaces([d]) == [d];
    assert Text.Split([' ', d]) == Text.Split([d]);
    assert Text.DropSpaces(s) == s && Text.TakeWord(s) == [c] + Text.TakeWord([' ', d]) == [c];
  }

  lemma OneWord(c: char)
    requires !Text.IsSpace(c)
    ensures Words([c]) == {[c]} && Trigrams([c]) == {[c]}
  {
    SplitOne(c);
    hide Text.Split;
  }

  lemma TwoWords(c: char, d: char)
    requires !Text.IsSpace(c) && !Text.IsSpace(d)
    ensures Words([c, ' ', d]) == {[c], [d]} && Trigrams([c, ' ', d]) == {[c, ' ', d]}
  {
    SplitTwo(c, d);
    hide Text.Split;
    assert [[c], [d]][1..] == [[d]];
    assert Text.Join([[c], [d]]) == [c] + [' '] + [d] == [c, ' ', d];
    assert [c, ' ', d][1..] == [' ', d];
  }

  /** Two different stored texts can be equally similar to a question. */
  lemma TiesExist(c: char, d: char)
    requires !Text.IsSpace(c) && !Text.IsSpace(d) && c != d
    ensures Score([c, ' ', d], [c]) == Score([c, ' ', d], [d]) == 0.35
  {
    TwoWords(c, d);
    OneWord(c);
    OneWord(d);
    assert {[c], [d]} * {[c]} == {[c]} && {[c], [d]} * {[d]} == {[d]};
    assert {[c], [d]} + {[c]} == {[c], [d]} == {[c], [d]} + {[d]};
    assert [c] != [d] by { assert [c][0] != [d][0]; }
    assert |{[c], [d]}| == 2;
    assert [c, ' ', d] != [c] && [c, ' ', d] != [d];
    assert {[c, ' ', d]} * {[c]} == {} && {[c, ' ', d]} * {[d]} == {};
  }
}
