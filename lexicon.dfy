/** The word list as `loadDictionary` builds it from the fetched text:
    split into lines, trim and upper-case each, keep those of length two or
    more, and collect them into a set that keeps first-insertion order. */
module Lexicon {
  import opened Text

  function NormalizeLine(line: string): string {
    Upper(Trim(line))
  }

  function NormalizeAll(lines: seq<string>): (words: seq<string>)
    ensures |words| == |lines|
    ensures forall i :: 0 <= i < |lines| ==> words[i] == NormalizeLine(lines[i])
  {
    seq(|lines|, i requires 0 <= i < |lines| => NormalizeLine(lines[i]))
  }

  /** The filter `word.length >= 2`, order kept. */
  function KeepLong(words: seq<string>): (kept: seq<string>)
    ensures forall w :: w in kept <==> w in words && |w| >= 2
  {
    if words == [] then []
    else (if |words[0]| >= 2 then [words[0]] else []) + KeepLong(words[1..])
  }

  predicate NoDuplicates(s: seq<string>) {
    forall i, j :: 0 <= i < j < |s| ==> s[i] != s[j]
  }

  /** `new Set(words)`: each value once, at the place it first occurs. */
  function Dedupe(words: seq<string>): (d: seq<string>)
    ensures NoDuplicates(d)
    ensures forall w :: w in d <==> w in words
  {
    if words == [] then []
    else
      var prefix := Dedupe(words[..|words| - 1]);
      var last := words[|words| - 1];
      assert forall w :: w in words <==> w in words[..|words| - 1] || w == last;
      if last in prefix then prefix else prefix + [last]
  }

  /** Filtering works piece by piece, so the kept words stay in input
      order. */
  lemma {:induction false} KeepLongAppend(a: seq<string>, b: seq<string>)
    ensures KeepLong(a + b) == KeepLong(a) + KeepLong(b)
    decreases |a|
  {
    if a == [] {
      assert a + b == b;
    } else {
      var head := if |a[0]| >= 2 then [a[0]] else [];
      assert (a + b)[0] == a[0] && (a + b)[1..] == a[1..] + b;
      assert KeepLong(a + b) == head + KeepLong(a[1..] + b);
      KeepLongAppend(a[1..], b);
      assert KeepLong(a) == head + KeepLong(a[1..]);
      ConcatAssoc(head, KeepLong(a[1..]), KeepLong(b));
    }
  }

  lemma ConcatAssoc(x: seq<string>, y: seq<string>, z: seq<string>)
    ensures x + (y + z) == (x + y) + z
  {
  }

  /** The position where `w` first occurs in `s`. */
  function FirstIndex(s: seq<string>, w: string): (i: nat)
    requires w in s
    ensures i < |s| && s[i] == w
    ensures forall k :: 0 <= k < i ==> s[k] != w
  {
    if s[0] == w then 0 else FirstIndex(s[1..], w) + 1
  }

  /** A position holding `w` with no `w` before it is the first one. */
  lemma FirstIndexUnique(s: seq<string>, w: string, i: nat)
    requires i < |s| && s[i] == w
    requires forall k :: 0 <= k < i ==> s[k] != w
    ensures FirstIndex(s, w) == i
  {
  }

  /** The first occurrence of a value in a prefix is its first occurrence
      in the whole list. */
  lemma FirstIndexPrefix(s: seq<string>, n: nat, x: string)
    requires n <= |s| && x in s[..n]
    ensures x in s && FirstIndex(s, x) == FirstIndex(s[..n], x)
  {
    FirstIndexUnique(s, x, FirstIndex(s[..n], x));
  }

  /** `Set` iteration order: the values of the de-duplicated list stand in
      the order of their first occurrence in the input. */
  lemma {:induction false} DedupeOrder(words: seq<string>)
    ensures var d := Dedupe(words);
            forall i, j :: 0 <= i < j < |d| ==> FirstIndex(words, d[i]) < FirstIndex(words, d[j])
  {
    if words != [] {
      var n := |words| - 1;
      var p := words[..n];
      DedupeOrder(p);
      assert forall i, j :: 0 <= i < j < |Dedupe(p)| ==> FirstIndex(p, Dedupe(p)[i]) < FirstIndex(p, Dedupe(p)[j]);
      DedupeSnoc(words);
      forall i, j | 0 <= i < j < |Dedupe(words)|
        ensures FirstIndex(words, Dedupe(words)[i]) < FirstIndex(words, Dedupe(words)[j])
      {
        assert Dedupe(words)[i] == Dedupe(p)[i] && Dedupe(p)[i] in p;
        if j < |Dedupe(p)| {
          assert Dedupe(words)[j] == Dedupe(p)[j] && Dedupe(p)[j] in p;
          OrderCarriesOver(words, n, Dedupe(p)[i], Dedupe(p)[j]);
        } else {
          assert Dedupe(words)[j] == words[n];
          NewLastComesAfter(words, n, Dedupe(p)[i]);
        }
      }
    }
  }

  /** Extending a list keeps the order of first occurrences in its prefix. */
  lemma OrderCarriesOver(s: seq<string>, n: nat, x: string, y: string)
    requires n <= |s| && x in s[..n] && y in s[..n]
    requires FirstIndex(s[..n], x) < FirstIndex(s[..n], y)
    ensures FirstIndex(s, x) < FirstIndex(s, y)
  {
    FirstIndexPrefix(s, n, x);
    FirstIndexPrefix(s, n, y);
  }

  /** A value first occurring right after a prefix comes after every value
      of that prefix. */
  lemma NewLastComesAfter(s: seq<string>, n: nat, x: string)
    requires n < |s| && x in s[..n] && s[n] !in s[..n]
    ensures FirstIndex(s, x) < FirstIndex(s, s[n])
  {
    FirstIndexPrefix(s, n, x);
    assert forall k :: 0 <= k < n ==> s[k] == s[..n][k];
    FirstIndexUnique(s, s[n], n);
  }

  /** De-duplicating one more value appends it exactly when it is new. */
  lemma DedupeSnoc(words: seq<string>)
    requires words != []
    ensures var p := words[..|words| - 1];
            var last := words[|words| - 1];
            && Dedupe(words) == (if last in Dedupe(p) then Dedupe(p) else Dedupe(p) + [last])
            && (last in Dedupe(p) <==> last in p)
  {
  }

  /** The dictionary built from the fetched text. */
  function Dictionary(text: string): seq<string> {
    Dedupe(KeepLong(NormalizeAll(Split(text, '\n'))))
  }

  /** Shape of a dictionary word: what `trim`, `toUpperCase` and the length
      filter guarantee. */
  predicate IsWord(w: string) {
    |w| >= 2 && NoLower(w) && !IsSpace(w[0]) && !IsSpace(w[|w| - 1])
  }

  /** A normalised line is upper case and has no white space at either end. */
  lemma NormalizedLineShape(line: string)
    ensures var w := NormalizeLine(line);
            NoLower(w) && (w == [] || (!IsSpace(w[0]) && !IsSpace(w[|w| - 1])))
  {
  }

  /** Normalising a line introduces no line break. */
  lemma NormalizeKeepsNoBreak(line: string)
    requires '\n' !in line
    ensures '\n' !in NormalizeLine(line)
  {
    var t := Trim(line);
    var a := SkipSpace(line, 0);
    TrimSlice(line);
    assert t == line[a..a + |t|];
    assert forall k :: 0 <= k < |t| ==> t[k] == line[a + k];
    var w := NormalizeLine(line);
    forall k | 0 <= k < |w|
      ensures w[k] != '\n'
    {
      assert w[k] == UpperChar(t[k]);
      assert t[k] in line;
    }
  }

  /** The dictionary holds exactly the normalised lines of length two or
      more, each once. */
  lemma DictionaryMembers(text: string)
    ensures NoDuplicates(Dictionary(text))
    ensures forall w :: w in Dictionary(text) <==>
              |w| >= 2 && exists i :: 0 <= i < |Split(text, '\n')| && NormalizeLine(Split(text, '\n')[i]) == w
  {
    var lines := Split(text, '\n');
    var words := NormalizeAll(lines);
    var long := KeepLong(words);
    assert Dictionary(text) == Dedupe(long);
    forall w
      ensures w in Dictionary(text) <==>
              |w| >= 2 && exists i :: 0 <= i < |lines| && NormalizeLine(lines[i]) == w
    {
      assert w in Dictionary(text) <==> w in long;
      assert w in long <==> w in words && |w| >= 2;
      if w in words {
        var i :| 0 <= i < |words| && words[i] == w;
        assert NormalizeLine(lines[i]) == w;
      }
      if exists i :: 0 <= i < |lines| && NormalizeLine(lines[i]) == w {
        var i :| 0 <= i < |lines| && NormalizeLine(lines[i]) == w;
        assert words[i] == w;
      }
    }
  }

  /** Every dictionary entry is a word in the game's sense, with no line
      break inside. */
  lemma DictionaryWordsAreWords(text: string)
    ensures forall w :: w in Dictionary(text) ==> IsWord(w) && '\n' !in w
  {
    var lines := Split(text, '\n');
    var words := NormalizeAll(lines);
    forall w | w in Dictionary(text)
      ensures IsWord(w) && '\n' !in w
    {
      assert w in KeepLong(words);
      var i :| 0 <= i < |words| && words[i] == w;
      LineWord(lines[i]);
    }
  }

  /** A normalised line of length two or more is a word without line break. */
  lemma LineWord(line: string)
    requires '\n' !in line
    ensures |NormalizeLine(line)| >= 2 ==> IsWord(NormalizeLine(line)) && '\n' !in NormalizeLine(line)
  {
    NormalizedLineShape(line);
    NormalizeKeepsNoBreak(line);
  }
}
