/** The inverted index `preprocessSubstrings` builds: for every word, every
    3-character window and then every 2-character window becomes a key, and
    the word is pushed onto that key's list once per window, so a fragment
    that occurs twice in a word lists the word twice. */
module FragmentIndex {
  import opened Text

  /** A JavaScript `Map` from fragment to word list: `keys` is the map's
      insertion order, `lists` its contents. */
  datatype Index = Index(keys: seq<string>, lists: map<string, seq<string>>) {

    /** The keys are listed once each and are exactly the map's domain. */
    predicate Consistent() {
      && (forall i, j :: 0 <= i < j < |keys| ==> keys[i] != keys[j])
      && (forall k :: k in lists ==> k in keys)
      && (forall k :: k in keys ==> k in lists)
    }

    /** What every index built from words satisfies: keys of length two or
        three, and no empty list. */
    predicate Valid() {
      && Consistent()
      && (forall k :: k in lists ==> (|k| == 2 || |k| == 3) && lists[k] != [])
    }
  }

  const Empty: Index := Index([], map[])

  /** The list stored under `k`, or the empty list when `k` is no key. */
  function ListOf(ix: Index, k: string): seq<string> {
    if k in ix.lists then ix.lists[k] else []
  }

  /** The `n`-character windows of `w`, one per start offset. */
  function Windows(w: string, n: nat): (ws: seq<string>)
    ensures |ws| == if |w| >= n then |w| - n + 1 else 0
    ensures forall i :: 0 <= i < |ws| ==> ws[i] == w[i..i + n]
  {
    if |w| < n then [] else seq(|w| - n + 1, i requires 0 <= i < |w| - n + 1 => w[i..i + n])
  }

  /** The keys `w` is pushed under, in push order: every 3-window from
      offset 0 on, then every 2-window from offset 0 on. */
  function Pushes(w: string): seq<string> {
    if |w| < 2 then [] else Windows(w, 3) + Windows(w, 2)
  }

  /** One push: create the key's empty list when it is new, then append. */
  function Push(ix: Index, k: string, w: string): Index {
    Index(if k in ix.lists then ix.keys else ix.keys + [k], ix.lists[k := ListOf(ix, k) + [w]])
  }

  function PushAll(ix: Index, ks: seq<string>, w: string): Index
    decreases |ks|
  {
    if ks == [] then ix else Push(PushAll(ix, ks[..|ks| - 1], w), ks[|ks| - 1], w)
  }

  function AddWord(ix: Index, w: string): Index {
    PushAll(ix, Pushes(w), w)
  }

  /** The index of a word list, words taken in order. */
  function Build(words: seq<string>): Index
    decreases |words|
  {
    if words == [] then Empty else AddWord(Build(words[..|words| - 1]), words[|words| - 1])
  }

  /** `preprocessSubstrings`: the loop over the dictionary, filling the
      map entry by entry. */
  method BuildIndex(dictionary: seq<string>) returns (ix: Index)
    ensures ix == Build(dictionary)
  {
    var keys: seq<string> := [];
    var lists: map<string, seq<string>> := map[];
    var j := 0;
    while j < |dictionary|
      invariant 0 <= j <= |dictionary|
      invariant Index(keys, lists) == Build(dictionary[..j])
    {
      keys, lists := IndexWord(keys, lists, dictionary[j]);
      BuildStep(dictionary, j);
      j := j + 1;
    }
    assert dictionary[..j] == dictionary;
    ix := Index(keys, lists);
  }

  /** The body of the dictionary loop: a word of at least two characters
      is pushed under its 3-windows and then its 2-windows. */
  method IndexWord(keys: seq<string>, lists: map<string, seq<string>>, word: string)
    returns (keys': seq<string>, lists': map<string, seq<string>>)
    ensures Index(keys', lists') == AddWord(Index(keys, lists), word)
  {
    keys', lists' := keys, lists;
    if |word| >= 2 {
      keys', lists' := PushWindows(keys', lists', word, 3);
      keys', lists' := PushWindows(keys', lists', word, 2);
    }
    AddWordPasses(Index(keys, lists), word);
  }

  /** One inner loop of `preprocessSubstrings`: push `word` under each of
      its `n`-windows, left to right. */
  method PushWindows(keys: seq<string>, lists: map<string, seq<string>>, word: string, n: nat)
    returns (keys': seq<string>, lists': map<string, seq<string>>)
    ensures Index(keys', lists') == PushAll(Index(keys, lists), Windows(word, n), word)
  {
    ghost var ws := Windows(word, n);
    keys', lists' := keys, lists;
    var i := 0;
    while i <= |word| - n
      invariant 0 <= i <= |ws|
      invariant Index(keys', lists') == PushAll(Index(keys, lists), ws[..i], word)
    {
      keys', lists' := PushEntry(keys', lists', word[i..i + n], word);
      PushAllStep(Index(keys, lists), ws, i, word);
      i := i + 1;
    }
    assert ws[..i] == ws;
  }

  /** Creating the key's list when it is missing, then pushing the word. */
  method PushEntry(keys: seq<string>, lists: map<string, seq<string>>, substring: string, word: string)
    returns (keys': seq<string>, lists': map<string, seq<string>>)
    ensures Index(keys', lists') == Push(Index(keys, lists), substring, word)
  {
    keys', lists' := keys, lists;
    if substring !in lists' {
      lists' := lists'[substring := []];
      keys' := keys' + [substring];
    }
    lists' := lists'[substring := lists'[substring] + [word]];
  }

  /** `AddWord` is the 3-window pass followed by the 2-window pass. */
  lemma AddWordPasses(ix: Index, w: string)
    ensures AddWord(ix, w)
            == if |w| < 2 then ix else PushAll(PushAll(ix, Windows(w, 3), w), Windows(w, 2), w)
  {
    if |w| >= 2 {
      PushAllAppend(ix, Windows(w, 3), Windows(w, 2), w);
    }
  }

  lemma BuildStep(words: seq<string>, j: nat)
    requires j < |words|
    ensures Build(words[..j + 1]) == AddWord(Build(words[..j]), words[j])
  {
    assert words[..j + 1][..j] == words[..j];
  }

  lemma PushAllStep(ix: Index, ks: seq<string>, i: nat, w: string)
    requires i < |ks|
    ensures PushAll(ix, ks[..i + 1], w) == Push(PushAll(ix, ks[..i], w), ks[i], w)
  {
    assert ks[..i + 1][..i] == ks[..i];
  }

  lemma {:induction false} PushAllAppend(ix: Index, a: seq<string>, b: seq<string>, w: string)
    ensures PushAll(PushAll(ix, a, w), b, w) == PushAll(ix, a + b, w)
    decreases |b|
  {
    if b == [] {
      assert a + b == a;
    } else {
      PushAllAppend(ix, a, b[..|b| - 1], w);
      assert (a + b)[..|a + b| - 1] == a + b[..|b| - 1];
    }
  }

  /** The word pushed `n` times. */
  function Repeat(w: string, n: nat): (r: seq<string>)
    ensures |r| == n
    ensures forall x :: x in r <==> n > 0 && x == w
  {
    if n == 0 then [] else Repeat(w, n - 1) + [w]
  }

  /** Reference definition of one key's list: each word in order, repeated
      once for every window of it that equals the key. */
  function Entries(words: seq<string>, k: string): seq<string>
    decreases |words|
  {
    if words == [] then []
    else Entries(words[..|words| - 1], k) + Repeat(words[|words| - 1], multiset(Pushes(words[|words| - 1]))[k])
  }

  lemma PushList(ix: Index, x: string, w: string, k: string)
    ensures ListOf(Push(ix, x, w), k) == ListOf(ix, k) + (if k == x then [w] else [])
  {
  }

  lemma {:induction false} PushAllLists(ix: Index, ks: seq<string>, w: string, k: string)
    ensures ListOf(PushAll(ix, ks, w), k) == ListOf(ix, k) + Repeat(w, multiset(ks)[k])
    decreases |ks|
  {
    if ks != [] {
      var init, last := ks[..|ks| - 1], ks[|ks| - 1];
      PushAllLists(ix, init, w, k);
      PushList(PushAll(ix, init, w), last, w, k);
      CountSnoc(ks, k);
    }
  }

  /** Counting an element of a sequence: the prefix's count plus the last one. */
  lemma CountSnoc(ks: seq<string>, k: string)
    requires ks != []
    ensures multiset(ks)[k] == multiset(ks[..|ks| - 1])[k] + (if ks[|ks| - 1] == k then 1 else 0)
  {
    assert ks == ks[..|ks| - 1] + [ks[|ks| - 1]];
  }

  /** The index agrees with the reference definition on every key. */
  lemma {:induction false} BuildLists(words: seq<string>, k: string)
    ensures ListOf(Build(words), k) == Entries(words, k)
    decreases |words|
  {
    if words != [] {
      var init := words[..|words| - 1];
      BuildLists(init, k);
      PushAllLists(Build(init), Pushes(words[|words| - 1]), words[|words| - 1], k);
    }
  }

  lemma {:induction false} PushAllValid(ix: Index, ks: seq<string>, w: string)
    requires ix.Valid()
    requires forall i :: 0 <= i < |ks| ==> |ks[i]| == 2 || |ks[i]| == 3
    ensures PushAll(ix, ks, w).Valid()
    decreases |ks|
  {
    if ks != [] {
      var init, last := ks[..|ks| - 1], ks[|ks| - 1];
      PushAllValid(ix, init, w);
      var p := PushAll(ix, init, w);
      var q := Push(p, last, w);
      assert q.Consistent() by {
        if last !in p.lists {
          forall i, j | 0 <= i < j < |q.keys| ensures q.keys[i] != q.keys[j] {
            if j == |p.keys| { assert q.keys[i] == p.keys[i]; }
          }
        }
      }
    }
  }

  lemma PushesLengths(w: string)
    ensures forall i :: 0 <= i < |Pushes(w)| ==> |Pushes(w)[i]| == 2 || |Pushes(w)[i]| == 3
  {
    if |w| >= 2 {
      var w3, w2 := Windows(w, 3), Windows(w, 2);
      assert forall i :: 0 <= i < |w3| + |w2| ==> (w3 + w2)[i] == if i < |w3| then w3[i] else w2[i - |w3|];
    }
  }

  /** Every index built from words is valid. */
  lemma {:induction false} BuildValid(words: seq<string>)
    ensures Build(words).Valid()
    decreases |words|
  {
    if words != [] {
      BuildValid(words[..|words| - 1]);
      PushesLengths(words[|words| - 1]);
      PushAllValid(Build(words[..|words| - 1]), Pushes(words[|words| - 1]), words[|words| - 1]);
    }
  }

  lemma {:induction false} EntriesMember(words: seq<string>, k: string, x: string)
    ensures x in Entries(words, k) <==> x in words && multiset(Pushes(x))[k] > 0
    decreases |words|
  {
    if words != [] {
      var init := words[..|words| - 1];
      EntriesMember(init, k, x);
      assert words == init + [words[|words| - 1]];
    }
  }

  /** Position of each window in the push order: the 3-windows first, one
      per offset, then the 2-windows, one per offset. */
  lemma PushesShape(w: string)
    requires |w| >= 2
    ensures |Pushes(w)| == (|w| - 2) + (|w| - 1)
    ensures forall i :: 0 <= i < |w| - 2 ==> Pushes(w)[i] == w[i..i + 3]
    ensures forall i :: |w| - 2 <= i < |Pushes(w)| ==> Pushes(w)[i] == w[i - (|w| - 2)..i - (|w| - 2) + 2]
  {
  }

  /** Completeness: every 2-window of a dictionary word, and every 3-window
      of it, is a key whose list holds the word. */
  lemma IndexComplete(words: seq<string>, w: string, i: int)
    requires w in words && 0 <= i && i + 2 <= |w|
    ensures w[i..i + 2] in Build(words).lists && w in Build(words).lists[w[i..i + 2]]
    ensures i + 3 <= |w| ==> w[i..i + 3] in Build(words).lists && w in Build(words).lists[w[i..i + 3]]
  {
    PushesShape(w);
    var k2 := w[i..i + 2];
    assert Pushes(w)[|w| - 2 + i] == k2;
    assert k2 in multiset(Pushes(w));
    BuildLists(words, k2);
    EntriesMember(words, k2, w);
    if i + 3 <= |w| {
      var k3 := w[i..i + 3];
      assert Pushes(w)[i] == k3;
      assert k3 in multiset(Pushes(w));
      BuildLists(words, k3);
      EntriesMember(words, k3, w);
    }
  }

  /** Soundness: a key has length two or three and a non-empty list, and
      every word on the list is a dictionary word containing the key. */
  lemma IndexSound(words: seq<string>, k: string)
    requires k in Build(words).lists
    ensures |k| == 2 || |k| == 3
    ensures Build(words).lists[k] != []
    ensures forall x :: x in Build(words).lists[k] ==> x in words && Contains(x, k)
  {
    BuildValid(words);
    forall x | x in Build(words).lists[k]
      ensures x in words && Contains(x, k)
    {
      ListedWordContainsKey(words, k, x);
    }
  }

  lemma ListedWordContainsKey(words: seq<string>, k: string, x: string)
    requires x in ListOf(Build(words), k)
    ensures x in words && Contains(x, k)
  {
    BuildLists(words, k);
    EntriesMember(words, k, x);
    assert k in Pushes(x);
    if k in Windows(x, 3) {
      WindowOccurs(x, 3, k);
    } else {
      WindowOccurs(x, 2, k);
    }
  }

  lemma WindowOccurs(x: string, n: nat, k: string)
    requires k in Windows(x, n)
    ensures |k| == n && Contains(x, k)
  {
    var j :| 0 <= j < |Windows(x, n)| && Windows(x, n)[j] == k;
    assert OccursAt(x, k, j);
  }

  /** Multiplicity: in a list of distinct words, a word appears on a key's
      list once for every position of that key in its push order. */
  lemma {:induction false} IndexMultiplicity(words: seq<string>, k: string, w: string)
    requires forall i, j :: 0 <= i < j < |words| ==> words[i] != words[j]
    requires w in words
    ensures multiset(ListOf(Build(words), k))[w] == multiset(Pushes(w))[k]
  {
    BuildLists(words, k);
    EntriesMultiplicity(words, k, w);
  }

  lemma RepeatCount(x: string, n: nat, w: string)
    ensures multiset(Repeat(x, n))[w] == if x == w then n else 0
  {
    if n > 0 {
      RepeatCount(x, n - 1, w);
    }
  }

  lemma {:induction false} EntriesMultiplicity(words: seq<string>, k: string, w: string)
    requires forall i, j :: 0 <= i < j < |words| ==> words[i] != words[j]
    requires w in words
    ensures multiset(Entries(words, k))[w] == multiset(Pushes(w))[k]
    decreases |words|
  {
    var init, last := words[..|words| - 1], words[|words| - 1];
    assert words == init + [last];
    RepeatCount(last, multiset(Pushes(last))[k], w);
    if w == last {
      forall i | 0 <= i < |init|
        ensures init[i] != w
      {
        assert init[i] == words[i];
      }
      EntriesMember(init, k, w);
      assert multiset(Entries(init, k))[w] == 0;
    } else {
      EntriesMultiplicity(init, k, w);
    }
  }

  /** Number of entries of a key list that have length `n`. */
  function CountLen(ks: seq<string>, n: nat): nat
    decreases |ks|
  {
    if ks == [] then 0 else CountLen(ks[..|ks| - 1], n) + (if |ks[|ks| - 1]| == n then 1 else 0)
  }

  lemma {:induction false} CountLenAppend(a: seq<string>, b: seq<string>, n: nat)
    ensures CountLen(a + b, n) == CountLen(a, n) + CountLen(b, n)
    decreases |b|
  {
    if b == [] {
      assert a + b == a;
    } else {
      CountLenAppend(a, b[..|b| - 1], n);
      assert (a + b)[..|a + b| - 1] == a + b[..|b| - 1];
    }
  }

  lemma {:induction false} CountLenUniform(ks: seq<string>, m: nat, n: nat)
    requires forall i :: 0 <= i < |ks| ==> |ks[i]| == m
    ensures CountLen(ks, n) == if m == n then |ks| else 0
    decreases |ks|
  {
    if ks != [] {
      CountLenUniform(ks[..|ks| - 1], m, n);
    }
  }

  /** Entries under keys of length `n`, summed over `keys`. */
  function SumLens(keys: seq<string>, lists: map<string, seq<string>>, n: nat): nat
    decreases |keys|
  {
    if keys == [] then 0
    else
      var last := keys[|keys| - 1];
      SumLens(keys[..|keys| - 1], lists, n) + (if |last| == n && last in lists then |lists[last]| else 0)
  }

  /** Total number of entries of the index under keys of length `n`. */
  function EntryCount(ix: Index, n: nat): nat {
    SumLens(ix.keys, ix.lists, n)
  }

  lemma {:induction false} SumLensOutside(keys: seq<string>, lists: map<string, seq<string>>, k: string, v: seq<string>, n: nat)
    requires k !in keys
    ensures SumLens(keys, lists[k := v], n) == SumLens(keys, lists, n)
    decreases |keys|
  {
    if keys != [] {
      SumLensOutside(keys[..|keys| - 1], lists, k, v, n);
    }
  }

  lemma {:induction false} SumLensInside(keys: seq<string>, lists: map<string, seq<string>>, k: string, w: string, n: nat)
    requires forall i, j :: 0 <= i < j < |keys| ==> keys[i] != keys[j]
    requires k in keys && k in lists
    ensures SumLens(keys, lists[k := lists[k] + [w]], n) == SumLens(keys, lists, n) + (if |k| == n then 1 else 0)
    decreases |keys|
  {
    var init, last := keys[..|keys| - 1], keys[|keys| - 1];
    if last == k {
      forall i | 0 <= i < |init|
        ensures init[i] != k
      {
        assert init[i] == keys[i];
      }
      SumLensOutside(init, lists, k, lists[k] + [w], n);
    } else {
      assert k in init by {
        var i :| 0 <= i < |keys| && keys[i] == k;
        assert i < |keys| - 1;
      }
      SumLensInside(init, lists, k, w, n);
    }
  }

  /** One push adds exactly one entry, under a key of the pushed length. */
  lemma PushCount(ix: Index, k: string, w: string, n: nat)
    requires ix.Consistent()
    ensures EntryCount(Push(ix, k, w), n) == EntryCount(ix, n) + (if |k| == n then 1 else 0)
  {
    var lists := ix.lists;
    if k in lists {
      assert k in ix.keys;
      assert Push(ix, k, w) == Index(ix.keys, lists[k := lists[k] + [w]]);
      SumLensInside(ix.keys, lists, k, w, n);
    } else {
      assert k !in ix.keys;
      assert ListOf(ix, k) + [w] == [w];
      var keys', lists' := ix.keys + [k], lists[k := [w]];
      assert Push(ix, k, w) == Index(keys', lists');
      assert keys'[..|keys'| - 1] == ix.keys;
      assert SumLens(keys', lists', n) == SumLens(ix.keys, lists', n) + (if |k| == n then 1 else 0);
      SumLensOutside(ix.keys, lists, k, [w], n);
    }
  }

  lemma {:induction false} PushAllConsistent(ix: Index, ks: seq<string>, w: string)
    requires ix.Consistent()
    ensures PushAll(ix, ks, w).Consistent()
    decreases |ks|
  {
    if ks != [] {
      var init, last := ks[..|ks| - 1], ks[|ks| - 1];
      PushAllConsistent(ix, init, w);
      var p := PushAll(ix, init, w);
      var q := Push(p, last, w);
      if last !in p.lists {
        forall i, j | 0 <= i < j < |q.keys| ensures q.keys[i] != q.keys[j] {
          if j == |p.keys| { assert q.keys[i] == p.keys[i]; }
        }
      }
    }
  }

  lemma {:induction false} PushAllCount(ix: Index, ks: seq<string>, w: string, n: nat)
    requires ix.Consistent()
    ensures EntryCount(PushAll(ix, ks, w), n) == EntryCount(ix, n) + CountLen(ks, n)
    decreases |ks|
  {
    if ks != [] {
      var init := ks[..|ks| - 1];
      PushAllCount(ix, init, w, n);
      PushAllConsistent(ix, init, w);
      PushCount(PushAll(ix, init, w), ks[|ks| - 1], w, n);
    }
  }

  /** A word of length L adds exactly L - 1 entries under 2-keys and L - 2
      under 3-keys, repeated windows included. */
  lemma WordContribution(ix: Index, w: string)
    requires ix.Consistent() && |w| >= 2
    ensures EntryCount(AddWord(ix, w), 2) == EntryCount(ix, 2) + (|w| - 1)
    ensures EntryCount(AddWord(ix, w), 3) == EntryCount(ix, 3) + (|w| - 2)
  {
    var w3, w2 := Windows(w, 3), Windows(w, 2);
    PushAllCount(ix, Pushes(w), w, 2);
    PushAllCount(ix, Pushes(w), w, 3);
    CountLenAppend(w3, w2, 2);
    CountLenAppend(w3, w2, 3);
    CountLenUniform(w3, 3, 2);
    CountLenUniform(w3, 3, 3);
    CountLenUniform(w2, 2, 2);
    CountLenUniform(w2, 2, 3);
  }

  /** Words shorter than two characters add nothing. */
  lemma ShortWordAddsNothing(ix: Index, w: string)
    requires |w| < 2
    ensures AddWord(ix, w) == ix
  {
  }
}
