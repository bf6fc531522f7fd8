/** Challenge selection, `generateSubstring`: collect, in the index's key
    order, every fragment whose list has at least `minWords` entries, then
    take the one at `Math.floor(Math.random() * candidates.length)`. */
module Selection {
  import opened Text
  import opened FragmentIndex

  /** The fragment shown this turn and the set of words it accepts. */
  datatype Challenge = Challenge(substring: string, words: set<string>)

  /** What `Math.random()` may return. */
  predicate IsRandom(rnd: real) {
    0.0 <= rnd < 1.0
  }

  /** The eligible keys, in key order (lines 207-211 as a filter). */
  function Eligible(keys: seq<string>, lists: map<string, seq<string>>, minWords: int): (c: seq<string>)
    ensures |c| <= |keys|
    decreases |keys|
  {
    if keys == [] then []
    else
      var init, last := keys[..|keys| - 1], keys[|keys| - 1];
      Eligible(init, lists, minWords) + (if last in lists && |lists[last]| >= minWords then [last] else [])
  }

  /** A key is a candidate exactly when it is a key of the index whose list
      has at least `minWords` entries. */
  lemma {:induction false} EligibleMembers(keys: seq<string>, lists: map<string, seq<string>>, minWords: int, k: string)
    ensures k in Eligible(keys, lists, minWords) <==> k in keys && k in lists && |lists[k]| >= minWords
    decreases |keys|
  {
    if keys != [] {
      var init, last := keys[..|keys| - 1], keys[|keys| - 1];
      EligibleMembers(init, lists, minWords, k);
      assert keys == init + [last];
    }
  }

  /** One more key considered: it is appended when it qualifies. */
  lemma EligibleStep(keys: seq<string>, lists: map<string, seq<string>>, minWords: int, j: nat)
    requires j < |keys|
    ensures Eligible(keys[..j + 1], lists, minWords)
            == Eligible(keys[..j], lists, minWords)
               + (if keys[j] in lists && |lists[keys[j]]| >= minWords then [keys[j]] else [])
  {
    assert keys[..j + 1][..j] == keys[..j];
  }

  /** The candidate loop of `generateSubstring`. */
  method CollectCandidates(ix: Index, minWords: int) returns (candidates: seq<string>)
    requires ix.Valid()
    ensures candidates == Eligible(ix.keys, ix.lists, minWords)
  {
    var keys, lists := ix.keys, ix.lists;
    assert forall k :: k in keys ==> k in lists;
    candidates := [];
    var j := 0;
    while j < |keys|
      invariant 0 <= j <= |keys|
      invariant candidates == Eligible(keys[..j], lists, minWords)
    {
      var substring := keys[j];
      var words := lists[substring];
      EligibleStep(keys, lists, minWords, j);
      if |words| >= minWords {
        candidates := candidates + [substring];
      }
      j := j + 1;
    }
    assert keys[..j] == keys;
  }

  /** Filtering with a higher threshold gives what filtering the lower
      threshold's candidates again gives: raising `minWords` only ever drops
      candidates, keeping the order of the rest. */
  lemma {:induction false} EligibleMonotone(keys: seq<string>, lists: map<string, seq<string>>, low: int, high: int)
    requires low <= high
    ensures Eligible(keys, lists, high) == Eligible(Eligible(keys, lists, low), lists, high)
    ensures |Eligible(keys, lists, high)| <= |Eligible(keys, lists, low)|
    decreases |keys|
  {
    if keys != [] {
      var init, last := keys[..|keys| - 1], keys[|keys| - 1];
      EligibleMonotone(init, lists, low, high);
      var e := Eligible(init, lists, low);
      if last in lists && |lists[last]| >= low {
        var e' := e + [last];
        assert e'[..|e|] == e && e'[|e|] == last;
        assert Eligible(keys, lists, low) == e';
        assert Eligible(e', lists, high)
            == Eligible(e, lists, high) + (if |lists[last]| >= high then [last] else []);
      } else {
        assert Eligible(keys, lists, low) == e;
      }
    }
  }

  /** `Math.floor(rnd * n)`: the index of a list of length `n` whose slot
      of width one holds `rnd * n`. */
  function RandomIndex(rnd: real, n: nat): (i: nat)
    requires IsRandom(rnd) && n > 0
    ensures i < n
    ensures i as real <= rnd * n as real < i as real + 1.0
  {
    var x := rnd * n as real;
    assert 0.0 <= x < n as real by {
      assert (1.0 - rnd) * n as real > 0.0;
    }
    x.Floor
  }

  /** Equal weights: index `j` is drawn exactly when `rnd` lies in
      `[j / n, (j + 1) / n)`, an interval of width `1 / n`. */
  lemma DrawInterval(rnd: real, n: nat, j: nat)
    requires IsRandom(rnd) && n > 0 && j < n
    ensures RandomIndex(rnd, n) == j <==>
              j as real / n as real <= rnd < (j as real + 1.0) / n as real
  {
    DrawSlot(rnd, n, j);
    ScaleBounds(j as real, rnd, n as real);
    ScaleBounds(j as real + 1.0, rnd, n as real);
  }

  /** Index `j` is drawn exactly when `rnd * n` lies in `[j, j + 1)`. */
  lemma DrawSlot(rnd: real, n: nat, j: nat)
    requires IsRandom(rnd) && n > 0 && j < n
    ensures RandomIndex(rnd, n) == j <==> j as real <= rnd * n as real < j as real + 1.0
  {
    var i := RandomIndex(rnd, n);
    var x := rnd * n as real;
    if i < j {
      assert x < i as real + 1.0 <= j as real;
    } else if j < i {
      assert j as real + 1.0 <= i as real <= x;
    }
  }

  /** Dividing by a positive scale keeps comparisons. */
  lemma ScaleBounds(a: real, r: real, c: real)
    requires c > 0.0
    ensures a <= r * c <==> a / c <= r
    ensures r * c < a <==> r < a / c
  {
    assert (a / c) * c == a;
  }

  /** The draw `j / n` picks index `j`. */
  lemma DrawOf(n: nat, j: nat)
    requires j < n
    ensures IsRandom(j as real / n as real)
    ensures RandomIndex(j as real / n as real, n) == j
  {
    var rnd := j as real / n as real;
    assert rnd * n as real == j as real;
    DrawInterval(rnd, n, j);
  }

  /** Every candidate can be drawn: the draw `j / n` shows the `j`-th. */
  lemma EveryCandidateDrawable(ix: Index, minWords: int, j: nat)
    requires j < |Eligible(ix.keys, ix.lists, minWords)|
    ensures var c := Eligible(ix.keys, ix.lists, minWords);
            var rnd := j as real / |c| as real;
            && IsRandom(rnd)
            && NextChallenge(ix, minWords, rnd) == Challenge(Upper(c[j]), set w | w in ListOf(ix, c[j]))
  {
    DrawOf(|Eligible(ix.keys, ix.lists, minWords)|, j);
  }

  /** `generateSubstring` as a value: no candidate gives the empty fragment
      and the empty accepted set, otherwise the drawn candidate upper-cased
      with the set of its list's words. */
  function NextChallenge(ix: Index, minWords: int, rnd: real): Challenge
    requires IsRandom(rnd)
  {
    var candidates := Eligible(ix.keys, ix.lists, minWords);
    if |candidates| == 0 then Challenge("", {})
    else
      var selection := candidates[RandomIndex(rnd, |candidates|)];
      Challenge(Upper(selection), set w | w in ListOf(ix, selection))
  }

  /** Selection outcome: the fallback exactly when no key qualifies, and
      otherwise a qualifying key with exactly its list's words accepted. */
  lemma ChallengeChoice(ix: Index, minWords: int, rnd: real)
    requires ix.Valid() && IsRandom(rnd)
    ensures var ch := NextChallenge(ix, minWords, rnd);
            (ch.substring == "" <==> Eligible(ix.keys, ix.lists, minWords) == [])
            && (Eligible(ix.keys, ix.lists, minWords) == [] <==>
                  forall k :: k in ix.lists ==> |ix.lists[k]| < minWords)
            && (ch.substring == "" ==> ch.words == {})
            && (ch.substring != "" ==>
                  exists k :: k in Eligible(ix.keys, ix.lists, minWords)
                              && k in ix.lists && |ix.lists[k]| >= minWords
                              && ch.substring == Upper(k)
                              && (forall w :: w in ch.words <==> w in ix.lists[k]))
  {
    NoCandidates(ix, minWords);
    if Eligible(ix.keys, ix.lists, minWords) != [] {
      DrawnChallenge(ix, minWords, rnd);
    }
  }

  /** With some key qualifying, the challenge is one of them upper-cased,
      accepting exactly its list's words. */
  lemma DrawnChallenge(ix: Index, minWords: int, rnd: real)
    requires ix.Valid() && IsRandom(rnd)
    requires Eligible(ix.keys, ix.lists, minWords) != []
    ensures var ch := NextChallenge(ix, minWords, rnd);
            exists k :: k in Eligible(ix.keys, ix.lists, minWords)
                        && k in ix.lists && |ix.lists[k]| >= minWords
                        && ch.substring == Upper(k) && |ch.substring| >= 2
                        && (forall w :: w in ch.words <==> w in ix.lists[k])
  {
    var candidates := Eligible(ix.keys, ix.lists, minWords);
    var k := candidates[RandomIndex(rnd, |candidates|)];
    assert NextChallenge(ix, minWords, rnd) == Challenge(Upper(k), set w | w in ListOf(ix, k));
    EligibleMembers(ix.keys, ix.lists, minWords, k);
    assert ListOf(ix, k) == ix.lists[k];
  }

  /** No key qualifies exactly when every list is shorter than `minWords`. */
  lemma NoCandidates(ix: Index, minWords: int)
    requires ix.Valid()
    ensures Eligible(ix.keys, ix.lists, minWords) == [] <==>
              forall k :: k in ix.lists ==> |ix.lists[k]| < minWords
  {
    var candidates := Eligible(ix.keys, ix.lists, minWords);
    forall k | k in ix.lists
      ensures k in candidates <==> |ix.lists[k]| >= minWords
    {
      EligibleMembers(ix.keys, ix.lists, minWords, k);
    }
    if candidates != [] {
      assert candidates[0] in candidates;
      EligibleMembers(ix.keys, ix.lists, minWords, candidates[0]);
    }
  }

  /** For an index built from a word list: an empty fragment accepts
      nothing, and every accepted word is a word of the list that contains
      the shown fragment up to case. */
  lemma ChallengeWordsContainFragment(words: seq<string>, minWords: int, rnd: real)
    requires IsRandom(rnd)
    ensures var ch := NextChallenge(Build(words), minWords, rnd);
            (ch.substring == "" ==> ch.words == {})
            && forall w :: w in ch.words ==> w in words && Contains(Upper(w), ch.substring)
  {
    var ix := Build(words);
    BuildValid(words);
    var candidates := Eligible(ix.keys, ix.lists, minWords);
    if |candidates| > 0 {
      var k := candidates[RandomIndex(rnd, |candidates|)];
      EligibleMembers(ix.keys, ix.lists, minWords, k);
      IndexSound(words, k);
      forall w | w in ix.lists[k]
        ensures Contains(Upper(w), Upper(k))
      {
        UpperContains(w, k);
      }
    }
  }

  /** For an index built from upper-case words, the shown fragment is the
      drawn key itself: a slice of an upper-case word, so `toUpperCase`
      leaves it as it is, and it accepts exactly the words on its own list. */
  lemma ShownFragmentIsKey(words: seq<string>, minWords: int, rnd: real)
    requires IsRandom(rnd)
    requires forall w :: w in words ==> NoLower(w)
    ensures var ix := Build(words);
            var ch := NextChallenge(ix, minWords, rnd);
            ch.substring != "" ==>
              && ch.substring in ix.lists
              && |ix.lists[ch.substring]| >= minWords
              && (forall w :: w in ch.words <==> w in ix.lists[ch.substring])
  {
    var ix := Build(words);
    BuildValid(words);
    var candidates := Eligible(ix.keys, ix.lists, minWords);
    if |candidates| > 0 {
      var k := candidates[RandomIndex(rnd, |candidates|)];
      EligibleMembers(ix.keys, ix.lists, minWords, k);
      IndexSound(words, k);
      var x := ix.lists[k][0];
      assert x in ix.lists[k];
      ContainedNoLower(x, k);
      UpperOfUpper(k);
    }
  }

  lemma UpperContains(w: string, k: string)
    requires Contains(w, k)
    ensures Contains(Upper(w), Upper(k))
  {
    var i :| 0 <= i <= |w| && OccursAt(w, k, i);
    UpperSlice(w, i, i + |k|);
    assert OccursAt(Upper(w), Upper(k), i);
  }
}
