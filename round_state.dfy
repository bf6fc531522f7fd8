/** The game's module-level variables as one value, and every transition
    of the round state machine (`startGame`, `startNewTurn`, `validateWord`,
    `checkAlphabetBonus`, `loseLife`, `gameOver`, the submit guard and the
    timer tick) as a function from the old value to the new one. */
module RoundState {
  import opened Text
  import opened Config
  import opened FragmentIndex
  import opened Selection
  import opened Lexicon

  /** How `fetch` and `response.text()` settle: the word-list text, or a
      failure that the `catch` block reports. */
  datatype Fetch = FetchFailed | Fetched(text: string)

  /** What a submission did: ignored by the guard, rejected, or accepted. */
  datatype SubmitOutcome = Ignored | Rejected | Accepted

  /** Time is kept in ticks of 100 ms: `currentTime` counts the ticks left,
      `turnTime` is the turn length in seconds. */
  datatype State = State(
    dictionaryLoaded: bool,
    dictionary: seq<string>,
    index: Index,
    pendingDifficulty: DifficultyKey,
    currentDifficulty: DifficultyKey,
    turnTime: nat,
    lives: int,
    currentTime: nat,
    currentSubstring: string,
    currentWordList: set<string>,
    usedWords: set<string>,
    usedChars: set<char>,
    isGameOver: bool)

  /** What every reachable state satisfies. */
  ghost predicate Inv(s: State) {
    && IndexOfDictionary(s.dictionary, s.index)
    && 0 <= s.lives <= MAX_LIVES
    && (!s.isGameOver ==> s.lives >= 1)
    && s.currentTime <= TICKS_PER_SECOND * s.turnTime
    && (!s.dictionaryLoaded ==> s.isGameOver && s.dictionary == [])
    && ChallengeFits(s.dictionary, s.currentSubstring, s.currentWordList)
  }

  /** The fragment index is the one built from the dictionary. */
  ghost predicate IndexOfDictionary(dictionary: seq<string>, index: Index) {
    index == Build(dictionary) && index.Valid()
  }

  /** Every accepted word is a dictionary word containing the fragment, up
      to case, and the empty fragment accepts no word. */
  ghost predicate ChallengeFits(dictionary: seq<string>, substring: string, words: set<string>) {
    && (substring == "" ==> words == {})
    && (forall w :: w in words ==> w in dictionary && Contains(Upper(w), substring))
  }

  /** The values the variables are declared with. */
  function Initial(): State {
    var time := Difficulties(Easy).time;
    State(false, [], Empty, Easy, Easy, time, STARTING_LIVES, TICKS_PER_SECOND * time,
          "", {}, {}, {}, true)
  }

  /** `loadDictionary` once the fetch has settled. */
  function LoadDictionary(s: State, response: Fetch): State {
    match response
    case FetchFailed => s
    case Fetched(text) =>
      var words := Dictionary(text);
      s.(dictionary := words, index := Build(words), dictionaryLoaded := true)
  }

  /** A click on a difficulty button. */
  function SelectDifficulty(s: State, key: DifficultyKey): State {
    s.(pendingDifficulty := key)
  }

  function GenerateSubstring(s: State, rnd: real): State
    requires IsRandom(rnd)
  {
    var ch := NextChallenge(s.index, Difficulties(s.currentDifficulty).minWords, rnd);
    s.(currentSubstring := ch.substring, currentWordList := ch.words)
  }

  function StartNewTurn(s: State, rnd: real): State
    requires IsRandom(rnd)
  {
    if s.isGameOver then s
    else GenerateSubstring(s.(currentTime := TICKS_PER_SECOND * s.turnTime), rnd)
  }

  function StartGame(s: State, rnd: real): State
    requires IsRandom(rnd)
  {
    if !s.dictionaryLoaded then s else StartNewTurn(ResetForGame(s), rnd)
  }

  /** The assignments `startGame` makes before the first turn. */
  function ResetForGame(s: State): State {
    var time := Difficulties(s.pendingDifficulty).time;
    s.(currentDifficulty := s.pendingDifficulty, turnTime := time,
       lives := STARTING_LIVES, currentTime := TICKS_PER_SECOND * time,
       isGameOver := false, usedWords := {}, usedChars := {})
  }

  /** The characters `word.split('')` yields. */
  function CharsOf(word: string): set<char> {
    set c | c in word
  }

  /** `ALPHABET_BONUS.every((char) => usedCharsInGame.has(char))`. */
  predicate BonusAchieved(used: set<char>) {
    forall i :: 0 <= i < |ALPHABET_BONUS| ==> ALPHABET_BONUS[i] in used
  }

  /** The bonus test asks for every letter from A to Y. */
  lemma BonusAchievedLetters(used: set<char>)
    ensures BonusAchieved(used) <==> forall c :: 'A' <= c <= 'Y' ==> c in used
  {
    BonusAlphabetShape();
    if BonusAchieved(used) {
      forall c | 'A' <= c <= 'Y'
        ensures c in used
      {
        assert c in ALPHABET_BONUS;
        var i :| 0 <= i < |ALPHABET_BONUS| && ALPHABET_BONUS[i] == c;
      }
    }
    if forall c :: 'A' <= c <= 'Y' ==> c in used {
      forall i | 0 <= i < |ALPHABET_BONUS|
        ensures ALPHABET_BONUS[i] in used
      {
        assert ALPHABET_BONUS[i] in ALPHABET_BONUS;
      }
    }
  }

  function CheckAlphabetBonus(s: State): State {
    if !BonusAchieved(s.usedChars) then s
    else s.(lives := if s.lives < MAX_LIVES then s.lives + 1 else s.lives, usedChars := {})
  }

  /** `validateWord`: the new state, and whether the word was accepted. */
  function ValidateWord(s: State, word: string, rnd: real): (State, bool)
    requires IsRandom(rnd)
  {
    if word in s.currentWordList && word !in s.usedWords then
      var s' := s.(usedWords := s.usedWords + {word}, usedChars := s.usedChars + CharsOf(word));
      (StartNewTurn(CheckAlphabetBonus(s'), rnd), true)
    else (s, false)
  }

  function GameOver(s: State): State {
    s.(isGameOver := true)
  }

  function LoseLife(s: State, rnd: real): State
    requires IsRandom(rnd)
  {
    var s' := s.(lives := s.lives - 1);
    if s'.lives <= 0 then GameOver(s') else StartNewTurn(s', rnd)
  }

  /** One run of the interval body; no interval is scheduled once the game
      is over, so then nothing happens. */
  function Tick(s: State, rnd: real): State
    requires IsRandom(rnd)
  {
    if s.isGameOver then s
    else
      var s' := s.(currentTime := if s.currentTime >= 1 then s.currentTime - 1 else 0);
      if s'.currentTime <= 0 then LoseLife(s', rnd) else s'
  }

  /** `handleWordSubmit`: ignore while the game is over or when the trimmed
      input is empty, otherwise validate the trimmed upper-cased input. */
  function HandleWordSubmit(s: State, raw: string, rnd: real): (State, SubmitOutcome)
    requires IsRandom(rnd)
  {
    if s.isGameOver then (s, Ignored)
    else
      var submitted := Upper(Trim(raw));
      if submitted == [] then (s, Ignored)
      else
        var r := ValidateWord(s, submitted, rnd);
        (r.0, if r.1 then Accepted else Rejected)
  }

  /** `n` runs of the interval body with the same random draw. */
  function TickN(s: State, n: nat, rnd: real): (r: State)
    requires IsRandom(rnd)
    ensures r.index == s.index
    decreases n
  {
    if n == 0 then s else TickN(Tick(s, rnd), n - 1, rnd)
  }

  // ---- The invariant holds initially and after every transition. ----

  lemma InitialInv()
    ensures Inv(Initial())
  {
  }

  /** After a dictionary is loaded from `text`, a non-empty fragment is one
      of the index's keys exactly as stored, with at least `minWords`
      entries, and it accepts exactly the words on its list. */
  lemma DictionaryFragmentIsKey(text: string, minWords: int, rnd: real)
    requires IsRandom(rnd)
    ensures var ix := Build(Dictionary(text));
            var ch := NextChallenge(ix, minWords, rnd);
            ch.substring != "" ==>
              && ch.substring in ix.lists
              && |ix.lists[ch.substring]| >= minWords
              && (forall w :: w in ch.words <==> w in ix.lists[ch.substring])
  {
    DictionaryWordsAreWords(text);
    ShownFragmentIsKey(Dictionary(text), minWords, rnd);
  }

  /** An easier tier draws from a subset of a harder tier's candidates, in
      the same order: a harder tier also offers the rarer fragments. */
  lemma HarderTierMoreCandidates(ix: Index, easier: DifficultyKey, harder: DifficultyKey)
    requires Rank(easier) <= Rank(harder)
    ensures var low := Difficulties(harder).minWords;
            var high := Difficulties(easier).minWords;
            && Eligible(ix.keys, ix.lists, high) == Eligible(Eligible(ix.keys, ix.lists, low), ix.lists, high)
            && |Eligible(ix.keys, ix.lists, high)| <= |Eligible(ix.keys, ix.lists, low)|
  {
    HarderTiersAreStricter(easier, harder);
    EligibleMonotone(ix.keys, ix.lists, Difficulties(harder).minWords, Difficulties(easier).minWords);
  }

  /** `loadDictionary` runs once, before any game. */
  lemma LoadDictionaryInv(s: State, response: Fetch)
    requires Inv(s) && !s.dictionaryLoaded
    ensures Inv(LoadDictionary(s, response))
  {
    if response.Fetched? {
      BuildValid(Dictionary(response.text));
    }
  }

  lemma SelectDifficultyInv(s: State, key: DifficultyKey)
    requires Inv(s)
    ensures Inv(SelectDifficulty(s, key))
  {
  }

  lemma GenerateSubstringInv(s: State, rnd: real)
    requires Inv(s) && IsRandom(rnd)
    ensures Inv(GenerateSubstring(s, rnd))
  {
    ChallengeWordsContainFragment(s.dictionary, Difficulties(s.currentDifficulty).minWords, rnd);
  }

  lemma StartNewTurnInv(s: State, rnd: real)
    requires Inv(s) && IsRandom(rnd)
    ensures Inv(StartNewTurn(s, rnd))
  {
    if !s.isGameOver {
      GenerateSubstringInv(s.(currentTime := TICKS_PER_SECOND * s.turnTime), rnd);
    }
  }

  lemma StartGameInv(s: State, rnd: real)
    requires Inv(s) && IsRandom(rnd)
    ensures Inv(StartGame(s, rnd))
  {
    if s.dictionaryLoaded {
      StartNewTurnInv(ResetForGame(s), rnd);
    }
  }

  lemma CheckAlphabetBonusInv(s: State)
    requires Inv(s)
    ensures Inv(CheckAlphabetBonus(s))
  {
  }

  lemma ValidateWordInv(s: State, word: string, rnd: real)
    requires Inv(s) && IsRandom(rnd)
    ensures Inv(ValidateWord(s, word, rnd).0)
  {
    if word in s.currentWordList && word !in s.usedWords {
      var s' := s.(usedWords := s.usedWords + {word}, usedChars := s.usedChars + CharsOf(word));
      CheckAlphabetBonusInv(s');
      StartNewTurnInv(CheckAlphabetBonus(s'), rnd);
    }
  }

  lemma GameOverInv(s: State)
    requires Inv(s)
    ensures Inv(GameOver(s))
  {
  }

  /** `loseLife` is only reached from the tick of a running game. */
  lemma LoseLifeInv(s: State, rnd: real)
    requires Inv(s) && IsRandom(rnd) && !s.isGameOver
    ensures Inv(LoseLife(s, rnd))
  {
    if s.lives - 1 > 0 {
      StartNewTurnInv(s.(lives := s.lives - 1), rnd);
    }
  }

  lemma TickInv(s: State, rnd: real)
    requires Inv(s) && IsRandom(rnd)
    ensures Inv(Tick(s, rnd))
  {
    if !s.isGameOver {
      var s' := s.(currentTime := if s.currentTime >= 1 then s.currentTime - 1 else 0);
      if s'.currentTime <= 0 {
        LoseLifeInv(s', rnd);
      }
    }
  }

  lemma HandleWordSubmitInv(s: State, raw: string, rnd: real)
    requires Inv(s) && IsRandom(rnd)
    ensures Inv(HandleWordSubmit(s, raw, rnd).0)
  {
    if !s.isGameOver && Upper(Trim(raw)) != [] {
      ValidateWordInv(s, Upper(Trim(raw)), rnd);
    }
  }

  // ---- What the transitions promise. ----

  /** A loaded game starts afresh whatever state the last one ended in,
      keeping the dictionary, its index and the pending difficulty; an
      unloaded dictionary leaves everything as it was. */
  lemma StartGameResets(s: State, rnd: real)
    requires IsRandom(rnd)
    ensures var r := StartGame(s, rnd);
            && (s.dictionaryLoaded ==>
                  && r.lives == STARTING_LIVES
                  && r.usedWords == {} && r.usedChars == {}
                  && !r.isGameOver
                  && r.currentDifficulty == s.pendingDifficulty
                  && r.turnTime == Difficulties(s.pendingDifficulty).time
                  && r.currentTime == TICKS_PER_SECOND * r.turnTime
                  && Challenge(r.currentSubstring, r.currentWordList)
                     == NextChallenge(s.index, Difficulties(s.pendingDifficulty).minWords, rnd)
                  && r == s.(currentDifficulty := s.pendingDifficulty, turnTime := r.turnTime,
                             lives := STARTING_LIVES, currentTime := r.currentTime, isGameOver := false,
                             usedWords := {}, usedChars := {}, currentSubstring := r.currentSubstring,
                             currentWordList := r.currentWordList))
            && (!s.dictionaryLoaded ==> r == s)
  {
  }

  /** A word is accepted exactly when the current challenge accepts it and
      it was not used this game; acceptance records the word and its
      letters, applies the bonus and starts a new turn with a fresh draw,
      touching nothing else, and rejection changes nothing. */
  lemma ValidateWordRule(s: State, word: string, rnd: real)
    requires IsRandom(rnd)
    ensures var (r, accepted) := ValidateWord(s, word, rnd);
            && (accepted <==> word in s.currentWordList && word !in s.usedWords)
            && (!accepted ==> r == s)
            && (accepted ==>
                  var letters := s.usedChars + CharsOf(word);
                  && r.usedWords == s.usedWords + {word}
                  && r.usedChars == (if BonusAchieved(letters) then {} else letters)
                  && r.lives == (if BonusAchieved(letters) && s.lives < MAX_LIVES then s.lives + 1 else s.lives)
                  && (!s.isGameOver ==>
                        && r.currentTime == TICKS_PER_SECOND * s.turnTime
                        && Challenge(r.currentSubstring, r.currentWordList)
                           == NextChallenge(s.index, Difficulties(s.currentDifficulty).minWords, rnd))
                  && (s.isGameOver ==>
                        r.currentTime == s.currentTime && r.currentSubstring == s.currentSubstring
                        && r.currentWordList == s.currentWordList)
                  && r == s.(usedWords := r.usedWords, usedChars := r.usedChars, lives := r.lives,
                             currentTime := r.currentTime, currentSubstring := r.currentSubstring,
                             currentWordList := r.currentWordList))
  {
  }

  /** Submitting the same word right after it was accepted is rejected, and
      the rejection changes nothing. */
  lemma ResubmissionRejected(s: State, word: string, rnd: real, rnd': real)
    requires IsRandom(rnd) && IsRandom(rnd')
    requires ValidateWord(s, word, rnd).1
    ensures var s' := ValidateWord(s, word, rnd).0;
            ValidateWord(s', word, rnd') == (s', false)
  {
  }

  /** An accepted word is a dictionary word containing the fragment shown,
      up to case. */
  lemma AcceptedWordFitsChallenge(s: State, word: string, rnd: real)
    requires Inv(s) && IsRandom(rnd)
    ensures ValidateWord(s, word, rnd).1 ==>
              word in s.dictionary && Contains(Upper(word), s.currentSubstring)
  {
  }

  /** The bonus: with every letter A to Y used, a life is gained below the
      maximum and the used letters are forgotten; otherwise nothing changes. */
  lemma BonusRule(s: State)
    ensures var r := CheckAlphabetBonus(s);
            && (BonusAchieved(s.usedChars) ==>
                  r.usedChars == {} && r.lives == (if s.lives < MAX_LIVES then s.lives + 1 else s.lives)
                  && r == s.(lives := r.lives, usedChars := {}))
            && (!BonusAchieved(s.usedChars) ==> r == s)
  {
  }

  /** Losing a life takes exactly one; the game ends when none is left and a
      new turn starts otherwise; nothing else changes. */
  lemma LoseLifeRule(s: State, rnd: real)
    requires IsRandom(rnd) && !s.isGameOver
    ensures var r := LoseLife(s, rnd);
            && r.lives == s.lives - 1
            && (r.isGameOver <==> s.lives <= 1)
            && (!r.isGameOver ==> r.currentTime == TICKS_PER_SECOND * s.turnTime
                                  && Challenge(r.currentSubstring, r.currentWordList)
                                     == NextChallenge(s.index, Difficulties(s.currentDifficulty).minWords, rnd))
            && (r.isGameOver ==>
                  r.currentTime == s.currentTime && r.currentSubstring == s.currentSubstring
                  && r.currentWordList == s.currentWordList)
            && r == s.(lives := s.lives - 1, isGameOver := r.isGameOver, currentTime := r.currentTime,
                       currentSubstring := r.currentSubstring, currentWordList := r.currentWordList)
  {
  }

  /** Once the game is over, ticks, new turns and submissions do nothing. */
  lemma GameOverIsFinal(s: State, raw: string, rnd: real)
    requires IsRandom(rnd) && s.isGameOver
    ensures Tick(s, rnd) == s
    ensures StartNewTurn(s, rnd) == s
    ensures HandleWordSubmit(s, raw, rnd) == (s, Ignored)
  {
  }

  /** The submit guard: nothing happens while the game is over or for blank
      input; otherwise the trimmed, upper-cased input is validated. */
  lemma SubmitGuard(s: State, raw: string, rnd: real)
    requires IsRandom(rnd)
    ensures var (r, outcome) := HandleWordSubmit(s, raw, rnd);
            && (outcome == Ignored <==> s.isGameOver || Upper(Trim(raw)) == [])
            && (outcome == Ignored ==> r == s)
            && (outcome != Ignored ==>
                  (r, outcome == Accepted) == ValidateWord(s, Upper(Trim(raw)), rnd))
  {
  }

  /** A tick takes one tenth of a second off the clock, and the tick that
      empties it costs exactly one life. */
  lemma TickRule(s: State, rnd: real)
    requires IsRandom(rnd) && !s.isGameOver
    ensures s.currentTime >= 2 ==> Tick(s, rnd) == s.(currentTime := s.currentTime - 1)
    ensures s.currentTime <= 1 ==>
              Tick(s, rnd) == LoseLife(s.(currentTime := 0), rnd) && Tick(s, rnd).lives == s.lives - 1
  {
  }

  /** Before the clock runs out, ticks only count down. */
  lemma {:induction false} TicksBeforeTimeout(s: State, n: nat, rnd: real)
    requires IsRandom(rnd) && !s.isGameOver
    requires n < s.currentTime
    ensures TickN(s, n, rnd) == s.(currentTime := s.currentTime - n)
    decreases n
  {
    if n > 0 {
      TickRule(s, rnd);
      var t := s.(currentTime := s.currentTime - 1);
      TicksBeforeTimeout(t, n - 1, rnd);
      assert t.(currentTime := t.currentTime - (n - 1)) == s.(currentTime := s.currentTime - n);
    }
  }

  /** A turn of `currentTime` ticks with no accepted word ends with exactly
      one lost life. */
  lemma {:induction false} TurnTimesOut(s: State, rnd: real)
    requires IsRandom(rnd) && !s.isGameOver
    requires s.currentTime >= 1
    ensures TickN(s, s.currentTime, rnd) == LoseLife(s.(currentTime := 0), rnd)
    ensures TickN(s, s.currentTime, rnd).lives == s.lives - 1
    decreases s.currentTime
  {
    TickRule(s, rnd);
    LoseLifeRule(s.(currentTime := 0), rnd);
    if s.currentTime >= 2 {
      var t := s.(currentTime := s.currentTime - 1);
      TurnTimesOut(t, rnd);
      assert t.(currentTime := 0) == s.(currentTime := 0);
    }
  }

  // ---- Runs of a game: what can happen between two starts. ----

  /** A value `Math.random()` may return. */
  type Draw = r: real | IsRandom(r) witness 0.0

  /** An input while a game may be running: a submitted text, a timer tick,
      or a click on a difficulty button. The first two carry the draw the
      new turn they may start uses. */
  datatype Event = Submit(raw: string, draw: Draw) | TimerTick(draw: Draw) | Choose(key: DifficultyKey)

  /** One event: the new state and the word it got accepted, if any. */
  function Step(s: State, e: Event): (r: (State, seq<string>))
    ensures r.0.index == s.index
  {
    match e
    case Submit(raw, rnd) =>
      var (t, outcome) := HandleWordSubmit(s, raw, rnd);
      (t, if outcome == Accepted then [Upper(Trim(raw))] else [])
    case TimerTick(rnd) => (Tick(s, rnd), [])
    case Choose(key) => (SelectDifficulty(s, key), [])
  }

  /** The events in order: the final state and the accepted words in order. */
  function Run(s: State, events: seq<Event>): (r: (State, seq<string>))
    ensures r.0.index == s.index
    decreases |events|
  {
    if events == [] then (s, [])
    else
      var (m, accepted) := Run(s, events[..|events| - 1]);
      var (t, more) := Step(m, events[|events| - 1]);
      (t, accepted + more)
  }

  /** What one event does to the used words: an accepted word is new and is
      the only word added. */
  lemma StepUsedWords(s: State, e: Event)
    ensures var (t, more) := Step(s, e);
            && |more| <= 1
            && (forall w :: w in more ==> w !in s.usedWords)
            && t.usedWords == s.usedWords + set w | w in more
  {
    match e
    case Submit(raw, rnd) => SubmitUsedWords(s, raw, rnd);
    case TimerTick(rnd) => TickUsedWords(s, rnd);
    case Choose(key) =>
  }

  lemma SubmitUsedWords(s: State, raw: string, rnd: real)
    requires IsRandom(rnd)
    ensures var (t, outcome) := HandleWordSubmit(s, raw, rnd);
            && (outcome == Accepted ==> Upper(Trim(raw)) !in s.usedWords
                                        && t.usedWords == s.usedWords + {Upper(Trim(raw))})
            && (outcome != Accepted ==> t.usedWords == s.usedWords)
  {
    SubmitGuard(s, raw, rnd);
    if !s.isGameOver && Upper(Trim(raw)) != [] {
      ValidateWordRule(s, Upper(Trim(raw)), rnd);
    }
  }

  /** The timer never touches the used words. */
  lemma TickUsedWords(s: State, rnd: real)
    requires IsRandom(rnd)
    ensures Tick(s, rnd).usedWords == s.usedWords
  {
  }

  /** Within one game no word is accepted twice: the accepted words are
      distinct, none was used before, and they are exactly what the used
      words gain. */
  lemma {:induction false} RunUsesWordsOnce(s: State, events: seq<Event>)
    ensures var (t, accepted) := Run(s, events);
            && NoDuplicates(accepted)
            && (forall w :: w in accepted ==> w !in s.usedWords)
            && t.usedWords == s.usedWords + set w | w in accepted
    decreases |events|
  {
    if events != [] {
      var (m, accepted) := Run(s, events[..|events| - 1]);
      RunUsesWordsOnce(s, events[..|events| - 1]);
      var (t, more) := Step(m, events[|events| - 1]);
      StepUsedWords(m, events[|events| - 1]);
      var all := accepted + more;
      assert NoDuplicates(all) by {
        forall i, j | 0 <= i < j < |all|
          ensures all[i] != all[j]
        {
          if j >= |accepted| {
            assert all[j] in more && all[i] in accepted;
          }
        }
      }
      assert (set w | w in all) == (set w | w in accepted) + (set w | w in more);
    }
  }

  lemma StepInv(s: State, e: Event)
    requires Inv(s)
    ensures Inv(Step(s, e).0)
  {
    match e
    case Submit(raw, rnd) => HandleWordSubmitInv(s, raw, rnd);
    case TimerTick(rnd) => TickInv(s, rnd);
    case Choose(key) => SelectDifficultyInv(s, key);
  }

  /** A run of events preserves the invariant: the lives bounds and the
      challenge invariant hold after every run that starts where they hold. */
  lemma {:induction false} RunInv(s: State, events: seq<Event>)
    requires Inv(s)
    ensures Inv(Run(s, events).0)
    decreases |events|
  {
    if events != [] {
      var init := events[..|events| - 1];
      RunInv(s, init);
      StepInv(Run(s, init).0, events[|events| - 1]);
    }
  }
}
