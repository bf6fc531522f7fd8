/** The game as the page runs it: one object holding the module-level
    variables, and one method per state-changing function, each proved to
    perform exactly the matching transition of `RoundState` and to keep
    its invariant. */
module Engine {
  import opened Text
  import opened Config
  import opened FragmentIndex
  import opened Selection
  import opened Lexicon
  import RS = RoundState

  class Game {
    var dictionaryLoaded: bool
    var dictionary: seq<string>
    var substringMap: Index
    var pendingDifficulty: DifficultyKey
    var currentDifficulty: DifficultyKey
    var turnTime: nat
    var lives: int
    var currentTime: nat
    var currentSubstring: string
    var currentWordList: set<string>
    var usedWords: set<string>
    var usedChars: set<char>
    var isGameOver: bool

    /** The variables as one value. */
    function State(): RS.State
      reads this
    {
      RS.State(dictionaryLoaded, dictionary, substringMap, pendingDifficulty, currentDifficulty,
               turnTime, lives, currentTime, currentSubstring, currentWordList,
               usedWords, usedChars, isGameOver)
    }

    ghost predicate Valid()
      reads this
    {
      RS.Inv(State())
    }

    /** The declarations at the top of the script. */
    constructor ()
      ensures Valid() && State() == RS.Initial()
    {
      dictionaryLoaded := false;
      dictionary := [];
      substringMap := Empty;
      pendingDifficulty := Easy;
      currentDifficulty := Easy;
      turnTime := Difficulties(Easy).time;
      lives := STARTING_LIVES;
      currentTime := TICKS_PER_SECOND * Difficulties(Easy).time;
      currentSubstring := "";
      currentWordList := {};
      usedWords := {};
      usedChars := {};
      isGameOver := true;
      RS.InitialInv();
    }

    /** `loadDictionary`, run once when the page loads. */
    method LoadDictionary(response: RS.Fetch)
      requires Valid() && !dictionaryLoaded
      modifies this
      ensures State() == RS.LoadDictionary(old(State()), response)
      ensures Valid()
    {
      if response.Fetched? {
        InstallDictionary(Dictionary(response.text));
      }
    }

    /** The success path of `loadDictionary`: keep the words, index them. */
    method InstallDictionary(words: seq<string>)
      requires Valid() && !dictionaryLoaded
      modifies this
      ensures State() == old(State()).(dictionary := words, index := Build(words), dictionaryLoaded := true)
      ensures Valid()
    {
      assert currentWordList == {} by {
        assert RS.ChallengeFits([], currentSubstring, currentWordList);
      }
      BuildValid(words);
      dictionary := words;
      substringMap := BuildIndex(words);
      dictionaryLoaded := true;
    }

    method SelectDifficulty(key: DifficultyKey)
      requires Valid()
      modifies this
      ensures State() == RS.SelectDifficulty(old(State()), key)
      ensures Valid()
    {
      pendingDifficulty := key;
    }

    method GenerateSubstring(rnd: real)
      requires Valid() && IsRandom(rnd)
      modifies this
      ensures State() == RS.GenerateSubstring(old(State()), rnd)
      ensures Valid()
    {
      ghost var s0 := State();
      var minWords := Difficulties(currentDifficulty).minWords;
      var candidates := CollectCandidates(substringMap, minWords);
      if |candidates| == 0 {
        currentSubstring := "";
        currentWordList := {};
      } else {
        var selection := candidates[RandomIndex(rnd, |candidates|)];
        currentSubstring := Upper(selection);
        currentWordList := set w | w in ListOf(substringMap, selection);
      }
      assert State() == RS.GenerateSubstring(s0, rnd);
      RS.GenerateSubstringInv(s0, rnd);
    }

    method StartNewTurn(rnd: real)
      requires Valid() && IsRandom(rnd)
      modifies this
      ensures State() == RS.StartNewTurn(old(State()), rnd)
      ensures Valid()
    {
      ghost var s0 := State();
      if !isGameOver {
        currentTime := TICKS_PER_SECOND * turnTime;
        GenerateSubstring(rnd);
      }
      assert State() == RS.StartNewTurn(s0, rnd);
      RS.StartNewTurnInv(s0, rnd);
    }

    method StartGame(rnd: real)
      requires Valid() && IsRandom(rnd)
      modifies this
      ensures State() == RS.StartGame(old(State()), rnd)
      ensures Valid()
    {
      if dictionaryLoaded {
        ResetForGame();
        StartNewTurn(rnd);
      }
    }

    method ResetForGame()
      requires Valid() && dictionaryLoaded
      modifies this
      ensures State() == RS.ResetForGame(old(State()))
      ensures Valid()
    {
      currentDifficulty := pendingDifficulty;
      turnTime := Difficulties(currentDifficulty).time;
      lives := STARTING_LIVES;
      currentTime := TICKS_PER_SECOND * turnTime;
      isGameOver := false;
      usedWords := {};
      usedChars := {};
    }

    method CheckAlphabetBonus()
      requires Valid()
      modifies this
      ensures State() == RS.CheckAlphabetBonus(old(State()))
      ensures Valid()
    {
      ghost var s0 := State();
      if RS.BonusAchieved(usedChars) {
        if lives < MAX_LIVES {
          lives := lives + 1;
        }
        usedChars := {};
      }
      assert State() == RS.CheckAlphabetBonus(s0);
    }

    /** `validateWord`. */
    method ValidateWord(word: string, rnd: real) returns (accepted: bool)
      requires Valid() && IsRandom(rnd)
      modifies this
      ensures accepted <==> word in old(currentWordList) && word !in old(usedWords)
      ensures (State(), accepted) == RS.ValidateWord(old(State()), word, rnd)
      ensures Valid()
    {
      ghost var s0 := State();
      var isValid := word in currentWordList;
      var isUsed := word in usedWords;
      if isValid && !isUsed {
        usedWords := usedWords + {word};
        AddLetters(word);
        CheckAlphabetBonus();
        StartNewTurn(rnd);
        accepted := true;
      } else {
        accepted := false;
      }
      assert (State(), accepted) == RS.ValidateWord(s0, word, rnd);
    }

    /** `word.split('').forEach((char) => usedCharsInGame.add(char))`. */
    method AddLetters(word: string)
      requires Valid()
      modifies this
      ensures State() == old(State()).(usedChars := old(usedChars) + RS.CharsOf(word))
      ensures Valid()
    {
      var i := 0;
      while i < |word|
        invariant 0 <= i <= |word|
        invariant State() == old(State()).(usedChars := old(usedChars) + RS.CharsOf(word[..i]))
      {
        assert word[..i + 1] == word[..i] + [word[i]];
        usedChars := usedChars + {word[i]};
        i := i + 1;
      }
      assert word[..i] == word;
    }

    /** `gameOver`; `loseLife` calls it with no life left while the flag is
        still clear, so it keeps the invariant only where that held. */
    method GameOver()
      modifies this
      ensures State() == RS.GameOver(old(State()))
      ensures old(Valid()) ==> Valid()
    {
      ghost var s0 := State();
      isGameOver := true;
      if RS.Inv(s0) {
        RS.GameOverInv(s0);
      }
    }

    method LoseLife(rnd: real)
      requires Valid() && IsRandom(rnd) && !isGameOver
      modifies this
      ensures State() == RS.LoseLife(old(State()), rnd)
      ensures Valid()
    {
      ghost var s0 := State();
      lives := lives - 1;
      if lives <= 0 {
        GameOver();
      } else {
        StartNewTurn(rnd);
      }
      assert State() == RS.LoseLife(s0, rnd);
      RS.LoseLifeInv(s0, rnd);
    }

    /** One run of the interval body, 100 ms of game time. */
    method Tick(rnd: real)
      requires Valid() && IsRandom(rnd)
      modifies this
      ensures State() == RS.Tick(old(State()), rnd)
      ensures Valid()
    {
      ghost var s0 := State();
      if !isGameOver {
        currentTime := if currentTime >= 1 then currentTime - 1 else 0;
        if currentTime <= 0 {
          LoseLife(rnd);
        }
      }
      assert State() == RS.Tick(s0, rnd);
    }

    /** `handleWordSubmit` on the input field's current value. */
    method HandleWordSubmit(raw: string, rnd: real) returns (outcome: RS.SubmitOutcome)
      requires Valid() && IsRandom(rnd)
      modifies this
      ensures (State(), outcome) == RS.HandleWordSubmit(old(State()), raw, rnd)
      ensures Valid()
    {
      ghost var s0 := State();
      if isGameOver {
        outcome := RS.Ignored;
      } else {
        var submitted := Upper(Trim(raw));
        if submitted == [] {
          outcome := RS.Ignored;
        } else {
          var ok := ValidateWord(submitted, rnd);
          outcome := if ok then RS.Accepted else RS.Rejected;
        }
      }
      assert (State(), outcome) == RS.HandleWordSubmit(s0, raw, rnd);
    }
  }
}
