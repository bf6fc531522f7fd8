/** The fixed data of the game: the difficulty table, the lives constants
    and the letters the alphabet bonus tracks. */
module Config {

  datatype DifficultyKey = Easy | Medium | Hard | Expert

  /** One difficulty tier: the least number of index entries a fragment
      needs to be offered, and the turn length in whole seconds. */
  datatype Difficulty = Difficulty(name: string, minWords: nat, time: nat)

  /** The `DIFFICULTIES` table. */
  function Difficulties(key: DifficultyKey): (d: Difficulty)
    ensures d.minWords >= 1 && d.time >= 1
  {
    match key
    case Easy => Difficulty("Easy", 500, 10)
    case Medium => Difficulty("Medium", 100, 8)
    case Hard => Difficulty("Hard", 20, 6)
    case Expert => Difficulty("Expert", 1, 5)
  }

  function Rank(key: DifficultyKey): nat {
    match key
    case Easy => 0
    case Medium => 1
    case Hard => 2
    case Expert => 3
  }

  /** A harder tier never demands more index entries and never gives more
      time than an easier one. */
  lemma HarderTiersAreStricter(easier: DifficultyKey, harder: DifficultyKey)
    requires Rank(easier) <= Rank(harder)
    ensures Difficulties(harder).minWords <= Difficulties(easier).minWords
    ensures Difficulties(harder).time <= Difficulties(easier).time
  {
  }

  const STARTING_LIVES: int := 3
  const MAX_LIVES: int := 5

  /** Timer ticks per second: the interval fires every 100 ms. */
  const TICKS_PER_SECOND: nat := 10

  /** The letters whose use the alphabet bonus tracks: A to Y, without Z. */
  const ALPHABET_BONUS: string := "ABCDEFGHIJKLMNOPQRSTUVWXY"

  lemma BonusAlphabetShape()
    ensures |ALPHABET_BONUS| == 25
    ensures 'Z' !in ALPHABET_BONUS
    ensures forall c :: 'A' <= c <= 'Y' <==> c in ALPHABET_BONUS
  {
  }
}
