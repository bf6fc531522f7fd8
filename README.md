# bombpartySOLO game engine in Dafny

This project models the engine of bombpartySOLO, a one-player word game in the browser (`script.js`). The player is shown a two- or three-letter fragment and must type a dictionary word containing it before the clock runs out. A wrong or reused word costs nothing. A timeout costs a life. Using every letter from A to Y wins a life back, up to a maximum.

The model has the following parts:

- **Text** (`text.dfy`): the string primitives the script relies on:
  - `trim`, over the full ECMAScript white-space set;
  - `toUpperCase`, on ASCII letters;
  - `split('\n')` and `indexOf`.
- **Config** (`config.dfy`): the fixed data:
  - the `DIFFICULTIES` table;
  - `STARTING_LIVES` and `MAX_LIVES`;
  - the tracked letters `A`–`Y`;
  - the 100 ms tick.
- **Lexicon** (`lexicon.dfy`): how `loadDictionary` turns the fetched text into the dictionary. It splits into lines, trims and upper-cases each line, keeps lines of length two or more, and de-duplicates in first-insertion order, as a JavaScript `Set` does.
- **FragmentIndex** (`fragment_index.dfy`): the inverted index that `preprocessSubstrings` builds.
  - `Build` is a fold over the words and is the specification.
  - `BuildIndex` is the nested loop that fills the map entry by entry, proved equal to `Build`.
  - The lemmas prove completeness, soundness, multiplicity and entry counts of the index.
- **Selection** (`selection.dfy`): `generateSubstring`.
  - The candidate loop is proved equal to a filter over the index's key order.
  - The draw is `Math.floor(rnd * n)` for a given `rnd` in `[0, 1)`.
- **RoundState** (`round_state.dfy`): all module-level variables as one value, each state-changing function as a transition, and the game invariant. Lives stay within `0..MAX_LIVES`, and the current challenge only accepts dictionary words containing the fragment. The invariant is proved to hold initially and after every transition and every run of events.
- **Engine** (`engine.dfy`): the page as it runs. A class `Game` holds the variables as fields. Each method is proved to perform exactly the matching transition of `RoundState`, except the two helpers `InstallDictionary` and `AddLetters`. Those perform one field update inside `RoundState.LoadDictionary` and `RoundState.ValidateWord`. Each method also keeps the invariant, except `GameOver`. `loseLife` calls `GameOver` with no life left while the game-over flag is still clear, so `GameOver` keeps the invariant only from a state where it held.
- **Preview** (`preview.dfy`): `escapeHtml` and the preview that `updateWordPreview` builds.
  - Escaping is proved to have a left inverse.
  - The split around the first case-insensitive match is proved to lose nothing.
  - Every markup character of the written HTML is proved to lie inside the span's tags.

Three modelling facts:

- A tick is one run of the 100 ms interval body (`script.js:194-201`).
- A submission while no game runs returns silently (line 134).
- The tracked letters are the constant of line 14.

Time is counted in ticks. The model's `currentTime` is the source's seconds times ten. `turnTime` stays in seconds.

## Model

| member | source | states |
|---|---|---|
| Text.UpperChar | script.js:88 | a lower-case letter becomes the upper-case letter at the same alphabet position, every other character is kept, the result is never lower case, and white space is preserved both ways |
| Text.UpperCharEqual | script.js:325-326 | two characters agree after upper-casing exactly when they are equal or are the two cases of one letter |
| Text.Upper | script.js:88 | same length as the input, character by character upper-cased, no lower-case letter left |
| Text.UpperOfUpper | script.js:223 | upper-casing text without lower-case letters changes nothing |
| Text.ContainedNoLower | script.js:223 | text found inside text without lower-case letters has none either |
| Text.UpperSlice | script.js:325-342 | upper-casing commutes with slicing, so positions found in the upper-cased text are positions in the raw text |
| Text.Trim | script.js:88 | the result is no longer than the input and neither starts nor ends with white space |
| Text.TrimSlice | script.js:88 | the trimmed text is a contiguous piece of the input, and everything cut off on either side is white space |
| Text.SkipSpace | script.js:88 | the first non-space position at or after the start, with only white space skipped |
| Text.SkipSpaceBack | script.js:88 | the position after the last non-space character before the end, with only white space skipped |
| Text.Split | script.js:87 | at least one piece, no piece holds the separator, and joining the pieces with the separator gives the input back |
| Text.IndexOfFrom | script.js:333 | -1 or a position where the pattern occurs, with no occurrence between the start and that position |
| Text.IndexOf | script.js:333 | -1 exactly when the pattern does not occur, otherwise the first position where it occurs |
| Config.Difficulties | script.js:16-21 | every tier demands at least one entry and gives at least one second |
| Config.HarderTiersAreStricter | script.js:16-21 | a harder tier never demands more index entries and never gives more time than an easier one |
| Config.BonusAlphabetShape | script.js:14 | the tracked letters are 25, Z is absent, and a character is tracked exactly when it lies in A..Y |
| Lexicon.NormalizeAll | script.js:88 | one normalised word per line, in line order |
| Lexicon.NormalizeLine | script.js:88 | one line trimmed and upper-cased; its contract is Lexicon.NormalizedLineShape and Lexicon.NormalizeKeepsNoBreak |
| Lexicon.KeepLong | script.js:89 | keeps exactly the words of length two or more |
| Lexicon.Dedupe | script.js:91 | no value twice, and exactly the input's values |
| Lexicon.KeepLongAppend | script.js:89 | the filter works piece by piece, so the kept lines stay in input order |
| Lexicon.FirstIndex | script.js:91 | the position of a value's first occurrence: it holds the value, and no earlier position does |
| Lexicon.FirstIndexUnique | script.js:91 | a position holding the value with none before it is the first occurrence |
| Lexicon.FirstIndexPrefix | script.js:91 | a value's first occurrence in a prefix is its first occurrence in the whole list |
| Lexicon.DedupeOrder | script.js:91 | the de-duplicated values stand in the order of their first occurrence in the input, as a `Set` iterates |
| Lexicon.OrderCarriesOver | script.js:91 | extending a list keeps the order of first occurrences in its prefix |
| Lexicon.NewLastComesAfter | script.js:91 | a value first occurring right after a prefix comes after every value of that prefix |
| Lexicon.DedupeSnoc | script.js:91 | de-duplicating one more value appends it exactly when it is new |
| Lexicon.NormalizedLineShape | script.js:88 | a normalised line has no lower-case letter and no white space at either end |
| Lexicon.NormalizeKeepsNoBreak | script.js:87-88 | normalising a line introduces no line break |
| Lexicon.LineWord | script.js:87-89 | a normalised line of length two or more is an upper-case word with trimmed ends and no line break |
| Lexicon.DictionaryMembers | script.js:86-91 | the dictionary holds each value once, and exactly the normalised lines of length two or more |
| Lexicon.DictionaryWordsAreWords | script.js:86-91 | every dictionary entry has length two or more, is upper case, has trimmed ends and contains no line break |
| Lexicon.Dictionary | script.js:86-91 | the dictionary built from the fetched text; its contract is Lexicon.DictionaryMembers and Lexicon.DictionaryWordsAreWords |
| FragmentIndex.Windows | script.js:109-119 | one window per start offset that fits, each the `n` characters from that offset |
| FragmentIndex.Build | script.js:102-130 | the index as a fold over the words; its contracts are FragmentIndex.BuildValid, FragmentIndex.IndexComplete, FragmentIndex.IndexSound and FragmentIndex.IndexMultiplicity |
| FragmentIndex.AddWord | script.js:105-119 | one word added to the index; its contracts are FragmentIndex.AddWordPasses, FragmentIndex.WordContribution and FragmentIndex.ShortWordAddsNothing |
| FragmentIndex.Pushes | script.js:107-119 | the keys one word is pushed under; its contracts are FragmentIndex.PushesShape and FragmentIndex.PushesLengths |
| FragmentIndex.PushAll | script.js:109-119 | a run of pushes; its contracts are FragmentIndex.PushAllLists, FragmentIndex.PushAllValid and FragmentIndex.PushAllCount |
| FragmentIndex.Push | script.js:111-112 | one push; its contracts are FragmentIndex.PushList and FragmentIndex.PushCount |
| FragmentIndex.BuildIndex | script.js:102-130 | the map the loops fill is, keys in insertion order, the specification index of the dictionary |
| FragmentIndex.IndexWord | script.js:105-119 | one pass of the dictionary loop adds exactly that word to the index, its 3-windows first, then its 2-windows |
| FragmentIndex.PushWindows | script.js:109-119 | one inner loop pushes the word under each `n`-window, left to right |
| FragmentIndex.PushEntry | script.js:111-112 | creating a missing list, then pushing, is one push onto the key's list |
| FragmentIndex.AddWordPasses | script.js:107-119 | a word's pushes are the 3-window pass followed by the 2-window pass, or none below length two |
| FragmentIndex.BuildStep | script.js:105 | the index of one more word is that word added to the previous index |
| FragmentIndex.PushAllStep | script.js:109-119 | pushing one more key is the previous pushes followed by one push |
| FragmentIndex.PushAllAppend | script.js:109-119 | pushing two key sequences one after the other is pushing their concatenation |
| FragmentIndex.Repeat | script.js:112 | the word repeated `n` times: length `n`, holding only that word |
| FragmentIndex.PushList | script.js:111-112 | one push appends the word to that key's list and leaves every other list as it was |
| FragmentIndex.PushAllLists | script.js:109-119 | after a run of pushes a key's list has gained the word once per occurrence of the key in the run |
| FragmentIndex.BuildLists | script.js:105-119 | every key's list equals the reference definition: each word in order, once per window equal to the key |
| FragmentIndex.PushAllValid | script.js:109-119 | pushes under keys of length two or three keep the index valid |
| FragmentIndex.PushesLengths | script.js:110-116 | every key a word is pushed under has length two or three |
| FragmentIndex.BuildValid | script.js:102-130 | every built index lists each key once, its keys are exactly the map's domain, keys have length two or three, and no list is empty |
| FragmentIndex.EntriesMember | script.js:105-119 | a word is on a key's reference list exactly when it is a dictionary word with a window equal to the key |
| FragmentIndex.PushesShape | script.js:109-119 | a word of length L is pushed L-2 times under its 3-windows, then L-1 times under its 2-windows, each at its offset |
| FragmentIndex.IndexComplete | script.js:105-119 | every 2-window and every 3-window of a dictionary word is a key whose list holds the word |
| FragmentIndex.IndexSound | script.js:105-119 | every key has length two or three and a non-empty list, and every listed word is a dictionary word containing the key |
| FragmentIndex.ListedWordContainsKey | script.js:110-118 | a word on a key's list is a dictionary word containing the key |
| FragmentIndex.WindowOccurs | script.js:110 | a window has the window's length and occurs in the word |
| FragmentIndex.IndexMultiplicity | script.js:105-119 | for distinct words, a word appears on a key's list exactly as many times as the key occurs among its windows |
| FragmentIndex.EntriesMultiplicity | script.js:105-119 | the same multiplicity for the reference lists |
| FragmentIndex.RepeatCount | script.js:112 | the repeated word occurs `n` times and nothing else occurs |
| FragmentIndex.CountLenAppend | script.js:109-119 | counting keys of a length is additive over concatenation |
| FragmentIndex.CountLenUniform | script.js:109-119 | in a run of keys of one length, all or none are counted |
| FragmentIndex.SumLensOutside | script.js:111-112 | changing the list of a key not listed leaves the entry count alone |
| FragmentIndex.SumLensInside | script.js:112 | pushing onto a listed key adds one entry under that key's length |
| FragmentIndex.PushCount | script.js:111-112 | one push adds exactly one entry, under a key of the pushed length |
| FragmentIndex.PushAllConsistent | script.js:109-119 | pushes keep each key listed once and keys equal to the map's domain |
| FragmentIndex.PushAllCount | script.js:109-119 | a run of pushes adds one entry per pushed key, by key length |
| FragmentIndex.WordContribution | script.js:109-119 | a word of length L adds exactly L-1 entries under 2-keys and L-2 under 3-keys, repeated windows included |
| FragmentIndex.ShortWordAddsNothing | script.js:107 | a word shorter than two characters leaves the index unchanged |
| Selection.Eligible | script.js:207-211 | the candidates are no more than the keys |
| Selection.EligibleMembers | script.js:207-211 | a fragment is a candidate exactly when it is a key whose list has at least `minWords` entries |
| Selection.EligibleStep | script.js:207-211 | considering one more key appends it exactly when it qualifies |
| Selection.CollectCandidates | script.js:205-211 | the loop collects exactly the qualifying keys, in the map's order |
| Selection.EligibleMonotone | script.js:205-211 | a higher threshold gives what refiltering the lower threshold's candidates gives, so it only drops candidates, keeps order and never gives more |
| Selection.RandomIndex | script.js:219-220 | the drawn index is `Math.floor(rnd * n)`: it lies within the candidate list, and `rnd * n` falls in its slot `[i, i + 1)` |
| Selection.DrawInterval | script.js:219-220 | equal weights: index `j` is drawn exactly when `rnd` lies in `[j / n, (j + 1) / n)` |
| Selection.DrawSlot | script.js:219-220 | index `j` is drawn exactly when `rnd * n` lies in `[j, j + 1)` |
| Selection.DrawOf | script.js:219-220 | the draw `j / n` is a valid `Math.random()` value and picks index `j` |
| Selection.EveryCandidateDrawable | script.js:204-226 | every qualifying fragment can be shown: the draw `j / n` shows the `j`-th candidate upper-cased with exactly its list's words |
| Selection.NextChallenge | script.js:204-226 | `generateSubstring` as a value; its contracts are Selection.ChallengeChoice, Selection.ChallengeWordsContainFragment and Selection.ShownFragmentIsKey |
| Selection.ChallengeChoice | script.js:204-226 | the fragment is empty exactly when no key qualifies, which is exactly when every list is shorter than `minWords`; then no word is accepted; otherwise the fragment is a qualifying key upper-cased, and exactly that key's words are accepted |
| Selection.NoCandidates | script.js:205-218 | no key qualifies exactly when every list is shorter than `minWords` |
| Selection.DrawnChallenge | script.js:220-224 | with some key qualifying, the fragment is a qualifying key upper-cased, at least two characters long, and exactly that key's words are accepted |
| Selection.ChallengeWordsContainFragment | script.js:204-226 | for a built index, an empty fragment accepts nothing, and every accepted word is a dictionary word containing the fragment up to case |
| Selection.UpperContains | script.js:223 | containment survives upper-casing both sides |
| Selection.ShownFragmentIsKey | script.js:204-226 | for an index built from upper-case words, a non-empty fragment is the drawn key exactly as stored, with at least `minWords` entries, and accepts exactly its list's words |
| RoundState.BonusAchievedLetters | script.js:292 | the bonus test holds exactly when every letter from A to Y has been used |
| RoundState.BonusAchieved | script.js:292 | the bonus test; its contract is RoundState.BonusAchievedLetters |
| RoundState.CharsOf | script.js:150 | the characters of a word; its contract is RoundState.ValidateWordRule, which adds exactly them to the used letters |
| RoundState.Inv | script.js:23-42 | the game invariant over the declared variables; it holds by RoundState.InitialInv and every transition's Inv lemma |
| RoundState.Initial | script.js:23-42 | the declared initial values; their contract is RoundState.InitialInv |
| RoundState.LoadDictionary | script.js:81-100 | the load transition; its contract is RoundState.LoadDictionaryInv |
| RoundState.SelectDifficulty | script.js:63-67 | the difficulty choice; its contract is RoundState.SelectDifficultyInv |
| RoundState.GenerateSubstring | script.js:204-226 | the challenge draw; its contracts are RoundState.GenerateSubstringInv and RoundState.DictionaryFragmentIsKey |
| RoundState.StartNewTurn | script.js:182-202 | a new turn; its contract is RoundState.StartNewTurnInv |
| RoundState.StartGame | script.js:160-180 | the start transition; its contracts are RoundState.StartGameResets and RoundState.StartGameInv |
| RoundState.ResetForGame | script.js:164-172 | the resets before the first turn; their contract is RoundState.StartGameResets |
| RoundState.CheckAlphabetBonus | script.js:291-306 | the bonus transition; its contracts are RoundState.BonusRule and RoundState.CheckAlphabetBonusInv |
| RoundState.ValidateWord | script.js:144-158 | the validation transition; its contracts are RoundState.ValidateWordRule and RoundState.ValidateWordInv |
| RoundState.GameOver | script.js:251-252 | the end of the game; its contract is RoundState.GameOverInv |
| RoundState.LoseLife | script.js:239-249 | the lose-life transition; its contracts are RoundState.LoseLifeRule and RoundState.LoseLifeInv |
| RoundState.Tick | script.js:194-201 | one timer tick; its contracts are RoundState.TickRule and RoundState.TickInv |
| RoundState.HandleWordSubmit | script.js:132-142 | the submit transition; its contracts are RoundState.SubmitGuard and RoundState.HandleWordSubmitInv |
| RoundState.TickN | script.js:194-201 | ticks never change the fragment index |
| RoundState.InitialInv | script.js:23-42 | the declared initial values satisfy the invariant |
| RoundState.LoadDictionaryInv | script.js:81-100 | loading, whether it succeeds or fails, keeps the invariant, and on success the index is the one built from the dictionary |
| RoundState.SelectDifficultyInv | script.js:63-67 | choosing a difficulty keeps the invariant |
| RoundState.GenerateSubstringInv | script.js:204-226 | drawing a challenge keeps the invariant: the accepted words contain the new fragment |
| RoundState.DictionaryFragmentIsKey | script.js:204-226 | after a dictionary is loaded from text, a non-empty fragment is one of the index keys as stored, with at least `minWords` entries, and accepts exactly its list's words |
| RoundState.HarderTierMoreCandidates | script.js:16-21 | an easier tier's candidates are a subset of a harder tier's, in the same order, and never more |
| RoundState.StartNewTurnInv | script.js:182-202 | a new turn keeps the invariant |
| RoundState.StartGameInv | script.js:160-180 | starting a game keeps the invariant |
| RoundState.CheckAlphabetBonusInv | script.js:291-306 | the bonus keeps the invariant: lives never exceed `MAX_LIVES` |
| RoundState.ValidateWordInv | script.js:144-158 | validating a word keeps the invariant |
| RoundState.GameOverInv | script.js:251-252 | ending the game keeps the invariant |
| RoundState.LoseLifeInv | script.js:239-249 | losing a life keeps the invariant: lives stay at or above zero, and a life is left while the game runs |
| RoundState.TickInv | script.js:194-201 | a tick keeps the invariant |
| RoundState.HandleWordSubmitInv | script.js:132-142 | a submission keeps the invariant |
| RoundState.StartGameResets | script.js:160-180 | with the dictionary loaded, whatever came before: three lives, no used words or letters, the game running, the chosen difficulty and its time, a full clock, and a challenge freshly drawn for that difficulty, while the dictionary, the index and the pending difficulty stay; without it, nothing changes |
| RoundState.ValidateWordRule | script.js:144-158 | accepted exactly when the word is in the current list and unused; on rejection nothing changes; on acceptance the word and its letters are recorded, the bonus is applied, and in a running game the clock restarts and a fresh challenge is drawn for the current difficulty; nothing else changes |
| RoundState.ResubmissionRejected | script.js:145-149 | resubmitting a just-accepted word is rejected and changes nothing |
| RoundState.AcceptedWordFitsChallenge | script.js:145 | an accepted word is a dictionary word containing the shown fragment, up to case |
| RoundState.BonusRule | script.js:291-301 | with every tracked letter used, a life is gained below the maximum, the used letters are cleared, and nothing else changes; otherwise nothing changes |
| RoundState.LoseLifeRule | script.js:239-249 | exactly one life is lost; the game ends exactly when no life is left; otherwise a full clock and a newly drawn challenge; once the game ends, clock and challenge stay; nothing else changes |
| RoundState.GameOverIsFinal | script.js:132-202 | once the game is over, ticks, new turns and submissions change nothing |
| RoundState.SubmitGuard | script.js:132-142 | ignored exactly while the game is over or the trimmed input is empty, and then nothing changes; otherwise the trimmed, upper-cased input is validated |
| RoundState.TickRule | script.js:194-201 | a tick takes one tenth of a second off the clock, and the tick that empties it costs exactly one life |
| RoundState.TicksBeforeTimeout | script.js:194-201 | fewer ticks than the clock holds only count it down |
| RoundState.TurnTimesOut | script.js:194-201 | a turn left to run out ends in exactly one lost life |
| RoundState.Step | script.js:57-68 | no event changes the fragment index |
| RoundState.Run | script.js:57-68 | no run of events changes the fragment index |
| RoundState.StepUsedWords | script.js:132-158 | one event accepts at most one word, which was unused and is the only word added to the used words |
| RoundState.SubmitUsedWords | script.js:132-149 | an accepted submission adds its unused word, and any other outcome adds none |
| RoundState.TickUsedWords | script.js:194-201 | the timer never touches the used words |
| RoundState.RunUsesWordsOnce | script.js:144-149 | within any run of events no word is accepted twice, none was used before, and the used words grow by exactly the accepted ones |
| RoundState.StepInv | script.js:57-68 | every event keeps the invariant |
| RoundState.RunInv | script.js:57-68 | every run of events keeps the invariant |
| Engine.Game.constructor | script.js:23-42 | the variables start at their declared values, which satisfy the invariant |
| Engine.Game.LoadDictionary | script.js:81-100 | performs the load transition and keeps the invariant |
| Engine.Game.InstallDictionary | script.js:91-93 | stores the words, the index built from them and the loaded flag, and keeps the invariant |
| Engine.Game.SelectDifficulty | script.js:65 | only the pending difficulty changes |
| Engine.Game.GenerateSubstring | script.js:204-226 | sets the fragment and the accepted words to the drawn challenge, and keeps the invariant |
| Engine.Game.StartNewTurn | script.js:182-191 | performs the new-turn transition and keeps the invariant |
| Engine.Game.StartGame | script.js:160-180 | performs the start transition and keeps the invariant |
| Engine.Game.ResetForGame | script.js:164-172 | performs the resets before the first turn and keeps the invariant |
| Engine.Game.CheckAlphabetBonus | script.js:291-306 | performs the bonus transition and keeps the invariant |
| Engine.Game.ValidateWord | script.js:144-158 | accepted exactly when the word is in the current list and unused; performs the validation transition and keeps the invariant |
| Engine.Game.AddLetters | script.js:150 | the used letters gain exactly the word's characters, and nothing else changes |
| Engine.Game.GameOver | script.js:251-252 | only the game-over flag changes, and it is set; from a state satisfying the invariant, the invariant still holds |
| Engine.Game.LoseLife | script.js:239-249 | performs the lose-life transition and keeps the invariant |
| Engine.Game.Tick | script.js:194-201 | performs the tick transition and keeps the invariant |
| Engine.Game.HandleWordSubmit | script.js:132-142 | performs the submit transition, reports its outcome and keeps the invariant |
| Preview.EscapeChar | script.js:348-354 | a special character becomes an entity from `&` to `;`; any other character is kept; no markup character is produced |
| Preview.EscapeHtml | script.js:347-357 | no shorter than the input, and free of `<`, `>`, `"` and `'` |
| Preview.EscapeConcat | script.js:356 | escaping works piece by piece |
| Preview.EscapeKeepsPlainText | script.js:356 | text without any of the five characters is left as it is |
| Preview.UnescapeHtml | script.js:348-354 | decoding of the five entities never lengthens the text |
| Preview.StartsWithPrefix | script.js:348-354 | an entity followed by text starts with that entity, and the rest follows it |
| Preview.DiffersAt | script.js:348-354 | text differing from an entity at some position does not start with it |
| Preview.UnescapeChar | script.js:348-354 | decoding a character's escape gives the character back, whatever follows |
| Preview.EscapeRoundTrip | script.js:347-357 | decoding escaped text gives the original text back, so escaping loses nothing |
| Preview.PreviewCases | script.js:319-338 | the overlay is cleared exactly for empty input; a highlight appears exactly when the fragment is non-empty and occurs in the input up to case; otherwise the raw input is shown |
| Preview.WordPreview | script.js:319-345 | what `updateWordPreview` shows; its contracts are Preview.PreviewCases and Preview.PreviewSplit |
| Preview.PreviewSplit | script.js:333-342 | before, match and after concatenate to the input; the match is the fragment up to case; and no earlier position matches |
| Preview.MatchIsFragment | script.js:333-341 | where the upper-cased fragment occurs in the upper-cased input, the raw text there is the fragment up to case |
| Preview.PreviewHtmlMarkup | script.js:344 | whatever was typed, every `<`, `>`, `"` or `'` of the written markup lies inside one of the span's two tags |
| Preview.PreviewHtml | script.js:344 | the markup written to the overlay; its contract is Preview.PreviewHtmlMarkup |

## Left out

- The network: `fetch` and `response.text()` become the `RoundState.Fetch` value a load receives, either the text or a failure. The error messages of the `catch` block are display only.
- The DOM: element lookups, `init`, `attachEventListeners`, `updateStartButtonState`, `updateLivesUI`, `renderAlphabet`, `updateAlphabetUI`, `updateTimerUI`, `updateDifficultyButtons`, `resetWordPreview`, the settings toggle, the shake class with its `setTimeout`, `wordInput.disabled`, `focus`, and the texts `ERR`, `N/A`, `BOOM!` and `...`. They only present state.
- `setInterval` and `clearInterval`: a tick is an explicit call, and `RoundState.Run` feeds ticks and submissions one at a time. No interval exists once the game is over, so a tick then does nothing.
- Floating-point time: the clock counts whole 100 ms ticks, so a turn of `turnTime` seconds ends on tick `10 * turnTime`. The source subtracts `0.1` from a double, and the rounding leaves a small positive remainder after `10 * turnTime` subtractions (about `1.9e-14` from 10 seconds). So the source's turn ends one tick later, on tick 101, 81, 61 or 51 for Easy, Medium, Hard and Expert. Every tier's turn is one tick shorter in the model. The timer bar percentage is display only.
- RoundState.TurnTimesOut and RoundState.TicksBeforeTimeout count the model's `10 * turnTime` ticks per turn, one fewer than the source takes, for the floating-point reason above.
- `Math.random`: each draw is a real parameter in `[0, 1)`, and line 220's `Math.floor(rnd * n)` is applied to it. Events carry their own draw.
- `RoundState.TickN`: applies one draw to every tick of the run. Only the tick that empties the clock uses it.
- Unicode: `toUpperCase` is modelled on ASCII letters only, and `trim` uses the full ECMAScript white-space and line-terminator set. Characters stand for Unicode code points; surrogate pairs and lone surrogates are not modelled. Case mappings that change a string's length, such as `ß` to `SS`, are not modelled.
- Unknown difficulty keys: a `data-difficulty` attribute outside the four tiers would make `DIFFICULTIES[key]` undefined. The model's difficulty is an enumeration.
- `ALPHABET` (line 13) only drives `renderAlphabet` and `updateAlphabetUI`, so it is not modelled.
- Engine.Game.LoadDictionary requires the dictionary not yet loaded, because `init` runs it once. RoundState.LoadDictionaryInv has the same hypothesis.
- Engine.Game.LoseLife requires a running game, because only the interval of a running turn calls `loseLife`. RoundState.LoseLifeInv and RoundState.LoseLifeRule have the same hypothesis.
- Engine.Game.GenerateSubstring requires the invariant, which every method of `Game` keeps.
- Selection.CollectCandidates requires a valid index. The game's index is always the one built from its dictionary (RoundState.IndexOfDictionary), and FragmentIndex.BuildValid shows every built index valid.
