# Unicorn word game: the session state machine

The game shows the player hints for a hidden word. The player types guesses,
may ask for the next hint, may pass a word, and races a 30-second countdown.
Five words found win the round. Three lives lost, or running out of words,
lose it. This project models the `WordGame` class of `script.js` as a small
state machine and proves its rules.

The model has five modules:

- **Words** (`words.dfy`): a word entry (the answer and its hints), taking out
  one entry as `splice(i, 1)` does, and the normalisation of a guess. The
  guess goes through `trim()` (the exact ECMAScript white-space and
  line-terminator set) and then `toLowerCase()`.
- **Shuffle** (`shuffle.dfy`): `shuffleArray`, the in-place Fisher–Yates loop
  over an `array`. It is proved to compute the function `Shuffled` and to
  permute its input.
- **Rules** (`rules.dfy`): the fields of `WordGame` as one value `Session`,
  and each command as a function from the state before it to the state after
  it. `Inv` is the invariant every reachable state satisfies.
- **Properties** (`properties.dfy`): what the commands guarantee. Each command
  keeps `Inv`, does exactly what the game promises and nothing else. The
  scenarios of a round also play out as intended: five passes and the sixth
  refused, three wrong guesses losing, five finds winning with a word left.
- **Game** (`game.dfy`): the class `WordGame` with the source's fields and one
  method per command. Each method is proved to move the fields exactly as the
  matching function of Rules says. The commands a player can issue keep
  `Valid()`, which is `Inv` plus "the words left are drawn from the chosen
  list".

Randomness is a parameter. `listIndex` stands for the list that
`Math.floor(Math.random() * wordLists.length)` picks. `draws[k]` is the `j`
drawn on the k-th pass of the shuffle loop, the pass with `i == n - 1 - k`, and
satisfies `0 <= j <= i`. The word pool that `loadWords` fetches is a
constructor parameter. The armed `timerInterval` is the flag `timerRunning`.
`Tick` is the body of the interval callback, and it may only run while the
interval is armed.

Preconditions the source relies on without checking:

- `startNewGame` needs a word pool with a list at `listIndex`. With no word
  lists, `selectRandomList` reads `.words` of `undefined` (script.js:100-101)
  and throws, so the model makes a valid `listIndex` a precondition.
- The chosen list must be non-empty with at least one hint per entry
  (`Playable`). On an empty list the first non-blank guess reads `.word` of
  `undefined` (script.js:168-170) and throws. An entry without hints makes the
  `%` in `changeHint` (script.js:142) yield `NaN`.
- The commands a player issues (`ChangeHint`, `ValidateWord`, `PassWord`,
  `Tick`) require `Valid()`. `Valid()` holds from the constructor on and every
  command keeps it.

The stored `word` is compared to the normalised guess as it is. A stored word
that is not already trimmed and lower-case can never be guessed
(`CurrentWordGuessable`).

Details of the code that the model keeps:

- The round is lost when `lives <= 0` (script.js:251), and the model tests the
  same condition.
- After a win the code does not clamp `currentWordIndex` (script.js:185-188).
  The index can then equal the length of `remainingWords`, so the bound holds
  only while a round is on.
- A list without repeated entries is dealt without repeats
  (`StartNewGameNoRepeats`), and finding or passing an entry creates none
  (`ResolvedWordLeaves`). The copy at script.js:101-102 does not remove
  duplicates.

## Model

| member | source | states |
|---|---|---|
| Words.RemoveAt | script.js:180 | `splice(i, 1)` on the words left: one entry fewer, the entries before `i` kept in place, the ones after it shifted down by one |
| Words.RemoveAtMultiset | script.js:213 | taking out position `i` removes exactly one copy of the entry at `i` and nothing else |
| Words.TrimStart | script.js:160 | drops exactly the leading run of trimmable characters: the result is a suffix of the input, everything dropped is trimmable, and the result does not start with a trimmable character |
| Words.TrimEnd | script.js:160 | drops exactly the trailing run of trimmable characters: the result is a prefix of the input, everything dropped is trimmable, and the result does not end with a trimmable character |
| Words.Trim | script.js:160 | `trim()`: the result is a slice of the input with only trimmable characters before and after it; it is empty exactly when the input is all white space, and otherwise neither starts nor ends with a trimmable character |
| Words.LowerChar | script.js:160 | lower-casing one character keeps whether it is white space |
| Words.Lower | script.js:160 | the model's lower-casing keeps the length, its result is already lower case, and it is blank exactly when its input is |
| Words.TrimLower | script.js:160 | `trim()` and lower-casing commute: lower-casing keeps which characters are white space |
| Words.CaseIrrelevant | script.js:160 | a guess is judged the same whatever its letter case: lower-casing the raw input first leaves its normalised form unchanged |
| Words.Normalize | script.js:160-166 | the guess as compared, `trim()` then `toLowerCase()`: never longer than the input, and empty, so rejected, exactly when the input is all white space |
| Words.NormalizeHasNoBlankEnds | script.js:160 | a normalised guess neither starts nor ends with white space |
| Words.NormalizeIdempotent | script.js:160 | normalising an already normalised guess changes nothing |
| Words.PaddingIrrelevant | script.js:160 | white space typed around a guess does not change its normalised form |
| Shuffle.ShuffleFrom | script.js:109-112 | the passes `i` down to 1 of the loop, one exchange each, keep the length |
| Shuffle.Shuffled | script.js:108-113 | the whole shuffle keeps the length and the multiset of entries: it is a permutation of its input |
| Shuffle.ShuffleArray | script.js:108-113 | the in-place loop leaves the array equal to `Shuffled(old contents, draws)` and a permutation of its old contents |
| Shuffle.ShuffleFromPermutes | script.js:109-112 | each remaining pass of the loop only exchanges two cells, so the passes keep the length and the multiset |
| Shuffle.ShuffleFromKeepsUpper | script.js:109-112 | once the loop has passed a cell, that cell is never swapped again |
| Shuffle.IdentityDrawsKeepOrder | script.js:110-111 | when every draw picks `j == i`, the shuffle leaves the order unchanged |
| Rules.Initial | script.js:2-16 | the constructor's state, with the pool loaded: it satisfies the invariant, no round has begun, and no word has been chosen |
| Rules.StartNewGame | script.js:80-106 | a new round is on with the interval armed, 3 lives, unicorn 0, nothing found or passed; the chosen list is copied and the words left are a permutation of it |
| Rules.ResetTimer | script.js:131-134 | the timer is back at 30, nothing else changes, and the phase of the game stays the same |
| Rules.WinGame | script.js:301-308 | the round ends and the interval is cleared, nothing else changes; with 5 finds the game is won |
| Rules.LoseGame | script.js:310-319 | the round ends, the interval is cleared and the unicorn state becomes 5, nothing else changes; short of 5 finds the game is lost |
| Rules.LoseLife | script.js:243-254 | one life less and the timer at 30, the words, the word lists and the counters kept; the round goes on exactly when it was on and a life is left, and the unicorn moves one stage or, once no life is left, becomes 5 |
| Rules.ChangeHint | script.js:136-144 | only the hint index changes, not at all outside a round, and inside one it stays within the current word's hints |
| Rules.Judge | script.js:157-170 | the verdict is "ignored" exactly outside a round, "empty" exactly on a blank input in a round, "correct" exactly when the normalised guess is non-empty and equals the stored word, "wrong" exactly otherwise |
| Rules.HandleCorrectWord | script.js:177-200 | one more find and one word fewer, lives and passes kept, timer 30 and hint 0; the round goes on exactly when it was on, the target is not reached and a word is left, and then the index is in range |
| Rules.ValidateWord | script.js:157-175 | a correct guess adds exactly one find and a wrong one costs exactly one life; nothing else changes the finds or the lives, and passes and the chosen list are kept |
| Rules.PassCheck | script.js:206-211 | a pass is granted exactly in a round with words left and fewer than 5 passes used, and refused exactly when the 5 passes are used up |
| Rules.PassWord | script.js:206-231 | a granted pass uses exactly one pass and drops exactly one word, anything else neither; finds, lives, the chosen list and the word lists are kept, and while the round is on the index is in range |
| Rules.Tick | script.js:120-127 | the timer goes down by one, or from 1 goes back to 30 at the cost of exactly one life; the words and the counters are kept |
| Properties.StartNewGameResets | script.js:80-106 | a new round from any state: active, 3 lives, unicorn 0, timer 30, no word found or passed, both indices 0, the interval armed, the chosen list copied, the words left a permutation of it, and the invariant holds |
| Properties.StartNewGameNoRepeats | script.js:101-105 | a list without repeated entries is dealt without repeats |
| Properties.ResolvedWordLeaves | script.js:177-231 | a found or passed entry is gone from the words left, and no repeat is introduced |
| Properties.ValidateWordKeepsDrawn | script.js:157-200 | a guess adds no word to those left to play: they stay drawn from the chosen list |
| Properties.PassWordKeepsDrawn | script.js:206-231 | a pass adds no word to those left to play |
| Properties.PermutationKeepsDistinct | script.js:101-105 | a permutation of a list without repeats has no repeats |
| Properties.ChangeHintCycles | script.js:136-144 | `changeHint` is a no-op outside a round; inside one it sets the hint index to `(old + 1) % hints`, which stays in range, and nothing else changes |
| Properties.ChangeHintTimesCycles | script.js:142 | after k presses the hint index has moved k steps around the cycle and nothing else has changed |
| Properties.ChangeHintFullCycle | script.js:142 | pressing `changeHint` once per hint brings back the hint shown first |
| Properties.CurrentWordGuessable | script.js:160-170 | a non-empty stored word in normalised form is guessed by typing it; a stored word not in normalised form can never be guessed |
| Properties.ValidateWordIgnores | script.js:157-166 | `validateWord` changes no state outside a round or on a blank input |
| Properties.HandleCorrectWordSpec | script.js:177-200 | exactly the current entry leaves, one more word is found, timer 30 and hint 0; reaching 5 finds wins even with words left, and is checked before the out-of-words loss; otherwise the index is clamped into range; a round that ends keeps its index; the word lists are kept |
| Properties.LoseLifeSpec | script.js:243-254 | exactly one life less and the timer reset, the words untouched; the round is lost, with unicorn state 5, exactly when no life is left; otherwise the unicorn moves one stage and lives plus stage stay 3; no other field changes, the word lists and both indices included |
| Properties.ValidateWordSpec | script.js:157-175 | `validateWord` keeps the invariant, runs `handleCorrectWord` on a correct guess and `handleWrongWord` (one life lost, words untouched) on a wrong one, and otherwise changes nothing |
| Properties.PassWordSpec | script.js:206-231 | ignored outside a round; refused without change once 5 passes are used; otherwise drops exactly the current entry for exactly one pass, resets timer and hint, then loses on an empty list or otherwise keeps the index, set back to 0 when it is past the end, and the unicorn; no field other than the words, passes, timer, hint, index, unicorn and round flags changes, so the word lists are kept, and an emptied list keeps its index; at most 5 passes ever |
| Properties.TickSpec | script.js:120-134 | a tick lowers the timer by one, or on reaching 0 loses exactly one life and puts the timer back at 30; the timer stays in 1..30 |
| Properties.TimeoutIsWrongGuess | script.js:120-127 | a time-out has exactly the effect of a wrong guess |
| Properties.FinishedRoundIsFinal | script.js:136-231 | after a win or a loss no interval is armed and every command but `startNewGame` is ignored |
| Properties.PhasesDistinct | script.js:185-193 | a won round has 5 finds and not the lost unicorn, a lost one fewer than 5 finds, and a round is playing exactly while active |
| Properties.ThreeWrongGuessesLose | script.js:243-254 | from 3 lives, three wrong guesses in a row lose the round on the third and not before |
| Properties.PassedStep | script.js:213-224 | one granted pass uses one pass, drops one word, keeps finds and lives, and keeps the round on exactly when a word is left |
| Properties.PassTimesCounts | script.js:206-231 | k granted passes with a word left afterwards use k passes and drop k words |
| Properties.SixthPassRefused | script.js:208-211 | with more than 5 words, five passes are granted and the sixth is refused with nothing changed |
| Properties.FoundStep | script.js:177-200 | a correct guess short of the target that leaves a word keeps the round on with one more find and one word fewer |
| Properties.FindTimesWins | script.js:185-188 | the correct guesses that bring the finds to 5 win the round, with the words not reached still unplayed |
| Properties.FifthFindWinsWithWordLeft | script.js:177-200 | a fresh round on a six-word list is won by the fifth correct guess with one word left |
| Game.WordGame.constructor | script.js:2-16 | the fields start as in the source's constructor, with the pool given |
| Game.WordGame.StartNewGame | script.js:80-96 | the fields become those of `Rules.StartNewGame` and the round is playing |
| Game.WordGame.SelectRandomList | script.js:98-106 | the chosen list is copied, the copy shuffled by `draws`, both indices set to 0, every other field kept |
| Game.WordGame.StartTimer | script.js:115-120 | the interval is armed and nothing else changes |
| Game.WordGame.Tick | script.js:120-127 | the fields become those of `Rules.Tick` and `Valid()` is kept |
| Game.WordGame.ResetTimer | script.js:131-134 | the timer is back at 30 and nothing else changes |
| Game.WordGame.ChangeHint | script.js:136-144 | the fields become those of `Rules.ChangeHint` and `Valid()` is kept |
| Game.WordGame.ValidateWord | script.js:157-175 | the verdict is `Judge` of the old state, the fields become those of `Rules.ValidateWord`, and `Valid()` is kept |
| Game.WordGame.HandleCorrectWord | script.js:177-200 | the fields become those of `Rules.HandleCorrectWord` |
| Game.WordGame.HandleWrongWord | script.js:202-204 | the fields become those of `Rules.LoseLife` |
| Game.WordGame.PassWord | script.js:206-231 | the outcome is `PassCheck` of the old state, the fields become those of `Rules.PassWord`, and `Valid()` is kept |
| Game.WordGame.LoseLife | script.js:243-254 | the fields become those of `Rules.LoseLife` |
| Game.WordGame.WinGame | script.js:301-308 | the round ends and the interval is cleared |
| Game.WordGame.LoseGame | script.js:310-319 | the round ends, the interval is cleared and the unicorn state becomes 5 |

## Left out

- DOM and presentation are not modelled, because they only write results to
  the page. This covers the title screen, `showGame`, `initializeElements`,
  `bindEvents`, `updateHintDisplay`, `updateDisplay`, `updateLives`,
  `updatePassButton`, `updateUnicorn`, `getUnicornHTML`, `showMessage`,
  `clearMessage`, `showGameOver` and `hideGameOver`.
- What a command shows is not modelled either. The verdict of `ValidateWord`
  and the outcome of `PassWord` say which message the source shows. Clearing
  the input box (script.js:161) is not modelled.
- `loadWords` is not modelled, because it does network I/O and JSON parsing.
  The pool is a constructor parameter.
- `setInterval`/`clearInterval` scheduling and the message timeout of
  `showMessage` are reduced to an armed/cleared flag, because they are timer
  plumbing. `Tick` is the callback's body.
- `Math.random` is not modelled. The caller supplies `listIndex` and `draws`.
- Game.WordGame.SelectRandomList: does not mutate `remainingWords` in place.
  It shuffles a fresh `array` copy of the list and then stores the array's
  contents in the `seq` field. The source shuffles the JS array it has just
  assigned.
- Words.LowerChar: does not model the full Unicode `toLowerCase`. It maps
  ASCII, Latin-1, the ligature Œ and the letter Ÿ only. Every character maps
  to one character, so the model's lower-casing keeps the length; JavaScript's
  `toLowerCase` does not always, since "İ" (U+0130) becomes the two code
  points "i̇". Characters are Unicode scalar values, not UTF-16 code units.
- `confetti.js` is not part of this model. It is a floating-point particle
  animation on a canvas.
- `crop_unicorns.py` is not part of this model. It is a one-off image-cropping
  script.
