/**
 The state of one `WordGame` as a value, and each command of the game as a
 function from the state before it to the state after it. The class in
 module Game keeps these fields in place and its methods are proved to move
 them exactly as these functions say.
 */
module Rules {
  import opened Words
  import opened Shuffle

  /** `maxPasses`, `wordsToFind`, the starting `lives`, the timer reset value
      and the `unicornState` that shows a lost game. */
  const MaxPasses := 5
  const WordsToFind := 5
  const StartLives := 3
  const TimerSeconds := 30
  const LostUnicornState := 5

  /** Every field of `WordGame` that a command reads or writes; `timerRunning`
      stands for `timerInterval` being armed. */
  datatype Session = Session(
    wordLists: seq<WordList>,
    currentList: seq<WordEntry>,
    remainingWords: seq<WordEntry>,
    currentWordIndex: int,
    currentHintIndex: int,
    foundCount: int,
    passedCount: int,
    lives: int,
    unicornState: int,
    timer: int,
    timerRunning: bool,
    gameActive: bool)

  /** The outcome of `validateWord`, which decides the message shown. */
  datatype Verdict = Ignored | EmptyInput | Correct | Wrong

  /** The outcome of `passWord`. */
  datatype PassOutcome = PassIgnored | NoPassesLeft | Passed

  /** Where a session stands: before its first round, in a round, or after one. */
  datatype Phase = NotStarted | Playing | Won | Lost

  /** The state the constructor leaves, once the word pool has been loaded. */
  function Initial(pool: seq<WordList>): (r: Session)
    ensures Inv(r) && PhaseOf(r) == NotStarted
    ensures r.wordLists == pool && r.remainingWords == [] && r.currentList == []
  {
    Session(pool, [], [], 0, 0, 0, 0, StartLives, 0, TimerSeconds, false, false)
  }

  /** While a round is on, the current word exists and has a hint, and the
      hint index is not negative (so `%` agrees with JavaScript's). */
  predicate Positioned(s: Session)
  {
    s.gameActive ==>
      0 <= s.currentWordIndex < |s.remainingWords| && 0 <= s.currentHintIndex &&
      |s.remainingWords[s.currentWordIndex].hints| > 0
  }

  /** The current word, while a round is on. */
  function CurrentWord(s: Session): string
    requires Positioned(s) && s.gameActive
  {
    s.remainingWords[s.currentWordIndex].word
  }

  /** What holds of every state the game can reach. */
  ghost predicate Inv(s: Session)
  {
    0 <= s.foundCount <= WordsToFind &&
    0 <= s.passedCount <= MaxPasses &&
    0 <= s.lives <= StartLives &&
    1 <= s.timer <= TimerSeconds &&
    0 <= s.currentWordIndex && 0 <= s.currentHintIndex &&
    s.timerRunning == s.gameActive &&
    (s.lives + s.unicornState == StartLives || s.unicornState == LostUnicornState) &&
    (s.unicornState == LostUnicornState ==> !s.gameActive && s.foundCount < WordsToFind) &&
    |s.remainingWords| + s.foundCount + s.passedCount == |s.currentList| &&
    AllHaveHints(s.remainingWords) &&
    (s.gameActive ==>
       1 <= s.lives && s.foundCount < WordsToFind &&
       s.currentWordIndex < |s.remainingWords| &&
       s.currentHintIndex < |s.remainingWords[s.currentWordIndex].hints|)
  }

  /** The words still to play are drawn from the chosen list: none is added,
      none is repeated beyond its copies in the list. */
  ghost predicate DrawnFromList(s: Session)
  {
    multiset(s.remainingWords) <= multiset(s.currentList)
  }

  /** The phase a state is in; the rounds' rules keep the cases apart. */
  function PhaseOf(s: Session): Phase
  {
    if s.gameActive then Playing
    else if s.foundCount >= WordsToFind then Won
    else if s.unicornState == LostUnicornState then Lost
    else NotStarted
  }

  /** `selectRandomList` and the resets of `startNewGame`, with `listIndex`
      standing for `Math.floor(Math.random() * wordLists.length)`. */
  function StartNewGame(s: Session, listIndex: nat, draws: seq<nat>): (r: Session)
    requires listIndex < |s.wordLists|
    requires ValidDraws(|s.wordLists[listIndex].words|, draws)
    ensures r.gameActive && r.timerRunning && PhaseOf(r) == Playing
    ensures r.wordLists == s.wordLists && r.currentList == s.wordLists[listIndex].words
    ensures multiset(r.remainingWords) == multiset(r.currentList)
    ensures r.foundCount == 0 && r.passedCount == 0 && r.lives == StartLives && r.unicornState == 0
  {
    var list := s.wordLists[listIndex].words;
    s.(gameActive := true, lives := StartLives, unicornState := 0,
       timer := TimerSeconds, foundCount := 0, passedCount := 0,
       currentList := list, remainingWords := Shuffled(list, draws),
       currentWordIndex := 0, currentHintIndex := 0, timerRunning := true)
  }

  /** `resetTimer`: the countdown starts again and nothing else changes. */
  function ResetTimer(s: Session): (r: Session)
    ensures r.timer == TimerSeconds && r.(timer := s.timer) == s
    ensures PhaseOf(r) == PhaseOf(s)
  {
    s.(timer := TimerSeconds)
  }

  /** `winGame`: the round ends and the interval is cleared. */
  function WinGame(s: Session): (r: Session)
    ensures !r.gameActive && !r.timerRunning
    ensures r.(gameActive := s.gameActive, timerRunning := s.timerRunning) == s
    ensures s.foundCount >= WordsToFind ==> PhaseOf(r) == Won
  {
    s.(gameActive := false, timerRunning := false)
  }

  /** `loseGame`: the round ends, the interval is cleared, the unicorn decays. */
  function LoseGame(s: Session): (r: Session)
    ensures !r.gameActive && !r.timerRunning && r.unicornState == LostUnicornState
    ensures r.(gameActive := s.gameActive, timerRunning := s.timerRunning,
               unicornState := s.unicornState) == s
    ensures s.foundCount < WordsToFind ==> PhaseOf(r) == Lost
  {
    s.(gameActive := false, timerRunning := false, unicornState := LostUnicornState)
  }

  /** `loseLife`: one life less, one unicorn stage more, timer reset, and a
      lost game once no life is left. */
  function LoseLife(s: Session): (r: Session)
    ensures r.lives == s.lives - 1 && r.timer == TimerSeconds
    ensures r.remainingWords == s.remainingWords && r.currentList == s.currentList
    ensures r.wordLists == s.wordLists
    ensures r.foundCount == s.foundCount && r.passedCount == s.passedCount
    ensures r.gameActive <==> s.gameActive && s.lives > 1
    ensures r.unicornState == if s.lives <= 1 then LostUnicornState else s.unicornState + 1
  {
    var t := ResetTimer(s.(lives := s.lives - 1, unicornState := s.unicornState + 1));
    if t.lives <= 0 then LoseGame(t) else t
  }

  /** `changeHint`: the next hint of the current word, cyclically. */
  function ChangeHint(s: Session): (r: Session)
    requires Positioned(s)
    ensures r.(currentHintIndex := s.currentHintIndex) == s
    ensures !s.gameActive ==> r == s
    ensures s.gameActive ==> 0 <= r.currentHintIndex < |s.remainingWords[s.currentWordIndex].hints|
  {
    if !s.gameActive || |s.remainingWords| == 0 then s
    else
      var total := |s.remainingWords[s.currentWordIndex].hints|;
      s.(currentHintIndex := (s.currentHintIndex + 1) % total)
  }

  /** How `validateWord` classifies the raw contents of the input box. */
  function Judge(s: Session, raw: string): (r: Verdict)
    requires Positioned(s)
    ensures r == Ignored <==> !s.gameActive
    ensures r == EmptyInput <==> s.gameActive && AllTrimmable(raw)
    ensures r == Correct <==>
      s.gameActive && Normalize(raw) != [] && Normalize(raw) == CurrentWord(s)
    ensures r == Wrong <==>
      s.gameActive && Normalize(raw) != [] && Normalize(raw) != CurrentWord(s)
  {
    if !s.gameActive then Ignored
    else
      var input := Normalize(raw);
      if input == [] then EmptyInput
      else if input == CurrentWord(s) then Correct
      else Wrong
  }

  /** `handleCorrectWord`: the win check comes before the out-of-words check. */
  function HandleCorrectWord(s: Session): (r: Session)
    requires 0 <= s.currentWordIndex < |s.remainingWords|
    ensures r.foundCount == s.foundCount + 1 && |r.remainingWords| == |s.remainingWords| - 1
    ensures r.lives == s.lives && r.passedCount == s.passedCount && r.currentList == s.currentList
    ensures r.timer == TimerSeconds && r.currentHintIndex == 0
    ensures r.gameActive <==> s.gameActive && r.foundCount < WordsToFind && r.remainingWords != []
    ensures r.gameActive ==> 0 <= r.currentWordIndex < |r.remainingWords|
  {
    var t := s.(remainingWords := RemoveAt(s.remainingWords, s.currentWordIndex),
                foundCount := s.foundCount + 1,
                timer := TimerSeconds,
                currentHintIndex := 0);
    if t.foundCount >= WordsToFind then WinGame(t)
    else if |t.remainingWords| == 0 then LoseGame(t)
    else if t.currentWordIndex >= |t.remainingWords| then t.(currentWordIndex := 0)
    else t
  }

  /** `validateWord`, with `handleWrongWord` being `loseLife`. */
  function ValidateWord(s: Session, raw: string): (r: Session)
    requires Positioned(s)
    ensures r.foundCount == s.foundCount + (if Judge(s, raw) == Correct then 1 else 0)
    ensures r.lives == s.lives - (if Judge(s, raw) == Wrong then 1 else 0)
    ensures r.passedCount == s.passedCount && r.currentList == s.currentList
  {
    match Judge(s, raw)
    case Correct => HandleCorrectWord(s)
    case Wrong => LoseLife(s)
    case _ => s
  }

  /** How `passWord` treats a request. */
  function PassCheck(s: Session): (r: PassOutcome)
    ensures r == Passed <==> s.gameActive && s.remainingWords != [] && s.passedCount < MaxPasses
    ensures r == NoPassesLeft <==>
      s.gameActive && s.remainingWords != [] && s.passedCount >= MaxPasses
  {
    if !s.gameActive || |s.remainingWords| == 0 then PassIgnored
    else if s.passedCount >= MaxPasses then NoPassesLeft
    else Passed
  }

  /** `passWord`: drop the current word at the cost of one pass. */
  function PassWord(s: Session): (r: Session)
    requires Positioned(s)
    ensures var n := if PassCheck(s) == Passed then 1 else 0;
      r.passedCount == s.passedCount + n && |r.remainingWords| == |s.remainingWords| - n
    ensures r.foundCount == s.foundCount && r.lives == s.lives && r.currentList == s.currentList
    ensures r.wordLists == s.wordLists
    ensures r.gameActive ==> 0 <= r.currentWordIndex < |r.remainingWords|
  {
    if PassCheck(s) != Passed then s
    else
      var t := s.(remainingWords := RemoveAt(s.remainingWords, s.currentWordIndex),
                  passedCount := s.passedCount + 1,
                  timer := TimerSeconds,
                  currentHintIndex := 0);
      if |t.remainingWords| == 0 then LoseGame(t)
      else if t.currentWordIndex >= |t.remainingWords| then t.(currentWordIndex := 0)
      else t
  }

  /** The body of the per-second interval callback. */
  function Tick(s: Session): (r: Session)
    ensures r.timer == if s.timer <= 1 then TimerSeconds else s.timer - 1
    ensures r.lives == if s.timer <= 1 then s.lives - 1 else s.lives
    ensures r.remainingWords == s.remainingWords && r.currentList == s.currentList
    ensures r.foundCount == s.foundCount && r.passedCount == s.passedCount
  {
    var t := s.(timer := s.timer - 1);
    if t.timer <= 0 then ResetTimer(LoseLife(t)) else t
  }
}
