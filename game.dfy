/**
 The `WordGame` object: the fields of the game session, updated in place by
 one method per command. Every method is proved to leave the fields exactly as
 the matching function of module Rules says, and the commands a player can
 issue keep the invariant `Valid()`.
 */
module Game {
  import opened Words
  import opened Shuffle
  import opened Rules
  import opened Properties

  class WordGame {
    var wordLists: seq<WordList>
    var currentList: seq<WordEntry>
    var currentWordIndex: int
    var currentHintIndex: int
    var remainingWords: seq<WordEntry>
    var foundCount: int
    var passedCount: int
    var lives: int
    var unicornState: int
    var timer: int
    /** Whether `timerInterval` holds an armed interval. */
    var timerRunning: bool
    var gameActive: bool

    /** The fields as one value. */
    function Snapshot(): Session
      reads this
    {
      Session(wordLists, currentList, remainingWords, currentWordIndex, currentHintIndex,
              foundCount, passedCount, lives, unicornState, timer, timerRunning, gameActive)
    }

    /** What holds between commands. */
    ghost predicate Valid()
      reads this
    {
      Inv(Snapshot()) && DrawnFromList(Snapshot())
    }

    /** The constructor, with `pool` standing for the word lists `loadWords` fetches. */
    constructor(pool: seq<WordList>)
      ensures Snapshot() == Initial(pool)
      ensures Valid() && PhaseOf(Snapshot()) == NotStarted
    {
      currentList := [];
      currentWordIndex := 0;
      currentHintIndex := 0;
      remainingWords := [];
      foundCount := 0;
      passedCount := 0;
      lives := StartLives;
      unicornState := 0;
      timer := TimerSeconds;
      timerRunning := false;
      gameActive := false;
      wordLists := pool;
      new;
    }

    /** `startNewGame`: a fresh round on the list at `listIndex`, shuffled by `draws`. */
    method StartNewGame(listIndex: nat, draws: seq<nat>)
      requires listIndex < |wordLists| && Playable(wordLists[listIndex].words)
      requires ValidDraws(|wordLists[listIndex].words|, draws)
      modifies this
      ensures Snapshot() == Rules.StartNewGame(old(Snapshot()), listIndex, draws)
      ensures Valid() && PhaseOf(Snapshot()) == Playing
    {
      ghost var s0 := Snapshot();
      gameActive := true;
      lives := StartLives;
      unicornState := 0;
      timer := TimerSeconds;
      foundCount := 0;
      passedCount := 0;
      SelectRandomList(listIndex, draws);
      StartTimer();
      StartNewGameResets(s0, listIndex, draws);
    }

    /** `selectRandomList`: copy the chosen list and shuffle the copy. */
    method SelectRandomList(listIndex: nat, draws: seq<nat>)
      requires listIndex < |wordLists|
      requires ValidDraws(|wordLists[listIndex].words|, draws)
      modifies this
      ensures currentList == old(wordLists[listIndex].words)
      ensures remainingWords == Shuffled(currentList, draws)
      ensures currentWordIndex == 0 && currentHintIndex == 0
      ensures wordLists == old(wordLists) && foundCount == old(foundCount)
      ensures passedCount == old(passedCount) && lives == old(lives)
      ensures unicornState == old(unicornState) && timer == old(timer)
      ensures timerRunning == old(timerRunning) && gameActive == old(gameActive)
    {
      var selected := wordLists[listIndex];
      currentList := selected.words;
      var words := currentList;
      var a := new WordEntry[|words|](k requires 0 <= k < |words| => words[k]);
      assert a[..] == words;
      currentWordIndex := 0;
      currentHintIndex := 0;
      ShuffleArray(a, draws);
      remainingWords := a[..];
    }

    /** `startTimer`: any previous interval is replaced by a new one. */
    method StartTimer()
      modifies this
      ensures Snapshot() == old(Snapshot()).(timerRunning := true)
    {
      timerRunning := true;
    }

    /** The per-second interval callback; only an armed interval fires. */
    method Tick()
      requires Valid() && timerRunning
      modifies this
      ensures Snapshot() == Rules.Tick(old(Snapshot()))
      ensures Valid()
    {
      ghost var s0 := Snapshot();
      timer := timer - 1;
      if timer <= 0 {
        LoseLife();
        ResetTimer();
      }
      TickSpec(s0);
    }

    method ResetTimer()
      modifies this
      ensures Snapshot() == Rules.ResetTimer(old(Snapshot()))
    {
      timer := TimerSeconds;
    }

    /** `changeHint`. */
    method ChangeHint()
      requires Valid()
      modifies this
      ensures Snapshot() == Rules.ChangeHint(old(Snapshot()))
      ensures Valid()
    {
      ghost var s0 := Snapshot();
      ChangeHintCycles(s0);
      if !gameActive || |remainingWords| == 0 {
        return;
      }
      var currentWord := remainingWords[currentWordIndex];
      var totalHints := |currentWord.hints|;
      currentHintIndex := (currentHintIndex + 1) % totalHints;
    }

    /** `validateWord` on the raw contents `raw` of the input box; the verdict
        tells which message is shown. */
    method ValidateWord(raw: string) returns (v: Verdict)
      requires Valid()
      modifies this
      ensures v == Judge(old(Snapshot()), raw)
      ensures Snapshot() == Rules.ValidateWord(old(Snapshot()), raw)
      ensures Valid()
    {
      ghost var s0 := Snapshot();
      ValidateWordSpec(s0, raw);
      ValidateWordKeepsDrawn(s0, raw);
      if !gameActive {
        return Ignored;
      }
      var input := Normalize(raw);
      if input == [] {
        return EmptyInput;
      }
      var currentWord := remainingWords[currentWordIndex];
      if input == currentWord.word {
        HandleCorrectWord();
        v := Correct;
      } else {
        HandleWrongWord();
        v := Wrong;
      }
    }

    /** `handleCorrectWord`: the win check comes before the out-of-words check. */
    method HandleCorrectWord()
      requires 0 <= currentWordIndex < |remainingWords|
      modifies this
      ensures Snapshot() == Rules.HandleCorrectWord(old(Snapshot()))
    {
      remainingWords := RemoveAt(remainingWords, currentWordIndex);
      foundCount := foundCount + 1;
      ResetTimer();
      currentHintIndex := 0;
      if foundCount >= WordsToFind {
        WinGame();
        return;
      }
      if |remainingWords| == 0 {
        LoseGame();
        return;
      }
      if currentWordIndex >= |remainingWords| {
        currentWordIndex := 0;
      }
    }

    /** `handleWrongWord`. */
    method HandleWrongWord()
      modifies this
      ensures Snapshot() == Rules.LoseLife(old(Snapshot()))
    {
      LoseLife();
    }

    /** `passWord`; the outcome tells which message is shown. */
    method PassWord() returns (p: PassOutcome)
      requires Valid()
      modifies this
      ensures p == PassCheck(old(Snapshot()))
      ensures Snapshot() == Rules.PassWord(old(Snapshot()))
      ensures Valid()
    {
      ghost var s0 := Snapshot();
      if !gameActive || |remainingWords| == 0 {
        PassWordSpec(s0);
        PassWordKeepsDrawn(s0);
        return PassIgnored;
      }
      if passedCount >= MaxPasses {
        PassWordSpec(s0);
        PassWordKeepsDrawn(s0);
        return NoPassesLeft;
      }
      var rest := RemoveAt(remainingWords, currentWordIndex);
      ghost var t := s0.(remainingWords := rest, passedCount := s0.passedCount + 1,
                         timer := TimerSeconds, currentHintIndex := 0);
      assert Rules.PassWord(s0) ==
        if |rest| == 0 then Rules.LoseGame(t)
        else if t.currentWordIndex >= |rest| then t.(currentWordIndex := 0)
        else t;
      remainingWords := rest;
      passedCount := passedCount + 1;
      ResetTimer();
      currentHintIndex := 0;
      assert Snapshot() == t;
      p := Passed;
      if |remainingWords| == 0 {
        LoseGame();
      } else if currentWordIndex >= |remainingWords| {
        currentWordIndex := 0;
      }
      PassWordSpec(s0);
      PassWordKeepsDrawn(s0);
    }

    /** `loseLife`, the reason being only the message shown. */
    method LoseLife()
      modifies this
      ensures Snapshot() == Rules.LoseLife(old(Snapshot()))
    {
      lives := lives - 1;
      unicornState := unicornState + 1;
      ResetTimer();
      if lives <= 0 {
        LoseGame();
      }
    }

    /** `winGame`. */
    method WinGame()
      modifies this
      ensures Snapshot() == Rules.WinGame(old(Snapshot()))
    {
      gameActive := false;
      timerRunning := false;
    }

    /** `loseGame`. */
    method LoseGame()
      modifies this
      ensures Snapshot() == Rules.LoseGame(old(Snapshot()))
    {
      gameActive := false;
      timerRunning := false;
      unicornState := LostUnicornState;
    }
  }
}
