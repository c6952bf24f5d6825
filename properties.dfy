/**
 What the rules of module Rules guarantee: every command keeps the invariant,
 each command does what the game promises and nothing else, and the
 scenarios of a round play out as the game intends.
 */
module Properties {
  import opened Words
  import opened Shuffle
  import opened Rules

  /** Removing one entry keeps every remaining entry's hints. */
  lemma RemoveKeepsHints(s: seq<WordEntry>, i: nat)
    requires AllHaveHints(s) && i < |s|
    ensures AllHaveHints(RemoveAt(s, i))
  {
    var r := RemoveAt(s, i);
    forall k | 0 <= k < |r| ensures |r[k].hints| > 0 {
      if k >= i { assert r[k] == s[k + 1]; }
    }
  }

  /** `startNewGame` begins a fresh round from any state: every counter is
      reset, the timer is armed, and the words to play are a permutation of
      the chosen list. */
  lemma StartNewGameResets(s: Session, listIndex: nat, draws: seq<nat>)
    requires listIndex < |s.wordLists|
    requires Playable(s.wordLists[listIndex].words)
    requires ValidDraws(|s.wordLists[listIndex].words|, draws)
    ensures var t := StartNewGame(s, listIndex, draws);
      t.gameActive && t.timerRunning && t.lives == StartLives && t.unicornState == 0 &&
      t.timer == TimerSeconds && t.foundCount == 0 && t.passedCount == 0 &&
      t.currentWordIndex == 0 && t.currentHintIndex == 0 &&
      t.wordLists == s.wordLists && t.currentList == s.wordLists[listIndex].words &&
      |t.remainingWords| == |t.currentList| &&
      multiset(t.remainingWords) == multiset(t.currentList) &&
      Inv(t) && PhaseOf(t) == Playing
  {
    var list := s.wordLists[listIndex].words;
    var t := StartNewGame(s, listIndex, draws);
    forall k | 0 <= k < |t.remainingWords| ensures |t.remainingWords[k].hints| > 0 {
      var e := t.remainingWords[k];
      assert e in multiset(t.remainingWords);
      assert e in list;
    }
  }

  lemma RemoveStaysDrawn(rem: seq<WordEntry>, list: seq<WordEntry>, i: nat)
    requires i < |rem| && multiset(rem) <= multiset(list)
    ensures multiset(RemoveAt(rem, i)) <= multiset(list)
  {
    RemoveAtMultiset(rem, i);
  }

  /** `validateWord` adds no word to those left to play. */
  lemma ValidateWordKeepsDrawn(s: Session, raw: string)
    requires Positioned(s) && DrawnFromList(s)
    ensures DrawnFromList(ValidateWord(s, raw))
  {
    var t := ValidateWord(s, raw);
    if Judge(s, raw) == Correct {
      assert t == HandleCorrectWord(s);
      assert t.remainingWords == RemoveAt(s.remainingWords, s.currentWordIndex);
      RemoveStaysDrawn(s.remainingWords, s.currentList, s.currentWordIndex);
    } else {
      assert t.remainingWords == s.remainingWords;
    }
    assert t.currentList == s.currentList;
  }

  /** `passWord` adds no word to those left to play. */
  lemma PassWordKeepsDrawn(s: Session)
    requires Positioned(s) && DrawnFromList(s)
    ensures DrawnFromList(PassWord(s))
  {
    var t := PassWord(s);
    if PassCheck(s) == Passed {
      assert t.remainingWords == RemoveAt(s.remainingWords, s.currentWordIndex);
      RemoveStaysDrawn(s.remainingWords, s.currentList, s.currentWordIndex);
    } else {
      assert t == s;
    }
    assert t.currentList == s.currentList;
  }

  /** A permutation of a list without repeated entries has no repeated entries. */
  lemma PermutationKeepsDistinct(s: seq<WordEntry>, p: seq<WordEntry>)
    requires multiset(p) == multiset(s) && NoRepeats(s)
    ensures NoRepeats(p)
  {
    forall i, j | 0 <= i < j < |p| ensures p[i] != p[j] {
      CountAtMostOne(s, p[i]);
      if p[i] == p[j] {
        RepeatCountsTwice(p, i, j);
      }
    }
  }

  /** No entry of a list occurs twice in it. */
  ghost predicate NoRepeats(s: seq<WordEntry>)
  {
    forall i, j :: 0 <= i < j < |s| ==> s[i] != s[j]
  }

  /** A round started on a list without repeated entries deals each entry once. */
  lemma StartNewGameNoRepeats(s: Session, listIndex: nat, draws: seq<nat>)
    requires listIndex < |s.wordLists|
    requires ValidDraws(|s.wordLists[listIndex].words|, draws)
    requires NoRepeats(s.wordLists[listIndex].words)
    ensures NoRepeats(StartNewGame(s, listIndex, draws).remainingWords)
  {
    PermutationKeepsDistinct(s.wordLists[listIndex].words, StartNewGame(s, listIndex, draws).remainingWords);
  }

  /** Taking out position i of a list without repeats removes that entry for
      good and creates no repeat. */
  lemma RemoveAtGone(s: seq<WordEntry>, i: nat)
    requires i < |s| && NoRepeats(s)
    ensures s[i] !in RemoveAt(s, i) && NoRepeats(RemoveAt(s, i))
  {
    var r := RemoveAt(s, i);
    forall k | 0 <= k < |r| ensures r[k] != s[i] {
      if k >= i { assert r[k] == s[k + 1]; }
    }
    forall a, b | 0 <= a < b < |r| ensures r[a] != r[b] {
      var a' := if a < i then a else a + 1;
      var b' := if b < i then b else b + 1;
      assert r[a] == s[a'] && r[b] == s[b'];
    }
  }

  /** A word found or passed is no longer among those left to play. */
  lemma ResolvedWordLeaves(s: Session, raw: string)
    requires Inv(s) && s.gameActive && NoRepeats(s.remainingWords)
    ensures Judge(s, raw) == Correct ==>
      s.remainingWords[s.currentWordIndex] !in ValidateWord(s, raw).remainingWords &&
      NoRepeats(ValidateWord(s, raw).remainingWords)
    ensures PassCheck(s) == Passed ==>
      s.remainingWords[s.currentWordIndex] !in PassWord(s).remainingWords &&
      NoRepeats(PassWord(s).remainingWords)
  {
    RemoveAtGone(s.remainingWords, s.currentWordIndex);
    if Judge(s, raw) == Correct {
      HandleCorrectWordSpec(s);
      assert ValidateWord(s, raw) == HandleCorrectWord(s);
    }
    if PassCheck(s) == Passed {
      PassWordSpec(s);
    }
  }

  lemma RepeatCountsTwice(p: seq<WordEntry>, i: nat, j: nat)
    requires i < j < |p| && p[i] == p[j]
    ensures multiset(p)[p[i]] >= 2
  {
    var x := p[i];
    assert p == p[..i] + [x] + p[i + 1..];
    assert x in p[i + 1..] by { assert p[i + 1..][j - i - 1] == x; }
    assert multiset(p) == multiset(p[..i]) + multiset{x} + multiset(p[i + 1..]);
  }

  lemma {:induction false} CountAtMostOne(s: seq<WordEntry>, x: WordEntry)
    requires NoRepeats(s)
    ensures multiset(s)[x] <= 1
  {
    if s != [] {
      var rest := s[1..];
      assert s == [s[0]] + rest;
      CountAtMostOne(rest, x);
      if s[0] == x {
        assert x !in rest by {
          forall k | 0 <= k < |rest| ensures rest[k] != x {
            assert rest[k] == s[k + 1];
          }
        }
      }
    }
  }

  /** `changeHint` does nothing outside a round; inside one it moves to the
      next hint modulo the number of hints, and touches nothing else. */
  lemma ChangeHintCycles(s: Session)
    requires Inv(s)
    ensures Inv(ChangeHint(s))
    ensures !s.gameActive ==> ChangeHint(s) == s
    ensures s.gameActive ==>
      var total := |s.remainingWords[s.currentWordIndex].hints|;
      ChangeHint(s) == s.(currentHintIndex := (s.currentHintIndex + 1) % total) &&
      0 <= ChangeHint(s).currentHintIndex < total
  {
  }

  /** `changeHint` pressed k times. */
  ghost function ChangeHintTimes(s: Session, k: nat): (r: Session)
    requires Positioned(s)
    ensures Positioned(r)
    decreases k
  {
    if k == 0 then s else ChangeHint(ChangeHintTimes(s, k - 1))
  }

  /** Euclidean division is unique. */
  lemma DivModUnique(x: int, n: int, q: int, r: int)
    requires n > 0 && 0 <= r < n && x == q * n + r
    ensures x / n == q && x % n == r
  {
    var q', r' := x / n, x % n;
    assert x == q' * n + r';
    assert (q' - q) * n == r - r';
    if q' > q {
      MulAtLeast(q' - q, n);
    } else if q' < q {
      MulAtLeast(q - q', n);
    }
  }

  lemma MulAtLeast(d: int, n: int)
    requires d >= 1 && n > 0
    ensures d * n >= n
  {
  }

  lemma ModSucc(a: int, n: int)
    requires a >= 0 && n > 0
    ensures (a % n + 1) % n == (a + 1) % n
  {
    var q := a / n;
    if a % n + 1 < n {
      DivModUnique(a + 1, n, q, a % n + 1);
      DivModUnique(a % n + 1, n, 0, a % n + 1);
    } else {
      DivModUnique(a + 1, n, q + 1, 0);
      DivModUnique(n, n, 1, 0);
    }
  }

  /** After k presses the hint index has moved k steps around the cycle, and
      nothing else has changed. */
  lemma {:induction false} ChangeHintTimesCycles(s: Session, k: nat)
    requires Positioned(s) && s.gameActive
    requires 0 <= s.currentHintIndex < |s.remainingWords[s.currentWordIndex].hints|
    ensures var total := |s.remainingWords[s.currentWordIndex].hints|;
      ChangeHintTimes(s, k) == s.(currentHintIndex := (s.currentHintIndex + k) % total)
    decreases k
  {
    var total := |s.remainingWords[s.currentWordIndex].hints|;
    if k > 0 {
      ChangeHintTimesCycles(s, k - 1);
      var p := ChangeHintTimes(s, k - 1);
      var h := (s.currentHintIndex + k - 1) % total;
      assert p == s.(currentHintIndex := h);
      assert ChangeHintTimes(s, k) == p.(currentHintIndex := (h + 1) % total);
      ModSucc(s.currentHintIndex + k - 1, total);
    } else {
      DivModUnique(s.currentHintIndex, total, 0, s.currentHintIndex);
    }
  }

  /** Pressing `changeHint` once per hint brings the first hint back. */
  lemma ChangeHintFullCycle(s: Session)
    requires Inv(s) && s.gameActive
    ensures ChangeHintTimes(s, |s.remainingWords[s.currentWordIndex].hints|) == s
  {
    var total := |s.remainingWords[s.currentWordIndex].hints|;
    ChangeHintTimesCycles(s, total);
    DivModUnique(s.currentHintIndex + total, total, 1, s.currentHintIndex);
  }

  /** Typing the current word itself is a correct guess exactly when the stored
      word is non-empty and already in normalised form; otherwise no input is. */
  lemma CurrentWordGuessable(s: Session, raw: string)
    requires Inv(s) && s.gameActive
    ensures CurrentWord(s) != [] && Normalize(CurrentWord(s)) == CurrentWord(s) ==>
      Judge(s, CurrentWord(s)) == Correct
    ensures Normalize(CurrentWord(s)) != CurrentWord(s) ==> Judge(s, raw) != Correct
  {
    NormalizeIdempotent(raw);
  }

  /** `validateWord` changes nothing outside a round or on a blank input. */
  lemma ValidateWordIgnores(s: Session, raw: string)
    requires Inv(s)
    requires !s.gameActive || AllTrimmable(raw)
    ensures ValidateWord(s, raw) == s
  {
  }

  /** `handleCorrectWord`: exactly the current entry leaves the list, one more
      word is found, timer and hint are reset; reaching the target wins even if
      words remain, running out of words otherwise loses, and otherwise the
      index is brought back into range. */
  lemma HandleCorrectWordSpec(s: Session)
    requires Inv(s) && s.gameActive
    ensures var t := HandleCorrectWord(s);
      Inv(t) &&
      t.remainingWords == RemoveAt(s.remainingWords, s.currentWordIndex) &&
      t.foundCount == s.foundCount + 1 && t.timer == TimerSeconds &&
      t.currentHintIndex == 0 && t.lives == s.lives && t.passedCount == s.passedCount &&
      t.currentList == s.currentList && t.wordLists == s.wordLists &&
      (t.foundCount >= WordsToFind ==> !t.gameActive && PhaseOf(t) == Won) &&
      (!t.gameActive ==> t.currentWordIndex == s.currentWordIndex) &&
      (t.foundCount < WordsToFind && t.remainingWords == [] ==>
         !t.gameActive && PhaseOf(t) == Lost) &&
      (t.foundCount < WordsToFind && t.remainingWords != [] ==>
         t.gameActive && PhaseOf(t) == Playing &&
         t.currentWordIndex == (if s.currentWordIndex < |t.remainingWords| then s.currentWordIndex else 0))
  {
    RemoveKeepsHints(s.remainingWords, s.currentWordIndex);
  }

  /** `loseLife`: exactly one life and one unicorn stage, the timer reset, the
      words untouched; the round is lost exactly when no life remains. */
  lemma LoseLifeSpec(s: Session)
    requires Inv(s) && s.gameActive
    ensures var t := LoseLife(s);
      Inv(t) &&
      t.lives == s.lives - 1 && t.timer == TimerSeconds &&
      t.remainingWords == s.remainingWords && t.foundCount == s.foundCount &&
      t.passedCount == s.passedCount && t.currentWordIndex == s.currentWordIndex &&
      t.currentHintIndex == s.currentHintIndex &&
      (t.lives <= 0 <==> !t.gameActive) &&
      (t.lives <= 0 ==> t.unicornState == LostUnicornState && PhaseOf(t) == Lost) &&
      (t.lives > 0 ==> t.unicornState == s.unicornState + 1 &&
                       t.lives + t.unicornState == StartLives) &&
      t.(lives := s.lives, unicornState := s.unicornState, timer := s.timer,
         gameActive := s.gameActive, timerRunning := s.timerRunning) == s
  {
  }

  /** `validateWord` keeps the invariant, and a wrong guess never changes the words. */
  lemma ValidateWordSpec(s: Session, raw: string)
    requires Inv(s)
    ensures Inv(ValidateWord(s, raw))
    ensures Judge(s, raw) == Correct ==> ValidateWord(s, raw) == HandleCorrectWord(s)
    ensures Judge(s, raw) == Wrong ==>
      ValidateWord(s, raw) == LoseLife(s) &&
      ValidateWord(s, raw).remainingWords == s.remainingWords
    ensures Judge(s, raw) in {Ignored, EmptyInput} ==> ValidateWord(s, raw) == s
  {
    if Judge(s, raw) == Correct {
      HandleCorrectWordSpec(s);
    } else if Judge(s, raw) == Wrong {
      LoseLifeSpec(s);
    }
  }

  /** `passWord`: ignored outside a round, refused without changes once the
      passes are used up, and otherwise drops exactly the current entry for
      exactly one pass; the round is then lost if no word is left. */
  lemma PassWordSpec(s: Session)
    requires Inv(s)
    ensures var t := PassWord(s);
      Inv(t) && t.passedCount <= MaxPasses &&
      (PassCheck(s) == PassIgnored <==> !s.gameActive) &&
      (PassCheck(s) == NoPassesLeft <==> s.gameActive && s.passedCount == MaxPasses) &&
      (PassCheck(s) != Passed ==> t == s) &&
      (PassCheck(s) == Passed ==>
         t.remainingWords == RemoveAt(s.remainingWords, s.currentWordIndex) &&
         t.passedCount == s.passedCount + 1 && t.timer == TimerSeconds &&
         t.currentHintIndex == 0 && t.foundCount == s.foundCount && t.lives == s.lives &&
         (t.remainingWords == [] <==> !t.gameActive) &&
         (t.remainingWords == [] ==> PhaseOf(t) == Lost) &&
         (t.remainingWords != [] ==>
            t.unicornState == s.unicornState &&
            t.currentWordIndex ==
              (if s.currentWordIndex < |t.remainingWords| then s.currentWordIndex else 0)) &&
         t.currentList == s.currentList &&
         t.(remainingWords := s.remainingWords, passedCount := s.passedCount, timer := s.timer,
            currentHintIndex := s.currentHintIndex, currentWordIndex := s.currentWordIndex,
            unicornState := s.unicornState, gameActive := s.gameActive,
            timerRunning := s.timerRunning) == s)
  {
    if PassCheck(s) == Passed {
      RemoveKeepsHints(s.remainingWords, s.currentWordIndex);
    }
  }

  /** One second: the timer goes down by one, or, when it runs out, exactly one
      life is lost as for a wrong guess and the timer is back at its start. */
  lemma TickSpec(s: Session)
    requires Inv(s) && s.timerRunning
    ensures var t := Tick(s);
      Inv(t) && 1 <= t.timer <= TimerSeconds &&
      (s.timer > 1 ==> t == s.(timer := s.timer - 1)) &&
      (s.timer == 1 ==> t == LoseLife(s) && t.timer == TimerSeconds) &&
      (t.lives == s.lives || t.lives == s.lives - 1) &&
      t.remainingWords == s.remainingWords
  {
    if s.timer == 1 {
      LoseLifeSpec(s);
    }
  }

  /** A time-out is judged exactly like a wrong guess. */
  lemma TimeoutIsWrongGuess(s: Session, raw: string)
    requires Inv(s) && s.timerRunning && s.timer == 1
    requires Judge(s, raw) == Wrong
    ensures Tick(s) == ValidateWord(s, raw)
  {
    TickSpec(s);
  }

  /** A finished round (won or lost) is left only through `startNewGame`: every
      other command is ignored, and no timer callback is armed. */
  lemma FinishedRoundIsFinal(s: Session, raw: string)
    requires Inv(s) && !s.gameActive
    ensures !s.timerRunning
    ensures ChangeHint(s) == s && ValidateWord(s, raw) == s && PassWord(s) == s
  {
  }

  /** The phases of the game never overlap: a won round is not also lost. */
  lemma PhasesDistinct(s: Session)
    requires Inv(s)
    ensures PhaseOf(s) == Won ==> s.foundCount == WordsToFind && s.unicornState != LostUnicornState
    ensures PhaseOf(s) == Lost ==> s.foundCount < WordsToFind
    ensures PhaseOf(s) == Playing <==> s.gameActive
  {
  }

  /** Three wrong guesses in a row from a fresh round lose it on the third,
      and not before. */
  lemma ThreeWrongGuessesLose(s: Session, g1: string, g2: string, g3: string)
    requires Inv(s) && s.gameActive && s.lives == StartLives
    requires forall g :: g in [g1, g2, g3] ==> Judge(s, g) == Wrong
    ensures Inv(ValidateWord(s, g1)) && ValidateWord(s, g1).gameActive
    ensures Inv(ValidateWord(ValidateWord(s, g1), g2)) &&
      ValidateWord(ValidateWord(s, g1), g2).gameActive
    ensures var t := ValidateWord(ValidateWord(ValidateWord(s, g1), g2), g3);
      !t.gameActive && t.lives == 0 && PhaseOf(t) == Lost
  {
    assert Judge(s, g1) == Wrong && Judge(s, g2) == Wrong && Judge(s, g3) == Wrong;
    var t1 := ValidateWord(s, g1);
    ValidateWordSpec(s, g1);
    LoseLifeSpec(s);
    assert Judge(t1, g2) == Wrong;
    var t2 := ValidateWord(t1, g2);
    ValidateWordSpec(t1, g2);
    LoseLifeSpec(t1);
    assert Judge(t2, g3) == Wrong;
    ValidateWordSpec(t2, g3);
    LoseLifeSpec(t2);
  }

  /** `passWord` pressed k times. */
  ghost function PassTimes(s: Session, k: nat): Session
    requires Inv(s)
    decreases k
  {
    if k == 0 then s
    else
      PassWordSpec(s);
      PassTimes(PassWord(s), k - 1)
  }

  /** The counters after one granted pass. */
  lemma PassedStep(s: Session)
    requires Inv(s) && PassCheck(s) == Passed
    ensures Inv(PassWord(s))
    ensures PassWord(s).passedCount == s.passedCount + 1
    ensures |PassWord(s).remainingWords| == |s.remainingWords| - 1
    ensures PassWord(s).foundCount == s.foundCount && PassWord(s).lives == s.lives
    ensures PassWord(s).gameActive <==> |s.remainingWords| > 1
  {
    PassWordSpec(s);
  }

  /** k passes, within the allowance and with a word left afterwards, each
      drop one word and use one pass. */
  lemma {:induction false} PassTimesCounts(s: Session, k: nat)
    requires Inv(s) && s.gameActive
    requires s.passedCount + k <= MaxPasses && k < |s.remainingWords|
    ensures var t := PassTimes(s, k);
      Inv(t) && t.gameActive && t.passedCount == s.passedCount + k &&
      |t.remainingWords| == |s.remainingWords| - k &&
      t.foundCount == s.foundCount && t.lives == s.lives
    decreases k
  {
    if k > 0 {
      PassedStep(s);
      PassTimesCounts(PassWord(s), k - 1);
    }
  }

  /** With enough words, five passes are granted and the sixth is refused
      with nothing changed. */
  lemma SixthPassRefused(s: Session)
    requires Inv(s) && s.gameActive && s.passedCount == 0
    requires |s.remainingWords| > MaxPasses
    ensures var t := PassTimes(s, MaxPasses);
      Inv(t) && t.passedCount == MaxPasses && t.gameActive &&
      PassCheck(t) == NoPassesLeft && PassWord(t) == t
  {
    PassTimesCounts(s, MaxPasses);
  }

  /** The current word guessed correctly k times (guesses after the round
      has ended are ignored). */
  ghost function FindTimes(s: Session, k: nat): Session
    requires Inv(s)
    decreases k
  {
    if k == 0 || !s.gameActive then s
    else
      HandleCorrectWordSpec(s);
      FindTimes(HandleCorrectWord(s), k - 1)
  }

  /** The counters after one correct guess that neither wins nor empties the list. */
  lemma FoundStep(s: Session)
    requires Inv(s) && s.gameActive
    requires s.foundCount + 1 < WordsToFind && |s.remainingWords| > 1
    ensures Inv(HandleCorrectWord(s)) && HandleCorrectWord(s).gameActive
    ensures HandleCorrectWord(s).foundCount == s.foundCount + 1
    ensures |HandleCorrectWord(s).remainingWords| == |s.remainingWords| - 1
    ensures HandleCorrectWord(s).lives == s.lives
    ensures HandleCorrectWord(s).passedCount == s.passedCount
  {
    HandleCorrectWordSpec(s);
  }

  /** k correct guesses that bring `foundCount` to the target win the round,
      with the words not yet reached still unplayed. */
  lemma {:induction false} FindTimesWins(s: Session, k: nat)
    requires Inv(s) && s.gameActive
    requires 1 <= k && s.foundCount + k == WordsToFind && k <= |s.remainingWords|
    ensures var t := FindTimes(s, k);
      PhaseOf(t) == Won && t.foundCount == WordsToFind &&
      |t.remainingWords| == |s.remainingWords| - k &&
      t.lives == s.lives && t.passedCount == s.passedCount
    decreases k
  {
    if k == 1 {
      HandleCorrectWordSpec(s);
      assert FindTimes(s, k) == HandleCorrectWord(s);
    } else {
      FoundStep(s);
      FindTimesWins(HandleCorrectWord(s), k - 1);
    }
  }

  /** A round on a list of six words is won by the fifth correct guess, with
      one word still unplayed. */
  lemma FifthFindWinsWithWordLeft(pool: seq<WordList>, listIndex: nat, draws: seq<nat>)
    requires listIndex < |pool| && |pool[listIndex].words| == WordsToFind + 1
    requires Playable(pool[listIndex].words)
    requires ValidDraws(|pool[listIndex].words|, draws)
    ensures Inv(StartNewGame(Initial(pool), listIndex, draws))
    ensures var t := FindTimes(StartNewGame(Initial(pool), listIndex, draws), WordsToFind);
      PhaseOf(t) == Won && |t.remainingWords| == 1
  {
    StartNewGameResets(Initial(pool), listIndex, draws);
    FindTimesWins(StartNewGame(Initial(pool), listIndex, draws), WordsToFind);
  }
}
