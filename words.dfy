/**
 Word entries of the game and the normalisation applied to a guess before it is
 compared with the hidden word (`trim()` followed by `toLowerCase()`).
 */
module Words {

  /** One entry of a word list: the canonical answer and its ordered hints. */
  datatype WordEntry = WordEntry(word: string, hints: seq<string>)

  /** A named group of entries in the word pool; only its words matter here. */
  datatype WordList = WordList(words: seq<WordEntry>)

  /** Every entry has at least one hint, so cycling through the hints is defined. */
  predicate AllHaveHints(entries: seq<WordEntry>)
  {
    forall k :: 0 <= k < |entries| ==> |entries[k].hints| > 0
  }

  /** A list a round can be played on: non-empty, and every entry has a hint. */
  predicate Playable(entries: seq<WordEntry>)
  {
    |entries| > 0 && AllHaveHints(entries)
  }

  /** The entries left once position i has been taken out (`splice(i, 1)`). */
  function RemoveAt(s: seq<WordEntry>, i: nat): (r: seq<WordEntry>)
    requires i < |s|
    ensures |r| == |s| - 1
    ensures forall k :: 0 <= k < i ==> r[k] == s[k]
    ensures forall k :: i <= k < |r| ==> r[k] == s[k + 1]
  {
    s[..i] + s[i + 1..]
  }

  /** Removing position i takes exactly one copy of `s[i]` out of the multiset. */
  lemma RemoveAtMultiset(s: seq<WordEntry>, i: nat)
    requires i < |s|
    ensures multiset(RemoveAt(s, i)) + multiset{s[i]} == multiset(s)
  {
    assert s == s[..i] + [s[i]] + s[i + 1..];
  }

  /**
   The characters `String.prototype.trim` removes: ECMAScript WhiteSpace
   (TAB, VT, FF, SP, NBSP, ZWNBSP and the Unicode space separators) and
   LineTerminator (LF, CR, LS, PS).
   */
  predicate IsTrimmable(c: char)
  {
    var n := c as int;
    n == 0x09 || n == 0x0A || n == 0x0B || n == 0x0C || n == 0x0D ||
    n == 0x20 || n == 0xA0 || n == 0x1680 ||
    (0x2000 <= n <= 0x200A) ||
    n == 0x2028 || n == 0x2029 || n == 0x202F || n == 0x205F ||
    n == 0x3000 || n == 0xFEFF
  }

  predicate AllTrimmable(s: string)
  {
    forall k :: 0 <= k < |s| ==> IsTrimmable(s[k])
  }

  /** `s` with its leading trimmable characters dropped. */
  function TrimStart(s: string): (r: string)
    ensures |r| <= |s| && r == s[|s| - |r|..]
    ensures forall k :: 0 <= k < |s| - |r| ==> IsTrimmable(s[k])
    ensures r != [] ==> !IsTrimmable(r[0])
  {
    if s != [] && IsTrimmable(s[0]) then TrimStart(s[1..]) else s
  }

  /** `s` with its trailing trimmable characters dropped. */
  function TrimEnd(s: string): (r: string)
    ensures |r| <= |s| && r == s[..|r|]
    ensures forall k :: |r| <= k < |s| ==> IsTrimmable(s[k])
    ensures r != [] ==> !IsTrimmable(r[|r| - 1])
  {
    if s != [] && IsTrimmable(s[|s| - 1]) then TrimEnd(s[..|s| - 1]) else s
  }

  /** `r` is the slice of `s` at offset `a`, and what lies outside it is all trimmable. */
  predicate BlankMargins(s: string, r: string, a: nat)
  {
    a + |r| <= |s| && r == s[a..a + |r|] && AllTrimmable(s[..a]) && AllTrimmable(s[a + |r|..])
  }

  /** `s.trim()`: the slice of `s` left once its leading and trailing runs of
      trimmable characters are dropped. It is empty exactly when `s` is blank,
      and otherwise neither starts nor ends with a trimmable character. */
  function Trim(s: string): (r: string)
    ensures |r| <= |s|
    ensures exists a :: BlankMargins(s, r, a)
    ensures r == [] <==> AllTrimmable(s)
    ensures r != [] ==> !IsTrimmable(r[0]) && !IsTrimmable(r[|r| - 1])
  {
    var t := TrimStart(s);
    var r := TrimEnd(t);
    TrimIsSlice(s, t, r);
    r
  }

  /** What `TrimStart` and `TrimEnd` state of `t` and `r` makes `r` a slice of
      `s` with blank margins. */
  lemma TrimIsSlice(s: string, t: string, r: string)
    requires |t| <= |s| && t == s[|s| - |t|..]
    requires forall k :: 0 <= k < |s| - |t| ==> IsTrimmable(s[k])
    requires t != [] ==> !IsTrimmable(t[0])
    requires |r| <= |t| && r == t[..|r|]
    requires forall k :: |r| <= k < |t| ==> IsTrimmable(t[k])
    requires r != [] ==> !IsTrimmable(r[|r| - 1])
    ensures |r| <= |s|
    ensures exists a :: BlankMargins(s, r, a)
    ensures r == [] <==> AllTrimmable(s)
    ensures r != [] ==> !IsTrimmable(r[0]) && !IsTrimmable(r[|r| - 1])
  {
    var a := |s| - |t|;
    var b := a + |r|;
    BlankPrefix(s, a);
    BlankSuffix(s, t, r, b);
    assert BlankMargins(s, r, a);
    if r == [] {
      assert t == [];
      assert s[..a] == s;
    } else {
      assert r[0] == t[0] == s[a];
    }
  }

  lemma BlankPrefix(s: string, a: nat)
    requires a <= |s| && forall k :: 0 <= k < a ==> IsTrimmable(s[k])
    ensures AllTrimmable(s[..a])
  {
    forall k | 0 <= k < a ensures IsTrimmable(s[..a][k]) {
      assert s[..a][k] == s[k];
    }
  }

  lemma BlankSuffix(s: string, t: string, r: string, b: nat)
    requires |t| <= |s| && t == s[|s| - |t|..] && b == |s| - |t| + |r|
    requires |r| <= |t| && forall k :: |r| <= k < |t| ==> IsTrimmable(t[k])
    ensures AllTrimmable(s[b..])
  {
    forall k | 0 <= k < |s| - b ensures IsTrimmable(s[b..][k]) {
      assert s[b..][k] == t[|r| + k];
    }
  }

  /** Lower-case mapping of one character, for ASCII, Latin-1, the ligature Œ and the letter Ÿ. */
  function LowerChar(c: char): (d: char)
    ensures IsTrimmable(d) <==> IsTrimmable(c)
  {
    var n := c as int;
    if ('A' <= c <= 'Z') || (0xC0 <= n <= 0xDE && n != 0xD7) then (n + 32) as char
    else if n == 0x152 then 0x153 as char
    else if n == 0x178 then 0xFF as char
    else c
  }

  /** Lower-casing a character twice is lower-casing it once. */
  lemma LowerCharIdempotent(c: char)
    ensures LowerChar(LowerChar(c)) == LowerChar(c)
  {
  }

  /** `s.toLowerCase()`, character by character: the result is already lower
      case, and it is blank exactly when `s` is. */
  function Lower(s: string): (r: string)
    ensures |r| == |s|
    ensures forall k :: 0 <= k < |s| ==> r[k] == LowerChar(s[k])
    ensures forall k :: 0 <= k < |r| ==> LowerChar(r[k]) == r[k]
    ensures AllTrimmable(r) <==> AllTrimmable(s)
  {
    seq(|s|, k requires 0 <= k < |s| => LowerChar(s[k]))
  }

  /** The guess as `validateWord` compares it: `value.trim().toLowerCase()`.
      It is empty exactly when the raw input is blank. */
  function Normalize(raw: string): (r: string)
    ensures |r| <= |raw|
    ensures r == [] <==> AllTrimmable(raw)
  {
    Lower(Trim(raw))
  }

  /** A string with no trimmable character at either end is left as it is by `trim()`. */
  lemma TrimOfTrimmed(u: string)
    requires u != [] ==> !IsTrimmable(u[0]) && !IsTrimmable(u[|u| - 1])
    ensures Trim(u) == u
  {
  }

  /** Lower-casing a string twice is lower-casing it once. */
  lemma LowerIdempotent(t: string)
    ensures Lower(Lower(t)) == Lower(t)
  {
    var u := Lower(t);
    forall k | 0 <= k < |u| ensures Lower(u)[k] == u[k] {
      LowerCharIdempotent(t[k]);
    }
  }

  /** A normalised guess neither starts nor ends with a trimmable character. */
  lemma NormalizeHasNoBlankEnds(raw: string)
    ensures var u := Normalize(raw);
      u != [] ==> !IsTrimmable(u[0]) && !IsTrimmable(u[|u| - 1])
  {
    var t := Trim(raw);
    var u := Lower(t);
    assert u != [] ==> u[0] == LowerChar(t[0]) && u[|u| - 1] == LowerChar(t[|t| - 1]);
  }

  /** Normalising an already normalised guess changes nothing. */
  lemma NormalizeIdempotent(raw: string)
    ensures Normalize(Normalize(raw)) == Normalize(raw)
  {
    var t := Trim(raw);
    var u := Lower(t);
    assert u != [] ==> u[0] == LowerChar(t[0]) && u[|u| - 1] == LowerChar(t[|t| - 1]);
    TrimOfTrimmed(u);
    LowerIdempotent(t);
    assert Normalize(raw) == u;
    assert Normalize(u) == Lower(u);
  }

  lemma {:induction false} TrimStartSkipsPrefix(p: string, x: string)
    requires AllTrimmable(p)
    ensures TrimStart(p + x) == TrimStart(x)
  {
    if p != [] {
      assert (p + x)[0] == p[0];
      assert IsTrimmable((p + x)[0]) && (p + x)[1..] == p[1..] + x;
      assert TrimStart(p + x) == TrimStart(p[1..] + x);
      TrimStartSkipsPrefix(p[1..], x);
    } else {
      assert p + x == x;
    }
  }

  lemma {:induction false} TrimStartAppend(x: string, q: string)
    requires !AllTrimmable(x)
    ensures TrimStart(x + q) == TrimStart(x) + q
  {
    if IsTrimmable(x[0]) {
      assert (x + q)[1..] == x[1..] + q;
      TrimStartAppend(x[1..], q);
    }
  }

  lemma {:induction false} TrimEndSkipsSuffix(x: string, q: string)
    requires AllTrimmable(q)
    ensures TrimEnd(x + q) == TrimEnd(x)
  {
    if q != [] {
      var q' := q[..|q| - 1];
      assert (x + q)[|x + q| - 1] == q[|q| - 1];
      assert (x + q)[..|x + q| - 1] == x + q';
      assert TrimEnd(x + q) == TrimEnd(x + q');
      TrimEndSkipsSuffix(x, q');
    } else {
      assert x + q == x;
    }
  }

  /** Whitespace typed around a guess does not change how it is judged. */
  lemma PaddingIrrelevant(p: string, s: string, q: string)
    requires AllTrimmable(p) && AllTrimmable(q)
    ensures Normalize(p + s + q) == Normalize(s)
  {
    var x := p + s + q;
    assert x == p + (s + q);
    TrimStartSkipsPrefix(p, s + q);
    assert TrimStart(x) == TrimStart(s + q);
    if AllTrimmable(s) {
      BlankAppend(s, q);
      assert TrimStart(s + q) == [];
      assert Trim(x) == TrimEnd([]);
      assert Trim(x) == [] == Trim(s);
    } else {
      TrimStartAppend(s, q);
      TrimEndSkipsSuffix(TrimStart(s), q);
      assert Trim(x) == TrimEnd(TrimStart(s) + q);
      assert Trim(x) == Trim(s);
    }
  }

  lemma BlankAppend(s: string, q: string)
    requires AllTrimmable(s) && AllTrimmable(q)
    ensures AllTrimmable(s + q)
  {
    forall k | 0 <= k < |s + q| ensures IsTrimmable((s + q)[k]) {
      if k >= |s| { assert (s + q)[k] == q[k - |s|]; }
    }
  }

  lemma LowerDrop(x: string)
    requires x != []
    ensures Lower(x)[1..] == Lower(x[1..])
  {
  }

  lemma LowerTake(x: string)
    requires x != []
    ensures Lower(x)[..|x| - 1] == Lower(x[..|x| - 1])
  {
  }

  /** Lower-casing before or after dropping the leading blanks gives the same. */
  lemma {:induction false} TrimStartLower(x: string)
    ensures TrimStart(Lower(x)) == Lower(TrimStart(x))
    decreases |x|
  {
    if x != [] && IsTrimmable(x[0]) {
      assert IsTrimmable(Lower(x)[0]);
      LowerDrop(x);
      TrimStartLower(x[1..]);
    } else if x != [] {
      assert !IsTrimmable(Lower(x)[0]);
    }
  }

  /** Lower-casing before or after dropping the trailing blanks gives the same. */
  lemma {:induction false} TrimEndLower(x: string)
    ensures TrimEnd(Lower(x)) == Lower(TrimEnd(x))
    decreases |x|
  {
    if x != [] && IsTrimmable(x[|x| - 1]) {
      assert IsTrimmable(Lower(x)[|x| - 1]);
      LowerTake(x);
      TrimEndLower(x[..|x| - 1]);
    } else if x != [] {
      assert !IsTrimmable(Lower(x)[|x| - 1]);
    }
  }

  /** `trim()` and `toLowerCase()` commute. */
  lemma TrimLower(x: string)
    ensures Trim(Lower(x)) == Lower(Trim(x))
  {
    TrimStartLower(x);
    TrimEndLower(TrimStart(x));
  }

  /** A guess is judged the same whatever the letter case it is typed in. */
  lemma CaseIrrelevant(raw: string)
    ensures Normalize(Lower(raw)) == Normalize(raw)
  {
    TrimLower(raw);
    LowerIdempotent(Trim(raw));
  }
}
