/**
 * The exhaustive solver of solver.py: words are enumerated by walking the
 * automaton letter by letter while the trie still has the prefix, and
 * solutions are found by bounded backtracking over those words.
 */
module DfsSolver {
  import opened Text
  import opened Wrappers
  import opened Sorting
  import opened Tries
  import opened Automaton
  import WordIndex
  import Heuristics

  // ---------------------------------------------------------------------------
  // sorted(letters)

  /** Every non-empty finite set of characters has a least element. */
  lemma {:induction false} HasLeast(s: set<char>)
    requires s != {}
    ensures exists m :: IsLeast(s, m)
    decreases |s|
  {
    var y :| y in s;
    var rest := s - {y};
    if rest == {} {
      forall x | x in s ensures y <= x {
        assert x in rest || x == y;
      }
      assert IsLeast(s, y);
    } else {
      HasLeast(rest);
      var m :| IsLeast(rest, m);
      var least := if y < m then y else m;
      forall x | x in s ensures least <= x {
        assert x in rest || x == y;
      }
      assert IsLeast(s, least);
    }
  }

  predicate IsLeast(s: set<char>, m: char) {
    m in s && forall x :: x in s ==> m <= x
  }

  function Least(s: set<char>): (m: char)
    requires s != {}
    ensures m in s && forall x :: x in s ==> m <= x
  {
    HasLeast(s);
    var m :| IsLeast(s, m);
    m
  }

  /** Strictly increasing characters. */
  predicate Increasing(r: seq<char>) {
    forall i, j :: 0 <= i < j < |r| ==> r[i] < r[j]
  }

  /** `r` lists exactly the members of `s`. */
  predicate Lists(r: seq<char>, s: set<char>) {
    forall c :: c in r <==> c in s
  }

  /** Putting the least element in front of a sorted listing of the rest sorts the whole set. */
  lemma ConsLeast(s: set<char>, m: char, rest: seq<char>)
    requires IsLeast(s, m)
    requires Lists(rest, s - {m}) && Increasing(rest) && |rest| == |s - {m}|
    ensures Lists([m] + rest, s) && Increasing([m] + rest) && |[m] + rest| == |s|
  {
    forall i, j | 0 <= i < j < |[m] + rest| ensures ([m] + rest)[i] < ([m] + rest)[j] {
      if i > 0 {
        assert ([m] + rest)[i] == rest[i - 1] && ([m] + rest)[j] == rest[j - 1];
      } else {
        assert ([m] + rest)[j] == rest[j - 1];
        assert rest[j - 1] in s - {m};
      }
    }
  }

  /** `sorted(s)`: the characters of `s` in strictly increasing order. */
  function SortedChars(s: set<char>): (r: seq<char>)
    ensures |r| == |s| && Lists(r, s) && Increasing(r)
    decreases |s|
  {
    if s == {} then []
    else
      var m := Least(s);
      var rest := SortedChars(s - {m});
      ConsLeast(s, m, rest);
      [m] + rest
  }

  /** `xs[:n]`. */
  function Take<T>(xs: seq<T>, n: nat): (r: seq<T>)
    ensures |r| <= n && r <= xs
    ensures |xs| <= n ==> r == xs
    ensures |xs| > n ==> |r| == n
  {
    if |xs| <= n then xs else xs[..n]
  }

  // ---------------------------------------------------------------------------
  // _dfs_words

  /** Room left before a path exceeds `maxLen`; the enumeration's termination measure. */
  function Room(path: string, maxLen: int): nat {
    if |path| > maxLen then 0 else maxLen + 1 - |path|
  }

  /**
   * `_dfs_words(path, letter, ...)`: the words found below `path`, in the
   * order they are appended. `letter` is the last letter of `path`.
   */
  function DfsWords(t: Trie, a: Atm, path: string, letter: char, minLen: int, maxLen: int): seq<string>
    requires Valid(a)
    decreases Room(path, maxLen), 1, 0
  {
    if |path| > maxLen then []
    else
      var here := if |path| >= minLen && Search(t, Lower(path)) then [Lower(path)] else [];
      if !StartsWith(t, Lower(path)) then here
      else here + DfsChildren(t, a, path, SortedChars(GetValidNextLetters(a, [letter])), minLen, maxLen)
  }

  /** The loop over the sorted next letters. */
  function DfsChildren(t: Trie, a: Atm, path: string, nexts: seq<char>, minLen: int, maxLen: int): seq<string>
    requires Valid(a) && |path| <= maxLen
    decreases Room(path, maxLen), 0, |nexts|
  {
    if |nexts| == 0 then []
    else DfsWords(t, a, path + [nexts[0]], nexts[0], minLen, maxLen) + DfsChildren(t, a, path, nexts[1..], minLen, maxLen)
  }

  /** Adjacent letters of `w` from position `from` on are valid transitions. */
  predicate StepsFrom(a: Atm, w: string, from: int) {
    forall i :: 0 <= i && from <= i < |w| - 1 ==> MoveAt(a, w, i)
  }

  /** What a word found below `path` is: a stored word extending the lowered path by legal moves. */
  predicate FoundBelow(t: Trie, a: Atm, path: string, w: string, minLen: int, maxLen: int) {
    && |path| <= |w| <= maxLen && minLen <= |w|
    && Search(t, w)
    && w[..|path|] == Lower(path)
    && StepsFrom(a, w, |path| - 1)
  }

  /** Transitions do not see case. */
  lemma TransitionOfLower(a: Atm, c: char, d: char)
    ensures IsValidTransition(a, [LowerChar(c)], [LowerChar(d)]) == IsValidTransition(a, [c], [d])
  {
    UpperLowerChar(c);
    UpperLowerChar(d);
    assert Upper([LowerChar(c)]) == Upper([c]);
    assert Upper([LowerChar(d)]) == Upper([d]);
  }

  /** Soundness of the enumeration: every word found below `path` is `FoundBelow` it. */
  lemma {:induction false} DfsWordsSound(t: Trie, a: Atm, path: string, letter: char, minLen: int, maxLen: int, w: string)
    requires Valid(a) && |path| > 0 && letter == path[|path| - 1]
    requires w in DfsWords(t, a, path, letter, minLen, maxLen)
    ensures FoundBelow(t, a, path, w, minLen, maxLen)
    decreases Room(path, maxLen), 1, 0
  {
    if w != Lower(path) || !(|path| >= minLen && Search(t, Lower(path))) {
      var nexts := SortedChars(GetValidNextLetters(a, [letter]));
      NextsAreMoves(a, letter);
      DfsChildrenSound(t, a, path, nexts, minLen, maxLen, w);
    } else {
      PathIsFound(t, a, path, minLen, maxLen);
    }
  }

  /** Every letter the enumeration tries next may follow `letter`. */
  lemma NextsAreMoves(a: Atm, letter: char)
    requires Valid(a)
    ensures var nexts := SortedChars(GetValidNextLetters(a, [letter]));
      forall k :: 0 <= k < |nexts| ==> IsValidTransition(a, [letter], [nexts[k]])
  {
    var nexts := SortedChars(GetValidNextLetters(a, [letter]));
    forall k | 0 <= k < |nexts| ensures IsValidTransition(a, [letter], [nexts[k]]) {
      assert nexts[k] in nexts;
    }
  }

  /** The lowered path itself, when stored and long enough, is found below the path. */
  lemma PathIsFound(t: Trie, a: Atm, path: string, minLen: int, maxLen: int)
    requires minLen <= |path| <= maxLen && Search(t, Lower(path))
    ensures FoundBelow(t, a, path, Lower(path), minLen, maxLen)
  {
    var w := Lower(path);
    assert |w| == |path|;
    assert w[..|path|] == w;
    NoStepsLeft(a, w, |path| - 1);
  }

  /** No moves are left to check from the last letter on. */
  lemma NoStepsLeft(a: Atm, w: string, from: int)
    requires from >= |w| - 1
    ensures StepsFrom(a, w, from)
  {
  }

  /** A word found below `path + [n]` is found below `path` when `n` may follow the last letter of `path`. */
  lemma FoundBelowParent(t: Trie, a: Atm, path: string, n: char, w: string, minLen: int, maxLen: int)
    requires |path| > 0 && IsValidTransition(a, [path[|path| - 1]], [n])
    requires FoundBelow(t, a, path + [n], w, minLen, maxLen)
    ensures FoundBelow(t, a, path, w, minLen, maxLen)
  {
    LoweredChildPrefix(path, n, w);
    LoweredChildLast(path, n, w);
    LoweredLast(path, w);
    TransitionOfLower(a, path[|path| - 1], n);
    StepsBack(a, w, |path| - 1);
  }

  /** A word with the lowered `path + [n]` as prefix has the lowered `path` as prefix... */
  lemma LoweredChildPrefix(path: string, n: char, w: string)
    requires |path| < |w| && w[..|path| + 1] == Lower(path + [n])
    ensures w[..|path|] == Lower(path)
  {
    var child := path + [n];
    assert Lower(child)[..|path|] == Lower(path) by {
      LowerPrefix(child, |path|);
      assert child[..|path|] == path;
    }
    assert w[..|path|] == w[..|child|][..|path|] by {
      TakeTake(w, |path|, |child|);
    }
  }

  /** ... followed by the lowered `n`. */
  lemma LoweredChildLast(path: string, n: char, w: string)
    requires |path| < |w| && w[..|path| + 1] == Lower(path + [n])
    ensures w[|path|] == LowerChar(n)
  {
    assert w[|path|] == w[..|path| + 1][|path|];
  }

  /** The last letter of a lowered prefix. */
  lemma LoweredLast(path: string, w: string)
    requires 0 < |path| <= |w| && w[..|path|] == Lower(path)
    ensures w[|path| - 1] == LowerChar(path[|path| - 1])
  {
    assert w[|path| - 1] == w[..|path|][|path| - 1];
  }

  /** A prefix of a prefix. */
  lemma TakeTake<T>(s: seq<T>, i: int, j: int)
    requires 0 <= i <= j <= |s|
    ensures s[..i] == s[..j][..i]
  {
  }

  /** One more legal move in front of the legal moves from `i + 1` on. */
  lemma StepsBack(a: Atm, w: string, i: int)
    requires 0 <= i < |w| - 1 && StepsFrom(a, w, i + 1)
    requires IsValidTransition(a, [w[i]], [w[i + 1]])
    ensures StepsFrom(a, w, i)
  {
    assert MoveAt(a, w, i);
  }

  lemma {:induction false} DfsChildrenSound(t: Trie, a: Atm, path: string, nexts: seq<char>, minLen: int, maxLen: int, w: string)
    requires Valid(a) && 0 < |path| <= maxLen
    requires forall k :: 0 <= k < |nexts| ==> IsValidTransition(a, [path[|path| - 1]], [nexts[k]])
    requires w in DfsChildren(t, a, path, nexts, minLen, maxLen)
    ensures FoundBelow(t, a, path, w, minLen, maxLen)
    decreases Room(path, maxLen), 0, |nexts|
  {
    var n := nexts[0];
    if w in DfsWords(t, a, path + [n], n, minLen, maxLen) {
      DfsWordsSound(t, a, path + [n], n, minLen, maxLen, w);
      FoundBelowParent(t, a, path, n, w, minLen, maxLen);
    } else {
      DfsChildrenSound(t, a, path, nexts[1..], minLen, maxLen, w);
    }
  }

  /**
   * What the enumeration must find below `path`: a stored word spelled by an
   * upper-case continuation of `path` through puzzle letters and legal moves,
   * within the length bounds.
   */
  predicate Reachable(t: Trie, a: Atm, path: string, p: string, minLen: int, maxLen: int) {
    && |path| <= |p| <= maxLen && minLen <= |p|
    && p[..|path|] == path
    && Search(t, Lower(p))
    && (forall i :: |path| <= i < |p| ==> p[i] in a.allLetters)
    && StepsFrom(a, p, |path| - 1)
  }

  /** A stored word's lowered proper prefix is a prefix the trie starts with. */
  lemma PrefixOfStoredStarts(t: Trie, path: string, p: string)
    requires 0 < |path| <= |p| && p[..|path|] == path && Search(t, Lower(p))
    ensures StartsWith(t, Lower(path))
  {
    var lp := Lower(Lower(p));
    var lq := Lower(Lower(path));
    assert lq == lp[..|path|] by {
      forall i | 0 <= i < |path| ensures lq[i] == lp[i] {
        assert path[i] == p[..|path|][i];
      }
    }
    PrefixOfAcceptedWalks(t, lq, lp);
  }

  /** Completeness of the enumeration: every reachable word below `path` is found. */
  lemma {:induction false} DfsWordsComplete(t: Trie, a: Atm, path: string, letter: char, minLen: int, maxLen: int, p: string)
    requires Valid(a) && |path| > 0 && letter == path[|path| - 1]
    requires Reachable(t, a, path, p, minLen, maxLen)
    ensures Lower(p) in DfsWords(t, a, path, letter, minLen, maxLen)
    decreases Room(path, maxLen), 1, 0
  {
    if |p| == |path| {
      assert p == path;
    } else {
      PrefixOfStoredStarts(t, path, p);
      var n := p[|path|];
      assert p[|path| - 1] == letter by {
        assert p[..|path|][|path| - 1] == path[|path| - 1];
      }
      assert MoveAt(a, p, |path| - 1);
      assert n in GetValidNextLetters(a, [letter]);
      DfsChildrenComplete(t, a, path, SortedChars(GetValidNextLetters(a, [letter])), minLen, maxLen, p);
    }
  }

  lemma {:induction false} DfsChildrenComplete(t: Trie, a: Atm, path: string, nexts: seq<char>, minLen: int, maxLen: int, p: string)
    requires Valid(a) && 0 < |path| < |p|
    requires Reachable(t, a, path, p, minLen, maxLen)
    requires p[|path|] in nexts
    ensures Lower(p) in DfsChildren(t, a, path, nexts, minLen, maxLen)
    decreases Room(path, maxLen), 0, |nexts|
  {
    var n := nexts[0];
    if n == p[|path|] {
      var child := path + [n];
      assert p[..|child|] == child by {
        assert p[..|child|] == p[..|path|] + [p[|path|]];
      }
      assert Reachable(t, a, child, p, minLen, maxLen);
      DfsWordsComplete(t, a, child, n, minLen, maxLen, p);
    } else {
      DfsChildrenComplete(t, a, path, nexts[1..], minLen, maxLen, p);
    }
  }

  // ---------------------------------------------------------------------------
  // find_words_starting_with

  /** Words returned per letter. */
  const WordCap: nat := 50

  /** `find_words_starting_with(letter)`: the first 50 words of the enumeration from the upper-cased letter. */
  function FindWordsStartingWith(t: Trie, a: Atm, letter: char, minLen: int, maxLen: int): (r: seq<string>)
    requires Valid(a)
    ensures |r| <= WordCap
    ensures r <= DfsWords(t, a, [UpperChar(letter)], UpperChar(letter), minLen, maxLen)
  {
    Take(DfsWords(t, a, [UpperChar(letter)], UpperChar(letter), minLen, maxLen), WordCap)
  }

  /**
   * Every word returned for `letter` is a stored word within the length
   * bounds that starts with `letter` lower-cased and moves only between
   * different sides.
   */
  lemma FindWordsSound(t: Trie, a: Atm, letter: char, minLen: int, maxLen: int, w: string)
    requires Valid(a) && w in FindWordsStartingWith(t, a, letter, minLen, maxLen)
    ensures Search(t, w) && 1 <= |w| && minLen <= |w| <= maxLen
    ensures w[0] == LowerChar(letter) && WordIndex.StartOf(w) == UpperChar(letter)
    ensures StepsFrom(a, w, 0)
  {
    var start := [UpperChar(letter)];
    DfsWordsSound(t, a, start, UpperChar(letter), minLen, maxLen, w);
    assert w[0] == w[..1][0];
    UpperLowerChar(letter);
    UpperLowerChar(UpperChar(letter));
  }

  /**
   * The enumeration from `letter` holds every stored word that starts with
   * it and is spelled by puzzle letters and legal moves; only the cap of 50
   * can cut it short.
   */
  lemma FindWordsComplete(t: Trie, a: Atm, letter: char, minLen: int, maxLen: int, p: string)
    requires Valid(a)
    requires Reachable(t, a, [UpperChar(letter)], p, minLen, maxLen)
    ensures Lower(p) in DfsWords(t, a, [UpperChar(letter)], UpperChar(letter), minLen, maxLen)
    ensures |DfsWords(t, a, [UpperChar(letter)], UpperChar(letter), minLen, maxLen)| <= WordCap ==>
      Lower(p) in FindWordsStartingWith(t, a, letter, minLen, maxLen)
  {
    DfsWordsComplete(t, a, [UpperChar(letter)], UpperChar(letter), minLen, maxLen, p);
  }

  // ---------------------------------------------------------------------------
  // _dfs_solve

  /** Recursion deeper than this returns at once. */
  const MaxDepth: nat := 20
  /** The search stops adding solutions at this many. */
  const SolutionCap: nat := 100
  /** Letters tried for the first word. */
  const StartCap: nat := 6
  /** Words tried per start letter. */
  const TryCap: nat := 20
  /** `find_words_starting_with`'s default longest word. */
  const MaxWordLen: int := 15

  /**
   * The solver's fixed inputs: its trie, its automaton, the limits, the
   * target letters, and `tried`, the words tried from a start letter (the
   * first 20 of `find_words_starting_with`, see `MakeConfig`).
   */
  datatype Config = Config(trie: Trie, atm: Atm, maxWords: int, minWordLen: int, target: set<char>, tried: char -> seq<string>)

  /** What the backtracking relies on about the tried words: stored, of allowed length, starting with the letter. */
  predicate TriedSound(cfg: Config) {
    forall c, w :: w in cfg.tried(c) ==>
      Search(cfg.trie, w) && cfg.minWordLen <= |w| <= MaxWordLen && WordIndex.StartOf(w) == UpperChar(c)
  }

  /** The solver as `solve` sets it up: the target is the automaton's whole alphabet. */
  predicate ValidConfig(cfg: Config) {
    Valid(cfg.atm) && cfg.target == cfg.atm.allLetters && TriedSound(cfg)
  }

  /** Levels left before the depth cut. */
  function DepthRoom(depth: nat): nat {
    if depth > MaxDepth then 0 else MaxDepth + 1 - depth
  }

  /** `sorted(target_letters)[:6]`. */
  function FirstStarts(cfg: Config): seq<char> {
    Take(SortedChars(cfg.target), StartCap)
  }

  /** The start letters of the next word: the first six letters for the first word, else the chain letter. */
  function StartLetters(cfg: Config, sequence: seq<string>, current: char): (r: seq<char>)
    ensures |sequence| == 0 ==> r == FirstStarts(cfg)
    ensures |sequence| > 0 ==> r == [current]
  {
    if |sequence| == 0 then FirstStarts(cfg) else [current]
  }

  /**
   * `_dfs_solve(sequence, used, current, ...)`, with the shared solution list
   * threaded through: `sols` on entry, the result on exit.
   */
  function DfsSolve(cfg: Config, sequence: seq<string>, used: set<char>, current: char, depth: nat, sols: seq<seq<string>>): seq<seq<string>>
    decreases DepthRoom(depth), 2, 0
  {
    if depth > MaxDepth then sols
    else if used == cfg.target then sols + [sequence]
    else if |sequence| >= cfg.maxWords then sols
    else if |sols| >= SolutionCap then sols
    else TryStarts(cfg, sequence, used, depth, StartLetters(cfg, sequence, current), sols)
  }

  /** The loop over start letters; it ends early when a word loop returned. */
  function TryStarts(cfg: Config, sequence: seq<string>, used: set<char>, depth: nat, starts: seq<char>, sols: seq<seq<string>>): seq<seq<string>>
    requires depth <= MaxDepth
    decreases DepthRoom(depth), 1, |starts|
  {
    if |starts| == 0 then sols
    else
      var (after, returned) := TryWords(cfg, sequence, used, depth, cfg.tried(starts[0]), sols);
      if returned then after else TryStarts(cfg, sequence, used, depth, starts[1..], after)
  }

  /**
   * The loop over the tried words: a legal word that adds a letter is pushed,
   * searched below and popped again; the flag says the loop returned because
   * the solution cap was reached.
   */
  function TryWords(cfg: Config, sequence: seq<string>, used: set<char>, depth: nat, words: seq<string>, sols: seq<seq<string>>): (seq<seq<string>>, bool)
    requires depth <= MaxDepth
    decreases DepthRoom(depth), 0, |words|
  {
    if |words| == 0 then (sols, false)
    else
      var w := words[0];
      var newUsed := used + Heuristics.WordLetters(w);
      if !IsValidWord(cfg.atm, w) || |newUsed| <= |used| then TryWords(cfg, sequence, used, depth, words[1..], sols)
      else
        var after := DfsSolve(cfg, sequence + [w], newUsed, UpperChar(w[|w| - 1]), depth + 1, sols);
        if |after| >= SolutionCap then (after, true)
        else TryWords(cfg, sequence, used, depth, words[1..], after)
  }

  /** Recording only appends, and the count never passes the cap when below it on entry. */
  lemma {:induction false} DfsSolveBounds(cfg: Config, sequence: seq<string>, used: set<char>, current: char, depth: nat, sols: seq<seq<string>>)
    ensures sols <= DfsSolve(cfg, sequence, used, current, depth, sols)
    ensures |sols| < SolutionCap ==> |DfsSolve(cfg, sequence, used, current, depth, sols)| <= SolutionCap
    ensures |sols| >= SolutionCap && used != cfg.target ==> DfsSolve(cfg, sequence, used, current, depth, sols) == sols
    decreases DepthRoom(depth), 2, 0, 0
  {
    if depth <= MaxDepth && used != cfg.target && |sequence| < cfg.maxWords && |sols| < SolutionCap {
      TryStartsBounds(cfg, sequence, used, depth, StartLetters(cfg, sequence, current), sols);
    }
  }

  lemma {:induction false} TryStartsBounds(cfg: Config, sequence: seq<string>, used: set<char>, depth: nat, starts: seq<char>, sols: seq<seq<string>>)
    requires depth <= MaxDepth
    ensures sols <= TryStarts(cfg, sequence, used, depth, starts, sols)
    ensures |sols| < SolutionCap ==> |TryStarts(cfg, sequence, used, depth, starts, sols)| <= SolutionCap
    decreases DepthRoom(depth), 1, |starts|, 0
  {
    if |starts| > 0 {
      var (after, returned) := TryWords(cfg, sequence, used, depth, cfg.tried(starts[0]), sols);
      TryWordsBounds(cfg, sequence, used, depth, cfg.tried(starts[0]), sols);
      if !returned {
        TryStartsBounds(cfg, sequence, used, depth, starts[1..], after);
      }
    }
  }

  lemma {:induction false} TryWordsBounds(cfg: Config, sequence: seq<string>, used: set<char>, depth: nat, words: seq<string>, sols: seq<seq<string>>)
    requires depth <= MaxDepth
    ensures sols <= TryWords(cfg, sequence, used, depth, words, sols).0
    ensures |sols| < SolutionCap ==> |TryWords(cfg, sequence, used, depth, words, sols).0| <= SolutionCap
    ensures |sols| < SolutionCap && !TryWords(cfg, sequence, used, depth, words, sols).1 ==>
      |TryWords(cfg, sequence, used, depth, words, sols).0| < SolutionCap
    decreases DepthRoom(depth), 0, |words|, 1
  {
    if |words| > 0 {
      var w := words[0];
      if !IsValidWord(cfg.atm, w) || |used + Heuristics.WordLetters(w)| <= |used| {
        TryWordsBounds(cfg, sequence, used, depth, words[1..], sols);
      } else {
        TryWordsPushBounds(cfg, sequence, used, depth, words, sols);
      }
    }
  }

  lemma {:induction false} TryWordsPushBounds(cfg: Config, sequence: seq<string>, used: set<char>, depth: nat, words: seq<string>, sols: seq<seq<string>>)
    requires depth <= MaxDepth && |words| > 0
    requires IsValidWord(cfg.atm, words[0]) && |used + Heuristics.WordLetters(words[0])| > |used|
    ensures sols <= TryWords(cfg, sequence, used, depth, words, sols).0
    ensures |sols| < SolutionCap ==> |TryWords(cfg, sequence, used, depth, words, sols).0| <= SolutionCap
    ensures |sols| < SolutionCap && !TryWords(cfg, sequence, used, depth, words, sols).1 ==>
      |TryWords(cfg, sequence, used, depth, words, sols).0| < SolutionCap
    decreases DepthRoom(depth), 0, |words|, 0
  {
    var w := words[0];
    var after := DfsSolve(cfg, sequence + [w], used + Heuristics.WordLetters(w), UpperChar(w[|w| - 1]), depth + 1, sols);
    PushStep(cfg, sequence, used, depth, words, sols);
    DfsSolveBounds(cfg, sequence + [w], used + Heuristics.WordLetters(w), UpperChar(w[|w| - 1]), depth + 1, sols);
    TryWordsBounds(cfg, sequence, used, depth, words[1..], after);
  }

  /** A word the solver may push: stored, of allowed length, and able to follow the sequence. */
  predicate Fits(cfg: Config, sequence: seq<string>, w: string) {
    && Search(cfg.trie, w) && cfg.minWordLen <= |w| <= MaxWordLen
    && (|sequence| == 0 ==> WordIndex.StartOf(w) in FirstStarts(cfg))
    && (|sequence| > 0 ==> Heuristics.EndingOf(sequence[|sequence| - 1]) == Some(WordIndex.StartOf(w)))
  }

  /** Every word of `words` fits the sequence. */
  predicate AllFit(cfg: Config, sequence: seq<string>, words: seq<string>) {
    |words| == 0 || (Fits(cfg, sequence, words[0]) && AllFit(cfg, sequence, words[1..]))
  }

  /** A legal, stored word of allowed length. */
  predicate WordOk(cfg: Config, w: string) {
    IsValidWord(cfg.atm, w) && Search(cfg.trie, w) && cfg.minWordLen <= |w| <= MaxWordLen
  }

  /** `w` may be pushed on `ws`: legal and stored, chained, adding a letter, within `max_words`. */
  predicate Extends(cfg: Config, ws: seq<string>, w: string) {
    && WordOk(cfg, w)
    && (|ws| == 0 ==> WordIndex.StartOf(w) in FirstStarts(cfg))
    && (|ws| > 0 ==> Heuristics.EndingOf(ws[|ws| - 1]) == Some(WordIndex.StartOf(w)))
    && |Heuristics.LettersOfAll(ws)| < |Heuristics.LettersOfAll(ws) + Heuristics.WordLetters(w)|
    && |ws| < cfg.maxWords
  }

  /** A word sequence the solver can build: each word may be pushed on the words before it. */
  predicate Sequence(cfg: Config, ws: seq<string>)
    decreases |ws|
  {
    |ws| == 0 || (Sequence(cfg, ws[..|ws| - 1]) && Extends(cfg, ws[..|ws| - 1], ws[|ws| - 1]))
  }

  /**
   * A built sequence is chained, holds only legal stored words, has no more
   * words than letters (each word adds one), starts from one of the first six
   * letters and has at most `max_words` words.
   */
  lemma SequenceMeans(cfg: Config, ws: seq<string>)
    requires Sequence(cfg, ws)
    ensures Heuristics.Chained(ws)
    ensures forall i :: 0 <= i < |ws| ==> WordOk(cfg, ws[i])
    ensures |ws| <= |Heuristics.LettersOfAll(ws)|
    ensures |ws| > 0 ==> WordIndex.StartOf(ws[0]) in FirstStarts(cfg)
    ensures |ws| <= cfg.maxWords || |ws| == 0
  {
    SequenceIsChained(cfg, ws);
    SequenceWordsOk(cfg, ws);
    SequenceAddsLetters(cfg, ws);
    SequenceFirstStart(cfg, ws);
  }

  lemma {:induction false} SequenceIsChained(cfg: Config, ws: seq<string>)
    requires Sequence(cfg, ws)
    ensures Heuristics.Chained(ws)
    decreases |ws|
  {
    if |ws| > 0 {
      SequencePop(cfg, ws);
      SequenceIsChained(cfg, ws[..|ws| - 1]);
      Heuristics.ChainedByLast(ws);
    }
  }

  /** The last word of a built sequence may be pushed on the words before it. */
  lemma SequencePop(cfg: Config, ws: seq<string>)
    requires Sequence(cfg, ws) && |ws| > 0
    ensures Sequence(cfg, ws[..|ws| - 1])
    ensures Extends(cfg, ws[..|ws| - 1], ws[|ws| - 1])
    ensures |ws| > 1 ==> Heuristics.Linked(ws, |ws| - 1)
  {
  }

  lemma SequenceWordsOk(cfg: Config, ws: seq<string>)
    requires Sequence(cfg, ws)
    ensures forall i :: 0 <= i < |ws| ==> WordOk(cfg, ws[i])
  {
    forall i | 0 <= i < |ws| ensures WordOk(cfg, ws[i]) {
      SequenceWordOk(cfg, ws, i);
    }
  }

  lemma {:induction false} SequenceWordOk(cfg: Config, ws: seq<string>, i: int)
    requires Sequence(cfg, ws) && 0 <= i < |ws|
    ensures WordOk(cfg, ws[i])
    decreases |ws|
  {
    if i < |ws| - 1 {
      var pre := ws[..|ws| - 1];
      SequenceWordOk(cfg, pre, i);
      assert ws[i] == pre[i];
    }
  }

  lemma {:induction false} SequenceAddsLetters(cfg: Config, ws: seq<string>)
    requires Sequence(cfg, ws)
    ensures |ws| <= |Heuristics.LettersOfAll(ws)|
    decreases |ws|
  {
    if |ws| > 0 {
      SequenceAddsLetters(cfg, ws[..|ws| - 1]);
    }
  }

  lemma {:induction false} SequenceFirstStart(cfg: Config, ws: seq<string>)
    requires Sequence(cfg, ws)
    ensures |ws| > 0 ==> WordIndex.StartOf(ws[0]) in FirstStarts(cfg)
    decreases |ws|
  {
    if |ws| > 1 {
      var pre := ws[..|ws| - 1];
      SequenceFirstStart(cfg, pre);
      assert ws[0] == pre[0];
    }
  }

  /** The arguments of a `_dfs_solve` call: a built sequence, its letters and its chain letter. */
  predicate PathOk(cfg: Config, ws: seq<string>, used: set<char>, current: char) {
    && Sequence(cfg, ws)
    && used == Heuristics.LettersOfAll(ws)
    && (|ws| > 0 ==> Heuristics.EndingOf(ws[|ws| - 1]) == Some(current))
  }

  /** A recorded solution: a built sequence whose letters are exactly the target letters. */
  predicate DfsSolutionOk(cfg: Config, sol: seq<string>) {
    Sequence(cfg, sol) && Heuristics.LettersOfAll(sol) == cfg.target
  }

  /** Pushing a fitting legal word that adds a letter gives valid arguments for the recursive call. */
  lemma ChildPathOk(cfg: Config, ws: seq<string>, used: set<char>, w: string)
    requires Sequence(cfg, ws) && used == Heuristics.LettersOfAll(ws) && |ws| < cfg.maxWords
    requires Fits(cfg, ws, w) && IsValidWord(cfg.atm, w) && |used + Heuristics.WordLetters(w)| > |used|
    ensures PathOk(cfg, ws + [w], used + Heuristics.WordLetters(w), UpperChar(w[|w| - 1]))
  {
    assert Extends(cfg, ws, w);
    SequencePush(cfg, ws, w);
    LettersPush(ws, w);
  }

  /** A word that may be pushed on a built sequence gives a built sequence. */
  lemma SequencePush(cfg: Config, ws: seq<string>, w: string)
    requires Sequence(cfg, ws) && Extends(cfg, ws, w)
    ensures Sequence(cfg, ws + [w])
  {
    assert (ws + [w])[..|ws|] == ws;
  }

  /** The letters of a sequence with one more word. */
  lemma LettersPush(ws: seq<string>, w: string)
    ensures Heuristics.LettersOfAll(ws + [w]) == Heuristics.LettersOfAll(ws) + Heuristics.WordLetters(w)
  {
    assert (ws + [w])[..|ws|] == ws;
  }

  /** Which start letters a call may try: one of the first six for the first word, else the chain letter. */
  predicate StartOk(cfg: Config, ws: seq<string>, current: char, start: char) {
    && (|ws| == 0 ==> start in FirstStarts(cfg))
    && (|ws| > 0 ==> start == current)
  }

  lemma StartLettersOk(cfg: Config, ws: seq<string>, current: char)
    ensures forall i :: 0 <= i < |StartLetters(cfg, ws, current)| ==> StartOk(cfg, ws, current, StartLetters(cfg, ws, current)[i])
  {
  }

  /** Every word tried from an allowed start letter fits the sequence. */
  lemma TriedFits(cfg: Config, ws: seq<string>, used: set<char>, current: char, start: char, w: string)
    requires ValidConfig(cfg) && PathOk(cfg, ws, used, current) && StartOk(cfg, ws, current, start)
    requires w in cfg.tried(start)
    ensures Fits(cfg, ws, w)
  {
    assert WordIndex.StartOf(w) == UpperChar(start);
    if |ws| == 0 {
      assert start in SortedChars(cfg.target);
    } else {
      var last := ws[|ws| - 1];
      UpperLowerChar(last[|last| - 1]);
    }
  }

  lemma {:induction false} TriedAllFit(cfg: Config, ws: seq<string>, used: set<char>, current: char, start: char, words: seq<string>)
    requires ValidConfig(cfg) && PathOk(cfg, ws, used, current) && StartOk(cfg, ws, current, start)
    requires forall i :: 0 <= i < |words| ==> words[i] in cfg.tried(start)
    ensures AllFit(cfg, ws, words)
  {
    if |words| > 0 {
      TriedFits(cfg, ws, used, current, start, words[0]);
      TriedAllFit(cfg, ws, used, current, start, words[1..]);
    }
  }

  /** Soundness of `_dfs_solve`: every solution it records is a covering built sequence. */
  lemma {:induction false} DfsSolveSound(cfg: Config, ws: seq<string>, used: set<char>, current: char, depth: nat, sols: seq<seq<string>>, k: int)
    requires ValidConfig(cfg) && PathOk(cfg, ws, used, current)
    requires |sols| <= k < |DfsSolve(cfg, ws, used, current, depth, sols)|
    ensures DfsSolutionOk(cfg, DfsSolve(cfg, ws, used, current, depth, sols)[k])
    decreases DepthRoom(depth), 2, 0, 0
  {
    if depth > MaxDepth {
    } else if used == cfg.target {
      assert DfsSolve(cfg, ws, used, current, depth, sols)[k] == ws;
    } else if |ws| < cfg.maxWords && |sols| < SolutionCap {
      var starts := StartLetters(cfg, ws, current);
      StartLettersOk(cfg, ws, current);
      TryStartsSound(cfg, ws, used, current, depth, starts, sols, k);
    }
  }

  lemma {:induction false} TryStartsSound(cfg: Config, ws: seq<string>, used: set<char>, current: char, depth: nat, starts: seq<char>, sols: seq<seq<string>>, k: int)
    requires ValidConfig(cfg) && PathOk(cfg, ws, used, current) && |ws| < cfg.maxWords && depth <= MaxDepth
    requires forall i :: 0 <= i < |starts| ==> StartOk(cfg, ws, current, starts[i])
    requires |sols| <= k < |TryStarts(cfg, ws, used, depth, starts, sols)|
    ensures DfsSolutionOk(cfg, TryStarts(cfg, ws, used, depth, starts, sols)[k])
    decreases DepthRoom(depth), 1, |starts|, 1
  {
    var after := TryWords(cfg, ws, used, depth, cfg.tried(starts[0]), sols).0;
    if k < |after| {
      TryStartsHeadSound(cfg, ws, used, current, depth, starts, sols, k);
    } else {
      TryStartsSound(cfg, ws, used, current, depth, starts[1..], after, k);
    }
  }

  /** The case of a solution recorded by the first start letter's word loop. */
  lemma {:induction false} TryStartsHeadSound(cfg: Config, ws: seq<string>, used: set<char>, current: char, depth: nat, starts: seq<char>, sols: seq<seq<string>>, k: int)
    requires ValidConfig(cfg) && PathOk(cfg, ws, used, current) && |ws| < cfg.maxWords && depth <= MaxDepth
    requires |starts| > 0 && StartOk(cfg, ws, current, starts[0])
    requires |sols| <= k < |TryWords(cfg, ws, used, depth, cfg.tried(starts[0]), sols).0|
    requires k < |TryStarts(cfg, ws, used, depth, starts, sols)|
    ensures DfsSolutionOk(cfg, TryStarts(cfg, ws, used, depth, starts, sols)[k])
    decreases DepthRoom(depth), 1, |starts|, 0
  {
    var words := cfg.tried(starts[0]);
    TriedAllFit(cfg, ws, used, current, starts[0], words);
    TryWordsSound(cfg, ws, used, depth, words, sols, k);
    HeadKept(cfg, ws, used, depth, starts, sols, k);
    SolutionAt(cfg, TryStarts(cfg, ws, used, depth, starts, sols), TryWords(cfg, ws, used, depth, words, sols).0, k);
  }

  /** A solution recorded while trying the first start letter stays in place to the end. */
  lemma HeadKept(cfg: Config, ws: seq<string>, used: set<char>, depth: nat, starts: seq<char>, sols: seq<seq<string>>, k: int)
    requires depth <= MaxDepth && |starts| > 0
    requires 0 <= k < |TryWords(cfg, ws, used, depth, cfg.tried(starts[0]), sols).0|
    ensures k < |TryStarts(cfg, ws, used, depth, starts, sols)|
    ensures TryStarts(cfg, ws, used, depth, starts, sols)[k] == TryWords(cfg, ws, used, depth, cfg.tried(starts[0]), sols).0[k]
  {
    var (after, returned) := TryWords(cfg, ws, used, depth, cfg.tried(starts[0]), sols);
    if !returned {
      TryStartsBounds(cfg, ws, used, depth, starts[1..], after);
    }
  }

  lemma {:induction false} TryWordsSound(cfg: Config, ws: seq<string>, used: set<char>, depth: nat, words: seq<string>, sols: seq<seq<string>>, k: int)
    requires ValidConfig(cfg) && Sequence(cfg, ws) && used == Heuristics.LettersOfAll(ws) && |ws| < cfg.maxWords && depth <= MaxDepth
    requires AllFit(cfg, ws, words)
    requires |sols| <= k < |TryWords(cfg, ws, used, depth, words, sols).0|
    ensures DfsSolutionOk(cfg, TryWords(cfg, ws, used, depth, words, sols).0[k])
    decreases DepthRoom(depth), 0, |words|, 2
  {
    var w := words[0];
    if !IsValidWord(cfg.atm, w) || |used + Heuristics.WordLetters(w)| <= |used| {
      TryWordsSound(cfg, ws, used, depth, words[1..], sols, k);
    } else {
      TryWordsPushSound(cfg, ws, used, depth, words, sols, k);
    }
  }

  /** The word loop's step for a pushed word, unfolded once. */
  lemma PushStep(cfg: Config, ws: seq<string>, used: set<char>, depth: nat, words: seq<string>, sols: seq<seq<string>>)
    requires depth <= MaxDepth && |words| > 0
    requires IsValidWord(cfg.atm, words[0]) && |used + Heuristics.WordLetters(words[0])| > |used|
    ensures var w := words[0];
      var after := DfsSolve(cfg, ws + [w], used + Heuristics.WordLetters(w), UpperChar(w[|w| - 1]), depth + 1, sols);
      TryWords(cfg, ws, used, depth, words, sols) ==
        if |after| >= SolutionCap then (after, true) else TryWords(cfg, ws, used, depth, words[1..], after)
  {
  }

  /** The case of a word that is pushed and searched below. */
  lemma {:induction false} TryWordsPushSound(cfg: Config, ws: seq<string>, used: set<char>, depth: nat, words: seq<string>, sols: seq<seq<string>>, k: int)
    requires ValidConfig(cfg) && Sequence(cfg, ws) && used == Heuristics.LettersOfAll(ws) && |ws| < cfg.maxWords && depth <= MaxDepth
    requires AllFit(cfg, ws, words) && |words| > 0
    requires IsValidWord(cfg.atm, words[0]) && |used + Heuristics.WordLetters(words[0])| > |used|
    requires |sols| <= k < |TryWords(cfg, ws, used, depth, words, sols).0|
    ensures DfsSolutionOk(cfg, TryWords(cfg, ws, used, depth, words, sols).0[k])
    decreases DepthRoom(depth), 0, |words|, 1
  {
    var w := words[0];
    var newUsed := used + Heuristics.WordLetters(w);
    var after := DfsSolve(cfg, ws + [w], newUsed, UpperChar(w[|w| - 1]), depth + 1, sols);
    if k < |after| {
      TryWordsChildSound(cfg, ws, used, depth, words, sols, k);
    } else {
      PushStep(cfg, ws, used, depth, words, sols);
      var rest := TryWords(cfg, ws, used, depth, words[1..], after).0;
      TryWordsSound(cfg, ws, used, depth, words[1..], after, k);
      SolutionAt(cfg, TryWords(cfg, ws, used, depth, words, sols).0, rest, k);
    }
  }

  /** A solution found below the pushed word itself. */
  lemma {:induction false} TryWordsChildSound(cfg: Config, ws: seq<string>, used: set<char>, depth: nat, words: seq<string>, sols: seq<seq<string>>, k: int)
    requires ValidConfig(cfg) && Sequence(cfg, ws) && used == Heuristics.LettersOfAll(ws) && |ws| < cfg.maxWords && depth <= MaxDepth
    requires AllFit(cfg, ws, words) && |words| > 0
    requires IsValidWord(cfg.atm, words[0]) && |used + Heuristics.WordLetters(words[0])| > |used|
    requires |sols| <= k < |DfsSolve(cfg, ws + [words[0]], used + Heuristics.WordLetters(words[0]), UpperChar(words[0][|words[0]| - 1]), depth + 1, sols)|
    requires k < |TryWords(cfg, ws, used, depth, words, sols).0|
    ensures DfsSolutionOk(cfg, TryWords(cfg, ws, used, depth, words, sols).0[k])
    decreases DepthRoom(depth), 0, |words|, 0
  {
    var w := words[0];
    var after := DfsSolve(cfg, ws + [w], used + Heuristics.WordLetters(w), UpperChar(w[|w| - 1]), depth + 1, sols);
    ChildSound(cfg, ws, used, depth, w, sols, k);
    ChildKept(cfg, ws, used, depth, words, sols, k);
    SolutionAt(cfg, TryWords(cfg, ws, used, depth, words, sols).0, after, k);
  }

  /** The search below a pushed word records only sound solutions. */
  lemma {:induction false} ChildSound(cfg: Config, ws: seq<string>, used: set<char>, depth: nat, w: string, sols: seq<seq<string>>, k: int)
    requires ValidConfig(cfg) && Sequence(cfg, ws) && used == Heuristics.LettersOfAll(ws) && |ws| < cfg.maxWords && depth <= MaxDepth
    requires Fits(cfg, ws, w) && IsValidWord(cfg.atm, w) && |used + Heuristics.WordLetters(w)| > |used|
    requires |sols| <= k < |DfsSolve(cfg, ws + [w], used + Heuristics.WordLetters(w), UpperChar(w[|w| - 1]), depth + 1, sols)|
    ensures DfsSolutionOk(cfg, DfsSolve(cfg, ws + [w], used + Heuristics.WordLetters(w), UpperChar(w[|w| - 1]), depth + 1, sols)[k])
    decreases DepthRoom(depth), 0, 0, 0
  {
    ChildPathOk(cfg, ws, used, w);
    DfsSolveSound(cfg, ws + [w], used + Heuristics.WordLetters(w), UpperChar(w[|w| - 1]), depth + 1, sols, k);
  }

  /** A solution recorded below the pushed word stays in place to the end of the word loop. */
  lemma ChildKept(cfg: Config, ws: seq<string>, used: set<char>, depth: nat, words: seq<string>, sols: seq<seq<string>>, k: int)
    requires depth <= MaxDepth && |words| > 0
    requires IsValidWord(cfg.atm, words[0]) && |used + Heuristics.WordLetters(words[0])| > |used|
    requires 0 <= k < |DfsSolve(cfg, ws + [words[0]], used + Heuristics.WordLetters(words[0]), UpperChar(words[0][|words[0]| - 1]), depth + 1, sols)|
    ensures k < |TryWords(cfg, ws, used, depth, words, sols).0|
    ensures TryWords(cfg, ws, used, depth, words, sols).0[k] ==
      DfsSolve(cfg, ws + [words[0]], used + Heuristics.WordLetters(words[0]), UpperChar(words[0][|words[0]| - 1]), depth + 1, sols)[k]
  {
    var w := words[0];
    var after := DfsSolve(cfg, ws + [w], used + Heuristics.WordLetters(w), UpperChar(w[|w| - 1]), depth + 1, sols);
    PushStep(cfg, ws, used, depth, words, sols);
    TryWordsBounds(cfg, ws, used, depth, words[1..], after);
  }

  /** Soundness carries over between equal entries. */
  lemma SolutionAt(cfg: Config, xs: seq<seq<string>>, ys: seq<seq<string>>, k: int)
    requires 0 <= k < |xs| && k < |ys| && xs[k] == ys[k] && DfsSolutionOk(cfg, ys[k])
    ensures DfsSolutionOk(cfg, xs[k])
  {
  }

  // ---------------------------------------------------------------------------
  // LetterBoxSolver set-up and solve

  /** The words `_dfs_solve` tries from `start`: the first 20 of `find_words_starting_with(start, min_word_length)`. */
  function TriedWords(t: Trie, a: Atm, minWordLen: int, start: char): (r: seq<string>)
    requires Valid(a)
    ensures |r| <= TryCap && r <= FindWordsStartingWith(t, a, start, minWordLen, MaxWordLen)
  {
    Take(FindWordsStartingWith(t, a, start, minWordLen, MaxWordLen), TryCap)
  }

  /** A solver over a loaded trie and an automaton, targeting the automaton's whole alphabet. */
  function ConfigOf(trie: Trie, atm: Atm, maxWords: int, minWordLen: int): Config
    requires Valid(atm)
  {
    Config(trie, atm, maxWords, minWordLen, atm.allLetters, c => TriedWords(trie, atm, minWordLen, c))
  }

  /** The words tried from a letter are stored, of allowed length, and start with that letter. */
  lemma TriedWordsSound(t: Trie, a: Atm, minWordLen: int, c: char, w: string)
    requires Valid(a) && w in TriedWords(t, a, minWordLen, c)
    ensures Search(t, w) && minWordLen <= |w| <= MaxWordLen && WordIndex.StartOf(w) == UpperChar(c)
  {
    FindWordsSound(t, a, c, minWordLen, MaxWordLen, w);
  }

  /** Such a solver meets what the backtracking relies on. */
  lemma ConfigOfIsValid(trie: Trie, atm: Atm, maxWords: int, minWordLen: int)
    requires Valid(atm)
    ensures ValidConfig(ConfigOf(trie, atm, maxWords, minWordLen))
  {
    ConfigOfTriedSound(trie, atm, maxWords, minWordLen);
  }

  lemma ConfigOfTriedSound(trie: Trie, atm: Atm, maxWords: int, minWordLen: int)
    requires Valid(atm)
    ensures TriedSound(ConfigOf(trie, atm, maxWords, minWordLen))
  {
    var cfg := ConfigOf(trie, atm, maxWords, minWordLen);
    assert cfg.trie == trie && cfg.minWordLen == minWordLen;
    var tried := cfg.tried;
    assert tried == (c => TriedWords(trie, atm, minWordLen, c));
    forall c, w | w in tried(c)
      ensures Search(trie, w) && minWordLen <= |w| <= MaxWordLen && WordIndex.StartOf(w) == UpperChar(c)
    {
      TriedOf(trie, atm, minWordLen, tried, c, w);
    }
  }

  /** A word tried by the solver built from `trie` and `atm`. */
  lemma TriedOf(trie: Trie, atm: Atm, minWordLen: int, tried: char -> seq<string>, c: char, w: string)
    requires Valid(atm) && tried == (c => TriedWords(trie, atm, minWordLen, c)) && w in tried(c)
    ensures Search(trie, w) && minWordLen <= |w| <= MaxWordLen && WordIndex.StartOf(w) == UpperChar(c)
  {
    assert tried(c) == TriedWords(trie, atm, minWordLen, c);
    TriedWordsSound(trie, atm, minWordLen, c, w);
  }

  /**
   * `LetterBoxSolver(sides, dictionary_file)` ready for
   * `solve(max_words, min_word_length)`: the automaton of the sides and the
   * trie loaded from the dictionary.
   */
  function MakeConfig(sides: seq<string>, file: Option<seq<string>>, maxWords: int, minWordLen: int): (cfg: Config)
    ensures ValidConfig(cfg)
  {
    ConfigOfIsValid(LoadFromFile(Empty(), file).0, Build(sides), maxWords, minWordLen);
    ConfigOf(LoadFromFile(Empty(), file).0, Build(sides), maxWords, minWordLen)
  }

  /** The loop of `solve`: `_dfs_solve([], set(), letter, ...)` for each of `letters` in turn. */
  function SolveFrom(cfg: Config, letters: seq<char>, sols: seq<seq<string>>): seq<seq<string>>
    decreases |letters|
  {
    if |letters| == 0 then sols
    else SolveFrom(cfg, letters[1..], DfsSolve(cfg, [], {}, letters[0], 0, sols))
  }

  /** With no words yet, the letter `_dfs_solve` is given plays no part. */
  lemma StartLetterIgnored(cfg: Config, used: set<char>, c: char, d: char, depth: nat, sols: seq<seq<string>>)
    ensures DfsSolve(cfg, [], used, c, depth, sols) == DfsSolve(cfg, [], used, d, depth, sols)
  {
    assert StartLetters(cfg, [], c) == StartLetters(cfg, [], d);
  }

  /**
   * Each pass of `solve`'s loop runs the same search whatever letter it is
   * given: the search is repeated once per puzzle letter.
   */
  lemma SolveFromStep(cfg: Config, letters: seq<char>, sols: seq<seq<string>>, c: char)
    requires |letters| > 0
    ensures SolveFrom(cfg, letters, sols) == SolveFrom(cfg, letters[1..], DfsSolve(cfg, [], {}, c, 0, sols))
  {
    StartLetterIgnored(cfg, {}, letters[0], c, 0, sols);
  }

  /** The loop only appends, and stops adding at 100 solutions once the target is not empty. */
  lemma {:induction false} SolveFromBounds(cfg: Config, letters: seq<char>, sols: seq<seq<string>>)
    requires cfg.target != {}
    ensures sols <= SolveFrom(cfg, letters, sols)
    ensures |sols| <= SolutionCap ==> |SolveFrom(cfg, letters, sols)| <= SolutionCap
    decreases |letters|
  {
    if |letters| > 0 {
      var after := DfsSolve(cfg, [], {}, letters[0], 0, sols);
      DfsSolveBounds(cfg, [], {}, letters[0], 0, sols);
      SolveFromBounds(cfg, letters[1..], after);
    }
  }

  /** Every solution the loop appends is a covering built sequence. */
  lemma {:induction false} SolveFromSound(cfg: Config, letters: seq<char>, sols: seq<seq<string>>, k: int)
    requires ValidConfig(cfg) && cfg.target != {}
    requires |sols| <= k < |SolveFrom(cfg, letters, sols)|
    ensures DfsSolutionOk(cfg, SolveFrom(cfg, letters, sols)[k])
    decreases |letters|
  {
    var after := DfsSolve(cfg, [], {}, letters[0], 0, sols);
    if k < |after| {
      DfsSolveSound(cfg, [], {}, letters[0], 0, sols, k);
      SolveFromBounds(cfg, letters[1..], after);
      SolutionAt(cfg, SolveFrom(cfg, letters, sols), after, k);
    } else {
      SolveFromSound(cfg, letters[1..], after, k);
    }
  }

  /** `solve`'s result for a solver: the per-letter searches' solutions sorted by number of words, stably. */
  function SolveWith(cfg: Config): (r: seq<seq<string>>)
    ensures SortedBy(r, Heuristics.WordCount)
    ensures multiset(r) == multiset(SolveFrom(cfg, SortedChars(cfg.target), []))
  {
    SortByKey(SolveFrom(cfg, SortedChars(cfg.target), []), Heuristics.WordCount)
  }

  /**
   * The result holds at most 100 solutions, each a built sequence (see
   * `SequenceMeans`) that uses exactly the target letters.
   */
  lemma SolveWithIsSound(cfg: Config)
    requires ValidConfig(cfg)
    ensures |SolveWith(cfg)| <= SolutionCap
    ensures forall sol :: sol in SolveWith(cfg) ==> DfsSolutionOk(cfg, sol)
  {
    var found := SolveFrom(cfg, SortedChars(cfg.target), []);
    var r := SortByKey(found, Heuristics.WordCount);
    assert |r| == |multiset(r)| == |multiset(found)| == |found|;
    if cfg.target != {} {
      SolveFromBounds(cfg, SortedChars(cfg.target), []);
      forall sol | sol in r ensures DfsSolutionOk(cfg, sol) {
        assert sol in multiset(r);
        FoundIsSound(cfg, sol);
      }
    } else {
      assert SortedChars(cfg.target) == [];
    }
  }

  /** Every solution the loop over the sorted target letters records is sound. */
  lemma FoundIsSound(cfg: Config, sol: seq<string>)
    requires ValidConfig(cfg) && cfg.target != {}
    requires sol in multiset(SolveFrom(cfg, SortedChars(cfg.target), []))
    ensures DfsSolutionOk(cfg, sol)
  {
    var found := SolveFrom(cfg, SortedChars(cfg.target), []);
    var k :| 0 <= k < |found| && found[k] == sol;
    SolveFromSound(cfg, SortedChars(cfg.target), [], k);
  }

  /** `LetterBoxSolver(sides, dictionary_file).solve(max_words, min_word_length)`. */
  function Solve(sides: seq<string>, file: Option<seq<string>>, maxWords: int, minWordLen: int): (r: seq<seq<string>>)
    ensures |r| <= SolutionCap
    ensures SortedBy(r, Heuristics.WordCount)
    ensures forall sol :: sol in r ==> DfsSolutionOk(MakeConfig(sides, file, maxWords, minWordLen), sol)
  {
    var cfg := MakeConfig(sides, file, maxWords, minWordLen);
    SolveWithIsSound(cfg);
    SolveWith(cfg)
  }
}
