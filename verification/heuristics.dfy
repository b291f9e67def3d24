/**
 * The integer parts of heuristics.py: the solver context tables, the
 * immutable partial-solution state with its `add_word` transition, the
 * coverage-times-length and branching word scores, and the bounded greedy
 * completion estimate. Float-valued scores are not modelled; the search
 * treats the state score as an opaque real number.
 */
module Heuristics {
  import opened Text
  import opened Wrappers
  import opened WordIndex
  import Automaton

  // ---------------------------------------------------------------------------
  // SolverContext

  /** A `Counter`/dict lookup with default 0. */
  function GetCount(m: map<char, nat>, c: char): nat {
    if c in m then m[c] else 0
  }

  /** Total occurrences of `c` across the upper-cased words of `ws`. */
  function Occurrences(ws: seq<string>, c: char): nat {
    if |ws| == 0 then 0 else Count(Upper(ws[0]), c) + Occurrences(ws[1..], c)
  }

  /** Total occurrences of `c` across the buckets listed in `keys`. */
  function BucketOccurrences(idx: Index, keys: seq<char>, c: char): nat {
    if |keys| == 0 then 0 else Occurrences(Bucket(idx, keys[0]), c) + BucketOccurrences(idx, keys[1..], c)
  }

  /** `for letter in word.upper(): frequencies[letter] += 1`. */
  function CountLetters(m: map<char, nat>, s: string): (r: map<char, nat>)
    ensures forall c :: GetCount(r, c) == GetCount(m, c) + Count(s, c)
    decreases |s|
  {
    if |s| == 0 then m else CountLetters(m[s[0] := GetCount(m, s[0]) + 1], s[1..])
  }

  /** The counting loop over one bucket's words. */
  function CountWords(m: map<char, nat>, ws: seq<string>): (r: map<char, nat>)
    ensures forall c :: GetCount(r, c) == GetCount(m, c) + Occurrences(ws, c)
    decreases |ws|
  {
    if |ws| == 0 then m else CountWords(CountLetters(m, Upper(ws[0])), ws[1..])
  }

  /** The counting loop over the buckets, in dict order. */
  function CountBuckets(m: map<char, nat>, idx: Index, keys: seq<char>): (r: map<char, nat>)
    ensures forall c :: GetCount(r, c) == GetCount(m, c) + BucketOccurrences(idx, keys, c)
    decreases |keys|
  {
    if |keys| == 0 then m else CountBuckets(CountWords(m, Bucket(idx, keys[0])), idx, keys[1..])
  }

  /** `_compute_letter_frequencies`: how often each letter occurs across all indexed words. */
  function LetterFrequencies(idx: Index): (r: map<char, nat>)
    ensures forall c :: GetCount(r, c) == BucketOccurrences(idx, idx.keys, c)
  {
    CountBuckets(map[], idx, idx.keys)
  }

  /** `words_starting_with`: each key's bucket size. */
  function WordsStartingWith(idx: Index): (r: map<char, nat>)
    ensures r.Keys == idx.buckets.Keys
    ensures forall c :: GetCount(r, c) == |Bucket(idx, c)|
  {
    map c | c in idx.buckets :: |idx.buckets[c]|
  }

  /** `SolverContext`: the automaton, the alphabet, the index and the two derived tables. */
  datatype Context = Context(
    atm: Automaton.Atm,
    allLetters: set<char>,
    index: Index,
    letterFrequencies: map<char, nat>,
    wordsStartingWith: map<char, nat>)

  function MakeContext(atm: Automaton.Atm, allLetters: set<char>, idx: Index): (ctx: Context)
    ensures ctx.atm == atm && ctx.allLetters == allLetters && ctx.index == idx
    ensures forall c :: GetCount(ctx.letterFrequencies, c) == BucketOccurrences(idx, idx.keys, c)
    ensures forall c :: GetCount(ctx.wordsStartingWith, c) == |Bucket(idx, c)|
  {
    Context(atm, allLetters, idx, LetterFrequencies(idx), WordsStartingWith(idx))
  }

  // ---------------------------------------------------------------------------
  // PartialSolution

  /**
   * A search state: the chosen words, the (upper-case) letters they use, the
   * letter the next word must start with, the target alphabet and the cached
   * score (`None` until scored).
   */
  datatype PartialSolution = PartialSolution(
    words: seq<string>,
    used: set<char>,
    ending: Option<char>,
    target: set<char>,
    score: Option<real>)

  /** The empty state the search starts from. */
  function Initial(target: set<char>): PartialSolution {
    PartialSolution([], {}, None, target, None)
  }

  /** The letters of `w`, upper-cased: `set(word.upper())`. */
  function WordLetters(w: string): set<char> {
    CharSet(Upper(w))
  }

  /** The union of the letters of all of `ws`. */
  function LettersOfAll(ws: seq<string>): set<char> {
    if |ws| == 0 then {} else LettersOfAll(ws[..|ws| - 1]) + WordLetters(ws[|ws| - 1])
  }

  /** The chain anchor a word leaves behind: its last letter upper-cased, none for "". */
  function EndingOf(w: string): Option<char> {
    if |w| == 0 then None else Some(UpperChar(w[|w| - 1]))
  }

  /** Each word starts with the upper-cased last letter of the word before it. */
  predicate Chained(ws: seq<string>) {
    forall i :: 0 < i < |ws| ==> Linked(ws, i)
  }

  /** Word `i` starts with the letter word `i - 1` ends with. */
  predicate Linked(ws: seq<string>, i: int)
    requires 0 < i < |ws|
  {
    EndingOf(ws[i - 1]) == Some(StartOf(ws[i]))
  }

  /** A sequence whose words before the last are chained, and whose last word is linked, is chained. */
  lemma ChainedByLast(ws: seq<string>)
    requires |ws| > 0 && Chained(ws[..|ws| - 1])
    requires |ws| > 1 ==> Linked(ws, |ws| - 1)
    ensures Chained(ws)
  {
    var pre := ws[..|ws| - 1];
    forall i | 0 < i < |ws| ensures Linked(ws, i) {
      if i < |ws| - 1 {
        assert Linked(pre, i);
        assert pre[i - 1] == ws[i - 1] && pre[i] == ws[i];
      }
    }
  }

  /** Appending a word whose first letter is the previous word's last keeps the chain. */
  lemma ChainExtends(ws: seq<string>, w: string)
    requires Chained(ws)
    requires |ws| > 0 ==> EndingOf(ws[|ws| - 1]) == Some(StartOf(w))
    ensures Chained(ws + [w])
  {
    var c := ws + [w];
    forall i | 0 < i < |c| ensures Linked(c, i) {
      if i < |ws| {
        assert c[i - 1] == ws[i - 1] && c[i] == ws[i];
        assert Linked(ws, i);
      }
    }
  }

  /** The number of words of a solution: the key both solvers sort their results by. */
  function WordCount(sol: seq<string>): int {
    |sol|
  }

  /**
   * `is_complete`: compares the SIZES of the used and target sets, which is
   * set equality only while the used letters stay within the target.
   */
  predicate IsComplete(s: PartialSolution)
    ensures s.used <= s.target ==> (IsComplete(s) <==> s.used == s.target)
  {
    SubsetSizes(s.used, s.target);
    |s.used| == |s.target|
  }

  /** A subset has the size of its superset exactly when the two are equal. */
  lemma SubsetSizes(a: set<char>, b: set<char>)
    ensures a <= b ==> (|a| == |b| <==> a == b)
  {
    if a <= b && |a| == |b| {
      SubsetSameSizeIsEqual(a, b);
    }
  }

  /** `remaining_letters`. */
  function RemainingLetters(s: PartialSolution): (r: set<char>)
    ensures r <= s.target && r !! s.used
    ensures forall c :: c in r <==> c in s.target && c !in s.used
    ensures s.target <= s.used ==> r == {}
  {
    s.target - s.used
  }

  /** `add_word(word)`: a new state; the original is a value and cannot change. */
  function AddWord(s: PartialSolution, w: string): (r: PartialSolution)
    ensures r.words == s.words + [w] && r.target == s.target && r.score.None?
    ensures s.used <= r.used && r.used - s.used == WordLetters(w) - s.used
    ensures r.ending == EndingOf(w)
  {
    PartialSolution(s.words + [w], s.used + WordLetters(w), EndingOf(w), s.target, None)
  }

  /**
   * The state invariant: `used` is exactly the letters of the words, within
   * the target, and the anchor is what the last word left behind.
   */
  predicate Consistent(s: PartialSolution) {
    && s.used == LettersOfAll(s.words)
    && s.used <= s.target
    && s.ending == (if |s.words| == 0 then None else EndingOf(s.words[|s.words| - 1]))
  }

  /** The initial state is consistent, and `add_word` keeps consistency for words within the target. */
  lemma AddWordKeepsConsistent(s: PartialSolution, w: string)
    requires Consistent(s) && WordLetters(w) <= s.target
    ensures Consistent(AddWord(s, w))
    ensures Consistent(Initial(s.target))
  {
    assert (s.words + [w])[..|s.words|] == s.words;
  }

  lemma SubsetSameSizeIsEqual(a: set<char>, b: set<char>)
    requires a <= b && |a| == |b|
    ensures a == b
  {
    assert b == a + (b - a);
    assert |b - a| == 0;
  }

  /**
   * For a consistent state, `is_complete`'s size comparison is exactly
   * "every target letter is used", and then nothing remains.
   */
  lemma CompleteIffAllUsed(s: PartialSolution)
    requires Consistent(s)
    ensures IsComplete(s) <==> s.used == s.target
    ensures IsComplete(s) <==> RemainingLetters(s) == {}
  {
    if IsComplete(s) {
      SubsetSameSizeIsEqual(s.used, s.target);
    }
    if RemainingLetters(s) == {} {
      forall x | x in s.target
        ensures x in s.used
      {
        assert x !in RemainingLetters(s);
      }
    }
  }

  /**
   * Without `used <= target` the size comparison is not set equality: a state
   * that used one stray letter counts as complete for a one-letter target.
   */
  lemma CompleteBySizeOnly()
    ensures var s := PartialSolution(["x"], {'X'}, Some('X'), {'A'}, None);
      IsComplete(s) && s.used != s.target
  {
  }

  /** The score the heap compares: `self._score or 0`. */
  function ScoreOrZero(s: PartialSolution): real {
    s.score.GetOr(0.0)
  }

  /** `__lt__`: `a` sorts first when its score is strictly higher. */
  predicate Before(a: PartialSolution, b: PartialSolution) {
    ScoreOrZero(a) > ScoreOrZero(b)
  }

  /** The heap order is a strict order: irreflexive, asymmetric and transitive. */
  lemma BeforeIsStrictOrder(a: PartialSolution, b: PartialSolution, c: PartialSolution)
    ensures !Before(a, a)
    ensures Before(a, b) ==> !Before(b, a)
    ensures Before(a, b) && Before(b, c) ==> Before(a, c)
    ensures Before(a, b) <==> a.score.GetOr(0.0) > b.score.GetOr(0.0)
  {
  }

  // ---------------------------------------------------------------------------
  // Word heuristics

  /** Number of still-needed letters `w` covers. */
  function Coverage(w: string, needed: set<char>): nat {
    |WordLetters(w) * needed|
  }

  /**
   * `LengthHeuristic.score_word`: coverage of remaining letters times word
   * length. It is 0 exactly when the word is empty or covers no remaining
   * letter, and at most (remaining letters) x (word length).
   */
  function LengthScore(w: string, s: PartialSolution): (r: nat)
    ensures r == 0 <==> |w| == 0 || WordLetters(w) !! RemainingLetters(s)
    ensures r <= |RemainingLetters(s)| * |w|
  {
    var covered := Coverage(w, RemainingLetters(s));
    var len := |Upper(w)|;
    CoverageBounds(w, RemainingLetters(s));
    MulFacts(covered, len, |RemainingLetters(s)|);
    covered * len
  }

  /** A word covers at most the needed letters, and none exactly when it shares no letter with them. */
  lemma CoverageBounds(w: string, needed: set<char>)
    ensures Coverage(w, needed) <= |needed|
    ensures Coverage(w, needed) == 0 <==> WordLetters(w) !! needed
  {
    var covered := WordLetters(w) * needed;
    SubsetSize(covered, needed);
    if covered == {} {
      forall x | x in WordLetters(w)
        ensures x !in needed
      {
        assert x !in covered;
      }
    } else {
      var x :| x in covered;
    }
  }

  /** Products of naturals: never negative, zero only with a zero factor, monotone in the first factor. */
  lemma MulFacts(a: nat, k: nat, b: nat)
    ensures a * k >= 0
    ensures a * k == 0 <==> a == 0 || k == 0
    ensures a <= b ==> a * k <= b * k
  {
  }

  lemma SubsetSize(a: set<char>, b: set<char>)
    requires a <= b
    ensures |a| <= |b|
  {
    assert b == a + (b - a);
  }

  /** `CommonEndingHeuristic.score_word`: the bucket size of the word's last letter. */
  function EndingScore(w: string, ctx: Context): (r: nat)
    ensures |w| == 0 ==> r == 0
  {
    if |w| == 0 then 0 else GetCount(ctx.wordsStartingWith, UpperChar(w[|w| - 1]))
  }

  /** With a context built from its index, the ending score is the number of words that can follow. */
  lemma EndingScoreIsContinuations(w: string, atm: Automaton.Atm, letters: set<char>, idx: Index)
    requires |w| > 0
    ensures EndingScore(w, MakeContext(atm, letters, idx)) == |Bucket(idx, UpperChar(w[|w| - 1]))|
    ensures UpperChar(w[|w| - 1]) !in idx.buckets ==> EndingScore(w, MakeContext(atm, letters, idx)) == 0
  {
  }

  // ---------------------------------------------------------------------------
  // Greedy completion estimate

  /** At most this many greedy steps; also the pessimistic answer. */
  const GreedyCap: int := 10
  /** Candidates scanned per greedy step. */
  const ScanWidth: int := 20

  /** An iteration order of sets: it lists every member of a set exactly once. */
  ghost predicate IsOrdering(order: set<char> -> seq<char>) {
    forall S: set<char> :: multiset(order(S)) == multiset(S)
  }

  /** The listing of a set by an iteration order holds exactly its members. */
  lemma InOrdering(order: set<char> -> seq<char>, S: set<char>, c: char)
    requires IsOrdering(order)
    ensures c in order(S) <==> c in S
  {
    assert multiset(order(S)) == multiset(S);
    assert c in order(S) <==> c in multiset(order(S));
    assert c in S <==> c in multiset(S);
  }

  /** The concatenated buckets of `letters`, in that order. */
  function Concat(idx: Index, letters: seq<char>): seq<string> {
    if |letters| == 0 then [] else Bucket(idx, letters[0]) + Concat(idx, letters[1..])
  }

  /** The candidates of one greedy step: the anchor's bucket, else every uncovered letter's bucket. */
  function Candidates(idx: Index, anchor: Option<char>, uncovered: set<char>, order: set<char> -> seq<char>): seq<string> {
    var chained := if anchor.Some? then Bucket(idx, anchor.value) else [];
    if |chained| > 0 then chained else Concat(idx, order(uncovered))
  }

  /** A word is among the concatenated buckets exactly when it is in the bucket of one of the letters. */
  lemma {:induction false} InConcat(idx: Index, letters: seq<char>, w: string)
    ensures w in Concat(idx, letters) <==> exists k :: 0 <= k < |letters| && w in Bucket(idx, letters[k])
  {
    if |letters| > 0 {
      InConcat(idx, letters[1..], w);
      if w in Concat(idx, letters[1..]) {
        var k :| 0 <= k < |letters[1..]| && w in Bucket(idx, letters[1..][k]);
        assert letters[1..][k] == letters[k + 1];
      }
      if exists k :: 0 <= k < |letters| && w in Bucket(idx, letters[k]) {
        var k :| 0 <= k < |letters| && w in Bucket(idx, letters[k]);
        if k > 0 {
          assert letters[1..][k - 1] == letters[k];
        }
      }
    }
  }

  /**
   * With no chain anchor, or one whose bucket is empty, a greedy step's
   * candidates are the words of the buckets of exactly the uncovered letters.
   */
  lemma CandidatesFallback(idx: Index, anchor: Option<char>, uncovered: set<char>, order: set<char> -> seq<char>, w: string)
    requires IsOrdering(order)
    requires anchor.None? || |Bucket(idx, anchor.value)| == 0
    ensures w in Candidates(idx, anchor, uncovered, order) <==> exists c :: c in uncovered && w in Bucket(idx, c)
  {
    var letters := order(uncovered);
    InConcat(idx, letters, w);
    if exists k :: 0 <= k < |letters| && w in Bucket(idx, letters[k]) {
      var k :| 0 <= k < |letters| && w in Bucket(idx, letters[k]);
      InOrdering(order, uncovered, letters[k]);
    }
    if exists c :: c in uncovered && w in Bucket(idx, c) {
      var c :| c in uncovered && w in Bucket(idx, c);
      InOrdering(order, uncovered, c);
      var k :| 0 <= k < |letters| && letters[k] == c;
    }
  }

  /** Coverage of each candidate, in candidate order. */
  function Coverages(cands: seq<string>, needed: set<char>): (r: seq<nat>)
    ensures |r| == |cands|
    ensures forall j :: 0 <= j < |cands| ==> r[j] == Coverage(cands[j], needed)
  {
    seq(|cands|, j requires 0 <= j < |cands| => Coverage(cands[j], needed))
  }

  /**
   * The scan over the first 20 candidates: the index of the EARLIEST
   * candidate with the largest positive score, or None when every scanned
   * score is 0 (the source keeps the first strictly better candidate).
   */
  method PickBest(scores: seq<nat>) returns (best: Option<nat>)
    ensures best.None? <==> forall j :: 0 <= j < |scores| && j < ScanWidth ==> scores[j] == 0
    ensures best.Some? ==> best.value < |scores| && best.value < ScanWidth && scores[best.value] > 0
    ensures best.Some? ==> forall j :: 0 <= j < |scores| && j < ScanWidth ==> scores[j] <= scores[best.value]
    ensures best.Some? ==> forall j :: 0 <= j < best.value ==> scores[j] < scores[best.value]
  {
    best := None;
    var bestScore := 0;
    var n := if |scores| < ScanWidth then |scores| else ScanWidth;
    var i := 0;
    while i < n
      invariant 0 <= i <= n
      invariant best.None? ==> bestScore == 0
      invariant best.Some? ==> best.value < i && bestScore == scores[best.value] > 0
      invariant forall j :: 0 <= j < i ==> scores[j] <= bestScore
      invariant best.Some? ==> forall j :: 0 <= j < best.value ==> scores[j] < bestScore
    {
      if scores[i] > bestScore {
        bestScore := scores[i];
        best := Some(i);
      }
      i := i + 1;
    }
  }

  /**
   * `_greedy_completion_estimate`: repeatedly take the best-covering
   * candidate, at most 10 times; 10 when no candidate helps. It is 0 exactly
   * for nothing remaining, otherwise between 1 and 10, and unless it is the
   * pessimistic 10 it never exceeds the number of remaining letters, since
   * every chosen word covers at least one new letter.
   */
  method GreedyCompletionEstimate(remaining: set<char>, ctx: Context, anchor: Option<char>, order: set<char> -> seq<char>)
    returns (estimate: int)
    requires IsOrdering(order)
    ensures remaining == {} <==> estimate == 0
    ensures 0 <= estimate <= GreedyCap
    ensures estimate == GreedyCap || estimate <= |remaining|
  {
    if remaining == {} {
      return 0;
    }
    var uncovered := remaining;
    var wordsNeeded := 0;
    var current := anchor;
    while uncovered != {} && wordsNeeded < GreedyCap
      invariant uncovered <= remaining
      invariant 0 <= wordsNeeded <= GreedyCap
      invariant |uncovered| + wordsNeeded <= |remaining|
      invariant wordsNeeded == 0 ==> uncovered != {}
      decreases GreedyCap - wordsNeeded
    {
      var cands := Candidates(ctx.index, current, uncovered, order);
      var best := PickBest(Coverages(cands, uncovered));
      if best.None? {
        return GreedyCap;
      }
      var w := cands[best.value];
      var next := uncovered - WordLetters(w);
      assert |next| < |uncovered| by {
        var x :| x in WordLetters(w) * uncovered;
        SubsetSize(next, uncovered - {x});
      }
      uncovered := next;
      current := EndingOf(w);
      wordsNeeded := wordsNeeded + 1;
    }
    return wordsNeeded;
  }
}
