/**
 * The search loop of best_first_solver.py: a frontier of scored partial
 * solutions, popped best-score-first, with complete states recorded and
 * incomplete ones pruned or expanded. The wall-clock budget is a fuel count
 * of loop iterations, and the state score is an opaque function supplied by
 * the caller.
 */
module BestFirst {
  import opened Text
  import opened Wrappers
  import opened Sorting
  import opened WordIndex
  import opened Heuristics
  import Automaton

  /** `best_solution_length`: infinity or a word count. */
  datatype Bound = Inf | Fin(n: nat)

  /** `n < best`. */
  predicate Below(n: nat, best: Bound) {
    best.Inf? || n < best.n
  }

  /** The update `if length < best: best = length`. */
  function Shorter(n: nat, best: Bound): (r: Bound)
    ensures r.Fin? && r.n <= n
    ensures best.Fin? ==> r.n <= best.n
    ensures r == Fin(n) || r == best
  {
    if Below(n, best) then Fin(n) else best
  }

  /** The best length after recording `sols` in order, starting from infinity. */
  function Shortest(sols: seq<seq<string>>): Bound {
    if |sols| == 0 then Inf else Shorter(|sols[|sols| - 1]|, Shortest(sols[..|sols| - 1]))
  }

  /** The running best is infinite exactly when nothing is recorded, and otherwise the least word count. */
  lemma {:induction false} ShortestIsLeast(sols: seq<seq<string>>)
    ensures Shortest(sols).Inf? <==> |sols| == 0
    ensures Shortest(sols).Fin? ==> exists i :: 0 <= i < |sols| && |sols[i]| == Shortest(sols).n
    ensures Shortest(sols).Fin? ==> forall i :: 0 <= i < |sols| ==> Shortest(sols).n <= |sols[i]|
  {
    if |sols| > 0 {
      var pre := sols[..|sols| - 1];
      ShortestIsLeast(pre);
      assert forall i :: 0 <= i < |pre| ==> sols[i] == pre[i];
      if Shortest(pre).Fin? && !Below(|sols[|sols| - 1]|, Shortest(pre)) {
        var k :| 0 <= k < |pre| && |pre[k]| == Shortest(pre).n;
        assert sols[k] == pre[k];
      }
    }
  }

  /** A state carrying its computed score, as pushed on the heap. */
  function Scored(s: PartialSolution, score: PartialSolution -> real): (r: PartialSolution)
    ensures r.words == s.words && r.used == s.used && r.ending == s.ending && r.target == s.target
    ensures r.score == Some(score(s))
  {
    s.(score := Some(score(s)))
  }

  /** The two filters of `_expand_state`: the word adds a new letter and the child is shorter than the best. */
  predicate Admits(s: PartialSolution, w: string, best: Bound) {
    var c := AddWord(s, w);
    |c.used| > |s.used| && Below(|c.words|, best)
  }

  /** The queued children for one bucket of candidate words, in candidate order. */
  function Children(s: PartialSolution, ws: seq<string>, best: Bound, score: PartialSolution -> real): seq<PartialSolution>
    decreases |ws|
  {
    if |ws| == 0 then []
    else (if Admits(s, ws[0], best) then [Scored(AddWord(s, ws[0]), score)] else []) + Children(s, ws[1..], best, score)
  }

  /** Exactly the scored successors by admitted candidate words are queued. */
  lemma {:induction false} ChildrenIff(s: PartialSolution, ws: seq<string>, best: Bound, score: PartialSolution -> real, x: PartialSolution)
    ensures x in Children(s, ws, best, score) <==> exists w :: w in ws && Admits(s, w, best) && x == Scored(AddWord(s, w), score)
    decreases |ws|
  {
    if |ws| > 0 {
      ChildrenIff(s, ws[1..], best, score, x);
      assert forall w :: w in ws <==> w == ws[0] || w in ws[1..];
    }
  }

  /** The letters a next word may start with: the chain anchor, or every puzzle letter in `letters` order. */
  function Starts(s: PartialSolution, letters: seq<char>): (r: seq<char>)
    ensures s.ending.Some? ==> r == [s.ending.value]
    ensures s.ending.None? ==> r == letters
  {
    if s.ending.Some? then [s.ending.value] else letters
  }

  /** `_expand_state`: the children over the buckets of every start letter, in order. */
  function Expand(s: PartialSolution, idx: Index, starts: seq<char>, best: Bound, score: PartialSolution -> real): seq<PartialSolution>
    decreases |starts|
  {
    if |starts| == 0 then []
    else Children(s, Bucket(idx, starts[0]), best, score) + Expand(s, idx, starts[1..], best, score)
  }

  /** A child is queued exactly when it comes from an admitted word of some start letter's bucket. */
  lemma {:induction false} ExpandIff(s: PartialSolution, idx: Index, starts: seq<char>, best: Bound, score: PartialSolution -> real, x: PartialSolution)
    ensures x in Expand(s, idx, starts, best, score) <==>
      exists k :: 0 <= k < |starts| && x in Children(s, Bucket(idx, starts[k]), best, score)
    decreases |starts|
  {
    if |starts| > 0 {
      ExpandIff(s, idx, starts[1..], best, score, x);
      if x in Expand(s, idx, starts[1..], best, score) {
        var k :| 0 <= k < |starts[1..]| && x in Children(s, Bucket(idx, starts[1..][k]), best, score);
        assert starts[1..][k] == starts[k + 1];
      }
      if exists k :: 0 <= k < |starts| && x in Children(s, Bucket(idx, starts[k]), best, score) {
        var k :| 0 <= k < |starts| && x in Children(s, Bucket(idx, starts[k]), best, score);
        if k > 0 {
          assert starts[1..][k - 1] == starts[k];
        }
      }
    }
  }

  /**
   * A state with no chain anchor (the initial one) expands from every puzzle
   * letter: its children are exactly the scored successors by admitted words
   * of the bucket of some puzzle letter.
   */
  lemma ExpandFromEveryLetter(atm: Automaton.Atm, idx: Index, s: PartialSolution, order: set<char> -> seq<char>,
                              best: Bound, score: PartialSolution -> real, x: PartialSolution)
    requires IsOrdering(order) && s.ending.None?
    ensures x in Expand(s, idx, Starts(s, order(atm.allLetters)), best, score) <==>
      exists c, w :: c in atm.allLetters && w in Bucket(idx, c) && Admits(s, w, best) && x == Scored(AddWord(s, w), score)
  {
    var letters := order(atm.allLetters);
    ExpandIff(s, idx, letters, best, score, x);
    if x in Expand(s, idx, letters, best, score) {
      var k :| 0 <= k < |letters| && x in Children(s, Bucket(idx, letters[k]), best, score);
      ChildrenIff(s, Bucket(idx, letters[k]), best, score, x);
      InOrdering(order, atm.allLetters, letters[k]);
    }
    if exists c, w :: c in atm.allLetters && w in Bucket(idx, c) && Admits(s, w, best) && x == Scored(AddWord(s, w), score) {
      var c, w :| c in atm.allLetters && w in Bucket(idx, c) && Admits(s, w, best) && x == Scored(AddWord(s, w), score);
      InOrdering(order, atm.allLetters, c);
      var k :| 0 <= k < |letters| && letters[k] == c;
      ChildrenIff(s, Bucket(idx, c), best, score, x);
    }
  }

  /** The step taken for a popped state. */
  datatype Outcome = Record(words: seq<string>) | Prune | Grow(children: seq<PartialSolution>)

  /** One iteration of the `solve` loop on a popped state. */
  function Visit(s: PartialSolution, best: Bound, maxWords: int, idx: Index, letters: seq<char>, score: PartialSolution -> real): (r: Outcome)
    ensures r.Record? <==> IsComplete(s)
    ensures r.Record? ==> r.words == s.words
    ensures r.Grow? ==> |s.words| < maxWords && Below(|s.words|, best)
    ensures r.Prune? ==> !IsComplete(s) && (|s.words| >= maxWords || !Below(|s.words|, best))
  {
    if IsComplete(s) then Record(s.words)
    else if |s.words| >= maxWords || !Below(|s.words|, best) then Prune
    else Grow(Expand(s, idx, Starts(s, letters), best, score))
  }

  /**
   * The completeness test runs before the pruning test, so a complete state
   * is recorded even when it is no shorter than the best already found; the
   * best length then stays as it was.
   */
  lemma CompleteRecordedEvenIfNotBetter(s: PartialSolution, best: Bound, maxWords: int, idx: Index, letters: seq<char>, score: PartialSolution -> real)
    requires IsComplete(s) && !Below(|s.words|, best)
    ensures Visit(s, best, maxWords, idx, letters, score) == Record(s.words)
    ensures Shorter(|s.words|, best) == best
  {
  }

  /** The words of the index, filed under their own first letter. */
  predicate Indexed(idx: Index, ws: seq<string>) {
    forall i :: 0 <= i < |ws| ==> ws[i] in Bucket(idx, StartOf(ws[i]))
  }

  /** What every queued state satisfies, whatever order states are popped in. */
  predicate Good(atm: Automaton.Atm, idx: Index, maxWords: int, s: PartialSolution) {
    && s.target == atm.allLetters
    && Consistent(s)
    && Chained(s.words)
    && Indexed(idx, s.words)
    && |s.used| >= |s.words|
    && (|s.words| == 0 || |s.words| <= maxWords)
    && s.score.Some?
  }

  /** What every recorded solution satisfies. */
  predicate SolutionOk(atm: Automaton.Atm, idx: Index, maxWords: int, sol: seq<string>) {
    && LettersOfAll(sol) == atm.allLetters
    && Chained(sol)
    && Indexed(idx, sol)
    && (|sol| == 0 || |sol| <= maxWords)
    && |sol| <= |atm.allLetters|
  }

  /** An indexed word is non-empty, starts with its key and spells only puzzle letters. */
  lemma IndexedWordFacts(atm: Automaton.Atm, idx: Index, w: string)
    requires WellFormed(atm, idx) && w in Bucket(idx, StartOf(w))
    ensures |w| > 0 && EndingOf(w).Some?
    ensures WordLetters(w) <= atm.allLetters
  {
    var b := idx.buckets[StartOf(w)];
    var k :| 0 <= k < |b| && b[k] == w;
    assert BucketOk(atm, b, StartOf(w));
    forall x | x in WordLetters(w)
      ensures x in atm.allLetters
    {
      var j :| 0 <= j < |w| && Upper(w)[j] == x;
    }
  }

  /** A queued child of a good, unpruned state is good. */
  lemma ChildIsGood(atm: Automaton.Atm, idx: Index, maxWords: int, s: PartialSolution, start: char, w: string, best: Bound, score: PartialSolution -> real)
    requires WellFormed(atm, idx) && Good(atm, idx, maxWords, s) && |s.words| < maxWords
    requires s.ending.Some? ==> start == s.ending.value
    requires w in Bucket(idx, start) && Admits(s, w, best)
    ensures Good(atm, idx, maxWords, Scored(AddWord(s, w), score))
  {
    var b := idx.buckets[start];
    var k :| 0 <= k < |b| && b[k] == w;
    assert BucketOk(atm, b, start);
    assert StartOf(w) == start;
    IndexedWordFacts(atm, idx, w);
    AddWordKeepsConsistent(s, w);
    var c := AddWord(s, w);
    if |s.words| > 0 {
      IndexedWordFacts(atm, idx, s.words[|s.words| - 1]);
    }
    ChainExtends(s.words, w);
    IndexedExtends(idx, s.words, w);
  }

  /** Appending an indexed word keeps every word indexed. */
  lemma IndexedExtends(idx: Index, ws: seq<string>, w: string)
    requires Indexed(idx, ws) && w in Bucket(idx, StartOf(w))
    ensures Indexed(idx, ws + [w])
  {
    var c := ws + [w];
    forall i | 0 <= i < |c| ensures c[i] in Bucket(idx, StartOf(c[i])) {
      if i < |ws| {
        assert c[i] == ws[i];
      }
    }
  }

  /** Every state `_expand_state` queues from a good, unpruned state is good. */
  lemma ExpandIsGood(atm: Automaton.Atm, idx: Index, maxWords: int, s: PartialSolution, letters: seq<char>, best: Bound, score: PartialSolution -> real)
    requires WellFormed(atm, idx) && Good(atm, idx, maxWords, s) && |s.words| < maxWords
    ensures forall x :: x in Expand(s, idx, Starts(s, letters), best, score) ==> Good(atm, idx, maxWords, x)
  {
    var starts := Starts(s, letters);
    forall x | x in Expand(s, idx, starts, best, score)
      ensures Good(atm, idx, maxWords, x)
    {
      ExpandIff(s, idx, starts, best, score, x);
      var k :| 0 <= k < |starts| && x in Children(s, Bucket(idx, starts[k]), best, score);
      ChildrenIff(s, Bucket(idx, starts[k]), best, score, x);
      var w :| w in Bucket(idx, starts[k]) && Admits(s, w, best) && x == Scored(AddWord(s, w), score);
      ChildIsGood(atm, idx, maxWords, s, starts[k], w, best, score);
    }
  }

  /** A complete good state's words form a solution. */
  lemma CompleteIsSolution(atm: Automaton.Atm, idx: Index, maxWords: int, s: PartialSolution)
    requires Good(atm, idx, maxWords, s) && IsComplete(s)
    ensures SolutionOk(atm, idx, maxWords, s.words)
  {
    CompleteIffAllUsed(s);
  }

  /**
   * The state `heappop` returns: the first of maximal score, so every earlier
   * state scores strictly lower and no state scores higher.
   */
  function FirstBest(frontier: seq<PartialSolution>): (i: nat)
    requires |frontier| > 0
    ensures i < |frontier|
    ensures forall j :: 0 <= j < |frontier| ==> !Before(frontier[j], frontier[i])
    ensures forall j :: 0 <= j < i ==> Before(frontier[i], frontier[j])
    decreases |frontier|
  {
    if |frontier| == 1 then 0
    else
      var i := FirstBest(frontier[..|frontier| - 1]);
      if ScoreOrZero(frontier[|frontier| - 1]) > ScoreOrZero(frontier[i]) then |frontier| - 1 else i
  }

  /** `heappop`: the first state no other state precedes in the heap order. */
  method PopBest(frontier: seq<PartialSolution>) returns (i: nat)
    requires |frontier| > 0
    ensures i < |frontier|
    ensures forall j :: 0 <= j < |frontier| ==> !Before(frontier[j], frontier[i])
    ensures i == FirstBest(frontier)
  {
    i := 0;
    var k := 1;
    while k < |frontier|
      invariant 0 <= i < k <= |frontier|
      invariant i == FirstBest(frontier[..k])
    {
      assert frontier[..k + 1][..k] == frontier[..k];
      if ScoreOrZero(frontier[k]) > ScoreOrZero(frontier[i]) {
        i := k;
      }
      k := k + 1;
    }
    assert frontier[..k] == frontier;
  }

  /**
   * One iteration of the `solve` loop on the frontier and the records, with
   * the best length taken as the shortest recorded one: pop the first state
   * of maximal score and record it, drop it or queue its children.
   */
  function Advance(idx: Index, maxWords: int, letters: seq<char>, score: PartialSolution -> real,
                   frontier: seq<PartialSolution>, found: seq<seq<string>>): (r: (seq<PartialSolution>, seq<seq<string>>))
    requires |frontier| > 0
    ensures r.1 == found || r.1 == found + [frontier[FirstBest(frontier)].words]
    ensures r.1 != found <==> IsComplete(frontier[FirstBest(frontier)])
  {
    var i := FirstBest(frontier);
    var rest := frontier[..i] + frontier[i + 1..];
    match Visit(frontier[i], Shortest(found), maxWords, idx, letters, score)
    case Record(words) => (rest, found + [words])
    case Prune => (rest, found)
    case Grow(children) => (rest + children, found)
  }

  /**
   * The solutions the `solve` loop records, in order of recording, when it
   * starts from `frontier` and `found` and may run `fuel` more iterations.
   */
  function Recorded(idx: Index, maxWords: int, letters: seq<char>, score: PartialSolution -> real,
                    frontier: seq<PartialSolution>, found: seq<seq<string>>, fuel: nat): seq<seq<string>>
    decreases fuel
  {
    if fuel == 0 || |frontier| == 0 then found
    else
      var next := Advance(idx, maxWords, letters, score, frontier, found);
      Recorded(idx, maxWords, letters, score, next.0, next.1, fuel - 1)
  }

  /** Each iteration records at most one solution, and records are never dropped or reordered. */
  lemma {:induction false} RecordedExtends(idx: Index, maxWords: int, letters: seq<char>, score: PartialSolution -> real,
                                           frontier: seq<PartialSolution>, found: seq<seq<string>>, fuel: nat)
    ensures |found| <= |Recorded(idx, maxWords, letters, score, frontier, found, fuel)| <= |found| + fuel
    ensures Recorded(idx, maxWords, letters, score, frontier, found, fuel)[..|found|] == found
    ensures fuel == 0 || |frontier| == 0 ==> Recorded(idx, maxWords, letters, score, frontier, found, fuel) == found
    decreases fuel
  {
    if fuel > 0 && |frontier| > 0 {
      var next := Advance(idx, maxWords, letters, score, frontier, found);
      RecordedExtends(idx, maxWords, letters, score, next.0, next.1, fuel - 1);
      PrefixOfPrefix(Recorded(idx, maxWords, letters, score, next.0, next.1, fuel - 1), next.1, found);
    }
  }

  /** A prefix of `a` is a prefix of `r` when `a` is one, and `a` is `b` or `b` plus one element. */
  lemma PrefixOfPrefix(r: seq<seq<string>>, a: seq<seq<string>>, b: seq<seq<string>>)
    requires |b| <= |a| <= |r| && r[..|a|] == a && (a == b || a == b + [a[|a| - 1]])
    ensures r[..|b|] == b
  {
    assert r[..|b|] == r[..|a|][..|b|];
  }

  /** The index the solver builds from its dictionary. */
  function IndexOf(atm: Automaton.Atm, file: Option<seq<string>>): Index {
    PrecomputeValidWords(atm, file, MinLength, MaxLength)
  }

  /** The solutions `solve` records within `fuel` iterations, in order of recording. */
  function RecordedBy(sides: seq<string>, file: Option<seq<string>>, maxWords: int, fuel: nat,
                      score: PartialSolution -> real, order: set<char> -> seq<char>): seq<seq<string>>
  {
    var atm := Automaton.Build(sides);
    Recorded(IndexOf(atm, file), maxWords, order(atm.allLetters), score, [Scored(Initial(atm.allLetters), score)], [], fuel)
  }

  /** The loop invariant of `solve`: good frontier, sound records, best length tracked. */
  predicate SearchOk(atm: Automaton.Atm, idx: Index, maxWords: int, frontier: seq<PartialSolution>, found: seq<seq<string>>, best: Bound) {
    && (forall x :: x in frontier ==> Good(atm, idx, maxWords, x))
    && (forall sol :: sol in found ==> SolutionOk(atm, idx, maxWords, sol))
    && best == Shortest(found)
  }

  /** One pass of the `solve` loop body: pop the best state and visit it. */
  method Step(atm: Automaton.Atm, idx: Index, maxWords: int, letters: seq<char>, score: PartialSolution -> real,
              frontier: seq<PartialSolution>, found: seq<seq<string>>, best: Bound)
    returns (frontier': seq<PartialSolution>, found': seq<seq<string>>, best': Bound)
    requires WellFormed(atm, idx) && |frontier| > 0
    requires SearchOk(atm, idx, maxWords, frontier, found, best)
    ensures SearchOk(atm, idx, maxWords, frontier', found', best')
    ensures found' == found || (|found'| == |found| + 1 && found'[..|found|] == found)
    ensures best.Fin? ==> best'.Fin? && best'.n <= best.n
    ensures (exists i :: 0 <= i < |frontier| && (forall j :: 0 <= j < |frontier| ==> !Before(frontier[j], frontier[i])) &&
               (match Visit(frontier[i], best, maxWords, idx, letters, score)
                case Record(w) => found' == found + [w] && frontier' == frontier[..i] + frontier[i + 1..]
                case Prune => found' == found && frontier' == frontier[..i] + frontier[i + 1..]
                case Grow(ch) => found' == found && frontier' == frontier[..i] + frontier[i + 1..] + ch))
    ensures forall n: nat :: Recorded(idx, maxWords, letters, score, frontier', found', n) ==
                             Recorded(idx, maxWords, letters, score, frontier, found, n + 1)
  {
    var i := PopBest(frontier);
    var s := frontier[i];
    var rest := frontier[..i] + frontier[i + 1..];
    RemainingAreGood(atm, idx, maxWords, frontier, i);
    match Visit(s, best, maxWords, idx, letters, score)
    case Record(words) =>
      CompleteIsSolution(atm, idx, maxWords, s);
      RecordKeepsSearch(atm, idx, maxWords, found, words);
      found' := found + [words];
      best' := Shorter(|words|, best);
      frontier' := rest;
    case Prune =>
      frontier', found', best' := rest, found, best;
    case Grow(children) =>
      ExpandIsGood(atm, idx, maxWords, s, letters, best, score);
      GrowKeepsSearch(atm, idx, maxWords, rest, children);
      frontier', found', best' := rest + children, found, best;
  }

  /** The states left after popping one are still good. */
  lemma RemainingAreGood(atm: Automaton.Atm, idx: Index, maxWords: int, frontier: seq<PartialSolution>, i: int)
    requires 0 <= i < |frontier| && forall x :: x in frontier ==> Good(atm, idx, maxWords, x)
    ensures Good(atm, idx, maxWords, frontier[i])
    ensures forall x :: x in frontier[..i] + frontier[i + 1..] ==> Good(atm, idx, maxWords, x)
  {
    forall x | x in frontier[..i] + frontier[i + 1..] ensures x in frontier {
    }
  }

  /** Recording a solution appends it and updates the best length to match. */
  lemma RecordKeepsSearch(atm: Automaton.Atm, idx: Index, maxWords: int, found: seq<seq<string>>, words: seq<string>)
    requires forall sol :: sol in found ==> SolutionOk(atm, idx, maxWords, sol)
    requires SolutionOk(atm, idx, maxWords, words)
    ensures forall sol :: sol in found + [words] ==> SolutionOk(atm, idx, maxWords, sol)
    ensures Shortest(found + [words]) == Shorter(|words|, Shortest(found))
    ensures (found + [words])[..|found|] == found
  {
    assert (found + [words])[..|found|] == found;
  }

  /** Queuing good children keeps the frontier good. */
  lemma GrowKeepsSearch(atm: Automaton.Atm, idx: Index, maxWords: int, rest: seq<PartialSolution>, children: seq<PartialSolution>)
    requires forall x :: x in rest ==> Good(atm, idx, maxWords, x)
    requires forall x :: x in children ==> Good(atm, idx, maxWords, x)
    ensures forall x :: x in rest + children ==> Good(atm, idx, maxWords, x)
  {
  }

  /**
   * The `while` loop of `solve`, run for at most `fuel` iterations: it returns
   * exactly what `Recorded` describes, and every record is a solution.
   */
  method Search(atm: Automaton.Atm, idx: Index, maxWords: int, letters: seq<char>, score: PartialSolution -> real,
                frontier: seq<PartialSolution>, found: seq<seq<string>>, best: Bound, fuel: nat)
    returns (found': seq<seq<string>>)
    requires WellFormed(atm, idx)
    requires SearchOk(atm, idx, maxWords, frontier, found, best)
    ensures found' == Recorded(idx, maxWords, letters, score, frontier, found, fuel)
    ensures forall sol :: sol in found' ==> SolutionOk(atm, idx, maxWords, sol)
  {
    var frontier', best' := frontier, best;
    found' := found;
    var budget := fuel;
    while |frontier'| > 0 && budget > 0
      invariant SearchOk(atm, idx, maxWords, frontier', found', best')
      invariant Recorded(idx, maxWords, letters, score, frontier', found', budget) == Recorded(idx, maxWords, letters, score, frontier, found, fuel)
      decreases budget
    {
      frontier', found', best' := Step(atm, idx, maxWords, letters, score, frontier', found', best');
      budget := budget - 1;
    }
  }

  /**
   * `solve(max_words, time_limit)` with `fuel` loop iterations in place of the
   * time limit. `score` is the composite state score and `order` the
   * iteration order of a set of letters, which lists each member once. The
   * result is the recorded solutions sorted stably by word count; each is
   * complete, chained, of indexed words and at most `max_words` words long.
   */
  method Solve(sides: seq<string>, file: Option<seq<string>>, maxWords: int, fuel: nat,
               score: PartialSolution -> real, order: set<char> -> seq<char>)
    returns (solutions: seq<seq<string>>)
    requires IsOrdering(order)
    ensures fuel == 0 ==> solutions == []
    ensures SortedBy(solutions, WordCount)
    ensures multiset(solutions) == multiset(RecordedBy(sides, file, maxWords, fuel, score, order))
    ensures forall n :: WithKey(solutions, WordCount, n) == WithKey(RecordedBy(sides, file, maxWords, fuel, score, order), WordCount, n)
    ensures forall sol :: sol in solutions ==>
      SolutionOk(Automaton.Build(sides), IndexOf(Automaton.Build(sides), file), maxWords, sol)
  {
    var found := SearchFromStart(sides, file, maxWords, fuel, score, order);
    solutions := SortByKey(found, WordCount);
    if fuel == 0 {
      assert |multiset(solutions)| == 0;
    }
    assert forall sol :: sol in solutions ==> sol in multiset(found);
  }

  /** The search `solve` runs from the empty state of the puzzle's letters. */
  method SearchFromStart(sides: seq<string>, file: Option<seq<string>>, maxWords: int, fuel: nat,
                         score: PartialSolution -> real, order: set<char> -> seq<char>)
    returns (found: seq<seq<string>>)
    ensures found == RecordedBy(sides, file, maxWords, fuel, score, order)
    ensures forall sol :: sol in found ==>
      SolutionOk(Automaton.Build(sides), IndexOf(Automaton.Build(sides), file), maxWords, sol)
  {
    var atm := Automaton.Build(sides);
    var idx := IndexOf(atm, file);
    PrecomputeIsWellFormed(atm, file, MinLength, MaxLength);
    var frontier := [Scored(Initial(atm.allLetters), score)];
    StartIsGood(atm, idx, maxWords, score);
    found := Search(atm, idx, maxWords, order(atm.allLetters), score, frontier, [], Inf, fuel);
  }

  /** The search starts from one good state and no records. */
  lemma StartIsGood(atm: Automaton.Atm, idx: Index, maxWords: int, score: PartialSolution -> real)
    ensures SearchOk(atm, idx, maxWords, [Scored(Initial(atm.allLetters), score)], [], Inf)
  {
  }

  /** Every word of a recorded solution is a lower-case, alphabetic, automaton-legal word of 3 to 15 letters. */
  lemma SolutionWordsAdmissible(sides: seq<string>, file: Option<seq<string>>, maxWords: int, sol: seq<string>, i: int)
    requires SolutionOk(Automaton.Build(sides), IndexOf(Automaton.Build(sides), file), maxWords, sol)
    requires 0 <= i < |sol|
    ensures Admissible(Automaton.Build(sides), sol[i], MinLength, MaxLength) && sol[i] == Lower(sol[i])
  {
    var atm := Automaton.Build(sides);
    IndexedWordIsAdmissible(atm, file, MinLength, MaxLength, StartOf(sol[i]), sol[i]);
  }
}
