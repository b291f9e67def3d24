# Letter Boxed solver core in Dafny

This project models the core of a Letter Boxed puzzle solver. A puzzle is a
box with letters on its four sides. A solution is a chain of dictionary words
that uses every letter of the box. Inside a word, two consecutive letters
must lie on different sides. Each word must start with the last letter of
the word before it.

The model covers five parts of the solver:

- **`Automaton`** (letterbox_atm.py). Builds the letter-to-side map and the
  alphabet from the sides. It also covers the transition relation, the next
  letters after a letter, word legality and the unused letters.
- **`Tries`** (trie.py). The prefix tree is a recursive datatype, a
  `map<char, Trie>` of children plus an end-of-word flag. The model covers
  `insert`, `search`, `starts_with`, `get_node_for_prefix`, and the
  dictionary loading filter and its count. The trie is related to the set of
  lower-case words it accepts.
- **`WordIndex`** and **`Heuristics`**:
  - `WordIndex` is the best-first solver's index of candidate words. The
    index filters the dictionary, buckets the words by upper-cased first
    letter, and sorts each bucket stably by descending length.
  - `Heuristics` covers the `SolverContext` tables and the immutable
    `PartialSolution` state with `add_word`, `remaining_letters`,
    `is_complete` and the heap order. It also covers the two integer word
    scores and the bounded greedy completion estimate.
- **`BestFirst`** (best_first_solver.py). The frontier loop of `solve` and
  `_expand_state`. Popping takes a state of maximal score, and the time
  budget is a count of loop iterations.
- **`DfsSolver`** (solver.py). Word enumeration is driven by the trie and the
  automaton. Backtracking over the enumerated words is capped by depth, word
  count, start letters, words tried per letter, and number of solutions.

Three helper modules support these:

- `Wrappers` holds `Option`, which stands for the source's optional results
  and fields (`current_ending`, `get_node_for_prefix`, a missing file).
- `Text` holds ASCII case mapping, `isalpha` and `strip`.
- `Sorting` is a stable insertion sort by an integer key. It stands for
  Python's `list.sort(key=...)`, including `reverse=True`, which is the
  ascending sort by the negated key.

Quirks of the source that the model makes explicit:

- **Completeness by size.** `PartialSolution.is_complete` compares the
  *sizes* of the used and target sets (`Heuristics.IsComplete`). This equals
  set equality only under the invariant `used <= target`
  (`Heuristics.CompleteIffAllUsed`). Without it, the two differ
  (`Heuristics.CompleteBySizeOnly`). The exhaustive solver compares the sets
  themselves (`DfsSolver.DfsSolve`).
- **Start letter ignored.** `LetterBoxSolver.solve` calls `_dfs_solve` once
  per puzzle letter. `_dfs_solve` ignores that letter while the word
  sequence is empty, so each pass runs the same search
  (`DfsSolver.StartLetterIgnored`, `DfsSolver.SolveFromStep`).
- **Complete states always recorded.** In the best-first loop, a complete
  state is recorded even when it is no shorter than the best so far. The
  completeness test runs before the pruning test
  (`BestFirst.CompleteRecordedEvenIfNotBetter`).
- **Duplicate letters.** A letter that appears on several sides maps to the
  last such side (`Automaton.Build`, `Automaton.SideMapIsLastSide`).

## Model

| member | source | states |
|---|---|---|
| Automaton.Build | letterbox_atm.py:15-31 | The sides are upper-cased. The alphabet is exactly the letters of the upper-cased sides. The map's keys are the alphabet. Each letter maps to a side holding it, and no later side holds it (the last side wins for duplicates). |
| Automaton.SideMapIsLastSide | letterbox_atm.py:28-31 | The map built by the nested loop has the alphabet as its keys. Each letter maps to a side that holds it, and no later side holds it. |
| Automaton.IsValidTransition | letterbox_atm.py:33-55 | A transition holds only when both arguments are non-empty puzzle letters once upper-cased, and the two upper-cased letters differ. |
| Automaton.TransitionIffDifferentSides | letterbox_atm.py:47-55 | When no letter lies on two sides, a transition holds exactly when both letters are on some side and no side holds both. |
| Automaton.TransitionIgnoresCase | letterbox_atm.py:47-48 | The transition does not depend on the case of either argument. |
| Automaton.TransitionSymmetricIrreflexive | letterbox_atm.py:55 | The transition is symmetric, and no letter may follow itself. |
| Automaton.GetValidNextLetters | letterbox_atm.py:57-79 | The result is exactly the alphabet letters `b` with a valid transition from the argument to `b`. It never holds the argument itself. It is empty for an empty or unknown argument. |
| Automaton.IsValidWord | letterbox_atm.py:81-106 | The empty word is invalid. A one-letter word is valid exactly when its upper-cased letter is in the alphabet. A valid word has every upper-cased letter in the alphabet. |
| Automaton.ValidWordIffPairs | letterbox_atm.py:94-106 | A word of two or more letters is valid exactly when every adjacent pair is a valid transition. |
| Automaton.ValidWordIgnoresCase | letterbox_atm.py:91-94 | Validity of a word does not depend on its case. |
| Automaton.GetUnusedLetters | letterbox_atm.py:108-119 | The result lies within the alphabet. An alphabet letter is unused exactly when neither it nor its lower-case form is in the used set. |
| Automaton.UnusedLettersBounds | letterbox_atm.py:118-119 | With nothing used, every letter is unused. With the whole alphabet used, none is. |
| Tries.Insert | trie.py:21-34 | Inserting the empty word changes nothing. Otherwise the new trie accepts exactly the old words plus the lower-cased word. |
| Tries.InsertAddsWord | trie.py:21-34 | If a trie represents the set `s`, then after inserting `w` it represents `s` plus the lower-cased `w` (nothing is added for the empty word). |
| Tries.EmptyRepresentsNothing | trie.py:18-19 | A fresh trie accepts no word. |
| Tries.Search | trie.py:36-49 | Search holds exactly when the word is non-empty and its lower-cased form is stored. |
| Tries.InsertThenSearch | trie.py:21-49 | After a non-empty insert, every case variant of the word is found, and every word found before is still found. |
| Tries.SingleWordOnly | trie.py:36-49 | A trie holding one inserted word finds exactly that word's case variants. Proper prefixes and extensions are not found. |
| Tries.StartsWith | trie.py:51-64 | `starts_with` holds for the empty prefix, and for every word `search` finds. |
| Tries.StartsWithIffStoredPrefix | trie.py:51-64 | In a trie built by insertion, `starts_with(p)` holds exactly when `p` is empty or the lower-cased `p` is a prefix of some stored word. |
| Tries.InsertThenStartsWith | trie.py:21-64 | After inserting a non-empty word, every prefix of it, in any case, passes `starts_with`. |
| Tries.InsertKeepsLive | trie.py:26-34 | Insertion keeps the invariant that every node leads to a stored word. |
| Tries.GetNodeForPrefix | trie.py:66-79 | The root is returned for the empty prefix. `None` is returned exactly when `starts_with` fails. |
| Tries.LoadFromFile | trie.py:81-96 | A missing file loads nothing and counts 0. Otherwise the count is the number of accepted lines. The trie then gains exactly the accepted lines, stripped and lower-cased. A line is accepted when, once stripped, it is non-empty, alphabetic and at least 3 characters long. |
| Tries.LoadLinesKeepsLive | trie.py:83-91 | Loading keeps the invariant that every node leads to a stored word. |
| WordIndex.ValidWords | best_first_solver.py:57-68 | Every word kept from the dictionary is lower-case, alphabetic, automaton-legal, and of length within the bounds. |
| WordIndex.PrecomputeValidWords | best_first_solver.py:48-78 | A missing dictionary gives the empty index. Otherwise the keys are the distinct upper-cased first letters of the kept words, in order of first appearance, and each key has a bucket. |
| WordIndex.BucketIsStableSortOfWords | best_first_solver.py:66-78 | Each bucket is sorted by non-increasing length. It is a permutation of the kept words with that first letter. Equal-length words stay in dictionary order. No bucket is empty. |
| WordIndex.IndexedWordIsAdmissible | best_first_solver.py:57-67 | Every indexed word is lower-case, alphabetic, of 3 to 15 letters, automaton-legal, and filed under its upper-cased first letter. |
| WordIndex.PrecomputeIsWellFormed | best_first_solver.py:48-78 | The index built from any dictionary has non-empty buckets of legal words filed under their first letter. |
| WordIndex.GroupKeys | best_first_solver.py:66-67 | Grouping (`WordIndex.Group`, the `defaultdict` appends) lists the keys in order of first appearance, and the map's keys are exactly the listed keys. |
| WordIndex.GroupBuckets | best_first_solver.py:66-67 | In `WordIndex.Group`, a key's bucket holds the words with that key, in dictionary order. |
| Sorting.SortByKey | best_first_solver.py:74-76 | The sort is ordered by the key. It is a permutation of its input. Elements with equal keys keep their relative order. |
| Heuristics.LetterFrequencies | heuristics.py:26-33 | Each letter's count is its total number of occurrences across the upper-cased words of every bucket. |
| Heuristics.WordsStartingWith | heuristics.py:22-24 | The table's keys are the index keys, and each key's count is its bucket size. Absent letters count 0. |
| Heuristics.MakeContext | heuristics.py:14-24 | The context keeps the automaton, the alphabet and the index, and carries both tables with the counts above. |
| Heuristics.AddWord | heuristics.py:58-65 | The new state has the old words plus `w`, and the same target. Its used set grows by exactly the upper-cased letters of `w`. Its ending is the upper-cased last letter of `w`, or none for the empty word. |
| Heuristics.AddWordKeepsConsistent | heuristics.py:39-65 | The initial state is consistent, and so is `add_word` of a word within the target. Consistent means the used set is the letters of the words, within the target, and the ending is the last word's. |
| Heuristics.RemainingLetters | heuristics.py:51-56 | A letter remains exactly when it is a target letter not yet used. Once every target letter is used, nothing remains. |
| Heuristics.IsComplete | heuristics.py:46-49 | `is_complete` compares sizes, and this is set equality whenever the used letters lie within the target. |
| Heuristics.CompleteIffAllUsed | heuristics.py:46-56 | For a consistent state, the size test of `is_complete` holds exactly when every target letter is used, and exactly when nothing remains. |
| Heuristics.CompleteBySizeOnly | heuristics.py:46-49 | A state that used one stray letter counts as complete for a different one-letter target: the test compares sizes, not sets. |
| Heuristics.BeforeIsStrictOrder | heuristics.py:67-69 | For `Heuristics.Before` (`__lt__`), `a < b` exactly when `a`'s score (0 if unset) is higher. The order is irreflexive, asymmetric and transitive. |
| Heuristics.LengthScore | heuristics.py:114-120 | The length score is 0 exactly when the word is empty or covers no remaining letter. It is at most (remaining letters) times (word length). |
| Heuristics.EndingScore | heuristics.py:126-128 | The empty word scores 0. |
| Heuristics.EndingScoreIsContinuations | heuristics.py:126-132 | For a non-empty word, the score is the bucket size of its upper-cased last letter, and 0 when no bucket has that key. |
| Heuristics.PickBest | heuristics.py:182-190 | Only the first 20 candidates are scanned. There is no choice exactly when all of them cover nothing. Otherwise the choice covers at least one letter, covers as many as any scanned candidate, and is the earliest candidate that does. |
| Heuristics.CandidatesFallback | heuristics.py:177-181 | With no current letter, or one without words, the candidates of a greedy step are the words of the buckets of exactly the uncovered letters. |
| Heuristics.GreedyCompletionEstimate | heuristics.py:163-199 | The estimate is 0 exactly when nothing remains, and otherwise between 1 and 10. Unless it is the pessimistic 10, it is at most the number of remaining letters. |
| BestFirst.ShortestIsLeast | best_first_solver.py:128-145 | The running best length is infinite exactly when nothing is recorded. Otherwise it is the least word count of the recorded solutions. |
| BestFirst.Shorter | best_first_solver.py:140-141 | The update never raises the best length and never exceeds the new length. |
| BestFirst.ChildrenIff | best_first_solver.py:176-203 | For `BestFirst.Children`, the children queued from one bucket are exactly the scored `add_word` successors by words that add a new letter and stay shorter than the best. |
| BestFirst.ExpandIff | best_first_solver.py:166-203 | `BestFirst.Expand` queues a state exactly when it is a child from the bucket of one of the start letters. |
| BestFirst.ExpandFromEveryLetter | best_first_solver.py:169-177 | A state with no ending (the initial state) expands from every puzzle letter: its children are exactly the scored successors by admitted words of the bucket of some puzzle letter. |
| BestFirst.Visit | best_first_solver.py:136-152 | Complete states are recorded with their words and never expanded. Incomplete states with at least `max_words` words, or not shorter than the best, are pruned. Only the remaining states are expanded. |
| BestFirst.CompleteRecordedEvenIfNotBetter | best_first_solver.py:136-149 | A complete state no shorter than the best is still recorded, and the best length stays the same. |
| BestFirst.ExpandIsGood | best_first_solver.py:166-203 | Every state queued from a good unpruned state is good: consistent, chained, made of indexed words, at most `max_words` words, with at least as many used letters as words, and scored. |
| BestFirst.CompleteIsSolution | best_first_solver.py:136-137 | A complete good state's words use exactly the puzzle letters, are chained and indexed, and number at most `max_words`. |
| BestFirst.FirstBest | best_first_solver.py:132 | The chosen state has a score that no frontier state beats under `__lt__`, and every state before it scores strictly lower. |
| BestFirst.PopBest | best_first_solver.py:132 | The popped state has a score that no other frontier state beats under `__lt__`. It is the first such state (`BestFirst.FirstBest`). |
| BestFirst.Advance | best_first_solver.py:131-152 | One loop iteration records the popped state's words exactly when that state is complete. Otherwise the records stay as they were. |
| BestFirst.RecordedExtends | best_first_solver.py:131-158 | Over `fuel` iterations the loop (`BestFirst.Recorded`) keeps every earlier record in place and adds at most one per iteration. With no fuel or an empty frontier it records nothing. |
| BestFirst.Step | best_first_solver.py:131-158 | One loop pass pops a state that no frontier state beats. A complete state's words are appended to the records. A pruned state is dropped. Otherwise the state's children are queued after the rest. The frontier stays good, the records stay sound, and the best length never rises and always equals the shortest record. The pass is one iteration of `BestFirst.Recorded`. |
| BestFirst.Search | best_first_solver.py:131-158 | The `while` loop returns exactly the records `BestFirst.Recorded` describes, and each one is a solution. |
| BestFirst.SearchFromStart | best_first_solver.py:119-158 | The search from the empty state of the puzzle letters returns the records `BestFirst.RecordedBy` describes, and each one is a solution. |
| BestFirst.Solve | best_first_solver.py:99-164 | With no fuel (a time limit of 0 or less), the result is empty. The result is the recorded solutions (`BestFirst.RecordedBy`) sorted stably by word count: sorted, the same multiset, and for each count the same solutions in order of recording. Every entry covers all puzzle letters, is chained, uses indexed words and has at most `max_words` words. |
| BestFirst.SolutionWordsAdmissible | best_first_solver.py:57-67 | Every word of a result is a lower-case, alphabetic, automaton-legal word of 3 to 15 letters. |
| DfsSolver.SortedChars | solver.py:66 | `sorted(set)` lists each member exactly once, in strictly increasing order. |
| DfsSolver.DfsWordsSound | solver.py:48-67 | Every word `DfsSolver.DfsWords` enumerates below a path is stored and within the length bounds. It extends the lower-cased path, and every move from the path's last letter on is a valid transition. |
| DfsSolver.DfsWordsComplete | solver.py:48-67 | `DfsSolver.DfsWords` enumerates every stored word within the bounds that continues the path through puzzle letters by valid moves. |
| DfsSolver.FindWordsStartingWith | solver.py:32-46 | At most 50 words are returned, and they are a prefix of the enumeration from the upper-cased letter. |
| DfsSolver.FindWordsSound | solver.py:32-67 | Each returned word is stored, within the length bounds, starts with the lower-cased letter, and moves only between different sides. |
| DfsSolver.FindWordsComplete | solver.py:32-67 | Every reachable stored word from the letter is enumerated, and it is returned unless the cap of 50 cuts the list. |
| DfsSolver.TriedWordsSound | solver.py:123-125 | The words tried from a letter (the first 20 returned) are stored, of allowed length, and filed under that letter. |
| DfsSolver.DfsSolveBounds | solver.py:94-148 | `DfsSolver.DfsSolve` only appends to the solution list. Below the cap of 100 it never passes 100. At the cap with letters still missing, it adds nothing. |
| DfsSolver.DfsSolveSound | solver.py:94-148 | Every solution `DfsSolver.DfsSolve` records is a built sequence whose letters are exactly the target letters. A built sequence consists of legal stored words, each adding a letter, chained, starting from one of the first six sorted letters, with at most `max_words` words. |
| DfsSolver.SequenceMeans | solver.py:116-143 | A built sequence is chained and made of legal stored words. It has no more words than letters, starts from one of the first six sorted letters, and has at most `max_words` words. |
| DfsSolver.StartLetterIgnored | solver.py:116-117 | With no words yet, the letter passed to `_dfs_solve` does not change the result. |
| DfsSolver.SolveFromStep | solver.py:87-88 | Each pass of `solve`'s loop (`DfsSolver.SolveFrom`) runs the same search from an empty sequence, whatever letter it names. |
| DfsSolver.SolveFromBounds | solver.py:87-88 | The loop only appends, and it never passes 100 solutions when it starts at or below 100. |
| DfsSolver.SolveFromSound | solver.py:87-88 | Every solution the loop appends is a covering built sequence. |
| DfsSolver.ConfigOfIsValid | solver.py:69-81 | A solver over any trie and a valid automaton targets the whole alphabet and tries only sound words. |
| DfsSolver.SolveWith | solver.py:87-92 | The result is sorted by word count and is a permutation of the solutions the per-letter searches record. |
| DfsSolver.SolveWithIsSound | solver.py:87-92 | The result has at most 100 solutions, each a covering built sequence. |
| DfsSolver.Solve | solver.py:69-92 | `solve` returns at most 100 solutions, sorted by word count, each a covering built sequence of the solver's trie and automaton. |

## Left out

- Case mapping, `isalpha` and `strip` are modelled on ASCII only. Python's Unicode case tables and whitespace classes are not modelled.
- `None` string arguments are modelled as the empty string only where the source treats the two alike. That holds for the `Tries` operations, `is_valid_transition`, `get_valid_next_letters` and `CommonEndingHeuristic`, which all test `not word` first.
- `is_valid_word(None)`, `add_word(None)` and `LengthHeuristic.score_word(None)` raise `TypeError` or `AttributeError` in the source. The model has no `None` word there; the empty string is handled as the source handles `""`.
- File reading in `load_from_file` and `_precompute_valid_words` is left out. A dictionary is its sequence of lines, or `None` when the file is missing.
- `RareLetterHeuristic`, `ProgressHeuristic`, `CompletionEstimateHeuristic.score_state`, `CompositeHeuristic` and `set_heuristic_weights` are left out because they compute floats. The state score is an opaque function to `real` passed to `BestFirst.Solve`. No proved property depends on it.
- The wall-clock budget of the best-first `solve` is a fuel count of loop passes. A fuel of 0 stands for `time_limit <= 0`.
- `heapq` is abstracted. A pop takes a state of maximal score (`BestFirst.PopBest`), and ties are broken by position, not by the heap's internal layout.
- The within-bucket sort of `_expand_state` by word score is left out. It changes only the order of pushes, which the max-score pop does not see apart from ties.
- Python set iteration order is a parameter `order`, required to list every member of a set exactly once (`Heuristics.IsOrdering`). It stands for `list(all_letters)` in `_expand_state` and for the greedy fallback's loop over the uncovered letters. Which order Python picks is not modelled.
- The progress counter and every `print` are left out, as are `print_solutions`, the `__repr__` methods, main.py and main_bestfirst.py, and the test files.
- DfsSolver.Solve: states soundness and the cap of 100, not completeness. The caps on depth, start letters and words tried mean the search is not complete in general.
- DfsSolver.SolveWith: relates its result to the recorded solutions as a multiset, not position by position.
- The words tried per start letter: `_dfs_solve` calls `find_words_starting_with` afresh for every start letter. The model reads the same words from a table built once (`DfsSolver.MakeConfig`, `DfsSolver.ConfigOf`). The two agree because the trie and automaton never change during a solve.
