/**
 * The candidate word index of the best-first solver
 * (`BestFirstLetterBoxSolver._precompute_valid_words`): dictionary lines are
 * stripped and lower-cased, filtered by length, alphabet and automaton
 * legality, grouped by upper-cased first letter and each group sorted by
 * descending length, stably. The dictionary file is given as its sequence of
 * lines, or `None` when it is missing.
 */
module WordIndex {
  import opened Text
  import opened Wrappers
  import opened Sorting
  import Automaton

  /**
   * A Python dict from start letter to word list: `keys` lists the letters in
   * insertion order, `buckets` holds the lists.
   */
  datatype Index = Index(keys: seq<char>, buckets: map<char, seq<string>>)

  /** The dict `.get(letter, [])`. */
  function Bucket(idx: Index, c: char): seq<string> {
    if c in idx.buckets then idx.buckets[c] else []
  }

  /** Default bounds of `_precompute_valid_words`. */
  const MinLength: int := 3
  const MaxLength: int := 15

  /** The filter of `_precompute_valid_words` on an already stripped, lower-cased word. */
  predicate Admissible(atm: Automaton.Atm, word: string, minLen: int, maxLen: int) {
    minLen <= |word| <= maxLen && IsAlpha(word) && Automaton.IsValidWord(atm, word)
  }

  /**
   * The words of the accepted lines, in line order. Each is lower-case and
   * alphabetic, so in particular it carries no surrounding whitespace.
   */
  function ValidWords(atm: Automaton.Atm, lines: seq<string>, minLen: int, maxLen: int): (ws: seq<string>)
    ensures forall i :: 0 <= i < |ws| ==> Admissible(atm, ws[i], minLen, maxLen) && ws[i] == Lower(ws[i])
  {
    if |lines| == 0 then []
    else
      var w := LineWord(lines[|lines| - 1]);
      LowerIsIdempotent(Strip(lines[|lines| - 1]));
      ValidWords(atm, lines[..|lines| - 1], minLen, maxLen) + (if Admissible(atm, w, minLen, maxLen) then [w] else [])
  }

  /**
   * The bucket key of a word: its upper-cased first letter. Every indexed word
   * is non-empty; the empty word gets a key only to keep this function total.
   */
  function StartOf(w: string): char {
    if |w| == 0 then ' ' else UpperChar(w[0])
  }

  /** The words of `ws` whose key is `c`, in their original order. */
  function WithStart(ws: seq<string>, c: char): (r: seq<string>)
    ensures forall i :: 0 <= i < |r| ==> StartOf(r[i]) == c
    ensures multiset(r) <= multiset(ws)
  {
    if |ws| == 0 then []
    else
      var init := ws[..|ws| - 1];
      var w := ws[|ws| - 1];
      assert ws == init + [w];
      WithStart(init, c) + (if StartOf(w) == c then [w] else [])
  }

  /** The distinct keys of `ws` in order of first appearance. */
  function FirstLetters(ws: seq<string>): (r: seq<char>)
    ensures forall i, j :: 0 <= i < j < |r| ==> r[i] != r[j]
  {
    if |ws| == 0 then []
    else
      var init := ws[..|ws| - 1];
      var c := StartOf(ws[|ws| - 1]);
      FirstLetters(init) + (if c in FirstLetters(init) then [] else [c])
  }

  /** A key is listed exactly when some word has it. */
  lemma {:induction false} FirstLettersHaveWords(ws: seq<string>, c: char)
    ensures c in FirstLetters(ws) <==> |WithStart(ws, c)| > 0
  {
    if |ws| > 0 {
      FirstLettersHaveWords(ws[..|ws| - 1], c);
    }
  }

  /** Appends `w` to the bucket of its key, creating the bucket (and key) when new. */
  function AddToBucket(idx: Index, w: string): Index
  {
    var c := StartOf(w);
    if c in idx.buckets then Index(idx.keys, idx.buckets[c := idx.buckets[c] + [w]])
    else Index(idx.keys + [c], idx.buckets[c := [w]])
  }

  /** The grouping loop: each word appended to its key's bucket, in order. */
  function Group(ws: seq<string>): (idx: Index)
  {
    if |ws| == 0 then Index([], map[])
    else AddToBucket(Group(ws[..|ws| - 1]), ws[|ws| - 1])
  }

  /**
   * Grouping lists the keys in order of first appearance, and the bucket of
   * each key holds exactly the words with that key, in their original order.
   */
  lemma {:induction false} GroupKeys(ws: seq<string>)
    ensures Group(ws).keys == FirstLetters(ws)
    ensures Group(ws).buckets.Keys == set c | c in Group(ws).keys
  {
    if |ws| > 0 {
      GroupKeys(ws[..|ws| - 1]);
    }
  }

  lemma {:induction false} GroupBuckets(ws: seq<string>, c: char)
    ensures c in Group(ws).buckets ==> Group(ws).buckets[c] == WithStart(ws, c)
  {
    if |ws| > 0 {
      var init := ws[..|ws| - 1];
      var w := ws[|ws| - 1];
      GroupBuckets(init, c);
      WithStartSnoc(ws);
      AddToBucketHas(Group(init), w, c);
      if StartOf(w) == c && c !in Group(init).buckets {
        GroupKeys(init);
        FirstLettersHaveWords(init, c);
      }
    }
  }

  /** The words with key `c` of a non-empty list: those before its last word, then the last word if its key is `c`. */
  lemma WithStartSnoc(ws: seq<string>)
    requires |ws| > 0
    ensures forall c :: WithStart(ws, c) == WithStart(ws[..|ws| - 1], c) + (if StartOf(ws[|ws| - 1]) == c then [ws[|ws| - 1]] else [])
  {
  }

  /** Adding `w` appends it to its own key's bucket and leaves the other buckets alone. */
  lemma AddToBucketHas(idx: Index, w: string, c: char)
    ensures c in AddToBucket(idx, w).buckets <==> c in idx.buckets || StartOf(w) == c
    ensures c in AddToBucket(idx, w).buckets ==>
      AddToBucket(idx, w).buckets[c] == Bucket(idx, c) + (if StartOf(w) == c then [w] else [])
  {
  }

  /** The sort key of `sort(key=len, reverse=True)`. */
  function NegLen(w: string): int { -|w| }

  /** Every bucket sorted by descending length, stably. */
  function SortBuckets(idx: Index): (r: Index)
    ensures r.keys == idx.keys && r.buckets.Keys == idx.buckets.Keys
    ensures forall c :: c in r.buckets ==> r.buckets[c] == SortByKey(idx.buckets[c], NegLen)
  {
    Index(idx.keys, map c | c in idx.buckets :: SortByKey(idx.buckets[c], NegLen))
  }

  /**
   * `_precompute_valid_words(min_length, max_length)` over the dictionary's
   * lines; a missing dictionary (`None`) gives the empty index. The keys are
   * the distinct start letters in order of first appearance, each with a
   * non-empty bucket.
   */
  function PrecomputeValidWords(atm: Automaton.Atm, file: Option<seq<string>>, minLen: int, maxLen: int): (idx: Index)
    ensures file.None? ==> idx == Index([], map[])
    ensures file.Some? ==> idx.keys == FirstLetters(ValidWords(atm, file.value, minLen, maxLen))
    ensures idx.buckets.Keys == set c | c in idx.keys
    ensures forall i, j :: 0 <= i < j < |idx.keys| ==> idx.keys[i] != idx.keys[j]
  {
    match file
    case None => Index([], map[])
    case Some(lines) =>
      var vs := ValidWords(atm, lines, minLen, maxLen);
      GroupKeys(vs);
      SortBuckets(Group(vs))
  }

  /**
   * Each bucket is sorted by non-increasing length, is a permutation of the
   * accepted words with that start letter, and keeps words of equal length in
   * dictionary order; so it is never empty.
   */
  lemma BucketIsStableSortOfWords(atm: Automaton.Atm, lines: seq<string>, minLen: int, maxLen: int, c: char)
    requires c in PrecomputeValidWords(atm, Some(lines), minLen, maxLen).buckets
    ensures var b := PrecomputeValidWords(atm, Some(lines), minLen, maxLen).buckets[c];
      var vs := WithStart(ValidWords(atm, lines, minLen, maxLen), c);
      && SortedBy(b, NegLen)
      && multiset(b) == multiset(vs)
      && (forall n :: WithKey(b, NegLen, n) == WithKey(vs, NegLen, n))
      && |b| > 0
  {
    var vs := ValidWords(atm, lines, minLen, maxLen);
    GroupKeys(vs);
    GroupBuckets(vs, c);
    FirstLettersHaveWords(vs, c);
  }

  /**
   * Every indexed word is lower-case, within the length bounds, alphabetic,
   * legal for the automaton, and stored under its upper-cased first letter.
   */
  lemma IndexedWordIsAdmissible(atm: Automaton.Atm, file: Option<seq<string>>, minLen: int, maxLen: int, c: char, w: string)
    requires c in PrecomputeValidWords(atm, file, minLen, maxLen).buckets
    requires w in PrecomputeValidWords(atm, file, minLen, maxLen).buckets[c]
    ensures Admissible(atm, w, minLen, maxLen) && StartOf(w) == c && w == Lower(w)
  {
    var lines := file.value;
    var vs := ValidWords(atm, lines, minLen, maxLen);
    GroupKeys(vs);
    GroupBuckets(vs, c);
    var b := PrecomputeValidWords(atm, file, minLen, maxLen).buckets[c];
    assert b == SortByKey(WithStart(vs, c), NegLen);
    assert w in multiset(WithStart(vs, c));
    assert w in multiset(vs);
  }

  /**
   * What the rest of the engine relies on: every bucket is non-empty and
   * holds automaton-legal words filed under their upper-cased first letter.
   */
  predicate WellFormed(atm: Automaton.Atm, idx: Index) {
    forall c :: c in idx.buckets ==> |idx.buckets[c]| > 0 && BucketOk(atm, idx.buckets[c], c)
  }

  predicate BucketOk(atm: Automaton.Atm, b: seq<string>, c: char) {
    forall i :: 0 <= i < |b| ==> |b[i]| > 0 && StartOf(b[i]) == c && Automaton.IsValidWord(atm, b[i])
  }

  /** The index built from any dictionary is well formed. */
  lemma PrecomputeIsWellFormed(atm: Automaton.Atm, file: Option<seq<string>>, minLen: int, maxLen: int)
    ensures WellFormed(atm, PrecomputeValidWords(atm, file, minLen, maxLen))
  {
    var idx := PrecomputeValidWords(atm, file, minLen, maxLen);
    forall c | c in idx.buckets ensures |idx.buckets[c]| > 0 && BucketOk(atm, idx.buckets[c], c) {
      BucketIsStableSortOfWords(atm, file.value, minLen, maxLen, c);
      forall i | 0 <= i < |idx.buckets[c]| ensures |idx.buckets[c][i]| > 0 && StartOf(idx.buckets[c][i]) == c && Automaton.IsValidWord(atm, idx.buckets[c][i]) {
        IndexedWordIsAdmissible(atm, file, minLen, maxLen, c, idx.buckets[c][i]);
      }
    }
  }
}
