/**
 * The prefix tree of trie.py. A node maps characters to child nodes and
 * carries an end-of-word flag; every operation lower-cases its argument, so
 * the trie stores lower-case words and its queries ignore case. The Python
 * `None` argument behaves like the empty string in every operation (both are
 * falsy) and is modelled as `""`.
 */
module Tries {
  import opened Text
  import opened Wrappers

  datatype Trie = Node(children: map<char, Trie>, isEnd: bool)

  /** `Trie()`: a root with no children. */
  function Empty(): Trie { Node(map[], false) }

  /** The path `w` (already lower-cased) leads from `t` to a node marking a word end. */
  predicate Accepts(t: Trie, w: string) {
    if |w| == 0 then t.isEnd
    else w[0] in t.children && Accepts(t.children[w[0]], w[1..])
  }

  /** The node reached by following path `w` from `t`, if every step exists. */
  function Walk(t: Trie, w: string): Option<Trie> {
    if |w| == 0 then Some(t)
    else if w[0] in t.children then Walk(t.children[w[0]], w[1..])
    else None
  }

  /** Adds the path `w` (already lower-cased), marking its last node as a word end. */
  function InsertPath(t: Trie, w: string): (r: Trie)
    ensures forall v :: Accepts(r, v) <==> Accepts(t, v) || v == w
    decreases |w|
  {
    if |w| == 0 then
      t.(isEnd := true)
    else
      var child := if w[0] in t.children then t.children[w[0]] else Empty();
      var r := t.(children := t.children[w[0] := InsertPath(child, w[1..])]);
      assert forall v :: Accepts(r, v) <==> Accepts(t, v) || v == w by {
        forall v ensures Accepts(r, v) <==> Accepts(t, v) || v == w {
          if |v| > 0 && v[0] == w[0] {
            assert v == w <==> v[1..] == w[1..];
          }
        }
      }
      r
  }

  /** `insert(word)`: a no-op for the empty word, otherwise stores `word.lower()`. */
  function Insert(t: Trie, w: string): (r: Trie)
    ensures |w| == 0 ==> r == t
    ensures forall v :: Accepts(r, v) <==> Accepts(t, v) || (|w| > 0 && v == Lower(w))
  {
    if |w| == 0 then t else InsertPath(t, Lower(w))
  }

  /** `search(word)`: false for the empty word, otherwise whether `word.lower()` was stored. */
  function Search(t: Trie, w: string): (r: bool)
    ensures r <==> |w| > 0 && Accepts(t, Lower(w))
  {
    if |w| == 0 then false
    else
      match Walk(t, Lower(w))
      case None => WalkAccepts(t, Lower(w)); false
      case Some(n) => WalkAccepts(t, Lower(w)); n.isEnd
  }

  /**
   * `starts_with(prefix)`: true for the empty prefix, otherwise whether the
   * path exists; so every word `search` finds is also a prefix.
   */
  function StartsWith(t: Trie, p: string): (r: bool)
    ensures |p| == 0 ==> r
    ensures Search(t, p) ==> r
  {
    WalkAccepts(t, Lower(p));
    |p| == 0 || Walk(t, Lower(p)).Some?
  }

  /** `get_node_for_prefix(prefix)`: the root for the empty prefix, else the node or None. */
  function GetNodeForPrefix(t: Trie, p: string): (r: Option<Trie>)
    ensures |p| == 0 ==> r == Some(t)
    ensures r.None? <==> !StartsWith(t, p)
  {
    if |p| == 0 then Some(t) else Walk(t, Lower(p))
  }

  lemma {:induction false} WalkAccepts(t: Trie, w: string)
    ensures Accepts(t, w) <==> Walk(t, w).Some? && Walk(t, w).value.isEnd
  {
    if |w| > 0 && w[0] in t.children {
      WalkAccepts(t.children[w[0]], w[1..]);
    }
  }

  // ---------------------------------------------------------------------------
  // The trie as a set of words

  /** `t` stores exactly the words of `s`. */
  ghost predicate Represents(t: Trie, s: set<string>) {
    forall w :: Accepts(t, w) <==> w in s
  }

  /** A fresh trie stores nothing. */
  lemma EmptyRepresentsNothing()
    ensures Represents(Empty(), {})
  {
  }

  /** Inserting adds exactly the lower-cased word to the stored set (nothing for ""). */
  lemma InsertAddsWord(t: Trie, s: set<string>, w: string)
    requires Represents(t, s)
    ensures Represents(Insert(t, w), if |w| == 0 then s else s + {Lower(w)})
  {
  }

  /**
   * After inserting `w` into any trie, every case variant of `w` is found and
   * every word stored before is still found.
   */
  lemma InsertThenSearch(t: Trie, w: string, v: string)
    requires |w| > 0
    ensures Lower(v) == Lower(w) ==> Search(Insert(t, w), v)
    ensures Search(t, v) ==> Search(Insert(t, w), v)
  {
  }

  /** A trie holding one word finds that word only: no proper prefix, no extension. */
  lemma SingleWordOnly(w: string, v: string)
    requires |w| > 0
    ensures Search(Insert(Empty(), w), v) <==> |v| > 0 && Lower(v) == Lower(w)
  {
  }

  // ---------------------------------------------------------------------------
  // Prefix queries

  /** Every non-root node lies on the way to some stored word. */
  predicate Live(t: Trie) {
    forall c :: c in t.children ==> Live(t.children[c]) && (t.children[c].isEnd || t.children[c].children != map[])
  }

  lemma {:induction false} LiveHasWord(t: Trie)
    requires Live(t) && (t.isEnd || t.children != map[])
    ensures exists w :: Accepts(t, w)
  {
    if t.isEnd {
      assert Accepts(t, []);
    } else {
      var c :| c in t.children;
      LiveHasWord(t.children[c]);
      var w :| Accepts(t.children[c], w);
      assert Accepts(t, [c] + w) by { assert ([c] + w)[1..] == w; }
    }
  }

  /** Inserting keeps every branch alive. */
  lemma {:induction false} InsertPathKeepsLive(t: Trie, w: string)
    requires Live(t)
    ensures Live(InsertPath(t, w))
    decreases |w|
  {
    if |w| > 0 {
      var child := if w[0] in t.children then t.children[w[0]] else Empty();
      InsertPathKeepsLive(child, w[1..]);
      var r := InsertPath(child, w[1..]);
      assert r.isEnd || r.children != map[] by {
        if |w[1..]| > 0 { assert w[1..][0] in r.children; }
      }
    }
  }

  lemma InsertKeepsLive(t: Trie, w: string)
    requires Live(t)
    ensures Live(Insert(t, w))
  {
    if |w| > 0 { InsertPathKeepsLive(t, Lower(w)); }
  }

  /** Walking a stored word's prefix always succeeds. */
  lemma {:induction false} PrefixOfAcceptedWalks(t: Trie, p: string, w: string)
    requires Accepts(t, w) && p <= w
    ensures Walk(t, p).Some?
  {
    if |p| > 0 {
      assert w[0] == p[0];
      PrefixOfAcceptedWalks(t.children[w[0]], p[1..], w[1..]);
    }
  }

  /** A non-empty walk in a live trie ends at a node that still leads to a word. */
  lemma {:induction false} WalkReachesWord(t: Trie, p: string)
    requires Live(t) && |p| > 0 && Walk(t, p).Some?
    ensures exists w :: Accepts(t, p + w)
  {
    var child := t.children[p[0]];
    if |p| == 1 {
      LiveHasWord(child);
      var w :| Accepts(child, w);
      assert (p + w)[1..] == w;
    } else {
      WalkReachesWord(child, p[1..]);
      var w :| Accepts(child, p[1..] + w);
      assert (p + w)[1..] == p[1..] + w;
    }
  }

  /**
   * In a live trie (every trie built by insertions), `starts_with(p)` holds
   * exactly when `p` is empty or some stored word begins with `p.lower()`.
   */
  lemma StartsWithIffStoredPrefix(t: Trie, p: string)
    requires Live(t)
    ensures StartsWith(t, p) <==> |p| == 0 || exists w :: Accepts(t, w) && Lower(p) <= w
  {
    if |p| > 0 {
      if Walk(t, Lower(p)).Some? {
        WalkReachesWord(t, Lower(p));
        var w :| Accepts(t, Lower(p) + w);
        assert Lower(p) <= Lower(p) + w;
      }
      if exists w :: Accepts(t, w) && Lower(p) <= w {
        var w :| Accepts(t, w) && Lower(p) <= w;
        PrefixOfAcceptedWalks(t, Lower(p), w);
      }
    }
  }

  /** Every prefix of an inserted word passes `starts_with`, in any case. */
  lemma InsertThenStartsWith(t: Trie, w: string, p: string)
    requires |w| > 0 && Lower(p) <= Lower(w)
    ensures StartsWith(Insert(t, w), p)
  {
    PrefixOfAcceptedWalks(Insert(t, w), Lower(p), Lower(w));
  }

  // ---------------------------------------------------------------------------
  // Loading

  /** The dictionary-line filter: stripped, non-empty, alphabetic, at least 3 long. */
  predicate AcceptLine(line: string) {
    var w := Strip(line);
    |w| > 0 && IsAlpha(w) && |w| >= 3
  }

  /** Number of accepted lines. */
  function AcceptedCount(lines: seq<string>): (n: nat)
    ensures n <= |lines|
  {
    if |lines| == 0 then 0
    else (if AcceptLine(lines[0]) then 1 else 0) + AcceptedCount(lines[1..])
  }

  /** The words the accepted lines contribute. */
  function AcceptedWords(lines: seq<string>): set<string>
  {
    if |lines| == 0 then {}
    else (if AcceptLine(lines[0]) then {LineWord(lines[0])} else {}) + AcceptedWords(lines[1..])
  }

  /** One line of `load_from_file`: strip it and insert it when it passes the filter. */
  function LoadLine(t: Trie, line: string): (r: Trie)
    ensures forall v :: Accepts(r, v) <==> Accepts(t, v) || (AcceptLine(line) && v == LineWord(line))
  {
    var word := Strip(line);
    if |word| > 0 && IsAlpha(word) && |word| >= 3 then Insert(t, word) else t
  }

  /**
   * The loop of `load_from_file` over the file's lines: the trie gains exactly
   * the accepted words, and the count is the number of accepted lines.
   */
  function LoadLines(t: Trie, lines: seq<string>): (r: (Trie, nat))
    ensures r.1 == AcceptedCount(lines)
    ensures forall v :: Accepts(r.0, v) <==> Accepts(t, v) || v in AcceptedWords(lines)
    decreases |lines|
  {
    if |lines| == 0 then (t, 0)
    else
      var rest := LoadLines(LoadLine(t, lines[0]), lines[1..]);
      (rest.0, (if AcceptLine(lines[0]) then 1 else 0) + rest.1)
  }

  /** `load_from_file(filename)`; `None` stands for a missing file, which loads nothing. */
  function LoadFromFile(t: Trie, file: Option<seq<string>>): (r: (Trie, nat))
    ensures file.None? ==> r == (t, 0)
    ensures file.Some? ==> r.1 == AcceptedCount(file.value)
    ensures file.Some? ==> forall v :: Accepts(r.0, v) <==> Accepts(t, v) || v in AcceptedWords(file.value)
  {
    match file
    case None => (t, 0)
    case Some(lines) => LoadLines(t, lines)
  }

  /** Loading keeps every branch alive. */
  lemma {:induction false} LoadLinesKeepsLive(t: Trie, lines: seq<string>)
    requires Live(t)
    ensures Live(LoadLines(t, lines).0)
    decreases |lines|
  {
    if |lines| > 0 {
      var word := Strip(lines[0]);
      if |word| > 0 && IsAlpha(word) && |word| >= 3 {
        InsertKeepsLive(t, word);
      }
      LoadLinesKeepsLive(LoadLine(t, lines[0]), lines[1..]);
    }
  }
}
