/**
 * The Letter Boxed adjacency automaton (letterbox_atm.py): the four sides of
 * the box, the map from each letter to the index of its side, and the rules
 * that decide which letter may follow which and whether a word is legal.
 */
module Automaton {
  import opened Text

  /**
   * `sides` are the upper-cased side strings; `letterToSide` maps each letter
   * to a side index and `allLetters` is the puzzle alphabet.
   */
  datatype Atm = Atm(sides: seq<string>, letterToSide: map<char, nat>, allLetters: set<char>)

  /** Letter `c` occurs on side `i` (after upper-casing). */
  predicate OnSide(sides: seq<string>, c: char, i: int)
    requires 0 <= i < |sides|
  {
    c in Upper(sides[i])
  }

  /** The alphabet: every letter of every upper-cased side. */
  function LettersOf(sides: seq<string>): (r: set<char>)
    ensures forall c :: c in r <==> exists i :: 0 <= i < |sides| && OnSide(sides, c, i)
  {
    if |sides| == 0 then {}
    else
      var k := |sides| - 1;
      var init := sides[..k];
      var r := LettersOf(init) + CharSet(Upper(sides[k]));
      assert forall c :: c in r <==> exists i :: 0 <= i < |sides| && OnSide(sides, c, i) by {
        forall c ensures c in r <==> exists i :: 0 <= i < |sides| && OnSide(sides, c, i) {
          OnSomeSideSnoc(sides, init, c, LettersOf(init));
        }
      }
      r
  }

  /** A letter is on some side exactly when it is on an earlier side or on the last one. */
  lemma OnSomeSideSnoc(sides: seq<string>, init: seq<string>, c: char, before: set<char>)
    requires |sides| > 0 && init == sides[..|sides| - 1]
    requires c in before <==> exists i :: 0 <= i < |init| && OnSide(init, c, i)
    ensures c in before + CharSet(Upper(sides[|sides| - 1])) <==> exists i :: 0 <= i < |sides| && OnSide(sides, c, i)
  {
    var k := |sides| - 1;
    if c in before {
      var i :| 0 <= i < k && OnSide(init, c, i);
      assert init[i] == sides[i];
      assert OnSide(sides, c, i);
    } else if c in CharSet(Upper(sides[k])) {
      assert OnSide(sides, c, k);
    } else {
      forall i | 0 <= i < |sides| ensures !OnSide(sides, c, i) {
        if i < k {
          assert init[i] == sides[i];
          assert !OnSide(init, c, i);
        }
      }
    }
  }

  /**
   * The letter-to-side map built side by side; a side processed later
   * overwrites an earlier one, so a letter on several sides maps to the LAST.
   */
  function SideMap(sides: seq<string>): (m: map<char, nat>)
  {
    if |sides| == 0 then map[]
    else
      var k := |sides| - 1;
      SideMap(sides[..k]) + SideEntries(sides[k], k)
  }

  /** One side's contribution to the map: each of its letters to index `k`. */
  function SideEntries(side: string, k: nat): (m: map<char, nat>)
    ensures m.Keys == CharSet(Upper(side))
    ensures forall c :: c in m ==> m[c] == k
  {
    map c | c in CharSet(Upper(side)) :: k
  }

  /** The map's keys are the alphabet. */
  lemma {:induction false} SideMapKeys(sides: seq<string>)
    ensures SideMap(sides).Keys == LettersOf(sides)
  {
    if |sides| > 0 {
      var k := |sides| - 1;
      SideMapKeys(sides[..k]);
    }
  }

  /** Every letter maps to a side holding it. */
  lemma {:induction false} SideMapOnSide(sides: seq<string>, c: char)
    requires c in SideMap(sides)
    ensures SideMap(sides)[c] < |sides| && OnSide(sides, c, SideMap(sides)[c])
  {
    var k := |sides| - 1;
    var init := sides[..k];
    if c !in SideEntries(sides[k], k) {
      SideMapOnSide(init, c);
      assert init[SideMap(init)[c]] == sides[SideMap(init)[c]];
    }
  }

  /** No side after the one a letter maps to holds that letter. */
  lemma {:induction false} SideMapIsLast(sides: seq<string>, c: char, j: int)
    requires c in SideMap(sides) && SideMap(sides)[c] < j < |sides|
    ensures !OnSide(sides, c, j)
  {
    var k := |sides| - 1;
    var init := sides[..k];
    if c !in SideEntries(sides[k], k) && j < k {
      SideMapIsLast(init, c, j);
      assert init[j] == sides[j];
    }
  }

  /** Every letter maps to a side holding it, and no later side holds it. */
  lemma SideMapIsLastSide(sides: seq<string>)
    ensures SideMap(sides).Keys == LettersOf(sides)
    ensures forall c :: c in SideMap(sides) ==> SideMap(sides)[c] < |sides| && OnSide(sides, c, SideMap(sides)[c])
    ensures forall c, j :: c in SideMap(sides) && SideMap(sides)[c] < j < |sides| ==> !OnSide(sides, c, j)
  {
    SideMapKeys(sides);
    forall c | c in SideMap(sides) ensures SideMap(sides)[c] < |sides| && OnSide(sides, c, SideMap(sides)[c]) {
      SideMapOnSide(sides, c);
    }
    forall c, j | c in SideMap(sides) && SideMap(sides)[c] < j < |sides| ensures !OnSide(sides, c, j) {
      SideMapIsLast(sides, c, j);
    }
  }

  /** Upper-cased sides hold no lower-case letter. */
  lemma NoLowerLetters(sides: seq<string>)
    ensures forall c :: c in LettersOf(sides) ==> !IsLowerLetter(c)
  {
    forall c | c in LettersOf(sides) ensures !IsLowerLetter(c) {
      var i :| 0 <= i < |sides| && OnSide(sides, c, i);
      var k :| 0 <= k < |Upper(sides[i])| && Upper(sides[i])[k] == c;
    }
  }

  /** `LetterBoxATM.__init__`. */
  function Build(sides: seq<string>): (a: Atm)
    ensures |a.sides| == |sides| && forall i :: 0 <= i < |sides| ==> a.sides[i] == Upper(sides[i])
    ensures forall c :: c in a.allLetters <==> exists i :: 0 <= i < |sides| && OnSide(sides, c, i)
    ensures a.letterToSide.Keys == a.allLetters
    ensures forall c :: c in a.letterToSide ==> a.letterToSide[c] < |sides| && OnSide(sides, c, a.letterToSide[c])
    ensures forall c, j :: c in a.letterToSide && a.letterToSide[c] < j < |sides| ==> !OnSide(sides, c, j)
    ensures Valid(a)
  {
    SideMapIsLastSide(sides);
    NoLowerLetters(sides);
    Atm(seq(|sides|, i requires 0 <= i < |sides| => Upper(sides[i])), SideMap(sides), LettersOf(sides))
  }

  /**
   * The invariant `Build` establishes: the map's keys are exactly the
   * alphabet, and the alphabet holds no lower-case letter.
   */
  predicate Valid(a: Atm) {
    && a.letterToSide.Keys == a.allLetters
    && forall c :: c in a.allLetters ==> !IsLowerLetter(c)
  }

  /** A Python one-character key: `s.upper() in letter_to_side`. */
  predicate IsKey(a: Atm, s: string) {
    |s| == 1 && UpperChar(s[0]) in a.letterToSide
  }

  /** `is_valid_transition(from_letter, to_letter)`. */
  function IsValidTransition(a: Atm, x: string, y: string): (r: bool)
    ensures r ==> IsKey(a, x) && IsKey(a, y)
    ensures r ==> UpperChar(x[0]) != UpperChar(y[0])
  {
    if |x| == 0 || |y| == 0 then false
    else
      var xu := Upper(x);
      var yu := Upper(y);
      if !IsKey(a, xu) || !IsKey(a, yu) then false
      else a.letterToSide[xu[0]] != a.letterToSide[yu[0]]
  }

  /** `get_valid_next_letters(current_letter)`. */
  function GetValidNextLetters(a: Atm, x: string): (r: set<char>)
    requires Valid(a)
    ensures forall b :: b in r <==> b in a.allLetters && IsValidTransition(a, x, [b])
    ensures |x| == 1 ==> UpperChar(x[0]) !in r
    ensures !IsKey(a, x) ==> r == {}
  {
    if |x| == 0 || !IsKey(a, x) then {}
    else
      var side := a.letterToSide[UpperChar(x[0])];
      var r := set l | l in a.letterToSide && a.letterToSide[l] != side;
      assert forall b :: b in r ==> IsValidTransition(a, x, [b]) by {
        forall b | b in r ensures IsValidTransition(a, x, [b]) {
          assert Upper([b]) == [b];
        }
      }
      r
  }

  /** The move from letter `i` of `w` to letter `i + 1` is a valid transition. */
  predicate MoveAt(a: Atm, w: string, i: int)
    requires 0 <= i < |w| - 1
  {
    IsValidTransition(a, [w[i]], [w[i + 1]])
  }

  /** `is_valid_word(word)`. */
  function IsValidWord(a: Atm, w: string): (r: bool)
    ensures r ==> |w| >= 1 && forall i :: 0 <= i < |w| ==> UpperChar(w[i]) in a.allLetters
    ensures |w| == 0 ==> !r
    ensures |w| == 1 ==> (r <==> UpperChar(w[0]) in a.allLetters)
  {
    if |w| < 2 then
      |w| == 1 && UpperChar(w[0]) in a.allLetters
    else
      var wu := Upper(w);
      && (forall i :: 0 <= i < |wu| ==> wu[i] in a.allLetters)
      && (forall i :: 0 <= i < |wu| - 1 ==> MoveAt(a, wu, i))
  }

  /** `get_unused_letters(used_letters)`. */
  function GetUnusedLetters(a: Atm, used: set<char>): (r: set<char>)
    ensures r <= a.allLetters
    ensures forall c :: c in a.allLetters && !IsLowerLetter(c) ==>
      (c in r <==> c !in used && (IsUpperLetter(c) ==> LowerChar(c) !in used))
  {
    a.allLetters - set u | u in used :: UpperChar(u)
  }

  // ---------------------------------------------------------------------------
  // Properties of the transition relation and word legality

  /** The transition test ignores case on both arguments. */
  lemma TransitionIgnoresCase(a: Atm, x: string, y: string)
    ensures IsValidTransition(a, x, y) == IsValidTransition(a, Lower(x), Upper(y))
    ensures IsValidTransition(a, x, y) == IsValidTransition(a, Upper(x), Lower(y))
  {
    UpperOfLower(x);
    UpperOfLower(y);
  }

  /** The transition relation is symmetric and irreflexive. */
  lemma TransitionSymmetricIrreflexive(a: Atm, x: string, y: string)
    ensures IsValidTransition(a, x, y) == IsValidTransition(a, y, x)
    ensures !IsValidTransition(a, x, x)
  {
  }

  /** Each side's letters appear on no other side: the usual puzzle layout. */
  predicate SidesDisjoint(sides: seq<string>) {
    forall c, i, j :: 0 <= i < j < |sides| && OnSide(sides, c, i) ==> !OnSide(sides, c, j)
  }

  /**
   * For a box whose sides share no letter, a transition is valid exactly when
   * both arguments are single puzzle letters and no side holds both.
   */
  lemma {:induction false} TransitionIffDifferentSides(sides: seq<string>, x: char, y: char)
    requires SidesDisjoint(sides)
    ensures IsValidTransition(Build(sides), [x], [y]) <==>
      && (exists i :: 0 <= i < |sides| && OnSide(sides, UpperChar(x), i))
      && (exists j :: 0 <= j < |sides| && OnSide(sides, UpperChar(y), j))
      && (forall i :: 0 <= i < |sides| ==> !(OnSide(sides, UpperChar(x), i) && OnSide(sides, UpperChar(y), i)))
  {
    var a := Build(sides);
    var xu, yu := UpperChar(x), UpperChar(y);
    TransitionOfChars(a, x, y);
    if xu in a.letterToSide && yu in a.letterToSide {
      var sx, sy := a.letterToSide[xu], a.letterToSide[yu];
      assert OnSide(sides, xu, sx) && OnSide(sides, yu, sy);
      OnlySide(sides, xu);
      OnlySide(sides, yu);
      if sx == sy {
        assert OnSide(sides, xu, sx) && OnSide(sides, yu, sx);
      }
    } else if xu !in a.letterToSide {
      assert xu !in a.allLetters;
    } else {
      assert yu !in a.allLetters;
    }
  }

  /** A transition between single letters compares the sides of their upper-case forms. */
  lemma TransitionOfChars(a: Atm, x: char, y: char)
    ensures IsValidTransition(a, [x], [y]) <==>
      UpperChar(x) in a.letterToSide && UpperChar(y) in a.letterToSide &&
      a.letterToSide[UpperChar(x)] != a.letterToSide[UpperChar(y)]
  {
    assert Upper([x]) == [UpperChar(x)] && Upper([y]) == [UpperChar(y)];
  }

  /** In a box whose sides share no letter, the side a letter maps to is the only side holding it. */
  lemma OnlySide(sides: seq<string>, c: char)
    requires SidesDisjoint(sides) && c in Build(sides).letterToSide
    ensures forall i :: 0 <= i < |sides| && OnSide(sides, c, i) ==> i == Build(sides).letterToSide[c]
  {
    var s := Build(sides).letterToSide[c];
    assert s < |sides| && OnSide(sides, c, s);
    forall i | 0 <= i < |sides| && OnSide(sides, c, i) ensures i == s {
    }
  }

  /**
   * A word of two or more letters is legal exactly when each adjacent pair is
   * a valid transition; the letters-in-puzzle test adds nothing beyond that.
   */
  lemma ValidWordIffPairs(a: Atm, w: string)
    requires Valid(a) && |w| >= 2
    ensures IsValidWord(a, w) <==> forall i :: 0 <= i < |w| - 1 ==> MoveAt(a, w, i)
  {
    var wu := Upper(w);
    forall i | 0 <= i < |w| ensures Upper([w[i]]) == Upper([wu[i]]) {
      UpperLowerChar(w[i]);
    }
    forall i | 0 <= i < |w| - 1 ensures MoveAt(a, w, i) == MoveAt(a, wu, i) {
      assert Upper([w[i]]) == Upper([wu[i]]) && Upper([w[i + 1]]) == Upper([wu[i + 1]]);
    }
    if forall i :: 0 <= i < |w| - 1 ==> MoveAt(a, w, i) {
      forall i | 0 <= i < |wu| ensures wu[i] in a.allLetters {
        if i < |w| - 1 {
          assert MoveAt(a, w, i);
        } else {
          assert MoveAt(a, w, i - 1);
        }
      }
    }
  }

  /** Word legality ignores case. */
  lemma ValidWordIgnoresCase(a: Atm, w: string)
    ensures IsValidWord(a, w) == IsValidWord(a, Lower(w))
    ensures IsValidWord(a, w) == IsValidWord(a, Upper(w))
  {
    UpperOfLower(w);
  }

  /** No letter is unused before anything is used; none is unused once all are. */
  lemma UnusedLettersBounds(a: Atm)
    ensures GetUnusedLetters(a, {}) == a.allLetters
    ensures Valid(a) ==> GetUnusedLetters(a, a.allLetters) == {}
  {
    if Valid(a) {
      forall c | c in a.allLetters ensures c !in GetUnusedLetters(a, a.allLetters) {
        assert UpperChar(c) == c;
      }
    }
  }
}
