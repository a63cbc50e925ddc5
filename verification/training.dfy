/**
 The model and its training pass (`LanguageModel`'s constructors and
 `train`). The corpus is a string rather than a file.

 The reference against which training is proved is `Followers`: for a
 window `w`, the characters of the corpus that come right after an
 occurrence of `w`, in corpus order.
 */
module Training {
  import opened CharLists
  import opened Probabilities

  /** Windows to their successor lists. */
  type Table = map<string, CharList>

  /** A language model: its window length and its table. The random source
      is not part of the state; draws are passed to generation instead. */
  datatype Model = Model(windowLength: nat, table: Table)

  /** The state every reachable model is in: each key is a window of the
      model's length, and each list is non-empty, holds each character once
      and counts every record at least once. */
  predicate Valid(m: Model) {
    forall w :: w in m.table ==> |w| == m.windowLength && WellFormed(m.table[w])
  }

  /** Both constructors: a model with the given window length and no windows. */
  function NewModel(windowLength: nat): (m: Model)
    ensures m.windowLength == windowLength
    ensures forall w :: w !in m.table
    ensures Valid(m)
  {
    Model(windowLength, map[])
  }

  /** The list stored for `w`, or the empty list for a window not in `t`. */
  function Lookup(t: Table, w: string): (l: CharList)
    ensures w in t ==> l == t[w]
    ensures w !in t ==> Chars(l) == {} && Total(l) == 0
  {
    if w in t then t[w] else []
  }

  /** The `W` characters of `s` right before position `i`. */
  function WindowAt(s: string, W: nat, i: int): string
    requires W <= i <= |s|
  {
    s[i - W..i]
  }

  /** The characters that follow an occurrence of `w` in `s`, in order:
      `s[i]` for every `i >= W` whose window is `w`. */
  function Followers(s: string, W: nat, w: string): seq<char> {
    if |s| <= W then []
    else Followers(s[..|s| - 1], W, w) + (if WindowAt(s, W, |s| - 1) == w then [s[|s| - 1]] else [])
  }

  /** Extending the text by one character adds at most that character to
      the followers of the window before it. */
  lemma FollowersSnoc(p: string, c: char, W: nat, x: string)
    requires W <= |p|
    ensures Followers(p + [c], W, x) == Followers(p, W, x) + (if WindowAt(p + [c], W, |p|) == x then [c] else [])
  {
    assert (p + [c])[..|p|] == p;
  }

  /** The positions at which `w` is followed by `c`. */
  ghost function Positions(s: string, W: nat, w: string, c: char): set<int> {
    set i | W <= i < |s| && WindowAt(s, W, i) == w && s[i] == c
  }

  /** The number of times `w` followed by `c` occurs in `s`. */
  ghost function Occurrences(s: string, W: nat, w: string, c: char): nat {
    |Positions(s, W, w, c)|
  }

  /** Extending the text by one character adds at most its last position. */
  lemma PositionsSnoc(s: string, W: nat, w: string, c: char)
    requires W < |s|
    ensures var n := |s| - 1;
      Positions(s, W, w, c) == Positions(s[..n], W, w, c) + (if WindowAt(s, W, n) == w && s[n] == c then {n} else {})
  {
    var p := s[..|s| - 1];
    forall i | W <= i < |s| - 1 ensures WindowAt(p, W, i) == WindowAt(s, W, i) && p[i] == s[i] {
    }
  }

  lemma OccurrencesSnoc(s: string, W: nat, w: string, c: char)
    requires W < |s|
    ensures var n := |s| - 1;
      Occurrences(s, W, w, c) == Occurrences(s[..n], W, w, c) + (if WindowAt(s, W, n) == w && s[n] == c then 1 else 0)
  {
    var n := |s| - 1;
    PositionsSnoc(s, W, w, c);
    var before := Positions(s[..n], W, w, c);
    assert n !in before;
    CardAddFresh(before, n);
  }

  lemma CardAddFresh(a: set<int>, n: int)
    requires n !in a
    ensures |a + {n}| == |a| + 1
  {
  }

  lemma FollowersSnocCount(s: string, W: nat, w: string, c: char)
    requires W < |s|
    ensures var n := |s| - 1;
      multiset(Followers(s, W, w))[c] == multiset(Followers(s[..n], W, w))[c] + (if WindowAt(s, W, n) == w && s[n] == c then 1 else 0)
  {
    var n := |s| - 1;
    var tail := if WindowAt(s, W, n) == w then [s[n]] else [];
    assert Followers(s, W, w) == Followers(s[..n], W, w) + tail;
    assert multiset(Followers(s, W, w)) == multiset(Followers(s[..n], W, w)) + multiset(tail);
  }

  /** `Followers` lists each successor as often as it occurs. */
  lemma {:induction false} FollowersCount(s: string, W: nat, w: string, c: char)
    ensures multiset(Followers(s, W, w))[c] == Occurrences(s, W, w, c)
    decreases |s|
  {
    if |s| <= W {
      assert Positions(s, W, w, c) == {};
    } else {
      FollowersCount(s[..|s| - 1], W, w, c);
      FollowersSnocCount(s, W, w, c);
      OccurrencesSnoc(s, W, w, c);
    }
  }

  /** A character is among `w`'s followers iff `w` followed by it occurs. */
  lemma FollowersMember(s: string, W: nat, w: string, c: char)
    ensures c in Followers(s, W, w) <==> exists i :: W <= i < |s| && WindowAt(s, W, i) == w && s[i] == c
  {
    FollowersCount(s, W, w, c);
    if c in Followers(s, W, w) {
      assert Positions(s, W, w, c) != {};
      var i :| i in Positions(s, W, w, c);
    } else {
      assert Positions(s, W, w, c) == {};
      assert forall i :: W <= i < |s| && WindowAt(s, W, i) == w && s[i] == c ==> i in Positions(s, W, w, c);
    }
  }

  /** `w` has followers iff it occurs before the last character of `s`. */
  lemma FollowersNonEmpty(s: string, W: nat, w: string)
    ensures Followers(s, W, w) != [] <==> exists i :: W <= i < |s| && WindowAt(s, W, i) == w
  {
    var f := Followers(s, W, w);
    if f != [] {
      FollowersMember(s, W, w, f[0]);
    } else {
      forall i | W <= i < |s| && WindowAt(s, W, i) == w ensures false {
        FollowersMember(s, W, w, s[i]);
      }
    }
  }

  /** The table `t` is `t0` updated with every successor in `s`: its keys are
      those of `t0` and every window with a follower, and each list is `t0`'s
      updated with the window's followers in corpus order. */
  ghost predicate Tallied(t: Table, t0: Table, s: string, W: nat, pl: Placement) {
    && (forall w :: w in t <==> w in t0 || Followers(s, W, w) != [])
    && (forall w :: w in t ==> t[w] == UpdateAll(Lookup(t0, w), Followers(s, W, w), pl))
  }

  /** One turn of the reading loop: the next character `c` updates the list
      of the window before it, which is created empty when missing. */
  function Step(t: Table, window: string, c: char, pl: Placement): (r: Table)
    ensures r.Keys == t.Keys + {window}
    ensures Chars(r[window]) == Chars(Lookup(t, window)) + {c}
    ensures Total(r[window]) == Total(Lookup(t, window)) + 1
    ensures r[window] == Update(Lookup(t, window), c, pl)
    ensures CountOf(r[window], c) == CountOf(Lookup(t, window), c) + 1
    ensures forall x :: x in t && x != window ==> r[x] == t[x]
  {
    UpdateCounts(Lookup(t, window), c, pl, c);
    t[window := Update(Lookup(t, window), c, pl)]
  }

  /** One step keeps a tally a tally. */
  lemma {:induction false} StepTallies(t: Table, t0: Table, p: string, c: char, W: nat, pl: Placement)
    requires W <= |p|
    requires Tallied(t, t0, p, W, pl)
    ensures Tallied(Step(t, WindowAt(p + [c], W, |p|), c, pl), t0, p + [c], W, pl)
  {
    var w := WindowAt(p + [c], W, |p|);
    var t' := Step(t, w, c, pl);
    forall x ensures x in t' <==> x in t0 || Followers(p + [c], W, x) != [] {
      FollowersSnoc(p, c, W, x);
    }
    forall x | x in t' ensures t'[x] == UpdateAll(Lookup(t0, x), Followers(p + [c], W, x), pl) {
      FollowersSnoc(p, c, W, x);
      if x == w {
        var f := Followers(p, W, w);
        assert Followers(p + [c], W, x) == f + [c];
        assert Lookup(t, w) == UpdateAll(Lookup(t0, w), f, pl);
        UpdateAllSnoc(Lookup(t0, w), f, c, pl);
      } else {
        assert Followers(p + [c], W, x) == Followers(p, W, x);
        assert t'[x] == t[x];
      }
    }
  }

  /** Dropping the first character of a window and appending the next one
      gives the window one position further on. */
  lemma WindowSlides(s: string, W: nat, i: nat)
    requires 1 <= W <= i < |s|
    ensures WindowAt(s, W, i)[1..] + [s[i]] == WindowAt(s, W, i + 1)
  {
  }

  /** The step at position `i` extends a tally of `s[..i]` to one of `s[..i + 1]`. */
  lemma {:induction false} StepTalliesAt(t: Table, t0: Table, s: string, i: nat, W: nat, pl: Placement)
    requires W <= i < |s|
    requires Tallied(t, t0, s[..i], W, pl)
    ensures Tallied(Step(t, WindowAt(s, W, i), s[i], pl), t0, s[..i + 1], W, pl)
  {
    assert s[..i + 1] == s[..i] + [s[i]];
    assert WindowAt(s[..i] + [s[i]], W, i) == WindowAt(s, W, i);
    StepTallies(t, t0, s[..i], s[i], W, pl);
  }

  /** Lines 63-65 of `train`: normalise every list of the table. */
  function NormaliseAll(t: Table): (r: Table)
    requires forall w :: w in t ==> t[w] == [] || Total(t[w]) > 0
    ensures r.Keys == t.Keys
    ensures forall w :: w in r ==> r[w] == CalculateProbabilities(t[w])
    ensures forall w :: w in r ==> |r[w]| == |t[w]|
    ensures forall w :: w in r && r[w] != [] ==> r[w][|r[w]| - 1].cp == 1.0
  {
    map w | w in t :: CalculateProbabilities(t[w])
  }

  /** What training a model `m` on `corpus` yields: every window of the
      corpus that is followed by a character becomes a key, and each key's
      list is its old list (empty for a new key) updated with the window's
      followers in corpus order and then normalised. */
  ghost predicate TrainedFrom(m': Model, m: Model, corpus: string, pl: Placement) {
    && m'.windowLength == m.windowLength
    && (forall w :: w in m'.table <==> w in m.table || Followers(corpus, m.windowLength, w) != [])
    && (forall w :: w in m'.table ==> ListTrained(m'.table[w], m, corpus, pl, w))
  }

  /** The list `l'` of window `w` after training `m` on `corpus`: the old
      list updated with the window's followers, then normalised. */
  ghost predicate ListTrained(l': CharList, m: Model, corpus: string, pl: Placement, w: string) {
    var l := UpdateAll(Lookup(m.table, w), Followers(corpus, m.windowLength, w), pl);
    (l == [] || Total(l) > 0) && l' == CalculateProbabilities(l)
  }

  /** Lines 38-60 of `train`: the first `W` characters (or all of a shorter
      corpus) form the window; each further character is counted in the
      window's list and the window slides one character on. */
  method CountCorpus(t0: Table, corpus: string, W: nat, pl: Placement) returns (table: Table)
    requires W >= 1
    ensures forall w :: w in table <==> w in t0 || Followers(corpus, W, w) != []
    ensures forall w :: w in table ==> table[w] == UpdateAll(Lookup(t0, w), Followers(corpus, W, w), pl)
  {
    var partWord := if |corpus| < W then corpus else corpus[..W];
    table := t0;
    var i := |partWord|;
    while i < |corpus|
      invariant i <= |corpus|
      invariant i < W ==> i == |corpus|
      invariant W <= i ==> partWord == WindowAt(corpus, W, i)
      invariant Tallied(table, t0, corpus[..i], W, pl)
    {
      var c := corpus[i];
      StepTalliesAt(table, t0, corpus, i, W, pl);
      table := Step(table, partWord, c, pl);
      WindowSlides(corpus, W, i);
      partWord := partWord[1..] + [c];
      i := i + 1;
      assert Tallied(table, t0, corpus[..i], W, pl);
    }
    assert corpus[..i] == corpus;
  }

  /** `train` on a corpus string: count the corpus into the table, then
      normalise every list. */
  method Train(m: Model, corpus: string, pl: Placement) returns (m': Model)
    requires m.windowLength >= 1
    requires Valid(m)
    ensures TrainedFrom(m', m, corpus, pl)
    ensures Valid(m')
    ensures |corpus| <= m.windowLength ==> m'.table.Keys == m.table.Keys
  {
    var table := CountCorpus(m.table, corpus, m.windowLength, pl);
    TalliedWellFormed(m, table, corpus, pl);
    NormaliseAllTrained(m, table, corpus, pl);
    NormaliseAllValid(m.windowLength, table);
    if |corpus| <= m.windowLength {
      ShortCorpusKeys(m, table, corpus, pl);
    }
    m' := Model(m.windowLength, NormaliseAll(table));
  }

  /** The lists of a tally are well formed. */
  lemma {:induction false} TalliedList(m: Model, t: Table, corpus: string, pl: Placement, w: string)
    requires Valid(m)
    requires Tallied(t, m.table, corpus, m.windowLength, pl)
    requires w in t
    ensures |w| == m.windowLength && WellFormed(t[w])
  {
    var f := Followers(corpus, m.windowLength, w);
    var l := UpdateAll(Lookup(m.table, w), f, pl);
    if w !in m.table {
      FollowersNonEmpty(corpus, m.windowLength, w);
      var i :| m.windowLength <= i < |corpus| && WindowAt(corpus, m.windowLength, i) == w;
      assert f[0] in Chars(l);
    } else {
      assert m.table[w][0] in m.table[w];
      assert m.table[w][0].chr in Chars(l);
    }
  }

  lemma {:induction false} TalliedWellFormed(m: Model, t: Table, corpus: string, pl: Placement)
    requires Valid(m)
    requires Tallied(t, m.table, corpus, m.windowLength, pl)
    ensures forall w :: w in t ==> |w| == m.windowLength && WellFormed(t[w])
  {
    forall w | w in t ensures |w| == m.windowLength && WellFormed(t[w]) {
      TalliedList(m, t, corpus, pl, w);
    }
  }

  lemma ShortCorpusKeys(m: Model, t: Table, corpus: string, pl: Placement)
    requires |corpus| <= m.windowLength
    requires Tallied(t, m.table, corpus, m.windowLength, pl)
    ensures t.Keys == m.table.Keys
  {
    assert forall w :: Followers(corpus, m.windowLength, w) == [];
  }

  lemma {:induction false} NormaliseAllTrained(m: Model, t: Table, corpus: string, pl: Placement)
    requires Tallied(t, m.table, corpus, m.windowLength, pl)
    requires forall w :: w in t ==> WellFormed(t[w])
    ensures forall w :: w in t ==> Total(t[w]) > 0
    ensures TrainedFrom(Model(m.windowLength, NormaliseAll(t)), m, corpus, pl)
  {
    forall w | w in t ensures Total(t[w]) > 0 {
      WellFormedTotal(t[w]);
    }
    var n := NormaliseAll(t);
    forall w | w in n ensures ListTrained(n[w], m, corpus, pl, w) {
      assert n[w] == CalculateProbabilities(t[w]);
    }
  }

  lemma NormaliseAllValid(W: nat, t: Table)
    requires forall w :: w in t ==> |w| == W && WellFormed(t[w])
    ensures forall w :: w in t ==> Total(t[w]) > 0
    ensures Valid(Model(W, NormaliseAll(t)))
  {
    forall w | w in t ensures Total(t[w]) > 0 {
      WellFormedTotal(t[w]);
    }
    var n := NormaliseAll(t);
    forall w | w in n ensures |w| == W && WellFormed(n[w]) {
      NormalisedKeeps(t[w]);
    }
  }

  /** What training adds, for every window and character: a window is a key
      after training exactly when it was one before or occurs in the corpus
      followed by a character; its list then holds the characters it held
      before and those seen after the window, and each character's count
      grows by the number of times it follows the window in the corpus. */
  lemma TrainedCounts(m': Model, m: Model, corpus: string, pl: Placement, w: string, c: char)
    requires TrainedFrom(m', m, corpus, pl)
    ensures w in m'.table <==>
      w in m.table || exists i :: m.windowLength <= i < |corpus| && WindowAt(corpus, m.windowLength, i) == w
    ensures w in m'.table ==>
      (c in Chars(m'.table[w]) <==>
        c in Chars(Lookup(m.table, w)) ||
        exists i :: m.windowLength <= i < |corpus| && WindowAt(corpus, m.windowLength, i) == w && corpus[i] == c)
    ensures w in m'.table ==>
      CountOf(m'.table[w], c) == CountOf(Lookup(m.table, w), c) + Occurrences(corpus, m.windowLength, w, c)
  {
    var W := m.windowLength;
    FollowersNonEmpty(corpus, W, w);
    if w in m'.table {
      var f := Followers(corpus, W, w);
      var l := UpdateAll(Lookup(m.table, w), f, pl);
      NormalisedCounts(l, c);
      UpdateAllCounts(Lookup(m.table, w), f, pl, c);
      FollowersCount(corpus, W, w, c);
      FollowersMember(corpus, W, w, c);
      assert c in f <==> c in (set x | x in f);
    }
  }

  /** Training a new model: the keys are exactly the windows of the corpus
      that are followed by a character, each list holds exactly the
      characters seen after its window, and each count is the number of
      times the character follows the window. */
  lemma TrainedFromScratch(m': Model, W: nat, corpus: string, pl: Placement, w: string, c: char)
    requires TrainedFrom(m', NewModel(W), corpus, pl)
    ensures w in m'.table <==> exists i :: W <= i < |corpus| && WindowAt(corpus, W, i) == w
    ensures w in m'.table ==>
      (c in Chars(m'.table[w]) <==> exists i :: W <= i < |corpus| && WindowAt(corpus, W, i) == w && corpus[i] == c)
    ensures w in m'.table ==> CountOf(m'.table[w], c) == Occurrences(corpus, W, w, c)
  {
    var m0 := NewModel(W);
    TrainedCounts(m', m0, corpus, pl, w, c);
    FromEmpty(m'.table, Lookup(m0.table, w), w in m0.table, corpus, W, w, c);
  }

  /** The facts of `TrainedCounts` for a window with no list before. */
  lemma FromEmpty(t: Table, l0: CharList, wasKey: bool, corpus: string, W: nat, w: string, c: char)
    requires !wasKey && l0 == []
    requires w in t <==> wasKey || exists i :: W <= i < |corpus| && WindowAt(corpus, W, i) == w
    requires w in t ==>
      (c in Chars(t[w]) <==>
        c in Chars(l0) || exists i :: W <= i < |corpus| && WindowAt(corpus, W, i) == w && corpus[i] == c)
    requires w in t ==> CountOf(t[w], c) == CountOf(l0, c) + Occurrences(corpus, W, w, c)
    ensures w in t <==> exists i :: W <= i < |corpus| && WindowAt(corpus, W, i) == w
    ensures w in t ==>
      (c in Chars(t[w]) <==> exists i :: W <= i < |corpus| && WindowAt(corpus, W, i) == w && corpus[i] == c)
    ensures w in t ==> CountOf(t[w], c) == Occurrences(corpus, W, w, c)
  {
    assert Chars(l0) == {};
  }

  /** A corpus no longer than the window teaches a new model nothing. */
  lemma TrainedShortCorpus(m': Model, W: nat, corpus: string, pl: Placement)
    requires TrainedFrom(m', NewModel(W), corpus, pl)
    requires |corpus| <= W
    ensures m'.table == map[]
  {
    assert forall x :: Followers(corpus, W, x) == [];
    assert forall x :: x !in m'.table;
  }
}
