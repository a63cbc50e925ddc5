/**
 Text generation (`LanguageModel.generate`): starting from a seed text, the
 model repeatedly looks up the last window of the text and appends a
 character drawn from that window's list.

 The program draws with `Math.random()`; here the draws are a parameter,
 `draws(k)` being the value of the `k`-th call made by one generation.
 */
module Generation {
  import opened CharLists
  import opened Probabilities
  import opened Training

  /** The values successive `Math.random()` calls return. */
  type Draws = nat -> real

  function Max(a: int, b: int): int {
    if a < b then b else a
  }

  /** The characters the loop appends after position `n0` of `out` were each
      drawn, with draw number `j - n0`, from the list of the window before
      them, and that window was a key. */
  ghost predicate DrawnAfter(m: Model, out: string, n0: nat, draws: Draws) {
    forall j :: n0 <= j < |out| && m.windowLength <= j ==>
      && WindowAt(out, m.windowLength, j) in m.table
      && out[j] == GetRandomChar(m.table[WindowAt(out, m.windowLength, j)], draws(j - n0))
  }

  /** The loop stopped at `out`: the text is long enough, or its last window
      was never seen in training. */
  ghost predicate Stopped(m: Model, out: string, textLength: int) {
    |out| >= textLength
    || (m.windowLength <= |out| && WindowAt(out, m.windowLength, |out|) !in m.table)
  }

  /** What `generate` returns, stated without its loop: a seed shorter than
      the window comes back unchanged; otherwise the result extends the
      seed, is no longer than `textLength` (or the seed, if that is longer),
      every added character was drawn from its window's list, and the text
      stops where the loop does. */
  ghost predicate IsGeneration(m: Model, initialText: string, textLength: int, draws: Draws, out: string) {
    if |initialText| < m.windowLength then out == initialText
    else
      && initialText <= out
      && |out| <= Max(|initialText|, textLength)
      && DrawnAfter(m, out, |initialText|, draws)
      && Stopped(m, out, textLength)
  }

  /** The loop of `generate` from `text` on, where the seed had length `n0`. */
  function Extend(m: Model, text: string, n0: nat, textLength: int, draws: Draws): (out: string)
    requires m.windowLength <= |text| && n0 <= |text|
    requires DrawnAfter(m, text, n0, draws)
    ensures text <= out
    ensures |out| <= Max(|text|, textLength)
    ensures DrawnAfter(m, out, n0, draws)
    ensures Stopped(m, out, textLength)
    decreases textLength - |text|
  {
    if |text| >= textLength then text
    else
      var window := WindowAt(text, m.windowLength, |text|);
      if window !in m.table then text
      else
        var next := text + [GetRandomChar(m.table[window], draws(|text| - n0))];
        DrawnSnoc(m, text, n0, draws);
        var out := Extend(m, next, n0, textLength, draws);
        assert text <= next;
        out
  }

  /** A text and its extensions agree on the windows inside the text. */
  lemma PrefixWindows(a: string, b: string, W: nat)
    requires a <= b
    ensures forall j :: W <= j <= |a| ==> WindowAt(b, W, j) == WindowAt(a, W, j)
  {
  }

  lemma DrawnPrefix(m: Model, a: string, b: string, n0: nat, draws: Draws)
    requires a <= b
    requires DrawnAfter(m, b, n0, draws)
    ensures DrawnAfter(m, a, n0, draws)
  {
    PrefixWindows(a, b, m.windowLength);
  }

  /** One turn of the loop keeps every added character drawn. */
  lemma DrawnSnoc(m: Model, text: string, n0: nat, draws: Draws)
    requires m.windowLength <= |text| && n0 <= |text|
    requires DrawnAfter(m, text, n0, draws)
    requires WindowAt(text, m.windowLength, |text|) in m.table
    ensures var window := WindowAt(text, m.windowLength, |text|);
      DrawnAfter(m, text + [GetRandomChar(m.table[window], draws(|text| - n0))], n0, draws)
  {
    var window := WindowAt(text, m.windowLength, |text|);
    var next := text + [GetRandomChar(m.table[window], draws(|text| - n0))];
    PrefixWindows(text, next, m.windowLength);
  }

  /** `generate(initialText, textLength)`: `textLength` is the length of the
      whole result, seed included. */
  function Generate(m: Model, initialText: string, textLength: int, draws: Draws): (out: string)
    ensures IsGeneration(m, initialText, textLength, draws, out)
  {
    if |initialText| < m.windowLength then initialText
    else Extend(m, initialText, |initialText|, textLength, draws)
  }

  /** `IsGeneration` pins the result down: the only text it accepts is the
      one `Generate` returns. */
  lemma GenerationUnique(m: Model, initialText: string, textLength: int, draws: Draws, out: string)
    requires IsGeneration(m, initialText, textLength, draws, out)
    ensures out == Generate(m, initialText, textLength, draws)
  {
    if |initialText| >= m.windowLength {
      ExtendUnique(m, initialText, |initialText|, textLength, draws, out);
    }
  }

  lemma {:induction false} ExtendUnique(m: Model, text: string, n0: nat, textLength: int, draws: Draws, out: string)
    requires m.windowLength <= |text| && n0 <= |text|
    requires DrawnAfter(m, text, n0, draws)
    requires text <= out
    requires |out| <= Max(|text|, textLength)
    requires DrawnAfter(m, out, n0, draws)
    requires Stopped(m, out, textLength)
    ensures out == Extend(m, text, n0, textLength, draws)
    decreases textLength - |text|
  {
    var W := m.windowLength;
    if |text| >= textLength {
      assert out == text;
    } else {
      var window := WindowAt(text, W, |text|);
      if |out| == |text| {
        assert out == text;
      } else {
        PrefixWindows(text, out, W);
        assert window in m.table;
        var next := text + [GetRandomChar(m.table[window], draws(|text| - n0))];
        assert next <= out;
        DrawnPrefix(m, next, out, n0, draws);
        ExtendUnique(m, next, n0, textLength, draws, out);
      }
    }
  }

  /** A seed that is already long enough, or whose last window was never
      seen, comes back unchanged; so does every seed when the model has not
      been trained. */
  lemma GenerateKeepsSeed(m: Model, initialText: string, textLength: int, draws: Draws)
    requires
      || |initialText| < m.windowLength
      || |initialText| >= textLength
      || WindowAt(initialText, m.windowLength, |initialText|) !in m.table
      || m.table == map[]
    ensures Generate(m, initialText, textLength, draws) == initialText
  {
  }

  /** Generation after training a new model on `corpus`, with every draw in
      [0, 1) as `Math.random()` promises: each added character follows its
      window somewhere in the corpus, so no fallback space is ever invented. */
  lemma {:induction false} GeneratedFromCorpus(m: Model, W: nat, corpus: string, pl: Placement,
                            initialText: string, textLength: int, draws: Draws, j: nat)
    requires TrainedFrom(m, NewModel(W), corpus, pl)
    requires forall k :: 0.0 <= draws(k) < 1.0
    requires W <= |initialText| <= j < |Generate(m, initialText, textLength, draws)|
    ensures var out := Generate(m, initialText, textLength, draws);
      exists i :: W <= i < |corpus| && WindowAt(corpus, W, i) == WindowAt(out, W, j) && corpus[i] == out[j]
  {
    var out := Generate(m, initialText, textLength, draws);
    var w := WindowAt(out, W, j);
    var l := UpdateAll(Lookup(NewModel(W).table, w), Followers(corpus, W, w), pl);
    assert w in m.table && m.table[w] == CalculateProbabilities(l);
    TrainedFromScratch(m, W, corpus, pl, w, out[j]);
    var f := Followers(corpus, W, w);
    assert f != [];
    assert f[0] in Chars(l);
    DrawHitsRecord(l, draws(j - |initialText|));
    NormalisedCounts(l, out[j]);
  }
}
