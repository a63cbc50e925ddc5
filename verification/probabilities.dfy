/**
 Turning a window's counts into a distribution (`calculateProbabilities`)
 and drawing a character from it (`getRandomChar`).

 Probabilities are exact reals. The program uses doubles, so its `p` and
 `cp` values are rounded versions of the ones computed here.
 */
module Probabilities {
  import opened CharLists

  /** The normalising pass over `l`: each record gets `p = count / total`
      and `cp = acc + ` the running sum of the `p` values so far. */
  function NormaliseFrom(l: CharList, total: nat, acc: real): (r: CharList)
    requires total > 0
    ensures |r| == |l|
    ensures forall i :: 0 <= i < |l| ==>
      r[i] == CharData(l[i].chr, l[i].count, l[i].count as real / total as real,
                       acc + Total(l[..i + 1]) as real / total as real)
  {
    if l == [] then []
    else
      var p := l[0].count as real / total as real;
      var rest := NormaliseFrom(l[1..], total, acc + p);
      NormaliseStep(l, total, acc, rest);
      [CharData(l[0].chr, l[0].count, p, acc + p)] + rest
  }

  lemma NormaliseStep(l: CharList, total: nat, acc: real, rest: CharList)
    requires total > 0 && l != []
    requires |rest| == |l| - 1
    requires forall i :: 0 <= i < |l| - 1 ==>
      rest[i] == CharData(l[i + 1].chr, l[i + 1].count, l[i + 1].count as real / total as real,
                          (acc + l[0].count as real / total as real) + Total(l[1..][..i + 1]) as real / total as real)
    ensures var r := [CharData(l[0].chr, l[0].count, l[0].count as real / total as real,
                               acc + l[0].count as real / total as real)] + rest;
      forall i :: 0 <= i < |l| ==>
        r[i] == CharData(l[i].chr, l[i].count, l[i].count as real / total as real,
                         acc + Total(l[..i + 1]) as real / total as real)
  {
    var r := [CharData(l[0].chr, l[0].count, l[0].count as real / total as real,
                       acc + l[0].count as real / total as real)] + rest;
    PrefixTotalCons(l);
    forall i | 0 <= i < |l|
      ensures r[i] == CharData(l[i].chr, l[i].count, l[i].count as real / total as real,
                               acc + Total(l[..i + 1]) as real / total as real)
    {
      if i == 0 {
        assert l[..1] == [l[0]];
      } else {
        assert r[i] == rest[i - 1];
        DivAdd(l[0].count, Total(l[1..][..i]), total);
      }
    }
  }

  /** The counts of a non-empty prefix are the first count plus the counts
      of the matching prefix of the tail. */
  lemma PrefixTotalCons(l: CharList)
    requires l != []
    ensures forall k :: 1 <= k <= |l| ==> Total(l[..k]) == l[0].count + Total(l[1..][..k - 1])
  {
    forall k | 1 <= k <= |l|
      ensures Total(l[..k]) == l[0].count + Total(l[1..][..k - 1])
    {
      assert l[..k][1..] == l[1..][..k - 1];
    }
  }

  lemma PrefixTotalStep(l: CharList, k: nat)
    requires k < |l|
    ensures Total(l[..k + 1]) == Total(l[..k]) + l[k].count
  {
    assert l[..k + 1] == l[..k] + [l[k]];
    AppendFacts(l[..k], l[k]);
  }

  /** The counts of prefixes grow with the prefix. */
  lemma {:induction false} PrefixTotalMonotone(l: CharList, i: nat, j: nat)
    requires i <= j <= |l|
    ensures Total(l[..i]) <= Total(l[..j])
    decreases j - i
  {
    if i < j {
      PrefixTotalStep(l, i);
      PrefixTotalMonotone(l, i + 1, j);
    }
  }

  /** `calculateProbabilities`: each record's `p` is its share of the list's
      total count and its `cp` is the running sum of `p` in list order, so
      `cp` is the share of the counts up to and including the record; `cp`
      never decreases and ends at 1. Characters and counts are kept. */
  function CalculateProbabilities(l: CharList): (r: CharList)
    requires l == [] || Total(l) > 0
    ensures |r| == |l|
    ensures forall i :: 0 <= i < |l| ==> r[i].chr == l[i].chr && r[i].count == l[i].count
    ensures forall i :: 0 <= i < |l| ==> r[i].p == l[i].count as real / Total(l) as real
    ensures l != [] ==> r[0].cp == r[0].p
    ensures forall i :: 0 < i < |r| ==> r[i].cp == r[i - 1].cp + r[i].p
    ensures forall i :: 0 <= i < |l| ==> r[i].cp == Total(l[..i + 1]) as real / Total(l) as real
    ensures forall i, j :: 0 <= i <= j < |r| ==> r[i].cp <= r[j].cp
    ensures l != [] ==> r[|r| - 1].cp == 1.0
  {
    if l == [] then []
    else
      var r := NormaliseFrom(l, Total(l), 0.0);
      CumulativeFacts(l, r);
      r
  }

  /** The shape `NormaliseFrom` gives a list with total `t` and start 0. */
  ghost predicate Normalised(l: CharList, r: CharList, t: nat)
    requires t > 0
  {
    && |r| == |l|
    && forall i :: 0 <= i < |l| ==>
         r[i] == CharData(l[i].chr, l[i].count, l[i].count as real / t as real,
                          0.0 + Total(l[..i + 1]) as real / t as real)
  }

  /** Normalising keeps characters and counts, so it keeps uniqueness and
      positive counts. */
  lemma NormalisedKeeps(l: CharList)
    requires l == [] || Total(l) > 0
    ensures Unique(l) ==> Unique(CalculateProbabilities(l))
    ensures Counted(l) ==> Counted(CalculateProbabilities(l))
    ensures WellFormed(l) ==> WellFormed(CalculateProbabilities(l))
  {
  }

  /** Normalising keeps every character's count and the set of characters. */
  lemma {:induction false} NormalisedCounts(l: CharList, x: char)
    requires l == [] || Total(l) > 0
    ensures CountOf(CalculateProbabilities(l), x) == CountOf(l, x)
    ensures Chars(CalculateProbabilities(l)) == Chars(l)
  {
    SameRecords(l, CalculateProbabilities(l), x);
  }

  /** Two lists with the same characters and counts, position by position,
      have the same counts and characters. */
  lemma {:induction false} SameRecords(a: CharList, b: CharList, x: char)
    requires |a| == |b|
    requires forall i :: 0 <= i < |a| ==> a[i].chr == b[i].chr && a[i].count == b[i].count
    ensures CountOf(a, x) == CountOf(b, x)
    ensures Chars(a) == Chars(b)
  {
    if a != [] {
      SameRecords(a[1..], b[1..], x);
      assert forall e :: e in a <==> e == a[0] || e in a[1..];
      assert forall e :: e in b <==> e == b[0] || e in b[1..];
    }
  }

  lemma {:induction false} CumulativeFacts(l: CharList, r: CharList)
    requires l != [] && Total(l) > 0
    requires Normalised(l, r, Total(l))
    ensures r[0].cp == r[0].p
    ensures forall i :: 0 < i < |r| ==> r[i].cp == r[i - 1].cp + r[i].p
    ensures forall i, j :: 0 <= i <= j < |r| ==> r[i].cp <= r[j].cp
    ensures r[|r| - 1].cp == 1.0
  {
    CumulativeFirst(l, r, Total(l));
    CumulativeRunning(l, r, Total(l));
    CumulativeMonotone(l, r, Total(l));
    CumulativeLast(l, r, Total(l));
  }

  lemma CumulativeLast(l: CharList, r: CharList, t: nat)
    requires l != [] && t == Total(l) && t > 0
    requires Normalised(l, r, t)
    ensures r[|r| - 1].cp == 1.0
  {
    var n := |l| - 1;
    assert r[n].cp == 0.0 + Total(l[..n + 1]) as real / t as real;
    assert l[..n + 1] == l;
    DivSelf(t);
  }

  lemma DivSelf(t: nat)
    requires t > 0
    ensures t as real / t as real == 1.0
  {
  }

  lemma CumulativeFirst(l: CharList, r: CharList, t: nat)
    requires l != [] && t > 0
    requires Normalised(l, r, t)
    ensures r[0].cp == r[0].p
  {
    assert l[..1] == [l[0]];
    assert Total(l[..1]) == l[0].count;
  }

  lemma CumulativeRunning(l: CharList, r: CharList, t: nat)
    requires t > 0
    requires Normalised(l, r, t)
    ensures forall i :: 0 < i < |r| ==> r[i].cp == r[i - 1].cp + r[i].p
  {
    forall i | 0 < i < |r| ensures r[i].cp == r[i - 1].cp + r[i].p {
      PrefixTotalStep(l, i);
      DivAdd(Total(l[..i]), l[i].count, t);
    }
  }

  lemma CumulativeMonotone(l: CharList, r: CharList, t: nat)
    requires t > 0
    requires Normalised(l, r, t)
    ensures forall i, j :: 0 <= i <= j < |r| ==> r[i].cp <= r[j].cp
  {
    forall i, j | 0 <= i <= j < |r| ensures r[i].cp <= r[j].cp {
      PrefixTotalMonotone(l, i + 1, j + 1);
      DivMonotone(Total(l[..i + 1]), Total(l[..j + 1]), t);
    }
  }

  lemma DivAdd(a: nat, b: nat, t: nat)
    requires t > 0
    ensures (a + b) as real / t as real == a as real / t as real + b as real / t as real
  {
  }

  lemma DivMonotone(a: nat, b: nat, t: nat)
    requires t > 0 && a <= b
    ensures a as real / t as real <= b as real / t as real
  {
  }

  /** `getRandomChar` with the draw `r` passed in: the character of the first
      record, in list order, whose `cp` exceeds `r`, and a space when no
      record does. */
  function GetRandomChar(l: CharList, r: real): (c: char)
    ensures c == ' ' || c in Chars(l)
  {
    if l == [] then ' '
    else if l[0].cp > r then (assert l[0] in l; l[0].chr)
    else
      assert forall e :: e in l[1..] ==> e in l;
      GetRandomChar(l[1..], r)
  }

  /** The draw picks the first record whose `cp` exceeds it. */
  lemma {:induction false} GetRandomCharPicks(l: CharList, r: real, k: nat)
    requires k < |l| && r < l[k].cp
    requires forall j :: 0 <= j < k ==> l[j].cp <= r
    ensures GetRandomChar(l, r) == l[k].chr
  {
    if k > 0 {
      assert l[0].cp <= r;
      assert l[1..][k - 1] == l[k];
      GetRandomCharPicks(l[1..], r, k - 1);
    }
  }

  /** When no record's `cp` exceeds the draw, the result is a space. */
  lemma {:induction false} GetRandomCharFallback(l: CharList, r: real)
    requires forall i :: 0 <= i < |l| ==> l[i].cp <= r
    ensures GetRandomChar(l, r) == ' '
  {
    if l != [] {
      assert l[0].cp <= r;
      GetRandomCharFallback(l[1..], r);
    }
  }

  /** On a normalised list, a draw in [0, 1) always lands on a record: the
      fallback space is never returned unless the list holds a space. */
  lemma {:induction false} DrawHitsRecord(l: CharList, r: real)
    requires l != [] && Total(l) > 0
    requires 0.0 <= r < 1.0
    ensures GetRandomChar(CalculateProbabilities(l), r) in Chars(l)
  {
    var n := CalculateProbabilities(l);
    var k := FirstAbove(n, r, |n| - 1);
    GetRandomCharPicks(n, r, k);
    assert l[k] in l;
  }

  /** The first position whose `cp` exceeds `r`, given that position `w` does. */
  lemma {:induction false} FirstAbove(l: CharList, r: real, w: nat) returns (k: nat)
    requires w < |l| && r < l[w].cp
    ensures k <= w && r < l[k].cp
    ensures forall j :: 0 <= j < k ==> l[j].cp <= r
  {
    k := 0;
    while l[k].cp <= r
      invariant k <= w
      invariant forall j :: 0 <= j < k ==> l[j].cp <= r
      decreases w - k
    {
      k := k + 1;
    }
  }

  /** Weighted selection: a draw in the interval between the cumulative
      count before record `k` and the one after it, as shares of the total,
      selects record `k`. The interval's width is record `k`'s `p`, so each
      character is drawn with its probability. */
  lemma {:induction false} DrawSelects(l: CharList, r: real, k: nat)
    requires Total(l) > 0 && k < |l|
    requires Total(l[..k]) as real / Total(l) as real <= r
    requires r < Total(l[..k + 1]) as real / Total(l) as real
    ensures GetRandomChar(CalculateProbabilities(l), r) == l[k].chr
  {
    var n := CalculateProbabilities(l);
    forall j | 0 <= j < k ensures n[j].cp <= r {
      PrefixTotalMonotone(l, j + 1, k);
      DivMonotone(Total(l[..j + 1]), Total(l[..k]), Total(l));
    }
    GetRandomCharPicks(n, r, k);
  }
}
