/**
 The successor lists of the language model: one record per character that
 was seen after a window, with its count and the probability fields that
 normalisation fills in later.

 The list class itself is not part of this model. Only the behaviour the
 model relies on is stated: `update(c)` increments the count of the record
 for `c` when there is one, and otherwise adds a record for `c` with count 1.
 Where the new record goes is left open (see `Placement`).
 */
module CharLists {

  /** One successor character of a window: the character, how often it
      followed the window, its probability `p` and its cumulative
      probability `cp`. The last two are zero until normalisation. */
  datatype CharData = CharData(chr: char, count: nat, p: real, cp: real)

  type CharList = seq<CharData>

  /** Where `update` puts a character it has not seen before: at the front or
      at the back of the list. Every property in this project holds for both
      choices; other insertion points are not covered. */
  datatype Placement = Front | Back

  /** The record `update` creates for a character not yet in the list. */
  function NewRecord(c: char): CharData {
    CharData(c, 1, 0.0, 0.0)
  }

  /** No character has two records. */
  predicate Unique(l: CharList) {
    forall i, j :: 0 <= i < j < |l| ==> l[i].chr != l[j].chr
  }

  /** Every record has been counted at least once. */
  predicate Counted(l: CharList) {
    forall i :: 0 <= i < |l| ==> l[i].count >= 1
  }

  /** The shape of every list in a trained table: non-empty, one record per
      character, every record counted. */
  predicate WellFormed(l: CharList) {
    l != [] && Unique(l) && Counted(l)
  }

  lemma WellFormedTotal(l: CharList)
    requires WellFormed(l)
    ensures Total(l) > 0
  {
  }

  function Chars(l: CharList): set<char> {
    set d | d in l :: d.chr
  }

  /** The summed counts of the records for `c`. */
  function CountOf(l: CharList, c: char): nat {
    if l == [] then 0 else (if l[0].chr == c then l[0].count else 0) + CountOf(l[1..], c)
  }

  /** The summed counts of all records. */
  function Total(l: CharList): nat {
    if l == [] then 0 else l[0].count + Total(l[1..])
  }

  lemma {:induction false} AppendFacts(l: CharList, d: CharData)
    ensures Chars(l + [d]) == Chars(l) + {d.chr}
    ensures Total(l + [d]) == Total(l) + d.count
    ensures forall x :: CountOf(l + [d], x) == CountOf(l, x) + (if d.chr == x then d.count else 0)
  {
    assert forall e :: e in l + [d] <==> e in l || e == d;
    if l != [] {
      assert (l + [d])[1..] == l[1..] + [d];
      AppendFacts(l[1..], d);
    } else {
      assert [d][1..] == [];
    }
  }

  lemma PrependFacts(l: CharList, d: CharData)
    ensures Chars([d] + l) == Chars(l) + {d.chr}
    ensures Total([d] + l) == Total(l) + d.count
    ensures forall x :: CountOf([d] + l, x) == CountOf(l, x) + (if d.chr == x then d.count else 0)
  {
    assert forall e :: e in [d] + l <==> e in l || e == d;
    assert ([d] + l)[1..] == l;
  }

  /** Replacing the record at `i` by one for the same character. */
  lemma {:induction false} ReplaceFacts(l: CharList, i: nat, d: CharData)
    requires i < |l| && d.chr == l[i].chr
    ensures Chars(l[i := d]) == Chars(l)
    ensures Total(l[i := d]) + l[i].count == Total(l) + d.count
    ensures forall x :: CountOf(l[i := d], x) + (if d.chr == x then l[i].count else 0)
                        == CountOf(l, x) + (if d.chr == x then d.count else 0)
    ensures forall e :: e in l && e.chr != d.chr ==> e in l[i := d]
    ensures forall e :: e in l[i := d] && e.chr != d.chr ==> e in l
  {
    forall e | e in l ensures e in l[i := d] || e == l[i] {
      var j :| 0 <= j < |l| && l[j] == e;
      if j != i {
        assert l[i := d][j] == e;
      }
    }
    forall e | e in l[i := d] ensures e in l || e == d {
      var j :| 0 <= j < |l| && l[i := d][j] == e;
      if j != i {
        assert l[j] == e;
      }
    }
    assert l[i := d][i] == d;
    assert l[i] in l;
    if i == 0 {
      assert l[i := d][1..] == l[1..];
    } else {
      assert l[i := d][1..] == l[1..][i - 1 := d];
      ReplaceFacts(l[1..], i - 1, d);
    }
  }

  /** The position of the record for `c`, or -1 when there is none. */
  function IndexOf(l: CharList, c: char): (i: int)
    ensures -1 <= i < |l|
    ensures 0 <= i ==> l[i].chr == c
    ensures i < 0 <==> c !in Chars(l)
  {
    if l == [] then -1
    else if l[0].chr == c then 0
    else
      assert forall e :: e in l <==> e == l[0] || e in l[1..];
      var k := IndexOf(l[1..], c);
      if k < 0 then -1 else k + 1
  }

  /** `List.update`: count one more occurrence of `c`. */
  function Update(l: CharList, c: char, pl: Placement): (r: CharList)
    ensures Chars(r) == Chars(l) + {c}
    ensures Total(r) == Total(l) + 1
    ensures |r| == if c in Chars(l) then |l| else |l| + 1
    ensures Unique(l) ==> Unique(r)
    ensures Counted(l) ==> Counted(r)
    ensures forall d :: d in l && d.chr != c ==> d in r
    ensures forall d :: d in r && d.chr != c ==> d in l
  {
    var i := IndexOf(l, c);
    if 0 <= i then
      var d := l[i].(count := l[i].count + 1);
      ReplaceFacts(l, i, d);
      l[i := d]
    else
      var d := NewRecord(c);
      assert forall j :: 0 <= j < |l| ==> l[j] in l;
      if pl == Front then
        PrependFacts(l, d);
        [d] + l
      else
        AppendFacts(l, d);
        l + [d]
  }

  /** The list after updating it with each character of `cs`, in order. */
  function UpdateAll(l: CharList, cs: seq<char>, pl: Placement): (r: CharList)
    ensures Chars(r) == Chars(l) + set x | x in cs
    ensures Total(r) == Total(l) + |cs|
    ensures Unique(l) ==> Unique(r)
    ensures Counted(l) ==> Counted(r)
  {
    if cs == [] then l
    else
      var front := cs[..|cs| - 1];
      assert cs == front + [cs[|cs| - 1]];
      Update(UpdateAll(l, front, pl), cs[|cs| - 1], pl)
  }

  /** `update(c)` counts one more `c` and leaves the other counts alone. */
  lemma UpdateCounts(l: CharList, c: char, pl: Placement, x: char)
    ensures CountOf(Update(l, c, pl), x) == CountOf(l, x) + (if x == c then 1 else 0)
  {
    var i := IndexOf(l, c);
    if 0 <= i {
      var d := l[i].(count := l[i].count + 1);
      assert Update(l, c, pl) == l[i := d];
      ReplaceFacts(l, i, d);
    } else if pl == Front {
      assert Update(l, c, pl) == [NewRecord(c)] + l;
      PrependFacts(l, NewRecord(c));
    } else {
      assert Update(l, c, pl) == l + [NewRecord(c)];
      AppendFacts(l, NewRecord(c));
    }
  }

  /** Updating with a sequence of characters counts each as often as it
      occurs in the sequence. */
  lemma {:induction false} UpdateAllCounts(l: CharList, cs: seq<char>, pl: Placement, x: char)
    ensures CountOf(UpdateAll(l, cs, pl), x) == CountOf(l, x) + multiset(cs)[x]
  {
    if cs != [] {
      var front := cs[..|cs| - 1];
      assert cs == front + [cs[|cs| - 1]];
      UpdateAllCounts(l, front, pl, x);
      UpdateCounts(UpdateAll(l, front, pl), cs[|cs| - 1], pl, x);
    }
  }

  lemma UpdateAllSnoc(l: CharList, cs: seq<char>, c: char, pl: Placement)
    ensures UpdateAll(l, cs + [c], pl) == Update(UpdateAll(l, cs, pl), c, pl)
  {
    assert (cs + [c])[..|cs|] == cs;
  }
}
