/** The list operations the selector is built from (list comprehensions, Python's stable
    `sorted` and Python's `max`), and the order-based predicates that say what they pick. */
module Ranking {
  import opened Metadata

  /** `[f for f in fs if keep(f)]`. */
  function Filter(fs: seq<Format>, keep: Format -> bool): (r: seq<Format>)
    ensures |r| <= |fs|
    ensures forall f :: f in r <==> f in fs && keep(f)
    decreases |fs|
  {
    if fs == [] then []
    else
      assert fs == [fs[0]] + fs[1..];
      (if keep(fs[0]) then [fs[0]] else []) + Filter(fs[1..], keep)
  }

  /** A filter leaves something iff some entry passes it. */
  lemma FilterNonEmpty(fs: seq<Format>, keep: Format -> bool)
    ensures Filter(fs, keep) != [] <==> exists f :: f in fs && keep(f)
  {
    var r := Filter(fs, keep);
    if r != [] {
      assert r[0] in r;
    }
  }

  /** The conjunction of two filters. */
  function Both(p: Format -> bool, q: Format -> bool): Format -> bool
  {
    f => p(f) && q(f)
  }

  /** Filtering twice is filtering once by both conditions, in the same order. */
  lemma {:induction false} FilterTwice(fs: seq<Format>, p: Format -> bool, q: Format -> bool)
    ensures Filter(Filter(fs, p), q) == Filter(fs, Both(p, q))
    decreases |fs|
  {
    if fs != [] {
      FilterTwice(fs[1..], p, q);
      var tail := Filter(fs[1..], p);
      assert Both(p, q)(fs[0]) == (p(fs[0]) && q(fs[0]));
      if p(fs[0]) {
        assert Filter(fs, p) == [fs[0]] + tail;
        assert ([fs[0]] + tail)[1..] == tail;
        assert Filter([fs[0]] + tail, q) == (if q(fs[0]) then [fs[0]] else []) + Filter(tail, q);
      } else {
        assert Filter(fs, p) == tail;
      }
    }
  }

  /** Position `k` holds the first of the largest ranks in `v`. */
  ghost predicate FirstMaxAt(v: seq<Format>, rank: Format -> real, k: int)
  {
    && 0 <= k < |v|
    && (forall j :: 0 <= j < |v| ==> rank(v[j]) <= rank(v[k]))
    && (forall j :: 0 <= j < k ==> rank(v[j]) < rank(v[k]))
  }

  /** Position `k` holds the first of the smallest ranks in `v`. */
  ghost predicate FirstMinAt(v: seq<Format>, rank: Format -> real, k: int)
  {
    && 0 <= k < |v|
    && (forall j :: 0 <= j < |v| ==> rank(v[k]) <= rank(v[j]))
    && (forall j :: 0 <= j < k ==> rank(v[k]) < rank(v[j]))
  }

  /** Among the entries of `fs` that pass `keep`, position `i` holds the earliest one
      whose rank is the largest. */
  ghost predicate IsFirstMax(fs: seq<Format>, keep: Format -> bool, rank: Format -> real, i: int)
  {
    && 0 <= i < |fs| && keep(fs[i])
    && (forall j :: 0 <= j < |fs| && keep(fs[j]) ==> rank(fs[j]) <= rank(fs[i]))
    && (forall j :: 0 <= j < i && keep(fs[j]) ==> rank(fs[j]) < rank(fs[i]))
  }

  /** Among the entries of `fs` that pass `keep`, position `i` holds the earliest one
      whose rank is the smallest. */
  ghost predicate IsFirstMin(fs: seq<Format>, keep: Format -> bool, rank: Format -> real, i: int)
  {
    && 0 <= i < |fs| && keep(fs[i])
    && (forall j :: 0 <= j < |fs| && keep(fs[j]) ==> rank(fs[i]) <= rank(fs[j]))
    && (forall j :: 0 <= j < i && keep(fs[j]) ==> rank(fs[i]) < rank(fs[j]))
  }

  /** Position `i` holds the first entry of `fs` that passes `keep`. */
  ghost predicate IsFirstKept(fs: seq<Format>, keep: Format -> bool, i: int)
  {
    0 <= i < |fs| && keep(fs[i]) && forall j :: 0 <= j < i ==> !keep(fs[j])
  }

  /** Moving past a head entry: a first maximum of the tail is one of the whole list when the
      head, if kept, ranks strictly lower. */
  lemma FirstMaxPastHead(fs: seq<Format>, keep: Format -> bool, rank: Format -> real, i: int)
    requires fs != [] && IsFirstMax(fs[1..], keep, rank, i)
    requires keep(fs[0]) ==> rank(fs[0]) < rank(fs[i + 1])
    ensures IsFirstMax(fs, keep, rank, i + 1)
  {
    var t := fs[1..];
    forall j | 0 <= j < |fs| && keep(fs[j])
      ensures rank(fs[j]) <= rank(fs[i + 1])
    {
      if j > 0 { assert fs[j] == t[j - 1]; }
    }
    forall j | 0 <= j < i + 1 && keep(fs[j])
      ensures rank(fs[j]) < rank(fs[i + 1])
    {
      if j > 0 { assert fs[j] == t[j - 1]; }
    }
  }

  /** The mirror image of FirstMaxPastHead for minima. */
  lemma FirstMinPastHead(fs: seq<Format>, keep: Format -> bool, rank: Format -> real, i: int)
    requires fs != [] && IsFirstMin(fs[1..], keep, rank, i)
    requires keep(fs[0]) ==> rank(fs[i + 1]) < rank(fs[0])
    ensures IsFirstMin(fs, keep, rank, i + 1)
  {
    var t := fs[1..];
    forall j | 0 <= j < |fs| && keep(fs[j])
      ensures rank(fs[i + 1]) <= rank(fs[j])
    {
      if j > 0 { assert fs[j] == t[j - 1]; }
    }
    forall j | 0 <= j < i + 1 && keep(fs[j])
      ensures rank(fs[i + 1]) < rank(fs[j])
    {
      if j > 0 { assert fs[j] == t[j - 1]; }
    }
  }

  /** The first largest entry of a filtered list is the first largest kept entry of the
      original list. */
  lemma {:induction false} LiftFirstMax(fs: seq<Format>, keep: Format -> bool, rank: Format -> real, k: int) returns (i: int)
    requires FirstMaxAt(Filter(fs, keep), rank, k)
    ensures IsFirstMax(fs, keep, rank, i) && fs[i] == Filter(fs, keep)[k]
    decreases |fs|
  {
    var v := Filter(fs, keep);
    assert fs != [];
    var tail := Filter(fs[1..], keep);
    if keep(fs[0]) {
      assert v == [fs[0]] + tail;
      if k == 0 {
        i := 0;
        forall j | 0 <= j < |fs| && keep(fs[j])
          ensures rank(fs[j]) <= rank(fs[0])
        {
          assert fs[j] in v;
          var m :| 0 <= m < |v| && v[m] == fs[j];
        }
      } else {
        assert FirstMaxAt(tail, rank, k - 1) by {
          forall j | 0 <= j < |tail| ensures tail[j] == v[j + 1] { }
        }
        var i' := LiftFirstMax(fs[1..], keep, rank, k - 1);
        assert v[0] == fs[0];
        FirstMaxPastHead(fs, keep, rank, i');
        i := i' + 1;
      }
    } else {
      assert v == tail;
      var i' := LiftFirstMax(fs[1..], keep, rank, k);
      FirstMaxPastHead(fs, keep, rank, i');
      i := i' + 1;
    }
  }

  /** The first smallest entry of a filtered list is the first smallest kept entry of the
      original list. */
  lemma {:induction false} LiftFirstMin(fs: seq<Format>, keep: Format -> bool, rank: Format -> real, k: int) returns (i: int)
    requires FirstMinAt(Filter(fs, keep), rank, k)
    ensures IsFirstMin(fs, keep, rank, i) && fs[i] == Filter(fs, keep)[k]
    decreases |fs|
  {
    var v := Filter(fs, keep);
    assert fs != [];
    var tail := Filter(fs[1..], keep);
    if keep(fs[0]) {
      assert v == [fs[0]] + tail;
      if k == 0 {
        i := 0;
        forall j | 0 <= j < |fs| && keep(fs[j])
          ensures rank(fs[0]) <= rank(fs[j])
        {
          assert fs[j] in v;
          var m :| 0 <= m < |v| && v[m] == fs[j];
        }
      } else {
        assert FirstMinAt(tail, rank, k - 1) by {
          forall j | 0 <= j < |tail| ensures tail[j] == v[j + 1] { }
        }
        var i' := LiftFirstMin(fs[1..], keep, rank, k - 1);
        assert v[0] == fs[0];
        FirstMinPastHead(fs, keep, rank, i');
        i := i' + 1;
      }
    } else {
      assert v == tail;
      var i' := LiftFirstMin(fs[1..], keep, rank, k);
      FirstMinPastHead(fs, keep, rank, i');
      i := i' + 1;
    }
  }

  /** The head of a filtered list is the first kept entry of the original list. */
  lemma {:induction false} LiftFirstKept(fs: seq<Format>, keep: Format -> bool) returns (i: int)
    requires Filter(fs, keep) != []
    ensures IsFirstKept(fs, keep, i) && fs[i] == Filter(fs, keep)[0]
    decreases |fs|
  {
    assert fs != [];
    if keep(fs[0]) {
      i := 0;
    } else {
      var i' := LiftFirstKept(fs[1..], keep);
      i := i' + 1;
    }
  }

  /** The sort order: `x` may stand before `y` (ascending or descending by height key). */
  predicate Before(x: Format, y: Format, descending: bool)
  {
    if descending then HeightKey(y) <= HeightKey(x) else HeightKey(x) <= HeightKey(y)
  }

  /** Inserts `x`, which came earlier in the input than every element of `s`, in front of
      the first element it may stand before; so equal keys keep their input order. */
  function Insert(x: Format, s: seq<Format>, descending: bool): (r: seq<Format>)
    ensures multiset(r) == multiset(s) + multiset{x}
    decreases |s|
  {
    if s == [] || Before(x, s[0], descending) then [x] + s
    else
      assert s == [s[0]] + s[1..];
      [s[0]] + Insert(x, s[1..], descending)
  }

  /** `sorted(v, key=height, reverse=descending)`: a stable insertion sort. Python keeps equal
      keys in input order in both directions, and so does this sort. */
  function SortByHeight(v: seq<Format>, descending: bool): (r: seq<Format>)
    ensures multiset(r) == multiset(v)
    decreases |v|
  {
    if v == [] then []
    else
      assert v == [v[0]] + v[1..];
      Insert(v[0], SortByHeight(v[1..], descending), descending)
  }

  ghost predicate SortedBy(s: seq<Format>, descending: bool)
  {
    forall i, j :: 0 <= i < j < |s| ==> Before(s[i], s[j], descending)
  }

  lemma {:induction false} InsertKeepsSorted(x: Format, s: seq<Format>, descending: bool)
    requires SortedBy(s, descending)
    ensures SortedBy(Insert(x, s, descending), descending)
    decreases |s|
  {
    if s != [] && !Before(x, s[0], descending) {
      var r := Insert(x, s[1..], descending);
      InsertKeepsSorted(x, s[1..], descending);
      forall j | 0 <= j < |r|
        ensures Before(s[0], r[j], descending)
      {
        assert r[j] in multiset(r);
        assert r[j] == x || r[j] in s[1..];
      }
    }
  }

  /** The sorted list is in order. */
  lemma {:induction false} SortIsSorted(v: seq<Format>, descending: bool)
    ensures SortedBy(SortByHeight(v, descending), descending)
    decreases |v|
  {
    if v != [] {
      SortIsSorted(v[1..], descending);
      InsertKeepsSorted(v[0], SortByHeight(v[1..], descending), descending);
    }
  }

  /** A first maximum of `v` from one of its tail: the head wins when it ranks at least as
      high, otherwise the tail's maximum keeps its place. */
  lemma FirstMaxAtCons(v: seq<Format>, rank: Format -> real, k: int)
    requires |v| > 1 && FirstMaxAt(v[1..], rank, k)
    ensures rank(v[k + 1]) <= rank(v[0]) ==> FirstMaxAt(v, rank, 0)
    ensures rank(v[0]) < rank(v[k + 1]) ==> FirstMaxAt(v, rank, k + 1)
  {
    var t := v[1..];
    forall j | 0 < j < |v| ensures rank(v[j]) <= rank(v[k + 1]) {
      assert v[j] == t[j - 1];
    }
    forall j | 0 < j < k + 1 ensures rank(v[j]) < rank(v[k + 1]) {
      assert v[j] == t[j - 1];
    }
  }

  /** The mirror image of FirstMaxAtCons for minima. */
  lemma FirstMinAtCons(v: seq<Format>, rank: Format -> real, k: int)
    requires |v| > 1 && FirstMinAt(v[1..], rank, k)
    ensures rank(v[0]) <= rank(v[k + 1]) ==> FirstMinAt(v, rank, 0)
    ensures rank(v[k + 1]) < rank(v[0]) ==> FirstMinAt(v, rank, k + 1)
  {
    var t := v[1..];
    forall j | 0 < j < |v| ensures rank(v[k + 1]) <= rank(v[j]) {
      assert v[j] == t[j - 1];
    }
    forall j | 0 < j < k + 1 ensures rank(v[k + 1]) < rank(v[j]) {
      assert v[j] == t[j - 1];
    }
  }

  /** The head of an insertion. */
  lemma InsertHead(x: Format, s: seq<Format>, descending: bool)
    ensures Insert(x, s, descending) != []
    ensures Insert(x, s, descending)[0] == if s == [] || Before(x, s[0], descending) then x else s[0]
  {
  }

  /** The head of a list sorted tallest-first is the earliest entry with the largest height
      key. This is where the stability of the sort shows. */
  lemma {:induction false} SortHeadDescending(v: seq<Format>) returns (k: int)
    requires v != []
    ensures FirstMaxAt(v, HeightRank, k)
    ensures SortByHeight(v, true) != [] && SortByHeight(v, true)[0] == v[k]
    decreases |v|
  {
    var rest := SortByHeight(v[1..], true);
    InsertHead(v[0], rest, true);
    if |v| == 1 {
      k := 0;
    } else {
      var k' := SortHeadDescending(v[1..]);
      FirstMaxAtCons(v, HeightRank, k');
      k := if Before(v[0], rest[0], true) then 0 else k' + 1;
    }
  }

  /** The head of a list sorted shortest-first is the earliest entry with the smallest height
      key. */
  lemma {:induction false} SortHeadAscending(v: seq<Format>) returns (k: int)
    requires v != []
    ensures FirstMinAt(v, HeightRank, k)
    ensures SortByHeight(v, false) != [] && SortByHeight(v, false)[0] == v[k]
    decreases |v|
  {
    var rest := SortByHeight(v[1..], false);
    InsertHead(v[0], rest, false);
    if |v| == 1 {
      k := 0;
    } else {
      var k' := SortHeadAscending(v[1..]);
      FirstMinAtCons(v, HeightRank, k');
      k := if Before(v[0], rest[0], false) then 0 else k' + 1;
    }
  }

  /** Python's `max(v, key=abr)`: scans left to right and replaces the current best only by
      a strictly larger key. */
  function MaxAbrFrom(best: Format, rest: seq<Format>): (r: Format)
    ensures r == best || r in rest
    ensures AbrKey(best) <= AbrKey(r)
    ensures forall g :: g in rest ==> AbrKey(g) <= AbrKey(r)
    decreases |rest|
  {
    if rest == [] then best
    else MaxAbrFrom(if AbrKey(rest[0]) > AbrKey(best) then rest[0] else best, rest[1..])
  }

  function MaxByAbr(v: seq<Format>): (r: Format)
    requires v != []
    ensures r in v
    ensures forall g :: g in v ==> AbrKey(g) <= AbrKey(r)
  {
    MaxAbrFrom(v[0], v[1..])
  }

  lemma {:induction false} MaxAbrFromIsFirstMax(best: Format, rest: seq<Format>) returns (k: int)
    ensures FirstMaxAt([best] + rest, AbrKey, k) && MaxAbrFrom(best, rest) == ([best] + rest)[k]
    decreases |rest|
  {
    var s := [best] + rest;
    if rest == [] {
      k := 0;
    } else {
      var winner := if AbrKey(rest[0]) > AbrKey(best) then rest[0] else best;
      var k' := MaxAbrFromIsFirstMax(winner, rest[1..]);
      var s' := [winner] + rest[1..];
      if k' == 0 {
        k := if AbrKey(rest[0]) > AbrKey(best) then 1 else 0;
      } else {
        k := k' + 1;
      }
      assert s[k] == s'[k'];
      assert s'[0] == winner;
      assert AbrKey(winner) <= AbrKey(s[k]);
      assert k' > 0 ==> AbrKey(winner) < AbrKey(s[k]);
      forall j | 0 <= j < |s|
        ensures AbrKey(s[j]) <= AbrKey(s[k])
      {
        if j >= 2 { assert s[j] == s'[j - 1]; }
      }
      forall j | 0 <= j < k
        ensures AbrKey(s[j]) < AbrKey(s[k])
      {
        if j >= 2 { assert s[j] == s'[j - 1]; }
      }
    }
  }

  /** `max` returns the earliest entry with the largest bitrate key. */
  lemma MaxByAbrIsFirstMax(v: seq<Format>) returns (k: int)
    requires v != []
    ensures FirstMaxAt(v, AbrKey, k) && MaxByAbr(v) == v[k]
  {
    assert [v[0]] + v[1..] == v;
    k := MaxAbrFromIsFirstMax(v[0], v[1..]);
  }
}
