/**
  Stable sorting by a total preorder, the meaning of Python's `sorted` and `list.sort`.

  `Sort` is insertion sort; `SortIsTheOnlyStableSort` shows that nothing depends on
  that choice: every sorted arrangement that keeps the arrival order inside each
  class of equal keys is the same sequence.
*/
module StableSort {
  import Seqs

  ghost predicate TotalPreorder<T(!new)>(le: (T, T) -> bool) {
    && (forall a, b :: le(a, b) || le(b, a))
    && (forall a, b, c :: le(a, b) && le(b, c) ==> le(a, c))
  }

  ghost predicate SortedBy<T>(le: (T, T) -> bool, s: seq<T>) {
    forall i, j :: 0 <= i < j < |s| ==> le(s[i], s[j])
  }

  /** Puts `x`, which arrived before everything in `s`, in front of the first element not below it. */
  function Insert<T>(le: (T, T) -> bool, x: T, s: seq<T>): seq<T> {
    if s == [] || le(x, s[0]) then [x] + s else [s[0]] + Insert(le, x, s[1..])
  }

  function Sort<T>(le: (T, T) -> bool, s: seq<T>): seq<T> {
    if s == [] then [] else Insert(le, s[0], Sort(le, s[1..]))
  }

  /** The elements with the same key as `k`, in order. */
  ghost function Class<T>(le: (T, T) -> bool, k: T, s: seq<T>): seq<T> {
    if s == [] then []
    else (if le(k, s[0]) && le(s[0], k) then [s[0]] else []) + Class(le, k, s[1..])
  }

  /** How many elements satisfy `p`. */
  ghost function Count<T>(p: T -> bool, s: seq<T>): nat {
    if s == [] then 0 else (if p(s[0]) then 1 else 0) + Count(p, s[1..])
  }

  // ----- insertion

  /** The index at which `Insert` puts `x`. */
  ghost function Slot<T>(le: (T, T) -> bool, x: T, s: seq<T>): (p: nat)
    ensures p <= |s|
  {
    if s == [] || le(x, s[0]) then 0 else 1 + Slot(le, x, s[1..])
  }

  lemma {:induction false} InsertAtSlot<T>(le: (T, T) -> bool, x: T, s: seq<T>)
    ensures Insert(le, x, s) == s[..Slot(le, x, s)] + [x] + s[Slot(le, x, s)..]
    ensures forall i :: 0 <= i < Slot(le, x, s) ==> !le(x, s[i])
    ensures Slot(le, x, s) < |s| ==> le(x, s[Slot(le, x, s)])
  {
    if s != [] && !le(x, s[0]) {
      InsertAtSlot(le, x, s[1..]);
      var p := Slot(le, x, s[1..]);
      assert s[..p + 1] == [s[0]] + s[1..][..p];
      assert s[p + 1..] == s[1..][p..];
      forall i | 0 <= i < p + 1 ensures !le(x, s[i]) {
        assert i > 0 ==> s[i] == s[1..][i - 1];
      }
    }
  }

  /** In a sorted sequence everything from the slot on is at or above `x`. */
  lemma AboveSlot<T(!new)>(le: (T, T) -> bool, x: T, s: seq<T>, i: nat)
    requires TotalPreorder(le) && SortedBy(le, s) && Slot(le, x, s) <= i < |s|
    ensures le(x, s[i])
  {
    InsertAtSlot(le, x, s);
    var p := Slot(le, x, s);
    assert i > p ==> le(s[p], s[i]);
  }

  lemma BelowSlot<T(!new)>(le: (T, T) -> bool, x: T, s: seq<T>, i: nat)
    requires TotalPreorder(le) && i < Slot(le, x, s)
    ensures !le(x, s[i]) && le(s[i], x)
  {
    InsertAtSlot(le, x, s);
    var y := s[i];
    assert le(y, x) || le(x, y);
  }

  lemma InsertKeepsSorted<T(!new)>(le: (T, T) -> bool, x: T, s: seq<T>)
    requires TotalPreorder(le) && SortedBy(le, s)
    ensures SortedBy(le, Insert(le, x, s))
  {
    hide Slot, Insert, TotalPreorder;
    var p, r := Slot(le, x, s), Insert(le, x, s);
    InsertAtSlot(le, x, s);
    forall i, j | 0 <= i < j < |r| ensures le(r[i], r[j]) {
      if i == p {
        AboveSlot(le, x, s, j - 1);
      } else if j == p {
        BelowSlot(le, x, s, i);
      } else {
        var i', j' := if i < p then i else i - 1, if j < p then j else j - 1;
        assert r[i] == s[i'] && r[j] == s[j'];
      }
    }
  }

  lemma {:induction false} SortPermutes<T>(le: (T, T) -> bool, s: seq<T>)
    ensures multiset(Sort(le, s)) == multiset(s) && |Sort(le, s)| == |s|
  {
    if s != [] {
      SortPermutes(le, s[1..]);
      InsertPermutes(le, s[0], Sort(le, s[1..]));
      Seqs.SplitFirst(s);
    }
  }

  lemma InsertPermutes<T>(le: (T, T) -> bool, x: T, s: seq<T>)
    ensures multiset(Insert(le, x, s)) == multiset(s) + multiset{x} && |Insert(le, x, s)| == |s| + 1
  {
    InsertAtSlot(le, x, s);
    Seqs.SplitAt(s, Slot(le, x, s));
  }

  /** `Sort` returns a sorted permutation. */
  lemma {:induction false} SortSorts<T(!new)>(le: (T, T) -> bool, s: seq<T>)
    requires TotalPreorder(le)
    ensures SortedBy(le, Sort(le, s))
    ensures multiset(Sort(le, s)) == multiset(s) && |Sort(le, s)| == |s|
  {
    SortPermutes(le, s);
    SortIsSorted(le, s);
  }

  lemma {:induction false} SortIsSorted<T(!new)>(le: (T, T) -> bool, s: seq<T>)
    requires TotalPreorder(le)
    ensures SortedBy(le, Sort(le, s))
  {
    hide Insert, TotalPreorder;
    if s != [] {
      SortIsSorted(le, s[1..]);
      InsertKeepsSorted(le, s[0], Sort(le, s[1..]));
    }
  }

  // ----- stability

  lemma {:induction false} ClassOfConcat<T>(le: (T, T) -> bool, k: T, s: seq<T>, t: seq<T>)
    ensures Class(le, k, s + t) == Class(le, k, s) + Class(le, k, t)
  {
    if s == [] {
      assert s + t == t;
    } else {
      assert (s + t)[1..] == s[1..] + t;
      ClassOfConcat(le, k, s[1..], t);
    }
  }

  /** The one-element or empty contribution of `x` to the class of `k`. */
  ghost function Own<T>(le: (T, T) -> bool, k: T, x: T): seq<T> {
    if le(k, x) && le(x, k) then [x] else []
  }

  lemma ClassCons<T>(le: (T, T) -> bool, k: T, x: T, s: seq<T>)
    ensures Class(le, k, [x] + s) == Own(le, k, x) + Class(le, k, s)
  {
    Seqs.ConsParts(x, s);
  }

  /** An element above `y` and `y` are in different classes, so it does not matter which comes first. */
  lemma OwnsCommute<T(!new)>(le: (T, T) -> bool, k: T, x: T, y: T, rest: seq<T>)
    requires TotalPreorder(le) && !le(x, y)
    ensures Own(le, k, y) + (Own(le, k, x) + rest) == Own(le, k, x) + (Own(le, k, y) + rest)
  {
    assert Own(le, k, x) == [] || Own(le, k, y) == [];
    Seqs.EmptyUnit(rest);
    Seqs.EmptyUnit(Own(le, k, x) + rest);
    Seqs.EmptyUnit(Own(le, k, y) + rest);
  }

  lemma {:induction false} InsertKeepsClasses<T(!new)>(le: (T, T) -> bool, k: T, x: T, s: seq<T>)
    requires TotalPreorder(le)
    ensures Class(le, k, Insert(le, x, s)) == Own(le, k, x) + Class(le, k, s)
  {
    hide Class, Own, TotalPreorder;
    if s == [] || le(x, s[0]) {
      ClassCons(le, k, x, s);
    } else {
      var y, rest := s[0], s[1..];
      InsertKeepsClasses(le, k, x, rest);
      ClassCons(le, k, y, Insert(le, x, rest));
      ClassCons(le, k, y, rest);
      Seqs.SplitFirst(s);
      OwnsCommute(le, k, x, y, Class(le, k, rest));
    }
  }

  /** `Sort` keeps the arrival order inside every class of equal keys. */
  lemma {:induction false} SortIsStable<T(!new)>(le: (T, T) -> bool, k: T, s: seq<T>)
    requires TotalPreorder(le)
    ensures Class(le, k, Sort(le, s)) == Class(le, k, s)
  {
    hide Class, Own, TotalPreorder, Insert;
    if s != [] {
      SortIsStable(le, k, s[1..]);
      InsertKeepsClasses(le, k, s[0], Sort(le, s[1..]));
      ClassCons(le, k, s[0], s[1..]);
      Seqs.SplitFirst(s);
    }
  }

  lemma {:induction false} ClassMembers<T>(le: (T, T) -> bool, k: T, s: seq<T>)
    ensures forall y :: y in Class(le, k, s) ==> y in s
  {
    if s != [] {
      ClassMembers(le, k, s[1..]);
    }
  }

  /** Two sorted sequences with the same classes have the same head. */
  lemma SameHead<T(!new)>(le: (T, T) -> bool, s: seq<T>, t: seq<T>)
    requires TotalPreorder(le) && SortedBy(le, s) && SortedBy(le, t) && s != []
    requires forall k :: Class(le, k, s) == Class(le, k, t)
    ensures t != [] && s[0] == t[0]
  {
    var x := s[0];
    assert le(x, x);
    assert Class(le, x, s)[0] == x;
    assert x in Class(le, x, t);
    ClassMembers(le, x, t);
    var y := t[0];
    assert le(y, x);
    assert le(y, y);
    assert y in Class(le, y, t);
    ClassMembers(le, y, s);
    assert y in s;
    assert le(x, y);
    assert Class(le, x, t)[0] == y;
  }

  /** A sorted sequence is determined by its classes, so a stable sort has one possible result. */
  lemma {:induction false} SortedByClassesIsUnique<T(!new)>(le: (T, T) -> bool, s: seq<T>, t: seq<T>)
    requires TotalPreorder(le) && SortedBy(le, s) && SortedBy(le, t)
    requires forall k :: Class(le, k, s) == Class(le, k, t)
    ensures s == t
  {
    if s == [] {
      if t != [] {
        SameHead(le, t, s);
      }
    } else {
      SameHead(le, s, t);
      forall k ensures Class(le, k, s[1..]) == Class(le, k, t[1..]) {
        assert Class(le, k, s) == Class(le, k, t);
        var head := if le(k, s[0]) && le(s[0], k) then [s[0]] else [];
        assert Class(le, k, s) == head + Class(le, k, s[1..]);
        assert Class(le, k, t) == head + Class(le, k, t[1..]);
        assert (head + Class(le, k, s[1..]))[|head|..] == Class(le, k, s[1..]);
        assert (head + Class(le, k, t[1..]))[|head|..] == Class(le, k, t[1..]);
      }
      SortedByClassesIsUnique(le, s[1..], t[1..]);
      assert s == [s[0]] + s[1..] && t == [t[0]] + t[1..];
    }
  }

  lemma SortIsTheOnlyStableSort<T(!new)>(le: (T, T) -> bool, s: seq<T>, t: seq<T>)
    requires TotalPreorder(le)
    requires SortedBy(le, t) && forall k :: Class(le, k, t) == Class(le, k, s)
    ensures t == Sort(le, s)
  {
    SortSorts(le, s);
    forall k ensures Class(le, k, t) == Class(le, k, Sort(le, s)) {
      SortIsStable(le, k, s);
    }
    SortedByClassesIsUnique(le, t, Sort(le, s));
  }

  /** Sorting early loses nothing: sorting a sorted batch with later arrivals is sorting them all at once. */
  lemma SortInBatches<T(!new)>(le: (T, T) -> bool, a: seq<T>, b: seq<T>)
    requires TotalPreorder(le)
    ensures Sort(le, Sort(le, a) + b) == Sort(le, a + b)
  {
    var t := Sort(le, Sort(le, a) + b);
    SortSorts(le, Sort(le, a) + b);
    forall k ensures Class(le, k, t) == Class(le, k, a + b) {
      SortIsStable(le, k, Sort(le, a) + b);
      ClassOfConcat(le, k, Sort(le, a), b);
      SortIsStable(le, k, a);
      ClassOfConcat(le, k, a, b);
    }
    SortIsTheOnlyStableSort(le, a + b, t);
  }

  // ----- where an element goes

  /** `a` at index `i` belongs before `b` at index `j`. */
  ghost predicate Before<T>(le: (T, T) -> bool, a: T, i: int, b: T, j: int) {
    le(a, b) && (i < j || !le(b, a))
  }

  /** The number of elements of `s[from..]` that belong before `s[i]`. */
  ghost function RankFrom<T>(le: (T, T) -> bool, s: seq<T>, i: nat, from: nat): (r: nat)
    requires i < |s| && from <= |s|
    decreases |s| - from
  {
    if from == |s| then 0
    else (if Before(le, s[from], from, s[i], i) then 1 else 0) + RankFrom(le, s, i, from + 1)
  }

  /** Shifting the window: ranks in `s[1..]` are ranks in `s` counted from index 1. */
  lemma {:induction false} RankOfTail<T>(le: (T, T) -> bool, s: seq<T>, i: nat, from: nat)
    requires 0 < i < |s| && 0 < from <= |s|
    ensures RankFrom(le, s[1..], i - 1, from - 1) == RankFrom(le, s, i, from)
    decreases |s| - from
  {
    if from < |s| {
      assert s[1..][from - 1] == s[from];
      RankOfTail(le, s, i, from + 1);
    }
  }

  /** Strictly below `x`. */
  ghost function Below<T>(le: (T, T) -> bool, x: T): T -> bool {
    y => le(y, x) && !le(x, y)
  }

  /** The head goes after exactly the strictly smaller elements. */
  lemma {:induction false} RankOfHead<T>(le: (T, T) -> bool, s: seq<T>, from: nat)
    requires 0 < from <= |s|
    ensures RankFrom(le, s, 0, from) == Count(Below(le, s[0]), s[from..])
    decreases |s| - from
  {
    if from < |s| {
      RankOfHead(le, s, from + 1);
      assert s[from..][1..] == s[from + 1..];
    }
  }

  lemma {:induction false} CountOfConcat<T>(p: T -> bool, s: seq<T>, t: seq<T>)
    ensures Count(p, s + t) == Count(p, s) + Count(p, t)
  {
    if s == [] {
      assert s + t == t;
    } else {
      assert (s + t)[1..] == s[1..] + t;
      CountOfConcat(p, s[1..], t);
    }
  }

  lemma {:induction false} CountAll<T>(p: T -> bool, s: seq<T>)
    ensures (forall y :: y in s ==> p(y)) ==> Count(p, s) == |s|
    ensures (forall y :: y in s ==> !p(y)) ==> Count(p, s) == 0
    ensures Count(p, s) <= |s|
  {
    if s != [] {
      CountAll(p, s[1..]);
    }
  }

  lemma CountCons<T>(p: T -> bool, x: T, s: seq<T>)
    ensures Count(p, [x] + s) == (if p(x) then 1 else 0) + Count(p, s)
  {
    Seqs.ConsParts(x, s);
  }

  lemma {:induction false} CountOfInsert<T>(le: (T, T) -> bool, p: T -> bool, x: T, s: seq<T>)
    ensures Count(p, Insert(le, x, s)) == (if p(x) then 1 else 0) + Count(p, s)
  {
    if s == [] || le(x, s[0]) {
      CountCons(p, x, s);
    } else {
      CountOfInsert(le, p, x, s[1..]);
      CountCons(p, s[0], Insert(le, x, s[1..]));
    }
  }

  lemma {:induction false} CountOfSort<T>(le: (T, T) -> bool, p: T -> bool, s: seq<T>)
    ensures Count(p, Sort(le, s)) == Count(p, s)
  {
    hide Insert;
    if s != [] {
      CountOfSort(le, p, s[1..]);
      CountOfInsert(le, p, s[0], Sort(le, s[1..]));
    }
  }

  /** An element of the input appears in the sorted output at the index its rank gives. */
  lemma {:induction false} SortedPosition<T(!new)>(le: (T, T) -> bool, s: seq<T>, i: nat)
    requires TotalPreorder(le) && i < |s|
    ensures |Sort(le, s)| == |s|
    ensures RankFrom(le, s, i, 0) < |s|
    ensures Sort(le, s)[RankFrom(le, s, i, 0)] == s[i]
  {
    hide TotalPreorder, SortedBy, Before, Slot, Insert;
    SortPermutes(le, s);
    SortIsSorted(le, s[1..]);
    if i == 0 {
      RankOfHeadIsSlot(le, s);
      InsertAtSlot(le, s[0], Sort(le, s[1..]));
    } else {
      SortedPosition(le, s[1..], i - 1);
      RankOfTail(le, s, i, 1);
      assert Before(le, s[0], 0, s[i], i) == le(s[0], s[i]) by {
        BeforeLater(le, s[0], 0, s[i], i);
      }
      SkipSlot(le, s[0], Sort(le, s[1..]), RankFrom(le, s[1..], i - 1, 0));
    }
  }

  lemma BeforeLater<T>(le: (T, T) -> bool, a: T, i: int, b: T, j: int)
    requires i < j
    ensures Before(le, a, i, b, j) == le(a, b)
  {
  }

  /** In a sorted sequence the elements strictly below `x` are those before its slot. */
  lemma {:induction false} BelowAreBeforeSlot<T(!new)>(le: (T, T) -> bool, x: T, s: seq<T>)
    requires TotalPreorder(le) && SortedBy(le, s)
    ensures Count(Below(le, x), s) == Slot(le, x, s)
  {
    if s == [] || le(x, s[0]) {
      forall y | y in s ensures !Below(le, x)(y) {
        var i :| 0 <= i < |s| && s[i] == y;
        AboveSlot(le, x, s, i);
      }
      CountAll(Below(le, x), s);
    } else {
      assert le(s[0], x);
      BelowAreBeforeSlot(le, x, s[1..]);
    }
  }

  lemma RankOfHeadIsSlot<T(!new)>(le: (T, T) -> bool, s: seq<T>)
    requires TotalPreorder(le) && s != []
    ensures RankFrom(le, s, 0, 0) == Slot(le, s[0], Sort(le, s[1..]))
  {
    hide Sort, Slot, TotalPreorder, SortedBy, Below, Count;
    RankOfHead(le, s, 1);
    CountOfSort(le, Below(le, s[0]), s[1..]);
    SortIsSorted(le, s[1..]);
    BelowAreBeforeSlot(le, s[0], Sort(le, s[1..]));
    assert !Before(le, s[0], 0, s[0], 0);
  }

  /** Inserting `x` moves the element at index `r` by one exactly when `x` is at or below it. */
  lemma SkipSlot<T(!new)>(le: (T, T) -> bool, x: T, s: seq<T>, r: nat)
    requires TotalPreorder(le) && SortedBy(le, s) && r < |s|
    ensures |Insert(le, x, s)| == |s| + 1
    ensures Insert(le, x, s)[if le(x, s[r]) then r + 1 else r] == s[r]
  {
    hide Insert, TotalPreorder, SortedBy;
    InsertAtSlot(le, x, s);
    if r < Slot(le, x, s) {
      BelowSlot(le, x, s, r);
    } else {
      AboveSlot(le, x, s, r);
    }
  }

  /** Ranks depend only on the keys. */
  lemma {:induction false} RankOfSameKeys<T(!new)>(le: (T, T) -> bool, s: seq<T>, t: seq<T>, i: nat, from: nat)
    requires TotalPreorder(le) && |s| == |t| && i < |s| && from <= |s|
    requires forall j :: 0 <= j < |s| ==> le(s[j], t[j]) && le(t[j], s[j])
    ensures RankFrom(le, s, i, from) == RankFrom(le, t, i, from)
    decreases |s| - from
  {
    if from < |s| {
      RankOfSameKeys(le, s, t, i, from + 1);
      assert le(s[from], t[from]) && le(t[from], s[from]) && le(s[i], t[i]) && le(t[i], s[i]);
    }
  }
}
