/** What a loop keeps that appends some of the elements it passes: a selection, in order. */
module Selections {
  import Seqs

  ghost predicate Increasing(ix: seq<nat>, n: nat) {
    && (forall k :: 0 <= k < |ix| ==> ix[k] < n)
    && forall j, k :: 0 <= j < k < |ix| ==> ix[j] < ix[k]
  }

  /** The positions `ix` are those of the elements to keep, and `r` holds what `image` makes of these. */
  ghost predicate SelectedAt<T, U>(s: seq<T>, keep: T -> bool, image: T -> U, r: seq<U>, ix: seq<nat>) {
    && Increasing(ix, |s|) && |r| == |ix|
    && (forall k :: 0 <= k < |ix| ==> r[k] == image(s[ix[k]]))
    && forall i: nat :: i < |s| ==> (keep(s[i]) <==> i in ix)
  }

  ghost predicate Selection<T, U>(s: seq<T>, keep: T -> bool, image: T -> U, r: seq<U>) {
    exists ix: seq<nat> :: SelectedAt(s, keep, image, r, ix)
  }

  lemma SelectNothing<T, U>(keep: T -> bool, image: T -> U)
    ensures Selection([], keep, image, [])
  {
    assert SelectedAt([], keep, image, [], []);
  }

  lemma IncreasingMore(ix: seq<nat>, n: nat)
    requires Increasing(ix, n)
    ensures Increasing(ix, n + 1) && Increasing(ix + [n], n + 1)
    ensures n !in ix && forall i: nat :: i in ix + [n] <==> i in ix || i == n
  {
    assert (ix + [n])[|ix|] == n;
  }

  lemma KeepMore<T, U>(s: seq<T>, keep: T -> bool, image: T -> U, r: seq<U>, ix: seq<nat>, x: T)
    requires SelectedAt(s, keep, image, r, ix) && keep(x)
    ensures SelectedAt(s + [x], keep, image, r + [image(x)], ix + [|s|])
  {
    hide Increasing;
    IncreasingMore(ix, |s|);
    forall k | 0 <= k < |ix + [|s|]| ensures (r + [image(x)])[k] == image((s + [x])[(ix + [|s|])[k]]) {
      if k < |ix| {
        assert ix[k] in ix;
        IncreasingIsBelow(ix, |s|, k);
      }
    }
  }

  lemma IncreasingIsBelow(ix: seq<nat>, n: nat, k: nat)
    requires Increasing(ix, n) && k < |ix|
    ensures ix[k] < n
  {
  }

  lemma SkipMore<T, U>(s: seq<T>, keep: T -> bool, image: T -> U, r: seq<U>, ix: seq<nat>, x: T)
    requires SelectedAt(s, keep, image, r, ix) && !keep(x)
    ensures SelectedAt(s + [x], keep, image, r, ix)
  {
    hide Increasing;
    IncreasingMore(ix, |s|);
    forall k | 0 <= k < |ix| ensures r[k] == image((s + [x])[ix[k]]) {
      IncreasingIsBelow(ix, |s|, k);
    }
  }

  lemma SelectMore<T, U>(s: seq<T>, keep: T -> bool, image: T -> U, r: seq<U>, x: T)
    requires Selection(s, keep, image, r)
    ensures Selection(s + [x], keep, image, if keep(x) then r + [image(x)] else r)
  {
    hide SelectedAt;
    var ix: seq<nat> :| SelectedAt(s, keep, image, r, ix);
    if keep(x) {
      KeepMore(s, keep, image, r, ix, x);
    } else {
      SkipMore(s, keep, image, r, ix, x);
    }
  }

  /** There is one selection only: positions, and so what is kept, are determined. */
  lemma {:induction false} SelectionIsUnique<T, U>(s: seq<T>, keep: T -> bool, image: T -> U, r: seq<U>, q: seq<U>)
    requires Selection(s, keep, image, r) && Selection(s, keep, image, q)
    ensures r == q
  {
    var ix: seq<nat> :| SelectedAt(s, keep, image, r, ix);
    var jx: seq<nat> :| SelectedAt(s, keep, image, q, jx);
    assert forall i: nat :: i in ix <==> i in jx by {
      forall i: nat ensures i in ix <==> i in jx {
        assert i in ix ==> i < |s|;
        assert i in jx ==> i < |s|;
      }
    }
    SameIndices(ix, jx, |s|);
  }

  lemma SomeMember(ix: seq<nat>)
    ensures ix == [] || exists i :: i in ix
  {
    assert ix == [] || ix[0] in ix;
  }

  /** The last index is the largest, and the others are those below it. */
  lemma LastIsLargest(ix: seq<nat>, n: nat)
    requires Increasing(ix, n) && ix != []
    ensures var a := |ix| - 1;
      && Increasing(ix[..a], n) && ix[a] in ix && (forall i :: i in ix ==> i <= ix[a])
      && forall i :: i in ix[..a] <==> i in ix && i != ix[a]
  {
    var a := |ix| - 1;
    forall i ensures i in ix[..a] <==> i in ix && i != ix[a] {
      Seqs.SplitLast(ix);
    }
  }

  lemma {:induction false} SameIndices(ix: seq<nat>, jx: seq<nat>, n: nat)
    requires Increasing(ix, n) && Increasing(jx, n) && forall i: nat :: i in ix <==> i in jx
    ensures ix == jx
  {
    hide Increasing;
    SomeMember(ix);
    SomeMember(jx);
    if ix != [] && jx != [] {
      var a, b := |ix| - 1, |jx| - 1;
      LastIsLargest(ix, n);
      LastIsLargest(jx, n);
      assert ix[a] == jx[b];
      SameIndices(ix[..a], jx[..b], n);
      Seqs.SplitLast(ix);
      Seqs.SplitLast(jx);
    }
  }
}
