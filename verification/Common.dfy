/**
 Small vocabulary shared by the forwarder model: optional values,
 duplicate-free sequences and in-order selections.
 */
module Common {

  datatype Option<+T> = None | Some(value: T)

  lemma Assoc<T>(a: seq<T>, b: seq<T>, c: seq<T>)
    ensures a + (b + c) == (a + b) + c
  {
  }

  lemma TakeSnoc<T>(start: seq<T>, s: seq<T>, i: nat)
    requires i < |s|
    ensures start + s[..i + 1] == start + s[..i] + [s[i]]
  {
  }

  lemma TakeAll<T>(start: seq<T>, s: seq<T>)
    ensures start + s[..0] == start && start + s[..|s|] == start + s
  {
  }

  lemma SplitLast<T>(s: seq<T>)
    requires s != []
    ensures s == s[..|s| - 1] + [s[|s| - 1]]
  {
  }

  ghost predicate NoDuplicates<T(!new)>(s: seq<T>) {
    forall i, j :: 0 <= i < j < |s| ==> s[i] != s[j]
  }

  // ----------------------------------------------------- in-order selections

  ghost predicate Picks<T>(pick: seq<int>, a: seq<T>, b: seq<T>) {
    && |pick| == |a|
    && (forall i :: 0 <= i < |pick| ==> 0 <= pick[i] < |b| && a[i] == b[pick[i]])
    && (forall i, j :: 0 <= i < j < |pick| ==> pick[i] < pick[j])
  }

  /** `a` is `b` with some elements left out: same order, none taken twice. */
  ghost predicate IsSubsequence<T>(a: seq<T>, b: seq<T>) {
    exists pick :: Picks(pick, a, b)
  }

  lemma {:induction false} SubsequenceKeep<T>(a: seq<T>, b: seq<T>, more: seq<T>)
    requires IsSubsequence(a, b)
    ensures IsSubsequence(a, b + more)
  {
    var pick :| Picks(pick, a, b);
    assert Picks(pick, a, b + more);
  }

  lemma {:induction false} SubsequenceSnoc<T>(a: seq<T>, b: seq<T>, x: T)
    requires IsSubsequence(a, b)
    ensures IsSubsequence(a + [x], b + [x])
  {
    var pick :| Picks(pick, a, b);
    assert Picks(pick + [|b|], a + [x], b + [x]);
  }

  /** Increasing positions leave room on both sides. */
  lemma {:induction false} PickRoom<T>(pick: seq<int>, a: seq<T>, b: seq<T>, i: nat)
    requires Picks(pick, a, b) && i < |pick|
    ensures i <= pick[i]
  {
    if i > 0 {
      PickRoom(pick, a, b, i - 1);
    }
  }

  lemma {:induction false} PickRoomAbove<T>(pick: seq<int>, a: seq<T>, b: seq<T>, i: nat)
    requires Picks(pick, a, b) && i < |pick|
    ensures pick[i] <= |b| - (|pick| - i)
    decreases |pick| - i
  {
    if i < |pick| - 1 {
      PickRoomAbove(pick, a, b, i + 1);
    }
  }

  /** A selection that leaves nothing out is the whole. */
  lemma {:induction false} FullSubsequence<T>(a: seq<T>, b: seq<T>)
    requires IsSubsequence(a, b) && |a| == |b|
    ensures a == b
  {
    var pick :| Picks(pick, a, b);
    forall i | 0 <= i < |a| ensures a[i] == b[i] {
      PickRoom(pick, a, b, i);
      PickRoomAbove(pick, a, b, i);
    }
  }
}
