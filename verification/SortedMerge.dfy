/**
  Merging a sorted list: of the neighbours with the same key the first is kept.
  Keys are compared lexicographically.
*/
module SortedMerge {

  /** Lexicographic comparison: negative, zero or positive. */
  function Lex(a: seq<int>, b: seq<int>): int {
    if a == [] then (if b == [] then 0 else -1)
    else if b == [] then 1
    else if a[0] < b[0] then -1
    else if a[0] > b[0] then 1
    else Lex(a[1..], b[1..])
  }

  lemma {:induction false} LexIsOrder(a: seq<int>, b: seq<int>)
    ensures Lex(a, b) == 0 <==> a == b
    ensures Lex(a, b) == -Lex(b, a)
  {
    if a != [] && b != [] {
      LexIsOrder(a[1..], b[1..]);
      assert a == [a[0]] + a[1..] && b == [b[0]] + b[1..];
    }
  }

  /** The first difference decides, and a beginning comes before the whole. */
  lemma {:induction false} LexDecides(a: seq<int>, b: seq<int>, k: nat)
    requires k <= |a| && k < |b| && a[..k] == b[..k] && (k == |a| || a[k] < b[k])
    ensures Lex(a, b) < 0
    decreases k
  {
    if k > 0 {
      assert a[0] == a[..k][0] == b[..k][0] == b[0];
      assert a[1..][..k - 1] == a[..k][1..] == b[..k][1..] == b[1..][..k - 1];
      LexDecides(a[1..], b[1..], k - 1);
    }
  }

  predicate KeyOrdered<T>(sorted: seq<T>, key: T -> seq<int>) {
    forall i, j | 0 <= i < j < |sorted| :: Lex(key(sorted[i]), key(sorted[j])) <= 0
  }

  predicate StrictlyOrdered<T>(sorted: seq<T>, key: T -> seq<int>) {
    forall i, j | 0 <= i < j < |sorted| :: Lex(key(sorted[i]), key(sorted[j])) < 0
  }

  /** Drops an element whose key is that of the one kept before it. */
  function Dedup<T>(sorted: seq<T>, key: T -> seq<int>): seq<T> {
    if sorted == [] then []
    else
      var kept, last := Dedup(sorted[..|sorted| - 1], key), sorted[|sorted| - 1];
      if kept != [] && key(kept[|kept| - 1]) == key(last) then kept else kept + [last]
  }

  /** The first element with its key. */
  predicate First<T>(sorted: seq<T>, key: T -> seq<int>, i: nat) {
    i < |sorted| && forall j | 0 <= j < i :: key(sorted[j]) != key(sorted[i])
  }

  /** A new key differs from every earlier one. */
  lemma NewKeyIsFirst<T>(sorted: seq<T>, key: T -> seq<int>)
    requires |sorted| >= 2 && KeyOrdered(sorted, key)
    requires key(sorted[|sorted| - 2]) != key(sorted[|sorted| - 1])
    ensures First(sorted, key, |sorted| - 1)
  {
    var n := |sorted| - 1;
    forall j | 0 <= j < n ensures key(sorted[j]) != key(sorted[n]) {
      LexIsOrder(key(sorted[j]), key(sorted[n - 1]));
      LexIsOrder(key(sorted[n]), key(sorted[n - 1]));
    }
  }

  /** The kept elements are the first ones of every key. */
  ghost predicate KeepsFirsts<T>(sorted: seq<T>, key: T -> seq<int>, kept: seq<T>) {
    && (forall x | x in kept :: exists i: nat :: First(sorted, key, i) && sorted[i] == x)
    && (forall i: nat | First(sorted, key, i) :: sorted[i] in kept)
  }

  lemma FirstsGrow<T>(sorted: seq<T>, key: T -> seq<int>, kept: seq<T>)
    requires sorted != [] && KeepsFirsts(sorted[..|sorted| - 1], key, kept)
    ensures var n := |sorted| - 1;
            KeepsFirsts(sorted, key, if First(sorted, key, n) then kept + [sorted[n]] else kept)
  {
    var n := |sorted| - 1;
    var front, last := sorted[..n], sorted[n];
    var grown := if First(sorted, key, n) then kept + [last] else kept;
    forall x | x in grown ensures exists i: nat :: First(sorted, key, i) && sorted[i] == x {
      if x in kept {
        var i: nat :| First(front, key, i) && front[i] == x;
        assert First(sorted, key, i) && sorted[i] == x;
      } else {
        assert First(sorted, key, n) && sorted[n] == x;
      }
    }
    forall i: nat | First(sorted, key, i) ensures sorted[i] in grown {
      if i < n {
        assert First(front, key, i) && front[i] == sorted[i];
      }
    }
  }

  predicate EndsAlike<T>(sorted: seq<T>, key: T -> seq<int>, kept: seq<T>) {
    sorted != [] ==> kept != [] && key(kept[|kept| - 1]) == key(sorted[|sorted| - 1])
  }

  lemma DedupStep<T>(sorted: seq<T>, key: T -> seq<int>)
    requires sorted != [] && KeyOrdered(sorted, key)
    requires EndsAlike(sorted[..|sorted| - 1], key, Dedup(sorted[..|sorted| - 1], key))
    ensures var n := |sorted| - 1;
            var kept := Dedup(sorted[..n], key);
            Dedup(sorted, key) == if First(sorted, key, n) then kept + [sorted[n]] else kept
    ensures EndsAlike(sorted, key, Dedup(sorted, key))
  {
    var n := |sorted| - 1;
    var front := sorted[..n];
    var kept := Dedup(front, key);
    if n == 0 {
      assert front == [] && kept == [];
    } else {
      assert front[n - 1] == sorted[n - 1];
      FirstIff(sorted, key);
    }
  }

  lemma FirstIff<T>(sorted: seq<T>, key: T -> seq<int>)
    requires |sorted| >= 2 && KeyOrdered(sorted, key)
    ensures First(sorted, key, |sorted| - 1) <==> key(sorted[|sorted| - 2]) != key(sorted[|sorted| - 1])
  {
    if key(sorted[|sorted| - 2]) != key(sorted[|sorted| - 1]) {
      NewKeyIsFirst(sorted, key);
    }
  }

  lemma {:induction false} DedupKeepsFirsts<T>(sorted: seq<T>, key: T -> seq<int>)
    requires KeyOrdered(sorted, key)
    ensures EndsAlike(sorted, key, Dedup(sorted, key)) && |Dedup(sorted, key)| <= |sorted|
    ensures KeepsFirsts(sorted, key, Dedup(sorted, key))
    decreases |sorted|
  {
    if sorted != [] {
      var n := |sorted| - 1;
      DedupKeepsFirsts(sorted[..n], key);
      FirstsGrow(sorted, key, Dedup(sorted[..n], key));
      DedupStep(sorted, key);
    }
  }

  lemma NewKeyIsGreater<T>(sorted: seq<T>, key: T -> seq<int>, kept: seq<T>)
    requires sorted != [] && KeyOrdered(sorted, key) && First(sorted, key, |sorted| - 1)
    requires KeepsFirsts(sorted[..|sorted| - 1], key, kept) && StrictlyOrdered(kept, key)
    ensures StrictlyOrdered(kept + [sorted[|sorted| - 1]], key)
  {
    var n := |sorted| - 1;
    var front := sorted[..n];
    forall i | 0 <= i < |kept| ensures Lex(key(kept[i]), key(sorted[n])) < 0 {
      assert kept[i] in kept;
      var j: nat :| First(front, key, j) && front[j] == kept[i];
      assert sorted[j] == kept[i];
      LexIsOrder(key(sorted[j]), key(sorted[n]));
    }
  }

  /** Each kept element is new, so the kept keys strictly increase. */
  lemma {:induction false} DedupIsStrict<T>(sorted: seq<T>, key: T -> seq<int>)
    requires KeyOrdered(sorted, key)
    ensures StrictlyOrdered(Dedup(sorted, key), key)
    decreases |sorted|
  {
    if sorted != [] {
      var n := |sorted| - 1;
      var front, kept := sorted[..n], Dedup(sorted[..n], key);
      DedupIsStrict(front, key);
      DedupKeepsFirsts(front, key);
      DedupStep(sorted, key);
      if First(sorted, key, n) {
        NewKeyIsGreater(sorted, key, kept);
      }
    }
  }

  lemma {:induction false} EveryKeyHasAFirst<T>(sorted: seq<T>, key: T -> seq<int>, j: nat) returns (i: nat)
    requires j < |sorted|
    ensures First(sorted, key, i) && key(sorted[i]) == key(sorted[j])
    decreases j
  {
    if First(sorted, key, j) {
      i := j;
    } else {
      var k: nat :| k < j && key(sorted[k]) == key(sorted[j]);
      i := EveryKeyHasAFirst(sorted, key, k);
    }
  }
}
