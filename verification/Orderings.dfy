/** Total orders, lexicographic order, strictly ascending sequences as sets, and stable sorting. */
module Orderings {

  datatype Order = Less | Equal | Greater {
    /** This comparison, and `next` to break a tie. */
    function Then(next: Order): Order {
      if Equal? then next else this
    }
  }

  /** `cmp` decides a strict total order. */
  ghost predicate TotalOrder<T(!new)>(cmp: (T, T) -> Order) {
    && (forall a, b :: cmp(a, b) == Equal <==> a == b)
    && (forall a, b :: cmp(a, b) == Less <==> cmp(b, a) == Greater)
    && (forall a, b, c :: cmp(a, b) == Less && cmp(b, c) == Less ==> cmp(a, c) == Less)
  }

  function CompareInt(a: int, b: int): Order {
    if a < b then Less else if a == b then Equal else Greater
  }

  /** Element by element; a proper prefix comes first. */
  function CompareSeq<T>(cmp: (T, T) -> Order, a: seq<T>, b: seq<T>): Order {
    if a == [] then (if b == [] then Equal else Less)
    else if b == [] then Greater
    else cmp(a[0], b[0]).Then(CompareSeq(cmp, a[1..], b[1..]))
  }

  lemma {:induction false} CompareSeqEqual<T(!new)>(cmp: (T, T) -> Order, a: seq<T>, b: seq<T>)
    requires TotalOrder(cmp)
    ensures CompareSeq(cmp, a, b) == Equal <==> a == b
  {
    if a != [] && b != [] {
      CompareSeqEqual(cmp, a[1..], b[1..]);
      assert a == [a[0]] + a[1..] && b == [b[0]] + b[1..];
    }
  }

  lemma {:induction false} CompareSeqReverse<T(!new)>(cmp: (T, T) -> Order, a: seq<T>, b: seq<T>)
    requires TotalOrder(cmp)
    ensures CompareSeq(cmp, a, b) == Less <==> CompareSeq(cmp, b, a) == Greater
  {
    if a != [] && b != [] {
      CompareSeqReverse(cmp, a[1..], b[1..]);
      assert cmp(a[0], b[0]) == Equal <==> cmp(b[0], a[0]) == Equal;
    }
  }

  lemma {:induction false} CompareSeqTransitive<T(!new)>(cmp: (T, T) -> Order, a: seq<T>, b: seq<T>, c: seq<T>)
    requires TotalOrder(cmp)
    requires CompareSeq(cmp, a, b) == Less && CompareSeq(cmp, b, c) == Less
    ensures CompareSeq(cmp, a, c) == Less
  {
    if a != [] && b != [] && c != [] && cmp(a[0], b[0]) == Equal && cmp(b[0], c[0]) == Equal {
      CompareSeqTransitive(cmp, a[1..], b[1..], c[1..]);
    }
  }

  /** `a` and `b` agree before position `k`, and there `a` ends first or has the smaller element. */
  predicate DecidedAt<T(==)>(cmp: (T, T) -> Order, a: seq<T>, b: seq<T>, k: nat) {
    && k <= |a| && k < |b| && a[..k] == b[..k]
    && (k < |a| ==> cmp(a[k], b[k]) == Less)
  }

  lemma DecidedShifts<T>(cmp: (T, T) -> Order, a: seq<T>, b: seq<T>, k: nat)
    requires a != [] && b != [] && a[0] == b[0]
    ensures DecidedAt(cmp, a[1..], b[1..], k) <==> DecidedAt(cmp, a, b, k + 1)
  {
    if k <= |a[1..]| && k <= |b[1..]| {
      assert a[..k + 1] == [a[0]] + a[1..][..k] && b[..k + 1] == [b[0]] + b[1..][..k];
      assert a[1..][..k] == a[..k + 1][1..] && b[1..][..k] == b[..k + 1][1..];
    }
  }

  lemma DecidedLater<T>(cmp: (T, T) -> Order, a: seq<T>, b: seq<T>, k: nat)
    requires DecidedAt(cmp, a, b, k) && k > 0
    ensures a != [] && b != [] && a[0] == b[0]
  {
    assert a[0] == a[..k][0] && b[0] == b[..k][0];
  }

  /** The first difference decides, and a proper prefix comes first. */
  lemma {:induction false} CompareSeqIsLexicographic<T(!new)>(cmp: (T, T) -> Order, a: seq<T>, b: seq<T>)
    requires TotalOrder(cmp)
    ensures CompareSeq(cmp, a, b) == Less <==> exists k: nat :: DecidedAt(cmp, a, b, k)
  {
    if a != [] && b != [] && a[0] == b[0] {
      CompareSeqIsLexicographic(cmp, a[1..], b[1..]);
      forall k: nat ensures DecidedAt(cmp, a[1..], b[1..], k) <==> DecidedAt(cmp, a, b, k + 1) {
        DecidedShifts(cmp, a, b, k);
      }
      if k: nat :| DecidedAt(cmp, a[1..], b[1..], k) {
        assert DecidedAt(cmp, a, b, k + 1);
      }
      if k: nat :| DecidedAt(cmp, a, b, k) {
        assert k > 0;
        assert DecidedAt(cmp, a[1..], b[1..], k - 1);
      }
    } else {
      forall k: nat | DecidedAt(cmp, a, b, k) ensures k == 0 {
        if k > 0 {
          DecidedLater(cmp, a, b, k);
        }
      }
      assert DecidedAt(cmp, a, b, 0) <==> CompareSeq(cmp, a, b) == Less;
    }
  }

  /** Each element comes strictly before its successor. */
  predicate Ascending<T>(cmp: (T, T) -> Order, s: seq<T>) {
    forall i :: 0 < i < |s| ==> cmp(s[i - 1], s[i]) == Less
  }

  lemma AscendingCons<T>(cmp: (T, T) -> Order, x: T, rest: seq<T>)
    ensures Ascending(cmp, [x] + rest) <==> Ascending(cmp, rest) && (rest != [] ==> cmp(x, rest[0]) == Less)
  {
    var whole := [x] + rest;
    if rest != [] && cmp(x, rest[0]) == Less && Ascending(cmp, rest) {
      forall i | 0 < i < |whole| ensures cmp(whole[i - 1], whole[i]) == Less {
        assert i > 1 ==> cmp(rest[i - 2], rest[i - 1]) == Less;
      }
    }
    if Ascending(cmp, whole) {
      forall i | 0 < i < |rest| ensures cmp(rest[i - 1], rest[i]) == Less {
        assert cmp(whole[i], whole[i + 1]) == Less;
      }
      assert rest != [] ==> cmp(whole[0], whole[1]) == Less;
    }
  }

  lemma AscendingSnoc<T>(cmp: (T, T) -> Order, s: seq<T>, x: T)
    ensures Ascending(cmp, s + [x]) <==> Ascending(cmp, s) && (s != [] ==> cmp(s[|s| - 1], x) == Less)
  {
    var whole := s + [x];
    if Ascending(cmp, whole) {
      forall i | 0 < i < |s| ensures cmp(s[i - 1], s[i]) == Less {
        assert cmp(whole[i - 1], whole[i]) == Less;
      }
      assert s != [] ==> cmp(whole[|s| - 1], whole[|s|]) == Less;
    }
  }

  /** An ascending sequence is ascending across any gap, so it has no duplicates. */
  lemma {:induction false} AscendingAcrossGaps<T(!new)>(cmp: (T, T) -> Order, s: seq<T>, i: nat, j: nat)
    requires TotalOrder(cmp) && Ascending(cmp, s)
    requires i < j < |s|
    ensures cmp(s[i], s[j]) == Less
    decreases j
  {
    if i < j - 1 {
      AscendingAcrossGaps(cmp, s, i, j - 1);
    }
  }

  /** The ascending listing of a set is unique. */
  lemma {:induction false} AscendingListingIsUnique<T(!new)>(cmp: (T, T) -> Order, s: seq<T>, t: seq<T>)
    requires TotalOrder(cmp) && Ascending(cmp, s) && Ascending(cmp, t)
    requires forall x :: x in s <==> x in t
    ensures s == t
    decreases |s|
  {
    if s == [] && t != [] {
      HasMember(t);
    } else if s != [] && t == [] {
      HasMember(s);
    } else if s != [] {
      FirstIsLeast(cmp, s, t);
      FirstIsLeast(cmp, t, s);
      forall x ensures x in s[1..] <==> x in t[1..] {
        RestOmitsFirst(cmp, s, x);
        RestOmitsFirst(cmp, t, x);
      }
      AscendingListingIsUnique(cmp, s[1..], t[1..]);
      assert s == [s[0]] + s[1..] && t == [t[0]] + t[1..];
    }
  }

  lemma HasMember<T>(s: seq<T>)
    requires s != []
    ensures exists x :: x in s
  {
    assert s[0] in s;
  }

  lemma FirstIsLeast<T(!new)>(cmp: (T, T) -> Order, s: seq<T>, t: seq<T>)
    requires TotalOrder(cmp) && Ascending(cmp, s)
    requires s != [] && t != [] && t[0] in s
    ensures cmp(s[0], t[0]) != Greater
  {
    var i :| 0 <= i < |s| && s[i] == t[0];
    if i > 0 {
      AscendingAcrossGaps(cmp, s, 0, i);
    }
  }

  lemma RestOmitsFirst<T(!new)>(cmp: (T, T) -> Order, s: seq<T>, x: T)
    requires TotalOrder(cmp) && Ascending(cmp, s)
    requires s != []
    ensures x in s[1..] <==> x in s && x != s[0]
  {
    if x in s[1..] {
      var i :| 0 <= i < |s[1..]| && s[1..][i] == x;
      AscendingAcrossGaps(cmp, s, 0, i + 1);
    }
  }

  // ----- Rearranging -----

  /** The same elements, possibly in another order. */
  ghost predicate Permutation<T>(a: seq<T>, b: seq<T>) {
    multiset(a) == multiset(b)
  }

  lemma PermutationFacts<T>(a: seq<T>, b: seq<T>)
    requires Permutation(a, b)
    ensures |a| == |b|
    ensures forall x :: x in a <==> x in b
    ensures forall i | 0 <= i < |a| :: a[i] in b
  {
    assert |multiset(a)| == |multiset(b)|;
    forall i | 0 <= i < |a|
      ensures a[i] in b
    {
      assert a[i] in multiset(a);
    }
    forall x
      ensures x in a <==> x in b
    {
      assert x in a <==> x in multiset(a);
      assert x in b <==> x in multiset(b);
    }
  }

  /** No two elements have the same key. */
  predicate DistinctKeys<T, K(==)>(rows: seq<T>, key: T -> K) {
    forall i, j | 0 <= i < j < |rows| :: key(rows[i]) != key(rows[j])
  }

  lemma DistinctKeysOfPermutation<T(!new), K>(a: seq<T>, b: seq<T>, key: T -> K)
    requires Permutation(a, b) && DistinctKeys(a, key)
    ensures DistinctKeys(b, key)
  {
    PermutationFacts(a, b);
    forall i, j | 0 <= i < j < |b|
      ensures key(b[i]) != key(b[j])
    {
      assert b[i] in a && b[j] in a;
      if b[i] == b[j] {
        RepeatedElement(b, i, j);
        SingleElement(a, b[i], key);
      }
    }
  }

  lemma RepeatedElement<T>(s: seq<T>, i: nat, j: nat)
    requires i < j < |s| && s[i] == s[j]
    ensures multiset(s)[s[i]] >= 2
  {
    assert s == s[..i] + [s[i]] + s[i + 1..j] + [s[j]] + s[j + 1..];
  }

  lemma SingleElement<T, K>(s: seq<T>, x: T, key: T -> K)
    requires DistinctKeys(s, key) && x in s
    ensures multiset(s)[x] == 1
  {
    var i :| 0 <= i < |s| && s[i] == x;
    assert s == s[..i] + [x] + s[i + 1..];
    assert x !in s[..i] && x !in s[i + 1..];
  }

  lemma TailPermutation<T>(a: seq<T>, b: seq<T>)
    requires a != [] && b != [] && a[0] == b[0] && Permutation(a, b)
    ensures Permutation(a[1..], b[1..])
  {
    assert a == [a[0]] + a[1..] && b == [b[0]] + b[1..];
    assert multiset(a[1..]) == multiset(a) - multiset{a[0]};
    assert multiset(b[1..]) == multiset(b) - multiset{b[0]};
  }

  // ----- Sorting -----

  /** Any two elements are comparable and comparison is transitive; ties are allowed. */
  ghost predicate Preorder<T(!new)>(leq: (T, T) -> bool) {
    && (forall a, b :: leq(a, b) || leq(b, a))
    && (forall a, b, c :: leq(a, b) && leq(b, c) ==> leq(a, c))
  }

  predicate Sorted<T>(leq: (T, T) -> bool, s: seq<T>) {
    forall i, j | 0 <= i < j < |s| :: leq(s[i], s[j])
  }

  function Insert<T>(leq: (T, T) -> bool, x: T, s: seq<T>): (r: seq<T>)
    ensures Permutation(r, [x] + s)
  {
    if s == [] || leq(x, s[0]) then [x] + s
    else
      assert s == [s[0]] + s[1..];
      [s[0]] + Insert(leq, x, s[1..])
  }

  /** Stable sort: of tied elements, the earlier stays first. */
  function Sort<T>(leq: (T, T) -> bool, s: seq<T>): (r: seq<T>)
    ensures Permutation(r, s)
  {
    if s == [] then []
    else
      assert s == [s[0]] + s[1..];
      Insert(leq, s[0], Sort(leq, s[1..]))
  }

  lemma {:induction false} InsertSorts<T(!new)>(leq: (T, T) -> bool, x: T, s: seq<T>)
    requires Preorder(leq) && Sorted(leq, s)
    ensures Sorted(leq, Insert(leq, x, s))
  {
    if s != [] && !leq(x, s[0]) {
      InsertSorts(leq, x, s[1..]);
      var rest, source := Insert(leq, x, s[1..]), [x] + s[1..];
      PermutationFacts(rest, source);
      forall i | 0 <= i < |rest| ensures leq(s[0], rest[i]) {
        assert rest[i] in source;
      }
    }
  }

  lemma {:induction false} SortSorts<T(!new)>(leq: (T, T) -> bool, s: seq<T>)
    requires Preorder(leq)
    ensures Sorted(leq, Sort(leq, s))
  {
    if s != [] {
      SortSorts(leq, s[1..]);
      InsertSorts(leq, s[0], Sort(leq, s[1..]));
    }
  }

  lemma {:induction false} SortedIsKept<T(!new)>(leq: (T, T) -> bool, s: seq<T>)
    requires Sorted(leq, s)
    ensures Sort(leq, s) == s
  {
    if s != [] {
      var rest := s[1..];
      assert s == [s[0]] + rest;
      SortedIsKept(leq, rest);
      assert rest != [] ==> leq(s[0], s[1]);
    }
  }

  /** Sorting changes a sequence exactly when it was not sorted. */
  lemma SortFixesSorted<T(!new)>(leq: (T, T) -> bool, s: seq<T>)
    requires Preorder(leq)
    ensures Sort(leq, s) == s <==> Sorted(leq, s)
  {
    hide Sort, Sorted, Preorder;
    SortSorts(leq, s);
    if Sorted(leq, s) {
      SortedIsKept(leq, s);
    }
  }
}
