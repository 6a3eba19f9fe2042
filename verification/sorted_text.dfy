/** Rust's string order, sorting and adjacent deduplication, and why their results are unique. */
module SortedText {
  /** Lexicographic by character, which is also the order of the UTF-8 encodings. */
  predicate Leq(a: string, b: string) {
    a == "" || (b != "" && (a[0] < b[0] || (a[0] == b[0] && Leq(a[1..], b[1..]))))
  }

  lemma {:induction false} LeqTotal(a: string, b: string)
    ensures Leq(a, b) || Leq(b, a)
  {
    if a != "" && b != "" { LeqTotal(a[1..], b[1..]); }
  }

  lemma {:induction false} LeqAntisymmetric(a: string, b: string)
    requires Leq(a, b) && Leq(b, a)
    ensures a == b
  {
    if a != "" && b != "" {
      LeqAntisymmetric(a[1..], b[1..]);
      assert a == [a[0]] + a[1..] && b == [b[0]] + b[1..];
    }
  }

  lemma {:induction false} LeqTransitive(a: string, b: string, c: string)
    requires Leq(a, b) && Leq(b, c)
    ensures Leq(a, c)
  {
    if a != "" && a[0] == b[0] == c[0] { LeqTransitive(a[1..], b[1..], c[1..]); }
  }

  /** One text begins the other, or at the first place where they differ it has the smaller character. */
  ghost predicate Precedes(a: string, b: string) {
    a <= b || exists k: nat :: k < |a| && k < |b| && a[..k] == b[..k] && a[k] as int < b[k] as int
  }

  lemma PrecedesRest(a: string, b: string)
    requires a != "" && b != "" && a[0] == b[0]
    ensures Precedes(a, b) <==> Precedes(a[1..], b[1..])
  {
    assert a == [a[0]] + a[1..] && b == [b[0]] + b[1..];
    if k: nat :| k < |a| && k < |b| && a[..k] == b[..k] && a[k] as int < b[k] as int {
      assert a[1..][..k - 1] == a[..k][1..] && b[1..][..k - 1] == b[..k][1..];
    }
    if k: nat :| k < |a[1..]| && k < |b[1..]| && a[1..][..k] == b[1..][..k] && a[1..][k] as int < b[1..][k] as int {
      assert a[..k + 1] == [a[0]] + a[1..][..k] && b[..k + 1] == [b[0]] + b[1..][..k];
    }
  }

  /** The order is that of the first difference. */
  lemma {:induction false} LeqIff(a: string, b: string)
    ensures Leq(a, b) <==> Precedes(a, b)
  {
    if a != "" && b != "" {
      if a[0] == b[0] {
        PrecedesRest(a, b);
        LeqIff(a[1..], b[1..]);
      } else if a[0] < b[0] {
        assert a[..0] == b[..0];
      }
    }
  }

  predicate Sorted(s: seq<string>) {
    |s| < 2 || (Leq(s[0], s[1]) && Sorted(s[1..]))
  }

  predicate StrictlySorted(s: seq<string>) {
    |s| < 2 || (Leq(s[0], s[1]) && s[0] != s[1] && StrictlySorted(s[1..]))
  }

  function Insert(x: string, s: seq<string>): (r: seq<string>)
    requires Sorted(s)
    ensures Sorted(r) && multiset(r) == multiset{x} + multiset(s)
    ensures r != [] && (r[0] == x || (s != [] && r[0] == s[0]))
  {
    if s == [] then [x]
    else
      assert s == [s[0]] + s[1..];
      if Leq(x, s[0]) then [x] + s
      else
        LeqTotal(x, s[0]);
        [s[0]] + Insert(x, s[1..])
  }

  /** `sort` on a vector of strings. */
  function Sort(s: seq<string>): (r: seq<string>)
    ensures Sorted(r) && multiset(r) == multiset(s)
  {
    if s == [] then []
    else
      assert s == [s[0]] + s[1..];
      Insert(s[0], Sort(s[1..]))
  }

  /** `dedup` on a vector: equal neighbours collapse. */
  function Dedup(s: seq<string>): seq<string> {
    if |s| < 2 then s
    else if s[0] == s[1] then Dedup(s[1..])
    else [s[0]] + Dedup(s[1..])
  }

  lemma {:induction false} HeadIsLeast(s: seq<string>, x: string)
    requires Sorted(s) && x in s
    ensures Leq(s[0], x)
  {
    if x == s[0] {
      LeqTotal(x, x);
    } else {
      HeadIsLeast(s[1..], x);
      LeqTransitive(s[0], s[1], x);
    }
  }

  /** A sorted list ascends by first difference. */
  lemma {:induction false} SortedAscends(s: seq<string>, i: nat, j: nat)
    requires Sorted(s) && i < j < |s|
    ensures Precedes(s[i], s[j])
  {
    if i == 0 {
      HeadIsLeast(s, s[j]);
      LeqIff(s[0], s[j]);
    } else {
      SortedAscends(s[1..], i - 1, j - 1);
    }
  }

  predicate NoRepeats(s: seq<string>) {
    forall i, j :: 0 <= i < j < |s| ==> s[i] != s[j]
  }

  lemma {:induction false} OnceEach(s: seq<string>)
    requires NoRepeats(s)
    ensures forall x :: multiset(s)[x] <= 1
  {
    if s != [] {
      OnceEach(s[1..]);
      assert s == [s[0]] + s[1..] && s[0] !in s[1..];
    }
  }

  lemma {:induction false} SortedOnceEach(s: seq<string>)
    requires Sorted(s) && forall x :: multiset(s)[x] <= 1
    ensures StrictlySorted(s)
  {
    if |s| >= 2 {
      assert s == [s[0]] + s[1..];
      assert multiset(s) == multiset{s[0]} + multiset(s[1..]);
      assert s[1] in multiset(s[1..]) && multiset(s)[s[0]] <= 1;
      forall x ensures multiset(s[1..])[x] <= 1 { assert multiset(s)[x] <= 1; }
      SortedOnceEach(s[1..]);
    }
  }

  lemma SortIsStrict(s: seq<string>)
    requires NoRepeats(s)
    ensures StrictlySorted(Sort(s))
  {
    OnceEach(s);
    SortedOnceEach(Sort(s));
  }

  lemma {:induction false} StrictIsSorted(s: seq<string>)
    requires StrictlySorted(s)
    ensures Sorted(s)
    ensures s != [] ==> s[0] !in s[1..]
  {
    if |s| >= 2 {
      StrictIsSorted(s[1..]);
      if s[0] in s[1..] {
        HeadIsLeast(s[1..], s[0]);
        LeqAntisymmetric(s[0], s[1]);
      }
    }
  }

  lemma SameHead(a: seq<string>, b: seq<string>)
    requires Sorted(a) && Sorted(b) && a != [] && b != [] && a[0] in b && b[0] in a
    ensures a[0] == b[0]
  {
    HeadIsLeast(a, b[0]);
    HeadIsLeast(b, a[0]);
    LeqAntisymmetric(a[0], b[0]);
  }

  lemma MultisetOfTail(s: seq<string>)
    requires s != []
    ensures s[0] in multiset(s) && multiset(s[1..]) == multiset(s) - multiset{s[0]}
  {
    assert s == [s[0]] + s[1..];
  }

  lemma TailsAgree(a: seq<string>, b: seq<string>)
    requires a != [] && Sorted(a) && Sorted(b) && multiset(a) == multiset(b)
    ensures b != [] && a[0] == b[0] && multiset(a[1..]) == multiset(b[1..])
  {
    MultisetOfTail(a);
    assert |multiset(b)| == |b|;
    MultisetOfTail(b);
    SameHead(a, b);
  }

  /** A sorted list is determined by its elements. */
  lemma {:induction false} SortedIsUnique(a: seq<string>, b: seq<string>)
    requires Sorted(a) && Sorted(b) && multiset(a) == multiset(b)
    ensures a == b
    decreases |a|
  {
    if a == [] {
      assert |multiset(b)| == |b|;
    } else {
      TailsAgree(a, b);
      SortedIsUnique(a[1..], b[1..]);
      assert a == [a[0]] + a[1..];
      assert b == [b[0]] + b[1..];
    }
  }

  /** A sorted list without repeats is determined by its set of elements. */
  lemma {:induction false} StrictlySortedIsUnique(a: seq<string>, b: seq<string>)
    requires StrictlySorted(a) && StrictlySorted(b) && forall x :: x in a <==> x in b
    ensures a == b
  {
    assert a != [] ==> a[0] in a;
    assert b != [] ==> b[0] in b;
    if a != [] {
      StrictIsSorted(a);
      StrictIsSorted(b);
      SameHead(a, b);
      assert a == [a[0]] + a[1..] && b == [b[0]] + b[1..];
      assert forall x :: x in a[1..] <==> x in a && x != a[0];
      assert forall x :: x in b[1..] <==> x in b && x != b[0];
      StrictlySortedIsUnique(a[1..], b[1..]);
    }
  }

  lemma {:induction false} DedupOfSorted(s: seq<string>)
    requires Sorted(s)
    ensures StrictlySorted(Dedup(s))
    ensures forall x :: x in Dedup(s) <==> x in s
    ensures s != [] ==> Dedup(s) != [] && Dedup(s)[0] == s[0]
  {
    if |s| >= 2 {
      DedupOfSorted(s[1..]);
      assert s == [s[0]] + s[1..];
    }
  }

  /** Sorting forgets the order the elements came in. */
  lemma SortForgetsOrder(a: seq<string>, b: seq<string>)
    requires multiset(a) == multiset(b)
    ensures Sort(a) == Sort(b)
  {
    SortedIsUnique(Sort(a), Sort(b));
  }

  /** Sorting and deduplicating forgets order and repetition. */
  lemma SortDedupForgetsRepeats(a: seq<string>, b: seq<string>)
    requires forall x :: x in a <==> x in b
    ensures Dedup(Sort(a)) == Dedup(Sort(b))
  {
    DedupOfSorted(Sort(a));
    DedupOfSorted(Sort(b));
    forall x ensures x in Dedup(Sort(a)) <==> x in Dedup(Sort(b)) {
      assert x in a <==> x in multiset(a);
      assert x in b <==> x in multiset(b);
      assert x in Sort(a) <==> x in multiset(Sort(a));
      assert x in Sort(b) <==> x in multiset(Sort(b));
    }
    StrictlySortedIsUnique(Dedup(Sort(a)), Dedup(Sort(b)));
  }
}
