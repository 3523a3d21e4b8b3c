/** Sorting by a string key, and why the result does not depend on the input order; sorting numbers. */
module Sorting {

  // Bytewise string comparison.
  predicate Less(a: string, b: string) {
    if b == "" then false
    else if a == "" then true
    else a[0] < b[0] || (a[0] == b[0] && Less(a[1..], b[1..]))
  }

  // The lesser text is the one with the lesser character at the first difference, or the one that ends
  // first.
  ghost predicate DiffersAt(a: string, b: string, k: nat) {
    && k <= |a| && k < |b| && a[..k] == b[..k]
    && (k == |a| || a[k] < b[k])
  }

  lemma {:induction false} LessByFirstDifference(a: string, b: string)
    ensures Less(a, b) <==> exists k: nat :: DiffersAt(a, b, k)
  {
    if a != "" && b != "" {
      LessByFirstDifference(a[1..], b[1..]);
      if a[0] == b[0] {
        if Less(a[1..], b[1..]) {
          var k: nat :| DiffersAt(a[1..], b[1..], k);
          DifferOneOn(a, b, k);
        }
        if k: nat :| DiffersAt(a, b, k) {
          assert k > 0;
          DifferOneOn(a, b, k - 1);
        }
      } else {
        assert DiffersAt(a, b, 0) <==> a[0] < b[0];
        assert forall k: nat | k > 0 && k <= |a| && k <= |b| :: a[..k][0] == a[0] && b[..k][0] == b[0];
      }
    } else {
      assert DiffersAt(a, b, 0) <==> a == "" && b != "";
    }
  }

  lemma DifferOneOn(a: string, b: string, k: nat)
    requires a != "" && b != "" && a[0] == b[0]
    ensures DiffersAt(a, b, k + 1) <==> DiffersAt(a[1..], b[1..], k)
  {
    if k + 1 <= |a| && k + 1 <= |b| {
      assert a[..k + 1] == [a[0]] + a[1..][..k] && b[..k + 1] == [b[0]] + b[1..][..k];
      assert a[..k + 1][1..] == a[1..][..k] && b[..k + 1][1..] == b[1..][..k];
    }
  }

  lemma {:induction false} LessIsTotal(a: string, b: string)
    ensures !Less(a, a)
    ensures !(Less(a, b) && Less(b, a))
    ensures Less(a, b) || Less(b, a) || a == b
  {
    if a != "" {
      LessIsTotal(a[1..], if b == "" then "" else b[1..]);
      if b != "" && a[0] == b[0] && a[1..] == b[1..] {
        assert a == [a[0]] + a[1..] && b == [b[0]] + b[1..];
      }
    }
  }

  lemma {:induction false} LessIsTransitive(a: string, b: string, c: string)
    requires Less(a, b) && Less(b, c)
    ensures Less(a, c)
  {
    if a != "" && a[0] == b[0] == c[0] {
      LessIsTransitive(a[1..], b[1..], c[1..]);
    }
  }

  ghost predicate Sorted<T>(key: T -> string, s: seq<T>) {
    forall i, j | 0 <= i < j < |s| :: !Less(key(s[j]), key(s[i]))
  }

  ghost predicate DistinctKeys<T>(key: T -> string, s: seq<T>) {
    forall i, j | 0 <= i < j < |s| :: key(s[i]) != key(s[j])
  }

  lemma SameFirst<T>(key: T -> string, a: seq<T>, b: seq<T>)
    requires Sorted(key, a) && Sorted(key, b) && DistinctKeys(key, a)
    requires a != [] && b != [] && a[0] in b && b[0] in a
    ensures a[0] == b[0]
  {
    var i :| 0 <= i < |a| && a[i] == b[0];
    var j :| 0 <= j < |b| && b[j] == a[0];
    assert !Less(key(b[j]), key(b[0])) || j == 0;
    assert !Less(key(a[i]), key(a[0])) || i == 0;
    LessIsTotal(key(a[0]), key(b[0]));
  }

  lemma SameTails<T>(a: seq<T>, b: seq<T>)
    requires a != [] && b != [] && a[0] == b[0] && multiset(a) == multiset(b)
    ensures multiset(a[1..]) == multiset(b[1..])
  {
    assert a == [a[0]] + a[1..] && b == [b[0]] + b[1..];
    assert multiset(a[1..]) == multiset(a) - multiset{a[0]};
    assert multiset(b[1..]) == multiset(b) - multiset{b[0]};
  }

  // A sorted sequence without equal keys is determined by its elements.
  lemma {:induction false} SortedIsUnique<T>(key: T -> string, a: seq<T>, b: seq<T>)
    requires Sorted(key, a) && Sorted(key, b) && DistinctKeys(key, a)
    requires multiset(a) == multiset(b)
    ensures a == b
  {
    assert |a| == |multiset(a)| && |b| == |multiset(b)|;
    if a != [] {
      assert a[0] in multiset(b) && b[0] in multiset(a);
      SameFirst(key, a, b);
      SameTails(a, b);
      SortedIsUnique(key, a[1..], b[1..]);
      assert a == [a[0]] + a[1..] && b == [b[0]] + b[1..];
    }
  }

  lemma TwicePresent<T>(s: seq<T>, i: nat, j: nat)
    requires i < j < |s| && s[i] == s[j]
    ensures multiset(s)[s[i]] >= 2
  {
    assert s == s[..j] + [s[j]] + s[j + 1..];
    assert s[i] == s[..j][i];
  }

  lemma OncePresent<T>(s: seq<T>, p: nat)
    requires p < |s| && forall k | 0 <= k < |s| && s[k] == s[p] :: k == p
    ensures multiset(s)[s[p]] == 1
  {
    assert s == s[..p] + [s[p]] + s[p + 1..];
    assert s[p] !in s[..p];
    assert s[p] !in s[p + 1..];
  }

  lemma NotLessThrough(x: string, a: string, b: string)
    requires !Less(x, b) && !Less(b, a)
    ensures !Less(x, a)
  {
    LessIsTotal(a, b);
    if Less(x, a) && a != b {
      LessIsTransitive(x, a, b);
    }
  }

  method Insert<T>(key: T -> string, s: seq<T>, x: T) returns (r: seq<T>)
    requires Sorted(key, s)
    ensures Sorted(key, r) && multiset(r) == multiset(s) + multiset{x}
  {
    var i := |s|;
    while i > 0 && Less(key(x), key(s[i - 1]))
      invariant 0 <= i <= |s|
      invariant forall k | i <= k < |s| :: Less(key(x), key(s[k]))
    {
      i := i - 1;
    }
    r := s[..i] + [x] + s[i..];
    InsertedIsThere(s, x, i);
    InsertedInOrder(key, s, x, i);
  }

  lemma InsertedIsThere<T>(s: seq<T>, x: T, i: nat)
    requires i <= |s|
    ensures multiset(s[..i] + [x] + s[i..]) == multiset(s) + multiset{x}
  {
    assert s == s[..i] + s[i..];
  }

  lemma InsertedInOrder<T>(key: T -> string, s: seq<T>, x: T, i: nat)
    requires Sorted(key, s) && i <= |s|
    requires i > 0 ==> !Less(key(x), key(s[i - 1]))
    requires forall k | i <= k < |s| :: Less(key(x), key(s[k]))
    ensures Sorted(key, s[..i] + [x] + s[i..])
  {
    forall k | 0 <= k < i ensures !Less(key(x), key(s[k])) {
      if k < i - 1 {
        NotLessThrough(key(x), key(s[k]), key(s[i - 1]));
      }
    }
    forall k | i <= k < |s| ensures !Less(key(s[k]), key(x)) {
      LessIsTotal(key(x), key(s[k]));
    }
  }

  method Sort<T>(key: T -> string, s: seq<T>) returns (r: seq<T>)
    ensures Sorted(key, r) && multiset(r) == multiset(s)
  {
    r := [];
    for i := 0 to |s|
      invariant Sorted(key, r) && multiset(r) == multiset(s[..i])
    {
      r := Insert(key, r, s[i]);
      assert s[..i + 1] == s[..i] + [s[i]];
    }
    assert s[..|s|] == s;
  }

  // ---------------------------------------------------------------- numbers, as a function

  function InsertInt(x: int, s: seq<int>): (r: seq<int>)
    ensures |r| == |s| + 1
  {
    if s == [] || x <= s[0] then [x] + s else [s[0]] + InsertInt(x, s[1..])
  }

  function SortInts(s: seq<int>): (r: seq<int>)
    ensures |r| == |s|
  {
    if s == [] then [] else InsertInt(s[0], SortInts(s[1..]))
  }

  predicate AscendingInts(s: seq<int>) { forall i, j | 0 <= i < j < |s| :: s[i] <= s[j] }

  lemma {:induction false} InsertIntSorts(x: int, s: seq<int>)
    requires AscendingInts(s)
    ensures AscendingInts(InsertInt(x, s)) && (InsertInt(x, s)[0] == x || (s != [] && InsertInt(x, s)[0] == s[0]))
  {
    if s != [] && x > s[0] {
      InsertIntSorts(x, s[1..]);
      var rest := InsertInt(x, s[1..]);
      assert s[0] <= rest[0];
    }
  }

  lemma {:induction false} SortIntsSorts(s: seq<int>)
    ensures AscendingInts(SortInts(s))
  {
    if s != [] {
      SortIntsSorts(s[1..]);
      InsertIntSorts(s[0], SortInts(s[1..]));
    }
  }
}
