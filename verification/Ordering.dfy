/** Code-point order on strings, and the list that `sorted(set(names))` yields. */
module Ordering {

  predicate Less(a: string, b: string) {
    b != "" && (a == "" || a[0] < b[0] || (a[0] == b[0] && Less(a[1..], b[1..])))
  }

  /** The texts agree up to `k`; there the first ends or has the smaller character. */
  ghost predicate SmallerAt(a: string, b: string, k: nat) {
    k <= |a| && k < |b| && (forall i :: 0 <= i < k ==> a[i] == b[i]) && (k == |a| || a[k] < b[k])
  }

  lemma {:induction false} LessIff(a: string, b: string)
    ensures Less(a, b) <==> exists k: nat :: SmallerAt(a, b, k)
  {
    if b != "" {
      if a == "" {
        assert SmallerAt(a, b, 0);
      } else if a[0] != b[0] {
        assert Less(a, b) ==> SmallerAt(a, b, 0);
      } else {
        LessIff(a[1..], b[1..]);
        if Less(a, b) {
          var k: nat :| SmallerAt(a[1..], b[1..], k);
          assert SmallerAt(a, b, k + 1);
        }
        if k: nat :| SmallerAt(a, b, k) {
          assert k > 0 && SmallerAt(a[1..], b[1..], k - 1);
        }
      }
    }
  }

  lemma {:induction false} LessIrreflexive(a: string)
    ensures !Less(a, a)
  {
    if a != "" {
      LessIrreflexive(a[1..]);
    }
  }

  lemma {:induction false} LessTransitive(a: string, b: string, c: string)
    requires Less(a, b) && Less(b, c)
    ensures Less(a, c)
  {
    if a != "" && a[0] == b[0] && b[0] == c[0] {
      LessTransitive(a[1..], b[1..], c[1..]);
    }
  }

  lemma {:induction false} LessTotal(a: string, b: string)
    ensures a == b || Less(a, b) || Less(b, a)
  {
    if a != "" && b != "" && a[0] == b[0] {
      LessTotal(a[1..], b[1..]);
      assert a == [a[0]] + a[1..] && b == [b[0]] + b[1..];
    }
  }

  /** Strictly ascending, so sorted and without repetition. */
  predicate Ascending(s: seq<string>) {
    forall i, j :: 0 <= i < j < |s| ==> Less(s[i], s[j])
  }

  function Insert(x: string, s: seq<string>): seq<string> {
    if s == [] then [x]
    else if x == s[0] then s
    else if Less(x, s[0]) then [x] + s
    else [s[0]] + Insert(x, s[1..])
  }

  lemma {:induction false} InsertMembers(x: string, s: seq<string>)
    ensures forall n :: n in Insert(x, s) <==> n == x || n in s
  {
    if s != [] {
      InsertMembers(x, s[1..]);
    }
  }

  lemma {:induction false} InsertAscends(x: string, s: seq<string>)
    requires Ascending(s)
    ensures Ascending(Insert(x, s))
  {
    if s != [] && x != s[0] {
      LessTotal(x, s[0]);
      if Less(x, s[0]) {
        forall j | 1 <= j < |s|
          ensures Less(x, s[j])
        {
          LessTransitive(x, s[0], s[j]);
        }
      } else {
        InsertAscends(x, s[1..]);
        InsertMembers(x, s[1..]);
        var rest := Insert(x, s[1..]);
        forall j | 0 <= j < |rest|
          ensures Less(s[0], rest[j])
        {
          assert rest[j] in rest;
        }
      }
    }
  }

  /** `sorted(set(names))`. */
  function SortedUnique(names: seq<string>): (r: seq<string>)
    ensures Ascending(r)
    ensures forall n :: n in r <==> n in names
  {
    if names == [] then []
    else
      var rest := SortedUnique(names[1..]);
      InsertAscends(names[0], rest);
      InsertMembers(names[0], rest);
      Insert(names[0], rest)
  }

  /** A set has one ascending listing. */
  lemma {:induction false} AscendingIsUnique(a: seq<string>, b: seq<string>)
    requires Ascending(a) && Ascending(b) && forall n :: n in a <==> n in b
    ensures a == b
  {
    assert a != [] ==> a[0] in a;
    assert b != [] ==> b[0] in b;
    if a != [] && b != [] {
      HeadIsLeast(a, b[0]);
      HeadIsLeast(b, a[0]);
      if Less(a[0], b[0]) {
        LessBothWays(a[0], b[0]);
      }
      LessIrreflexive(a[0]);
      forall n
        ensures n in a[1..] <==> n in b[1..]
      {
        TailMembers(a, n);
        TailMembers(b, n);
      }
      AscendingIsUnique(a[1..], b[1..]);
      assert a == [a[0]] + a[1..] && b == [b[0]] + b[1..];
    }
  }

  lemma HeadIsLeast(a: seq<string>, n: string)
    requires Ascending(a) && n in a
    ensures n == a[0] || Less(a[0], n)
  {
  }

  lemma LessBothWays(a: string, b: string)
    ensures !(Less(a, b) && Less(b, a))
  {
    if Less(a, b) && Less(b, a) {
      LessTransitive(a, b, a);
      LessIrreflexive(a);
    }
  }

  lemma TailMembers(a: seq<string>, n: string)
    requires a != [] && Ascending(a)
    ensures n in a[1..] <==> n in a && n != a[0]
  {
    LessIrreflexive(a[0]);
  }
}
