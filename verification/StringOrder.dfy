/** Strings in Python's order, and sorting. */
module StringOrder {
  /** Python's order on strings. */
  predicate Before(a: string, b: string) {
    if a == [] then b != [] else b != [] && (a[0] < b[0] || (a[0] == b[0] && Before(a[1..], b[1..])))
  }

  /** The first position where two strings differ decides. */
  lemma {:induction false} DecidedAt(a: string, b: string, k: nat)
    requires k < |a| && k < |b| && a[k] < b[k] && forall i :: 0 <= i < k ==> a[i] == b[i]
    ensures Before(a, b)
  {
    if k > 0 { DecidedAt(a[1..], b[1..], k - 1); }
  }

  function Insert(x: string, s: seq<string>): seq<string> {
    if s == [] || !Before(s[0], x) then [x] + s else [s[0]] + Insert(x, s[1..])
  }

  function Sorted(s: seq<string>): seq<string> {
    if s == [] then [] else Insert(s[0], Sorted(s[1..]))
  }

  ghost predicate Ascending(s: seq<string>) { forall i, j :: 0 <= i < j < |s| ==> Before(s[i], s[j]) }

  lemma {:induction false} BeforeIsStrict(a: string, b: string)
    ensures !(Before(a, b) && Before(b, a)) && (a != b ==> Before(a, b) || Before(b, a)) && !Before(a, a)
  {
    if a != [] && b != [] && a[0] == b[0] {
      assert a == [a[0]] + a[1..] && b == [b[0]] + b[1..];
      BeforeIsStrict(a[1..], b[1..]);
    }
    if a != [] { BeforeIsStrict(a[1..], a[1..]); }
  }

  /** An ascending list is already sorted. */
  lemma {:induction false} SortedAscending(s: seq<string>)
    requires Ascending(s)
    ensures Sorted(s) == s
  {
    if s != [] {
      assert Ascending(s[1..]);
      SortedAscending(s[1..]);
      if |s| > 1 {
        assert s[1..][0] == s[1] && Before(s[0], s[1]);
        BeforeIsStrict(s[0], s[1]);
      }
      assert s == [s[0]] + s[1..];
    }
  }

  lemma {:induction false} BeforeIsTransitive(a: string, b: string, c: string)
    requires Before(a, b) && Before(b, c)
    ensures Before(a, c)
  {
    if a != [] && a[0] == b[0] && b[0] == c[0] { BeforeIsTransitive(a[1..], b[1..], c[1..]); }
  }

  lemma {:induction false} InsertKeepsOrder(x: string, s: seq<string>)
    requires Ascending(s) && x !in s
    ensures Ascending(Insert(x, s)) && forall y :: y in Insert(x, s) <==> y == x || y in s
  {
    if s == [] || !Before(s[0], x) {
      if s != [] {
        BeforeIsStrict(s[0], x);
        forall j | 0 < j < |s| ensures Before(x, s[j]) { BeforeIsTransitive(x, s[0], s[j]); }
      }
      assert forall y :: y in [x] + s <==> y == x || y in s;
    } else {
      assert Ascending(s[1..]) && forall y :: y in s <==> y == s[0] || y in s[1..];
      InsertKeepsOrder(x, s[1..]);
      var rest := Insert(x, s[1..]);
      forall j | 0 <= j < |rest| ensures Before(s[0], rest[j]) {
        assert rest[j] in rest;
        if rest[j] != x {
          var k :| 0 <= k < |s[1..]| && s[1..][k] == rest[j];
          assert s[k + 1] == rest[j];
        }
      }
      assert forall y :: y in [s[0]] + rest <==> y == s[0] || y in rest;
    }
  }
}
