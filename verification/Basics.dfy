/** Small shared vocabulary. */
module Basics {
  datatype Option<+T> = None | Some(value: T)

  /** No value occurs twice. */
  ghost predicate Distinct<T>(s: seq<T>) {
    forall i, j :: 0 <= i < j < |s| ==> s[i] != s[j]
  }

  /** A duplicate-free sequence of elements of `s` is no longer than `s`. */
  lemma {:induction false} Pigeonhole<T>(part: seq<T>, whole: seq<T>)
    requires Distinct(part) && Distinct(whole)
    requires forall x :: x in part ==> x in whole
    ensures |part| <= |whole|
  {
    if part != [] {
      var last := part[|part| - 1];
      assert last in whole;
      var i :| 0 <= i < |whole| && whole[i] == last;
      var rest := part[..|part| - 1];
      var others := whole[..i] + whole[i + 1..];
      forall x | x in rest ensures x in others {
        assert x in part && x in whole;
        var k :| 0 <= k < |whole| && whole[k] == x;
        assert x == others[if k < i then k else k - 1];
      }
      assert Distinct(others) by {
        assert forall k :: 0 <= k < |others| ==> others[k] == whole[if k < i then k else k + 1];
      }
      Pigeonhole(rest, others);
    }
  }
}
