/** Order-preserving selection from a sequence (a Python loop that appends the elements that pass a test). */
module Seqs {
  function Filter<T>(p: T -> bool, s: seq<T>): (r: seq<T>)
    ensures |r| <= |s|
    decreases |s|
  {
    if s == [] then [] else (if p(s[0]) then [s[0]] else []) + Filter(p, s[1..])
  }

  /** Selecting from a concatenation concatenates the selections: the original order is kept. */
  lemma {:induction false} FilterConcat<T>(p: T -> bool, a: seq<T>, b: seq<T>)
    ensures Filter(p, a + b) == Filter(p, a) + Filter(p, b)
    decreases |a|
  {
    if a == [] {
      assert a + b == b;
    } else {
      var head := if p(a[0]) then [a[0]] else [];
      assert (a + b)[0] == a[0];
      assert (a + b)[1..] == a[1..] + b;
      FilterConcat(p, a[1..], b);
      assert Filter(p, a + b) == head + (Filter(p, a[1..]) + Filter(p, b));
      assert Filter(p, a) == head + Filter(p, a[1..]);
    }
  }

  /** Selecting from one more element of a prefix appends that element when it passes the test. */
  lemma FilterSnoc<T>(p: T -> bool, s: seq<T>, i: nat)
    requires i < |s|
    ensures Filter(p, s[..i + 1]) == Filter(p, s[..i]) + (if p(s[i]) then [s[i]] else [])
  {
    assert s[..i + 1] == s[..i] + [s[i]];
    FilterConcat(p, s[..i], [s[i]]);
    assert [s[i]][1..] == [];
  }

  /** An element is selected exactly when it is in the input and passes the test. */
  lemma {:induction false} FilterMembers<T>(p: T -> bool, s: seq<T>)
    ensures forall x :: x in Filter(p, s) <==> x in s && p(x)
    decreases |s|
  {
    if s != [] {
      FilterMembers(p, s[1..]);
      assert s == [s[0]] + s[1..];
    }
  }

  /** The first selected element is the first element of the input that passes the test. */
  lemma {:induction false} FilterFirst<T>(p: T -> bool, s: seq<T>)
    requires Filter(p, s) != []
    ensures exists j ::
      0 <= j < |s| && p(s[j]) && Filter(p, s)[0] == s[j] &&
      (forall k :: 0 <= k < j ==> !p(s[k]))
    decreases |s|
  {
    if !p(s[0]) {
      FilterFirst(p, s[1..]);
      var j :| 0 <= j < |s| - 1 && p(s[1..][j]) && Filter(p, s[1..])[0] == s[1..][j] &&
        (forall k :: 0 <= k < j ==> !p(s[1..][k]));
      assert forall k :: 0 < k < j + 1 ==> s[k] == s[1..][k - 1];
      assert p(s[j + 1]) && Filter(p, s)[0] == s[j + 1];
    } else {
      assert p(s[0]) && Filter(p, s)[0] == s[0];
    }
  }

  /** Extending a prefix by one element. */
  lemma PrefixStep<T>(s: seq<T>, i: nat)
    requires i < |s|
    ensures s[..i + 1] == s[..i] + [s[i]]
  {
  }
}
