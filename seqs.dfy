/** Sequence utilities shared by the ring and the wrapper registry. */
module Seqs {

  lemma SplitAt<T>(s: seq<T>, c: nat)
    requires c <= |s|
    ensures s[..c] + s[c..] == s
  {
  }

  /** Two equal suffixes stay equal when both lose their first element. */
  lemma SuffixStep<T>(a: seq<T>, i: nat, b: seq<T>, j: nat)
    requires i < |a| && j <= |b| && a[i..] == b[j..]
    ensures j < |b| && a[i] == b[j] && a[i + 1..] == b[j + 1..]
  {
    assert a[i..][0] == a[i] && b[j..][0] == b[j];
    assert a[i + 1..] == a[i..][1..] && b[j + 1..] == b[j..][1..];
  }

  /** Extending a prefix by one element. */
  lemma PrefixStep<T>(s: seq<T>, k: nat)
    requires k < |s|
    ensures s[..k + 1] == s[..k] + [s[k]] && s[..k + 1][..k] == s[..k]
  {
  }

  /** The elements of `s` that `drop` does not select, in their original order. */
  function Reject<T(==)>(s: seq<T>, drop: T -> bool): (r: seq<T>)
    ensures |r| <= |s|
  {
    if s == [] then []
    else (if drop(s[0]) then [] else [s[0]]) + Reject(s[1..], drop)
  }

  /** Selects exactly `w`. */
  function Same<T(==)>(w: T): T -> bool
  {
    x => x == w
  }

  /** Selects the members of `g`. */
  function InSet<T(==)>(g: set<T>): T -> bool
  {
    x => x in g
  }

  ghost predicate NoDuplicates<T>(s: seq<T>)
  {
    forall i, j :: 0 <= i < j < |s| ==> s[i] != s[j]
  }

  /** `a` can be obtained from `b` by deleting elements (matched greedily from the left). */
  ghost predicate IsSubsequence<T>(a: seq<T>, b: seq<T>)
    decreases |b|
  {
    a == [] || (b != [] && if a[0] == b[0] then IsSubsequence(a[1..], b[1..]) else IsSubsequence(a, b[1..]))
  }

  /** A value survives Reject exactly when it occurs in `s` and `drop` does not select it. */
  lemma {:induction false} RejectMembers<T>(s: seq<T>, drop: T -> bool)
    ensures forall y :: y in Reject(s, drop) <==> y in s && !drop(y)
  {
    if s != [] {
      RejectMembers(s[1..], drop);
      assert s == [s[0]] + s[1..];
    }
  }

  /** Reject removes every occurrence of a dropped value and no occurrence of any other. */
  lemma {:induction false} RejectCount<T>(s: seq<T>, drop: T -> bool, y: T)
    ensures multiset(Reject(s, drop))[y] == if drop(y) then 0 else multiset(s)[y]
  {
    if s != [] {
      RejectCount(s[1..], drop, y);
      assert s == [s[0]] + s[1..];
    }
  }

  /** Reject keeps the relative order of what it keeps. */
  lemma {:induction false} RejectIsSubsequence<T>(s: seq<T>, drop: T -> bool)
    ensures IsSubsequence(Reject(s, drop), s)
  {
    if s != [] {
      var r := Reject(s, drop);
      RejectIsSubsequence(s[1..], drop);
      if drop(s[0]) {
        assert r == Reject(s[1..], drop);
        RejectMembers(s[1..], drop);
        if r != [] {
          assert r[0] in r;
        }
      } else {
        assert r[0] == s[0] && r[1..] == Reject(s[1..], drop);
      }
    }
  }

  lemma {:induction false} RejectNoDuplicates<T>(s: seq<T>, drop: T -> bool)
    requires NoDuplicates(s)
    ensures NoDuplicates(Reject(s, drop))
  {
    if s != [] {
      RejectNoDuplicates(s[1..], drop);
      var r := Reject(s, drop);
      var tail := Reject(s[1..], drop);
      if !drop(s[0]) {
        assert s[0] !in s[1..] by {
          forall j | 0 <= j < |s[1..]| ensures s[1..][j] != s[0] {
            assert s[1..][j] == s[j + 1];
          }
        }
        RejectMembers(s[1..], drop);
        assert s[0] !in tail;
        forall i, j | 0 <= i < j < |r| ensures r[i] != r[j] {
          if i == 0 {
            assert r[j] == tail[j - 1];
            assert tail[j - 1] in tail;
          } else {
            assert r[i] == tail[i - 1] && r[j] == tail[j - 1];
          }
        }
      }
    }
  }

  /** Removing the members of the empty set removes nothing. */
  lemma {:induction false} RejectNone<T>(s: seq<T>)
    ensures Reject(s, InSet({})) == s
  {
    if s != [] {
      RejectNone(s[1..]);
    }
  }

  /** Removing the members of `a` and then `w` is removing the members of `a + {w}`. */
  lemma {:induction false} RejectTwice<T>(s: seq<T>, a: set<T>, w: T)
    ensures Reject(Reject(s, InSet(a)), Same(w)) == Reject(s, InSet(a + {w}))
  {
    if s != [] {
      RejectTwice(s[1..], a, w);
      var once := Reject(s, InSet(a));
      if s[0] !in a {
        assert once == [s[0]] + Reject(s[1..], InSet(a));
        assert once[0] == s[0] && once[1..] == Reject(s[1..], InSet(a));
      } else {
        assert once == Reject(s[1..], InSet(a));
      }
    }
  }

}
