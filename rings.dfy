/** com.googlecode.excavator.Ring is not part of this model. The connection manager
    relies on the following contract, which is ASSUMED here rather than taken from
    that class:
    - `insert` appends to the end and enforces no uniqueness;
    - `ring()` fails on an empty ring, otherwise yields the element under the cursor
      (`Current`) and moves the cursor one step, wrapping after the last element
      (`Advance`);
    - the iterator walks the elements from the first to the last, and its `remove`
      deletes the element it has just yielded (`RemoveAt`), keeping the cursor on the
      same following element. */
module Rings {

  import opened Seqs

  datatype Ring<T> = Ring(elems: seq<T>, cursor: nat)

  function Empty<T>(): Ring<T>
  {
    Ring([], 0)
  }

  function Insert<T>(r: Ring<T>, x: T): Ring<T>
  {
    Ring(r.elems + [x], r.cursor)
  }

  predicate IsEmpty<T>(r: Ring<T>)
  {
    |r.elems| == 0
  }

  /** What `ring()` returns. */
  function Current<T>(r: Ring<T>): T
    requires !IsEmpty(r)
  {
    r.elems[r.cursor % |r.elems|]
  }

  /** The ring after `ring()`: same elements, cursor one step on. */
  function Advance<T>(r: Ring<T>): (r': Ring<T>)
    requires !IsEmpty(r)
    ensures r'.elems == r.elems && r'.cursor < |r.elems|
  {
    var c := r.cursor % |r.elems|;
    Ring(r.elems, if c + 1 < |r.elems| then c + 1 else 0)
  }

  /** The iterator's `remove` of the element at index `j`. */
  function RemoveAt<T>(r: Ring<T>, j: nat): (r': Ring<T>)
    requires j < |r.elems|
    ensures |r'.elems| == |r.elems| - 1
  {
    Ring(r.elems[..j] + r.elems[j + 1..], if j < r.cursor then r.cursor - 1 else r.cursor)
  }

  /** After removing index `j`, the elements from `j` on are those that followed it. */
  lemma RemoveAtSuffix<T>(r: Ring<T>, j: nat)
    requires j < |r.elems|
    ensures RemoveAt(r, j).elems[j..] == r.elems[j + 1..]
  {
    assert RemoveAt(r, j).elems[..j] == r.elems[..j];
  }

  /** An iteration from index `pos` to the end that removes every element `drop`
      selects, one `RemoveAt` at a time, as the manager's iterator loops do. */
  function RemoveWhere<T>(r: Ring<T>, drop: T -> bool, pos: nat): Ring<T>
    requires pos <= |r.elems|
    decreases |r.elems| - pos
  {
    if pos == |r.elems| then r
    else if drop(r.elems[pos]) then RemoveWhere(RemoveAt(r, pos), drop, pos)
    else RemoveWhere(r, drop, pos + 1)
  }

  /** Removing during the iteration leaves the untouched prefix and exactly the
      non-selected elements of the rest, in order. */
  lemma {:induction false} RemoveWhereElems<T>(r: Ring<T>, drop: T -> bool, pos: nat)
    requires pos <= |r.elems|
    ensures RemoveWhere(r, drop, pos).elems == r.elems[..pos] + Reject(r.elems[pos..], drop)
    decreases |r.elems| - pos
  {
    var s := r.elems;
    if pos < |s| {
      assert s[pos..][1..] == s[pos + 1..];
      if drop(s[pos]) {
        var r' := RemoveAt(r, pos);
        RemoveWhereElems(r', drop, pos);
        assert r'.elems[..pos] == s[..pos];
        assert r'.elems[pos..] == s[pos + 1..];
      } else {
        RemoveWhereElems(r, drop, pos + 1);
        assert s[..pos + 1] == s[..pos] + [s[pos]];
      }
    }
  }

  /** A whole-ring removal pass keeps exactly the non-selected elements, in order. */
  lemma RemoveWhereFromStart<T>(r: Ring<T>, drop: T -> bool)
    ensures RemoveWhere(r, drop, 0).elems == Reject(r.elems, drop)
  {
    RemoveWhereElems(r, drop, 0);
    assert r.elems[..0] == [] && r.elems[0..] == r.elems;
  }

  /** After a removal pass, no number of later `ring()` calls yields an element that
      was removed. */
  lemma RemovedNeverServed<T>(r: Ring<T>, drop: T -> bool, n: nat)
    requires !IsEmpty(RemoveWhere(r, drop, 0))
    ensures forall x :: x in Visits(RemoveWhere(r, drop, 0), n) ==> !drop(x)
  {
    var r' := RemoveWhere(r, drop, 0);
    RemoveWhereFromStart(r, drop);
    RejectMembers(r.elems, drop);
    VisitsWithin(r', n);
    forall x | x in Visits(r', n) ensures !drop(x) {
      assert x in Reject(r.elems, drop);
    }
  }

  /** The elements yielded by `n` consecutive `ring()` calls. */
  function Visits<T>(r: Ring<T>, n: nat): seq<T>
    requires !IsEmpty(r)
    decreases n
  {
    if n == 0 then [] else [Current(r)] + Visits(Advance(r), n - 1)
  }

  /** `ring()` only ever yields elements of the ring. */
  lemma {:induction false} VisitsWithin<T>(r: Ring<T>, n: nat)
    requires !IsEmpty(r)
    ensures forall x :: x in Visits(r, n) ==> x in r.elems
    decreases n
  {
    if n > 0 {
      VisitsWithin(Advance(r), n - 1);
    }
  }

  lemma ModSmall(x: nat, n: nat)
    requires x < n
    ensures x % n == x
  {
  }

  /** Only the cursor's position modulo the ring's length matters to `ring()`. */
  lemma Normalize<T>(r: Ring<T>, n: nat)
    requires !IsEmpty(r)
    ensures Visits(r, n) == Visits(Ring(r.elems, r.cursor % |r.elems|), n)
  {
    var c := r.cursor % |r.elems|;
    ModSmall(c, |r.elems|);
  }

  lemma {:induction false} VisitsAt<T>(r: Ring<T>, n: nat, i: nat)
    requires !IsEmpty(r) && r.cursor < |r.elems| && i < n && i < |r.elems|
    ensures |Visits(r, n)| == n
    ensures Visits(r, n)[i] == r.elems[if r.cursor + i < |r.elems| then r.cursor + i else r.cursor + i - |r.elems|]
    decreases n
  {
    VisitsLength(r, n);
    ModSmall(r.cursor, |r.elems|);
    if i > 0 {
      VisitsAt(Advance(r), n - 1, i - 1);
    }
  }

  lemma {:induction false} VisitsLength<T>(r: Ring<T>, n: nat)
    requires !IsEmpty(r)
    ensures |Visits(r, n)| == n
    decreases n
  {
    if n > 0 {
      VisitsLength(Advance(r), n - 1);
    }
  }

  /** From a normalised cursor, one round yields the ring rotated to the cursor. */
  lemma VisitsRound<T>(r: Ring<T>)
    requires !IsEmpty(r) && r.cursor < |r.elems|
    ensures Visits(r, |r.elems|) == r.elems[r.cursor..] + r.elems[..r.cursor]
  {
    var s, n, c := r.elems, |r.elems|, r.cursor;
    var v := Visits(r, n);
    var rotated := s[c..] + s[..c];
    VisitsLength(r, n);
    forall i | 0 <= i < n ensures v[i] == rotated[i] {
      VisitsAt(r, n, i);
      if c + i < n {
        assert rotated[i] == s[c..][i];
      } else {
        assert rotated[i] == s[..c][i - (n - c)];
      }
    }
  }

  /** Without interleaved mutation, one round of |elems| `ring()` calls yields every
      element exactly as often as it occurs in the ring. */
  lemma EveryElementOncePerRound<T>(r: Ring<T>)
    requires !IsEmpty(r)
    ensures multiset(Visits(r, |r.elems|)) == multiset(r.elems)
  {
    var s := r.elems;
    var c := r.cursor % |s|;
    Normalize(r, |s|);
    VisitsRound(Ring(s, c));
    calc {
      multiset(s[c..] + s[..c]);
      multiset(s[c..]) + multiset(s[..c]);
      multiset(s[..c] + s[c..]);
      { SplitAt(s, c); }
      multiset(s);
    }
  }

}
