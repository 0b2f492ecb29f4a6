/** The two collection helpers the scene graph leans on: `find`, the index of the
    first equal element, and `Array.remove(_:)`, which deletes that element. */
module ArrayExt {
  import opened Wrappers

  /** `find(_:)`: the least index holding `x`, or nothing when `x` does not occur. */
  function Find<T(==)>(s: seq<T>, x: T): (r: Option<nat>)
    ensures r.None? <==> x !in s
    ensures r.Some? ==> r.value < |s| && s[r.value] == x && x !in s[..r.value]
  {
    if s == [] then None
    else if s[0] == x then Some(0)
    else
      var rest := Find(s[1..], x);
      if rest.None? then None
      else
        assert s[..rest.value + 1] == [s[0]] + s[1..][..rest.value];
        Some(rest.value + 1)
  }

  /** `find(_:)` as the enumerating loop the source runs. */
  method FindLoop<T(==)>(s: seq<T>, x: T) returns (r: Option<nat>)
    ensures r == Find(s, x)
  {
    var i := 0;
    while i < |s|
      invariant 0 <= i <= |s|
      invariant x !in s[..i]
    {
      if s[i] == x {
        FindUnique(s, x, i);
        return Some(i);
      }
      assert s[..i + 1] == s[..i] + [s[i]];
      i := i + 1;
    }
    assert s[..i] == s;
    return None;
  }

  /** The first occurrence is unique: any index holding `x` with no `x` before it is
      the one `Find` reports. */
  lemma FindUnique<T>(s: seq<T>, x: T, i: nat)
    requires i < |s| && s[i] == x && x !in s[..i]
    ensures Find(s, x) == Some(i)
  {
    var r := Find(s, x);
    assert r.Some? by { assert x in s; }
    assert forall k :: 0 <= k < r.value ==> s[..r.value][k] == s[k];
    assert forall k :: 0 <= k < i ==> s[..i][k] == s[k];
  }

  /** `Array.remove(_:)`: deletes the first occurrence of `x` and hands it back; an
      absent `x` leaves the array as it was. */
  function Remove<T(==)>(s: seq<T>, x: T): (r: (Option<T>, seq<T>))
    ensures r.0.None? <==> x !in s
    ensures r.0.None? ==> r.1 == s
    ensures r.0.Some? ==>
              && r.0.value == x
              && var i := Find(s, x).value;
                 r.1 == s[..i] + s[i + 1..]
  {
    match Find(s, x)
    case None => (None, s)
    case Some(i) => (Some(s[i]), s[..i] + s[i + 1..])
  }

  /** Removal takes out exactly one copy of `x`, keeps every other element and their
      order, and the result holds one `x` fewer. */
  lemma RemoveDropsOne<T>(s: seq<T>, x: T)
    requires x in s
    ensures multiset(Remove(s, x).1) + multiset{x} == multiset(s)
    ensures |Remove(s, x).1| == |s| - 1
    ensures multiset(Remove(s, x).1)[x] == multiset(s)[x] - 1
  {
    var i := Find(s, x).value;
    assert s == s[..i] + [s[i]] + s[i + 1..];
    calc {
      multiset(s);
      multiset(s[..i] + [s[i]] + s[i + 1..]);
      multiset(s[..i]) + multiset{x} + multiset(s[i + 1..]);
      multiset(Remove(s, x).1) + multiset{x};
    }
  }

  /** Elements before the first `x` keep their place; those after it move one down. */
  lemma RemoveShifts<T>(s: seq<T>, x: T, j: nat)
    requires x in s && j < |s| - 1
    ensures var i := Find(s, x).value;
            Remove(s, x).1[j] == (if j < i then s[j] else s[j + 1])
  {
  }

  /** Concatenation is associative. */
  lemma ConcatAssoc<T>(x: seq<T>, p: seq<T>, q: seq<T>)
    ensures x + (p + q) == (x + p) + q
  {
  }

  /** Slicing a concatenation past its first part. */
  lemma SliceConcat<T>(s: seq<T>, t: seq<T>, i: nat)
    requires i <= |t|
    ensures (s + t)[..|s| + i] == s + t[..i]
    ensures (s + t)[|s| + i..] == t[i..]
  {
  }

  /** Past the head, `[x] + s` reads `s` one place back. */
  lemma ConsIndex<T>(x: T, s: seq<T>, j: nat)
    requires 0 < j <= |s|
    ensures ([x] + s)[j] == s[j - 1]
  {
  }
}
