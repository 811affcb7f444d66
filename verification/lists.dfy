/** The two operations of `java.util.List` that the entities use on their id
    lists: `contains` followed by `add`, and `remove(Object)`. */
module Lists {

  predicate NoDup<T(==)>(s: seq<T>)
  {
    forall i, j :: 0 <= i < j < |s| ==> s[i] != s[j]
  }

  /** `list.remove(x)`: drops the first element equal to `x`, if any. */
  function RemoveFirst<T(==)>(s: seq<T>, x: T): (r: seq<T>)
  {
    if |s| == 0 then []
    else if s[0] == x then s[1..]
    else [s[0]] + RemoveFirst(s[1..], x)
  }

  /** The index of the first occurrence of `x` in `s`. */
  function FirstIndex<T(==)>(s: seq<T>, x: T): (i: nat)
    requires x in s
    ensures i < |s| && s[i] == x && x !in s[..i]
  {
    if s[0] == x then 0 else 1 + FirstIndex(s[1..], x)
  }

  /** Removing an absent element changes nothing; otherwise the first
      occurrence is cut out and the rest keeps its order. */
  lemma {:induction false} RemoveFirstShape<T>(s: seq<T>, x: T)
    ensures x !in s ==> RemoveFirst(s, x) == s
    ensures x in s ==> RemoveFirst(s, x) == s[..FirstIndex(s, x)] + s[FirstIndex(s, x) + 1..]
  {
    if |s| > 0 && s[0] != x {
      RemoveFirstShape(s[1..], x);
      if x in s {
        assert s[1..][..FirstIndex(s[1..], x)] == s[1..FirstIndex(s, x)];
        assert s[1..][FirstIndex(s[1..], x) + 1..] == s[FirstIndex(s, x) + 1..];
        assert [s[0]] + s[1..FirstIndex(s, x)] == s[..FirstIndex(s, x)];
      } else {
        assert [s[0]] + s[1..] == s;
      }
    }
  }

  /** As a bag, removal takes away exactly one copy of `x`, if there was one. */
  lemma {:induction false} RemoveFirstMultiset<T>(s: seq<T>, x: T)
    ensures multiset(RemoveFirst(s, x)) == multiset(s) - multiset{x}
  {
    if |s| > 0 {
      assert s == [s[0]] + s[1..];
      if s[0] != x {
        RemoveFirstMultiset(s[1..], x);
      }
    }
  }

  /** On a duplicate-free list, removal keeps it duplicate-free and leaves
      `x` absent. */
  lemma {:induction false} RemoveFirstNoDup<T>(s: seq<T>, x: T)
    requires NoDup(s)
    ensures NoDup(RemoveFirst(s, x)) && x !in RemoveFirst(s, x)
  {
    if |s| > 0 {
      var tail := s[1..];
      assert NoDup(tail);
      if s[0] == x {
        assert x !in tail;
      } else {
        RemoveFirstNoDup(tail, x);
        RemoveFirstMultiset(tail, x);
        var rest := RemoveFirst(tail, x);
        assert s[0] !in multiset(rest);
        assert RemoveFirst(s, x) == [s[0]] + rest;
      }
    }
  }

  /** Appending an absent element keeps a list duplicate-free. */
  lemma AppendNoDup<T>(s: seq<T>, x: T)
    requires NoDup(s) && x !in s
    ensures NoDup(s + [x])
  {
  }
}
