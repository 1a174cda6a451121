/** The array operations the resolvers apply to the lists stored in a user record. */
module Lists {

  /** No element occurs twice. */
  predicate Distinct<T(==)>(s: seq<T>)
  {
    forall i, j :: 0 <= i < j < |s| ==> s[i] != s[j]
  }

  /** `Array.prototype.indexOf`: the position of the first occurrence of x, or -1. */
  function IndexOf<T(==)>(s: seq<T>, x: T): (i: int)
    ensures -1 <= i < |s|
    ensures i == -1 <==> x !in s
    ensures 0 <= i ==> s[i] == x && x !in s[..i]
  {
    if |s| == 0 then -1
    else if s[0] == x then 0
    else
      var j := IndexOf(s[1..], x);
      if j == -1 then -1 else j + 1
  }

  /** `s.splice(i, 1)`: s without the element at position i. */
  function RemoveAt<T>(s: seq<T>, i: nat): (r: seq<T>)
    requires i < |s|
    ensures |r| == |s| - 1
    ensures forall k :: 0 <= k < i ==> r[k] == s[k]
    ensures forall k :: i <= k < |r| ==> r[k] == s[k + 1]
    ensures multiset(r) + multiset{s[i]} == multiset(s)
  {
    assert s == s[..i] + [s[i]] + s[i + 1..];
    s[..i] + s[i + 1..]
  }

  /** MongoDB's `$addToSet` on an array field: append x unless it is already there. */
  function AddToSet<T(==)>(s: seq<T>, x: T): (r: seq<T>)
    ensures x in r
    ensures |s| <= |r| && r[..|s|] == s
    ensures |r| == if x in s then |s| else |s| + 1
    ensures Distinct(s) ==> Distinct(r)
  {
    if x in s then s else s + [x]
  }

  /** MongoDB's `$pull` with a plain value: remove every occurrence of x, keeping the order of the rest. */
  function Pull<T(==)>(s: seq<T>, x: T): (r: seq<T>)
    ensures multiset(r) == multiset(s)[x := 0]
    ensures x !in s ==> r == s
  {
    if |s| == 0 then []
    else
      assert s == [s[0]] + s[1..];
      if s[0] == x then Pull(s[1..], x) else [s[0]] + Pull(s[1..], x)
  }

  /** Adding an element that is already present changes nothing, so a second add is a no-op. */
  lemma AddToSetIdempotent<T>(s: seq<T>, x: T)
    ensures AddToSet(AddToSet(s, x), x) == AddToSet(s, x)
    ensures x in s ==> AddToSet(s, x) == s
  {
  }

  /** After a pull the value is gone, every other value keeps its membership, and a second pull is a no-op. */
  lemma PullRemovesOnly<T>(s: seq<T>, x: T)
    ensures x !in Pull(s, x)
    ensures forall y :: y != x ==> (y in Pull(s, x) <==> y in s)
    ensures Pull(Pull(s, x), x) == Pull(s, x)
  {
    var r := Pull(s, x);
    assert multiset(r)[x] == 0;
    forall y | y != x
      ensures y in r <==> y in s
    {
      assert multiset(r)[y] == multiset(s)[y];
    }
  }

  /** Pulling undoes adding an absent element. */
  lemma {:induction false} PullUndoesAdd<T>(s: seq<T>, x: T)
    requires x !in s
    ensures Pull(AddToSet(s, x), x) == s
  {
    PullAppend(s, [x], x);
    assert Pull([x], x) == [];
    assert s + [] == s;
  }

  /** Pull distributes over concatenation. */
  lemma {:induction false} PullAppend<T>(s: seq<T>, t: seq<T>, x: T)
    ensures Pull(s + t, x) == Pull(s, x) + Pull(t, x)
  {
    if |s| == 0 {
      assert s + t == t;
    } else {
      assert (s + t)[1..] == s[1..] + t;
      PullAppend(s[1..], t, x);
    }
  }

  /** In a duplicate-free list, splicing out one occurrence removes the element entirely. */
  lemma RemoveAtDistinct<T>(s: seq<T>, i: nat)
    requires Distinct(s) && i < |s|
    ensures s[i] !in RemoveAt(s, i)
    ensures Distinct(RemoveAt(s, i))
    ensures forall y :: y != s[i] ==> (y in RemoveAt(s, i) <==> y in s)
  {
    var r := RemoveAt(s, i);
    forall y | y != s[i]
      ensures y in r <==> y in s
    {
      assert multiset(r)[y] == multiset(s)[y];
    }
  }
}
