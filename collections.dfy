/**
 * The mutable, reference-typed `List<T>` of .NET, as far as the server uses
 * it for a player's (and a profession's) assets and liabilities. Two holders
 * of the same `List` object see each other's additions and removals.
 */
module Collections {

  /** Index of the first element equal to `x`, or `|s|` when there is none. */
  function IndexOf<T(==)>(s: seq<T>, x: T): (i: nat)
    ensures i <= |s|
    ensures i < |s| ==> s[i] == x
    ensures forall k :: 0 <= k < i ==> s[k] != x
    ensures i == |s| <==> x !in s
  {
    if |s| == 0 then 0
    else if s[0] == x then 0
    else 1 + IndexOf(s[1..], x)
  }

  /** Appending an element does not move the first occurrence of anything already present. */
  lemma {:induction false} IndexOfAppend<T>(s: seq<T>, x: T, y: T)
    ensures IndexOf(s + [x], y) == if y in s then IndexOf(s, y) else if x == y then |s| else |s| + 1
  {
    if |s| > 0 && s[0] != y {
      assert (s + [x])[1..] == s[1..] + [x];
      IndexOfAppend(s[1..], x, y);
    }
  }

  /** Dropping an element other than `y` moves the first occurrence of `y` one place left if it came later. */
  lemma {:induction false} IndexOfRemove<T>(s: seq<T>, k: nat, y: T)
    requires k < |s| && s[k] != y
    ensures IndexOf(s[..k] + s[k + 1..], y) == if IndexOf(s, y) < k then IndexOf(s, y) else IndexOf(s, y) - 1
  {
    var rest := s[..k] + s[k + 1..];
    if k == 0 {
      assert rest == s[1..];
    } else if s[0] != y {
      assert s[..k] == [s[0]] + s[1..k];
      assert rest[1..] == s[1..k] + s[k + 1..];
      assert s[1..][..k - 1] == s[1..k] && s[1..][k..] == s[k + 1..];
      IndexOfRemove(s[1..], k - 1, y);
    }
  }

  class List<T(==)> {
    var Items: seq<T>

    constructor ()
      ensures Items == []
    {
      Items := [];
    }

    /** A list built by a collection initializer. */
    constructor Of(items: seq<T>)
      ensures Items == items
    {
      Items := items;
    }

    /** `List.Add`: appends at the end. */
    method Add(x: T)
      modifies this
      ensures Items == old(Items) + [x]
    {
      Items := Items + [x];
    }

    /** `List.Remove`: removes the first element equal to `x`, if any. */
    method Remove(x: T) returns (removed: bool)
      modifies this
      ensures removed <==> x in old(Items)
      ensures var i := IndexOf(old(Items), x);
              Items == if removed then old(Items)[..i] + old(Items)[i + 1..] else old(Items)
    {
      var i := IndexOf(Items, x);
      removed := i < |Items|;
      if removed {
        Items := Items[..i] + Items[i + 1..];
      }
    }
  }
}
