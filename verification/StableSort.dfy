/** `slice::sort_by_key`: the stable sort that both packet receivers run before scanning. */
module StableSort {

  function InsertBy<T>(key: T -> nat, x: T, s: seq<T>): seq<T> {
    if s == [] || key(x) <= key(s[0]) then [x] + s
    else [s[0]] + InsertBy(key, x, s[1..])
  }

  function SortBy<T>(key: T -> nat, s: seq<T>): seq<T> {
    if s == [] then [] else InsertBy(key, s[0], SortBy(key, s[1..]))
  }

  ghost predicate Ascending<T>(key: T -> nat, s: seq<T>) {
    forall i, j :: 0 <= i < j < |s| ==> key(s[i]) <= key(s[j])
  }

  lemma {:induction false} InsertAdds<T>(key: T -> nat, x: T, s: seq<T>)
    ensures multiset(InsertBy(key, x, s)) == multiset(s) + multiset{x}
  {
    if s == [] || key(x) <= key(s[0]) {
    } else {
      InsertAdds(key, x, s[1..]);
      assert s == [s[0]] + s[1..];
    }
  }

  lemma {:induction false} InsertKeepsAscending<T>(key: T -> nat, x: T, s: seq<T>)
    requires Ascending(key, s)
    ensures Ascending(key, InsertBy(key, x, s))
  {
    if s == [] || key(x) <= key(s[0]) {
    } else {
      var tail := s[1..];
      InsertKeepsAscending(key, x, tail);
      InsertAdds(key, x, tail);
      var rest := InsertBy(key, x, tail);
      forall i | 0 <= i < |rest|
        ensures key(s[0]) <= key(rest[i])
      {
        assert rest[i] in multiset(rest);
        assert rest[i] in tail || rest[i] == x;
      }
    }
  }

  /** Sorting yields an ascending permutation. */
  lemma {:induction false} SortIsPermutation<T>(key: T -> nat, s: seq<T>)
    ensures Ascending(key, SortBy(key, s))
    ensures multiset(SortBy(key, s)) == multiset(s)
  {
    if s != [] {
      SortIsPermutation(key, s[1..]);
      InsertKeepsAscending(key, s[0], SortBy(key, s[1..]));
      InsertAdds(key, s[0], SortBy(key, s[1..]));
      assert s == [s[0]] + s[1..];
    }
  }

  /** An ascending sequence is left as it stands. */
  lemma {:induction false} SortOfAscending<T>(key: T -> nat, s: seq<T>)
    requires Ascending(key, s)
    ensures SortBy(key, s) == s
  {
    if s != [] {
      assert Ascending(key, s[1..]);
      SortOfAscending(key, s[1..]);
      assert s == [s[0]] + s[1..];
    }
  }
}
