/** The search filter of the listing screen: a user is kept when the
    lower-cased query occurs in the lower-cased full name, email or
    username. The filter keeps the batch's order. */
module Search {
  import opened Text
  import opened Users

  /** `xs.filter(keep)`: the elements satisfying `keep`, in their original
      order, each as many times as it occurs in `xs`. */
  function Select<T(!new)>(xs: seq<T>, keep: T -> bool): (r: seq<T>)
    ensures |r| <= |xs|
    ensures forall x :: x in r ==> x in xs && keep(x)
    ensures forall x :: x in xs && keep(x) ==> x in r
  {
    if xs == [] then
      []
    else
      var rest := Select(xs[1..], keep);
      if keep(xs[0]) then [xs[0]] + rest else rest
  }

  /** The positions of `xs` that `Select` keeps, in increasing order: the
      selection is `xs` read at these positions, so it is an
      order-preserving subsequence of `xs`. */
  function SelectedPositions<T(!new)>(xs: seq<T>, keep: T -> bool): (idx: seq<nat>)
    ensures |idx| == |Select(xs, keep)|
    ensures forall k :: 0 <= k < |idx| ==> idx[k] < |xs| && Select(xs, keep)[k] == xs[idx[k]]
    ensures forall k, l :: 0 <= k < l < |idx| ==> idx[k] < idx[l]
  {
    if xs == [] then
      []
    else
      var n := |xs| - 1;
      var init := xs[..n];
      var prior := SelectedPositions(init, keep);
      assert init + [xs[n]] == xs;
      SelectAppend(init, [xs[n]], keep);
      assert forall i :: 0 <= i < n ==> init[i] == xs[i];
      if keep(xs[n]) then prior + [n] else prior
  }

  /** Selection neither drops nor duplicates a kept element: each kept
      value occurs as often as in the input, every other value not at all. */
  lemma {:induction false} SelectCounts<T(!new)>(xs: seq<T>, keep: T -> bool)
    ensures forall x :: multiset(Select(xs, keep))[x] == if keep(x) then multiset(xs)[x] else 0
  {
    if xs != [] {
      assert xs == [xs[0]] + xs[1..];
      SelectCounts(xs[1..], keep);
    }
  }

  /** A selection that keeps every element returns the sequence itself. */
  lemma {:induction false} SelectAll<T(!new)>(xs: seq<T>, keep: T -> bool)
    requires forall x :: x in xs ==> keep(x)
    ensures Select(xs, keep) == xs
  {
    if xs != [] {
      SelectAll(xs[1..], keep);
    }
  }

  /** Selection distributes over concatenation. */
  lemma {:induction false} SelectAppend<T(!new)>(a: seq<T>, b: seq<T>, keep: T -> bool)
    ensures Select(a + b, keep) == Select(a, keep) + Select(b, keep)
  {
    if a == [] {
      assert a + b == b;
    } else {
      assert (a + b)[0] == a[0];
      assert (a + b)[1..] == a[1..] + b;
      SelectAppend(a[1..], b, keep);
    }
  }

  /** Selecting by a stronger test from a selection by a weaker one is the
      same as selecting by the stronger test directly. */
  lemma {:induction false} SelectNarrower<T(!new)>(xs: seq<T>, wide: T -> bool, narrow: T -> bool)
    requires forall x :: narrow(x) ==> wide(x)
    ensures Select(Select(xs, wide), narrow) == Select(xs, narrow)
  {
    if xs != [] {
      SelectNarrower(xs[1..], wide, narrow);
    }
  }

  /** The per-user test of the filter callback. */
  predicate Matches(u: User, query: string) {
    var q := Lower(query);
    Includes(Lower(FullName(u)), q) || Includes(Lower(u.email), q) || Includes(Lower(u.username), q)
  }

  /** The full name is matched as the lower-cased first name, a space and
      the lower-cased last name. */
  lemma MatchesFieldwise(u: User, query: string)
    ensures Matches(u, query) <==>
      || Includes(Lower(u.first) + " " + Lower(u.last), Lower(query))
      || Includes(Lower(u.email), Lower(query))
      || Includes(Lower(u.username), Lower(query))
  {
    LowerAppend(u.first + " ", u.last);
    LowerAppend(u.first, " ");
    assert Lower(" ") == " ";
  }

  /** The filter callback for a fixed query. */
  function MatchesQuery(query: string): User -> bool {
    u => Matches(u, query)
  }

  /** The filtered list of the listing screen. */
  function Filter(users: seq<User>, query: string): (r: seq<User>)
    ensures |r| <= |users|
    ensures forall u :: u in r ==> u in users && Matches(u, query)
    ensures forall u :: u in users && Matches(u, query) ==> u in r
    ensures forall u :: multiset(r)[u] == if Matches(u, query) then multiset(users)[u] else 0
  {
    SelectCounts(users, MatchesQuery(query));
    Select(users, MatchesQuery(query))
  }

  /** The filtered list is the batch read at increasing positions: it is
      an order-preserving subsequence of the batch. */
  lemma FilterIsSubsequence(users: seq<User>, query: string)
    ensures exists idx: seq<nat> ::
      && |idx| == |Filter(users, query)|
      && (forall k :: 0 <= k < |idx| ==> idx[k] < |users| && Filter(users, query)[k] == users[idx[k]])
      && (forall k, l :: 0 <= k < l < |idx| ==> idx[k] < idx[l])
  {
    var idx := SelectedPositions(users, MatchesQuery(query));
  }

  /** An empty search keeps the whole batch. */
  lemma EmptyQueryKeepsAll(users: seq<User>)
    ensures Filter(users, "") == users
  {
    forall u | u in users
      ensures Matches(u, "")
    {
      IncludesEmpty(Lower(FullName(u)));
    }
    SelectAll(users, MatchesQuery(""));
  }

  /** Filtering distributes over concatenation of batches. */
  lemma FilterAppend(a: seq<User>, b: seq<User>, query: string)
    ensures Filter(a + b, query) == Filter(a, query) + Filter(b, query)
  {
    SelectAppend(a, b, MatchesQuery(query));
  }

  /** Filtering twice with the same query changes nothing. */
  lemma FilterIdempotent(users: seq<User>, query: string)
    ensures Filter(Filter(users, query), query) == Filter(users, query)
  {
    SelectNarrower(users, MatchesQuery(query), MatchesQuery(query));
  }

  /** When the lower-cased `narrow` query contains the lower-cased `wide`
      query, every user that matches `narrow` also matches `wide`. */
  lemma NarrowerQueryMatchesWider(u: User, wide: string, narrow: string)
    requires Includes(Lower(narrow), Lower(wide))
    requires Matches(u, narrow)
    ensures Matches(u, wide)
  {
    var n, w := Lower(narrow), Lower(wide);
    if Includes(Lower(FullName(u)), n) {
      IncludesTransitive(Lower(FullName(u)), n, w);
    } else if Includes(Lower(u.email), n) {
      IncludesTransitive(Lower(u.email), n, w);
    } else {
      IncludesTransitive(Lower(u.username), n, w);
    }
  }

  /** Typing more of a query only narrows the result: filtering the wider
      result by the narrower query gives the same list as filtering the
      whole batch by the narrower query. */
  lemma NarrowingRefilters(users: seq<User>, wide: string, narrow: string)
    requires Includes(Lower(narrow), Lower(wide))
    ensures Filter(Filter(users, wide), narrow) == Filter(users, narrow)
  {
    forall u | Matches(u, narrow)
      ensures Matches(u, wide)
    {
      NarrowerQueryMatchesWider(u, wide, narrow);
    }
    SelectNarrower(users, MatchesQuery(wide), MatchesQuery(narrow));
  }
}
