/** The case records and the search filter of `filterAndRender` (script.js):
    a case is kept when the lower-cased query occurs in its lower-cased
    company, description or comma-joined tags; kept cases stay in store order. */
module Cases {
  import opened Text

  /** One reported case, with the field names of the data file. */
  datatype Case = Case(
    company: string,
    description: string,
    sourceUrl: string,
    manipulationType: seq<string>,
    reportedDate: string)

  /** The test inside `allCases.filter(...)`. */
  predicate Matches(c: Case, query: string)
  {
    var lowered := ToLower(query);
    || Includes(ToLower(c.company), lowered)
    || Includes(ToLower(c.description), lowered)
    || Includes(ToLower(Join(c.manipulationType, ",")), lowered)
  }

  /** The cases of `cases` that match `query`, in their original order. */
  function Filter(query: string, cases: seq<Case>): (r: seq<Case>)
    ensures |r| <= |cases|
    ensures forall c :: c in r ==> c in cases && Matches(c, query)
    decreases |cases|
  {
    if cases == [] then []
    else (if Matches(cases[0], query) then [cases[0]] else []) + Filter(query, cases[1..])
  }

  /** `a` is `b` with some elements left out and the rest in the same order. */
  predicate IsSubsequence<T(==)>(a: seq<T>, b: seq<T>)
    decreases |b|
  {
    || a == []
    || (b != [] && ((a[0] == b[0] && IsSubsequence(a[1..], b[1..])) || IsSubsequence(a, b[1..])))
  }

  /** The filter result is an order-preserving subsequence of the store. */
  lemma {:induction false} FilterIsSubsequence(query: string, cases: seq<Case>)
    ensures IsSubsequence(Filter(query, cases), cases)
    decreases |cases|
  {
    if cases != [] {
      FilterIsSubsequence(query, cases[1..]);
      var r := Filter(query, cases);
      if Matches(cases[0], query) {
        assert r == [cases[0]] + Filter(query, cases[1..]);
        assert r[0] == cases[0] && r[1..] == Filter(query, cases[1..]);
      } else {
        assert r == Filter(query, cases[1..]);
      }
    }
  }

  /** A case is in the result exactly when it is in the store and the
      lower-cased query occurs in its lower-cased company, its lower-cased
      description or its lower-cased comma-joined tags. */
  lemma {:induction false} FilterMembership(query: string, cases: seq<Case>, c: Case)
    ensures c in Filter(query, cases) <==>
      && c in cases
      && (|| Includes(ToLower(c.company), ToLower(query))
          || Includes(ToLower(c.description), ToLower(query))
          || Includes(ToLower(Join(c.manipulationType, ",")), ToLower(query)))
    decreases |cases|
  {
    if cases != [] {
      FilterMembership(query, cases[1..], c);
      assert c in cases <==> c == cases[0] || c in cases[1..];
    }
  }

  /** Every copy of a matching case is kept, and no copy of another. */
  lemma {:induction false} FilterCounts(query: string, cases: seq<Case>, c: Case)
    ensures multiset(Filter(query, cases))[c]
         == if Matches(c, query) then multiset(cases)[c] else 0
    decreases |cases|
  {
    if cases != [] {
      FilterCounts(query, cases[1..], c);
      assert cases == [cases[0]] + cases[1..];
    }
  }

  /** A query that every case matches keeps the whole store. */
  lemma {:induction false} FilterKeepsAll(query: string, cases: seq<Case>)
    requires forall k :: 0 <= k < |cases| ==> Matches(cases[k], query)
    ensures Filter(query, cases) == cases
    decreases |cases|
  {
    if cases != [] {
      FilterKeepsAll(query, cases[1..]);
      assert [cases[0]] + cases[1..] == cases;
    }
  }

  /** The empty query keeps every case: the result is the whole store. */
  lemma FilterEmptyQuery(cases: seq<Case>)
    ensures Filter("", cases) == cases
  {
    forall k | 0 <= k < |cases|
      ensures Matches(cases[k], "")
    {
      IncludesEmpty(ToLower(cases[k].company));
    }
    FilterKeepsAll("", cases);
  }

  /** Queries with the same lower-cased form select the same cases. */
  lemma {:induction false} FilterCaseVariants(q1: string, q2: string, cases: seq<Case>)
    requires ToLower(q1) == ToLower(q2)
    ensures Filter(q1, cases) == Filter(q2, cases)
    decreases |cases|
  {
    if cases != [] {
      FilterCaseVariants(q1, q2, cases[1..]);
      assert Matches(cases[0], q1) == Matches(cases[0], q2);
    }
  }

  /** Filtering with the upper-cased query gives the same result. */
  lemma FilterUpperQuery(query: string, cases: seq<Case>)
    ensures Filter(ToUpper(query), cases) == Filter(query, cases)
  {
    ToLowerOfUpper(query);
    FilterCaseVariants(ToUpper(query), query, cases);
  }

  /** Filtering a result again with the same query changes nothing. */
  lemma {:induction false} FilterIdempotent(query: string, cases: seq<Case>)
    ensures Filter(query, Filter(query, cases)) == Filter(query, cases)
  {
    FilterKeepsAll(query, Filter(query, cases));
  }

  /** A case put in front of the store is shown first exactly when it matches;
      the rest of the result is that of the old store. */
  lemma FilterPrepend(query: string, c: Case, cases: seq<Case>)
    ensures Filter(query, [c] + cases)
         == (if Matches(c, query) then [c] else []) + Filter(query, cases)
  {
    assert ([c] + cases)[0] == c && ([c] + cases)[1..] == cases;
  }
}
