/**
 * Job-offer records and the keyword filter of the job viewer
 * (the list comprehension of `apply_filter`).
 */
module Jobs {
  import opened Text

  /** One job offer as loaded from JSON: field name to string value. */
  type Record = map<string, string>

  const TitleKey := "JobOfferTitle"
  const CompanyKey := "CompanyName"
  const DescriptionKey := "Description"
  const SalaryKey := "SalaryOrBudgetOffered"

  /** `job.get(key, '')`: a missing field reads as the empty string. */
  function Field(job: Record, key: string): string
  {
    if key in job then job[key] else ""
  }

  /**
   * A record matches the (already lower-cased) search text when the text
   * occurs in the lower-cased title, company, description or salary.
   */
  predicate Matches(job: Record, searchText: string) {
    || Contains(Lower(Field(job, TitleKey)), searchText)
    || Contains(Lower(Field(job, CompanyKey)), searchText)
    || Contains(Lower(Field(job, DescriptionKey)), searchText)
    || Contains(Lower(Field(job, SalaryKey)), searchText)
  }

  /** The records that match, in their original order. */
  function Filter(jobs: seq<Record>, searchText: string): (r: seq<Record>)
    ensures |r| <= |jobs|
    ensures forall k :: 0 <= k < |r| ==> Matches(r[k], searchText)
  {
    if jobs == [] then []
    else if Matches(jobs[0], searchText) then [jobs[0]] + Filter(jobs[1..], searchText)
    else Filter(jobs[1..], searchText)
  }

  /** `r` is `s` with some elements dropped, the rest kept in order. */
  ghost predicate Subsequence<T>(r: seq<T>, s: seq<T>)
    decreases |s|
  {
    if r == [] then true
    else if s == [] then false
    else (r[0] == s[0] && Subsequence(r[1..], s[1..])) || Subsequence(r, s[1..])
  }

  /** `r` holds every occurrence of each matching record of `s` and nothing else. */
  ghost predicate KeepsExactlyMatching(r: seq<Record>, s: seq<Record>, searchText: string) {
    forall x :: multiset(r)[x] == if Matches(x, searchText) then multiset(s)[x] else 0
  }

  lemma {:induction false} SubsequenceReflexive<T>(s: seq<T>)
    ensures Subsequence(s, s)
    decreases |s|
  {
    if s != [] {
      SubsequenceReflexive(s[1..]);
    }
  }

  /** A subsequence never holds more copies of an element than the sequence. */
  lemma {:induction false} SubsequenceMultiset<T>(r: seq<T>, s: seq<T>)
    requires Subsequence(r, s)
    ensures multiset(r) <= multiset(s)
    decreases |s|
  {
    if r == [] {
    } else if r[0] == s[0] && Subsequence(r[1..], s[1..]) {
      SubsequenceMultiset(r[1..], s[1..]);
      assert r == [r[0]] + r[1..];
      assert s == [s[0]] + s[1..];
    } else {
      SubsequenceMultiset(r, s[1..]);
      assert s == [s[0]] + s[1..];
    }
  }

  /** A record is kept exactly when it is one of the loaded records and matches. */
  lemma {:induction false} FilterMembership(jobs: seq<Record>, searchText: string, x: Record)
    ensures x in Filter(jobs, searchText) <==> x in jobs && Matches(x, searchText)
    decreases |jobs|
  {
    if jobs != [] {
      FilterMembership(jobs[1..], searchText, x);
      assert jobs == [jobs[0]] + jobs[1..];
    }
  }

  /** The filter result is an order-preserving subsequence of the records. */
  lemma {:induction false} FilterIsSubsequence(jobs: seq<Record>, searchText: string)
    ensures Subsequence(Filter(jobs, searchText), jobs)
    decreases |jobs|
  {
    if jobs != [] {
      FilterIsSubsequence(jobs[1..], searchText);
      var r := Filter(jobs, searchText);
      if Matches(jobs[0], searchText) {
        assert r[0] == jobs[0] && r[1..] == Filter(jobs[1..], searchText);
      }
    }
  }

  /** The filter keeps every copy of each matching record and no other record. */
  lemma {:induction false} FilterKeepsExactlyMatching(jobs: seq<Record>, searchText: string)
    ensures KeepsExactlyMatching(Filter(jobs, searchText), jobs, searchText)
    decreases |jobs|
  {
    if jobs != [] {
      FilterKeepsExactlyMatching(jobs[1..], searchText);
      assert jobs == [jobs[0]] + jobs[1..];
    }
  }

  /**
   * The two properties above pin the filter down: any subsequence of the
   * records that keeps exactly the matching ones is the filter result.
   */
  lemma {:induction false} FilterUnique(jobs: seq<Record>, searchText: string, r: seq<Record>)
    requires Subsequence(r, jobs)
    requires KeepsExactlyMatching(r, jobs, searchText)
    ensures r == Filter(jobs, searchText)
    decreases |jobs|
  {
    if jobs != [] {
      var h, t := jobs[0], jobs[1..];
      assert jobs == [h] + t;
      if Matches(h, searchText) {
        assert multiset(r)[h] == multiset(jobs)[h] > 0;
        assert r != [];
        if r[0] == h && Subsequence(r[1..], t) {
          assert r == [h] + r[1..];
          forall x ensures multiset(r[1..])[x] == if Matches(x, searchText) then multiset(t)[x] else 0 {
            assert multiset(r)[x] == multiset([h])[x] + multiset(r[1..])[x];
          }
          FilterUnique(t, searchText, r[1..]);
        } else {
          SubsequenceMultiset(r, t);
          assert false;
        }
      } else {
        assert Subsequence(r, t);
        forall x ensures multiset(r)[x] == if Matches(x, searchText) then multiset(t)[x] else 0 {
          assert multiset(jobs)[x] == multiset([h])[x] + multiset(t)[x];
          if Matches(x, searchText) {
            assert x != h;
          }
        }
        FilterUnique(t, searchText, r);
      }
    }
  }

  /** Filtering an already filtered list with the same text changes nothing. */
  lemma {:induction false} FilterIdempotent(jobs: seq<Record>, searchText: string)
    ensures Filter(Filter(jobs, searchText), searchText) == Filter(jobs, searchText)
    decreases |jobs|
  {
    if jobs != [] {
      FilterIdempotent(jobs[1..], searchText);
      var r := Filter(jobs, searchText);
      if Matches(jobs[0], searchText) {
        assert r[0] == jobs[0] && r[1..] == Filter(jobs[1..], searchText);
      }
    }
  }

  /** The empty search text matches every record, so nothing is dropped. */
  lemma {:induction false} FilterEmptyText(jobs: seq<Record>)
    ensures Filter(jobs, "") == jobs
    decreases |jobs|
  {
    if jobs != [] {
      ContainsEmpty(Lower(Field(jobs[0], TitleKey)));
      FilterEmptyText(jobs[1..]);
    }
  }

  /** The four fields the search looks at. */
  const SearchedKeys := {TitleKey, CompanyKey, DescriptionKey, SalaryKey}

  /**
   * The search ignores case: a query that equals some window of a searched
   * field up to the case of its letters matches.
   */
  lemma CaseInsensitiveHit(job: Record, query: string, key: string, i: nat)
    requires key in SearchedKeys
    requires i + |query| <= |Field(job, key)|
    requires SameIgnoringCase(Field(job, key)[i..i + |query|], query)
    ensures Matches(job, Lower(query))
  {
    var field := Field(job, key);
    SameIgnoringCaseIff(field[i..i + |query|], query);
    LowerSlice(field, i, i + |query|);
    assert OccursAt(Lower(field), Lower(query), i);
    ContainsIff(Lower(field), Lower(query));
  }

  /** Lower-case "cook" finds a title written "COOK". */
  lemma LowerQueryFindsUpperTitle()
    ensures Matches(map[TitleKey := "COOK"], Lower("cook"))
  {
    var job := map[TitleKey := "COOK"];
    assert Field(job, TitleKey)[0..4] == "COOK";
    CaseInsensitiveHit(job, "cook", TitleKey, 0);
  }

  /** Queries that differ only in letter case select the same records. */
  lemma QueryCaseIrrelevant(jobs: seq<Record>, q1: string, q2: string)
    requires SameIgnoringCase(q1, q2)
    ensures Filter(jobs, Lower(q1)) == Filter(jobs, Lower(q2))
  {
    SameIgnoringCaseIff(q1, q2);
  }

  /** Records whose searched fields differ only in letter case match the same texts. */
  lemma RecordCaseIrrelevant(a: Record, b: Record, searchText: string)
    requires forall key :: key in SearchedKeys ==> SameIgnoringCase(Field(a, key), Field(b, key))
    ensures Matches(a, searchText) <==> Matches(b, searchText)
  {
    SameIgnoringCaseIff(Field(a, TitleKey), Field(b, TitleKey));
    SameIgnoringCaseIff(Field(a, CompanyKey), Field(b, CompanyKey));
    SameIgnoringCaseIff(Field(a, DescriptionKey), Field(b, DescriptionKey));
    SameIgnoringCaseIff(Field(a, SalaryKey), Field(b, SalaryKey));
  }
}
