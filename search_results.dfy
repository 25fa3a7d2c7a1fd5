/**
 * Search/SearchResults.js: the stations whose name matches the search text,
 * as a case-insensitive regular expression, at most `MaxSearchResults` of
 * them, in catalog order.
 */
module SearchResults {
  import opened Wrappers

  const MaxSearchResults: nat := 100

  /** `new RegExp(searchText, 'i')` throws on a malformed pattern. */
  datatype SyntaxError = InvalidPattern(pattern: string)

  /** `stations.filter(keep)`: the stations `keep` accepts, in order. */
  function Filter<T>(stations: seq<T>, keep: T -> bool): (r: seq<T>)
    ensures |r| <= |stations|
    ensures forall k :: 0 <= k < |r| ==> keep(r[k])
    decreases |stations|
  {
    if stations == [] then []
    else
      var rest := Filter(stations[..|stations| - 1], keep);
      var last := stations[|stations| - 1];
      if keep(last) then rest + [last] else rest
  }

  /** `sub` is `s` with some elements left out, the rest in order. */
  predicate IsSubsequence<T(==)>(sub: seq<T>, s: seq<T>)
    decreases |s|
  {
    if sub == [] then true
    else if s == [] then false
    else if sub[|sub| - 1] == s[|s| - 1] then IsSubsequence(sub[..|sub| - 1], s[..|s| - 1])
    else IsSubsequence(sub, s[..|s| - 1])
  }

  /** `filter` keeps order and drops exactly the rejected stations: a
      station is in the result as often as in the input if it is accepted,
      and not at all otherwise. */
  lemma {:induction false} FilterContents<T>(stations: seq<T>, keep: T -> bool)
    ensures IsSubsequence(Filter(stations, keep), stations)
    ensures forall x :: keep(x) ==> multiset(Filter(stations, keep))[x] == multiset(stations)[x]
    ensures forall x :: !keep(x) ==> multiset(Filter(stations, keep))[x] == 0
    decreases |stations|
  {
    if stations != [] {
      var init, last := stations[..|stations| - 1], stations[|stations| - 1];
      FilterContents(init, keep);
      assert stations == init + [last];
      var rest := Filter(init, keep);
      if keep(last) {
        var r := rest + [last];
        assert r[..|r| - 1] == rest;
      } else {
        SubsequenceExtend(rest, init, last);
      }
    }
  }

  /** A subsequence of `s` is one of any extension of `s`. */
  lemma {:induction false} SubsequenceExtend<T>(sub: seq<T>, s: seq<T>, x: T)
    requires IsSubsequence(sub, s)
    ensures IsSubsequence(sub, s + [x])
    decreases |s|, 1
  {
    var s' := s + [x];
    assert s'[..|s'| - 1] == s;
    if sub != [] && sub[|sub| - 1] == x {
      SubsequenceDropLast(sub, s);
    }
  }

  /** Dropping the last element of `sub` keeps it a subsequence. */
  lemma {:induction false} SubsequenceDropLast<T>(sub: seq<T>, s: seq<T>)
    requires sub != [] && IsSubsequence(sub, s)
    ensures IsSubsequence(sub[..|sub| - 1], s)
    decreases |s|, 0
  {
    var init := sub[..|sub| - 1];
    if s != [] {
      if sub[|sub| - 1] == s[|s| - 1] {
        SubsequenceExtend(init, s[..|s| - 1], s[|s| - 1]);
        assert s[..|s| - 1] + [s[|s| - 1]] == s;
      } else {
        SubsequenceDropLast(sub, s[..|s| - 1]);
        SubsequenceExtend(init, s[..|s| - 1], s[|s| - 1]);
        assert s[..|s| - 1] + [s[|s| - 1]] == s;
      }
    }
  }

  /**
   * `filterResults(stations, searchText)`: `null` without stations (an
   * empty list is not missing) and for a missing or empty search text;
   * otherwise the first `MaxSearchResults` stations whose name the pattern
   * matches. `compile` stands for `new RegExp(searchText, 'i')` applied to
   * a station's name; `None` is a pattern it rejects.
   */
  function FilterResults<T>(stations: Option<seq<T>>, searchText: Option<string>,
                            compile: string -> Option<T -> bool>)
    : (r: Result<Option<seq<T>>, SyntaxError>)
    ensures r.Ok? && r.value.None? <==>
      stations.None? || searchText.None? || searchText.value == ""
    ensures r.Err? <==>
      stations.Some? && searchText.Some? && searchText.value != "" && compile(searchText.value).None?
    ensures r.Ok? && r.value.Some? ==>
      var matches := compile(searchText.value).value;
      && |r.value.value| <= MaxSearchResults
      && (forall k :: 0 <= k < |r.value.value| ==> matches(r.value.value[k]))
      && |r.value.value| == Min(MaxSearchResults, |Filter(stations.value, matches)|)
      && r.value.value == Filter(stations.value, matches)[..|r.value.value|]
  {
    if stations.None? then Ok(None)
    else if searchText.None? || searchText.value == "" then Ok(None)
    else
      match compile(searchText.value)
      case None => Err(InvalidPattern(searchText.value))
      case Some(matches) =>
        var found := Filter(stations.value, matches);
        Ok(Some(if |found| <= MaxSearchResults then found else found[..MaxSearchResults]))
  }

  function Min(a: int, b: int): int
  {
    if a <= b then a else b
  }

  /** Every result comes from the catalog, in the catalog's order, and while
      fewer than `MaxSearchResults` stations match, all of them are shown. */
  lemma ResultsAreCatalogMatches<T>(stations: seq<T>, searchText: string,
                                         compile: string -> Option<T -> bool>)
    requires searchText != "" && compile(searchText).Some?
    ensures var r := FilterResults(Some(stations), Some(searchText), compile).value.value;
      var matches := compile(searchText).value;
      && IsSubsequence(r, stations)
      && (|Filter(stations, matches)| <= MaxSearchResults ==>
            forall x :: matches(x) ==> multiset(r)[x] == multiset(stations)[x])
  {
    var matches := compile(searchText).value;
    var found := Filter(stations, matches);
    FilterContents(stations, matches);
    var r := FilterResults(Some(stations), Some(searchText), compile).value.value;
    if |found| > MaxSearchResults {
      PrefixIsSubsequence(found, stations, MaxSearchResults);
    }
  }

  lemma {:induction false} PrefixIsSubsequence<T>(sub: seq<T>, s: seq<T>, n: nat)
    requires n <= |sub| && IsSubsequence(sub, s)
    ensures IsSubsequence(sub[..n], s)
    decreases |sub| - n
  {
    if n < |sub| {
      SubsequenceDropLast(sub, s);
      assert sub[..|sub| - 1][..n] == sub[..n];
      PrefixIsSubsequence(sub[..|sub| - 1], s, n);
    } else {
      assert sub[..n] == sub;
    }
  }
}
