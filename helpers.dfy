/**
 * The string helpers of src/helperfunctions.cpp that the search relies on:
 * `matches` (a prompt against the term-list pairs of a query),
 * `splitDatasetName` and `getFiltersFromDatasetList`.
 */
module Helpers {
  import opened Terms

  /** `QString::contains` (case-sensitive): `t` occurs somewhere in `s`. */
  predicate Contains(s: string, t: string) {
    exists i | 0 <= i <= |s| - |t| :: OccursAt(s, t, i)
  }

  /** `t` occurs in `s` starting at position `i`. */
  predicate OccursAt(s: string, t: string, i: int)
    requires 0 <= i <= |s| - |t|
  {
    s[i..i + |t|] == t
  }

  /** One pair matches when every inclusion and no exclusion occurs in the prompt. */
  predicate PairMatches(prompt: string, q: QueryPair) {
    (forall t | t in q.inclusions :: Contains(prompt, t))
    && !(exists t | t in q.exclusions :: Contains(prompt, t))
  }

  /** Some pair matches. */
  predicate Accepts(prompt: string, queries: seq<QueryPair>) {
    exists q | q in queries :: PairMatches(prompt, q)
  }

  /**
   * `matches` with case sensitivity on: scan the pairs, skip those that miss
   * an inclusion or hit an exclusion, stop at the first that does neither.
   */
  method Matches(prompt: string, queries: seq<QueryPair>) returns (found: bool)
    ensures found == Accepts(prompt, queries)
  {
    found := false;
    var i := 0;
    while i < |queries|
      invariant 0 <= i <= |queries|
      invariant forall k | 0 <= k < i :: !PairMatches(prompt, queries[k])
    {
      var q := queries[i];
      var matchesAllInclusions := forall t | t in q.inclusions :: Contains(prompt, t);
      var matchesSomeExclusion := exists t | t in q.exclusions :: Contains(prompt, t);
      if !matchesAllInclusions || matchesSomeExclusion {
        i := i + 1;
        continue;
      } else {
        assert q in queries;
        found := true;
        break;
      }
    }
  }

  /** Matching a pair is satisfying it when a term is true iff it occurs in the prompt. */
  lemma PairMatchesSatisfies(prompt: string, q: QueryPair)
    ensures PairMatches(prompt, q) <==> Satisfies(q, t => Contains(prompt, t))
  {
  }

  /** No pairs: nothing matches. */
  lemma NoPairsNoMatch(prompt: string)
    ensures !Accepts(prompt, [])
  {
  }

  /** A pair without terms matches every prompt. */
  lemma EmptyPairMatchesAll(prompt: string, queries: seq<QueryPair>)
    requires QueryPair([], []) in queries
    ensures Accepts(prompt, queries)
  {
    assert PairMatches(prompt, QueryPair([], []));
  }

  /** The order (and multiplicity) of the pairs does not matter, only which pairs there are. */
  lemma AcceptsOrderIndependent(prompt: string, a: seq<QueryPair>, b: seq<QueryPair>)
    requires forall q :: q in a <==> q in b
    ensures Accepts(prompt, a) == Accepts(prompt, b)
  {
  }

  /** The three dataset names whose colon does not start a specification. */
  predicate IsWholeName(dataset: string) {
    dataset == "bold:subject=all" || dataset == "boolq:only_contrast=True" || dataset == "imdb:only_contrast=True"
  }

  /** The position of the first `c` in `s`. */
  function IndexOf(s: string, c: char): (i: nat)
    requires c in s
    ensures i < |s| && s[i] == c && c !in s[..i]
  {
    if s[0] == c then 0 else IndexOf(s[1..], c) + 1
  }

  /**
   * `QString::split(sep)`, keeping empty parts: the pieces between
   * consecutive separators. Joining them back with `sep` gives `s`.
   */
  function Split(s: string, sep: char): (parts: seq<string>)
    ensures |parts| >= 1
    ensures forall k | 0 <= k < |parts| :: sep !in parts[k]
    ensures sep !in s ==> parts == [s]
    ensures sep in s ==> |parts| >= 2 && s == parts[0] + [sep] + s[IndexOf(s, sep) + 1..]
    ensures sep in s ==> Split(s[IndexOf(s, sep) + 1..], sep) == parts[1..]
    decreases |s|
  {
    if sep !in s then [s]
    else
      var i := IndexOf(s, sep);
      assert s == s[..i] + [sep] + s[i + 1..];
      [s[..i]] + Split(s[i + 1..], sep)
  }

  /**
   * `base` is the text before the first `sep` of `s`, and `spec` the text
   * between the first and the second `sep` (or the end).
   */
  predicate SplitsAt(s: string, sep: char, base: string, spec: string) {
    && sep !in base && sep !in spec
    && |base| + 1 + |spec| <= |s|
    && s[..|base| + 1 + |spec|] == base + [sep] + spec
    && (|base| + 1 + |spec| == |s| || s[|base| + 1 + |spec|] == sep)
  }

  /**
   * `splitDatasetName`: the three whole names stay whole; a `legal_support`
   * name splits at its commas, any other name at its colons; a name without
   * either has no specification. `at(1)` requires a second piece, which a
   * colon name always has and a `legal_support` name has when it holds a comma.
   */
  function SplitDatasetName(dataset: string): (r: (string, string))
    requires Contains(dataset, "legal_support") ==> ',' in dataset
    ensures IsWholeName(dataset) ==> r == (dataset, "")
    ensures !IsWholeName(dataset) && Contains(dataset, "legal_support") ==> SplitsAt(dataset, ',', r.0, r.1)
    ensures !IsWholeName(dataset) && !Contains(dataset, "legal_support") && ':' in dataset
      ==> SplitsAt(dataset, ':', r.0, r.1)
    ensures !Contains(dataset, "legal_support") && ':' !in dataset ==> r == (dataset, "")
  {
    if IsWholeName(dataset) then (dataset, "")
    else if Contains(dataset, "legal_support") then
      var parts := Split(dataset, ',');
      SplitFirstTwo(dataset, ',');
      (parts[0], parts[1])
    else if ':' in dataset then
      var parts := Split(dataset, ':');
      SplitFirstTwo(dataset, ':');
      (parts[0], parts[1])
    else (dataset, "")
  }

  /** The first piece of a split is the text up to the first separator, or all of `s`. */
  lemma SplitFirst(s: string, sep: char)
    ensures |Split(s, sep)[0]| <= |s| && s[..|Split(s, sep)[0]|] == Split(s, sep)[0]
    ensures |Split(s, sep)[0]| == |s| || s[|Split(s, sep)[0]|] == sep
  {
    var p := Split(s, sep)[0];
    if sep in s {
      var tail := s[IndexOf(s, sep) + 1..];
      assert s == p + [sep] + tail;
      assert s[..|p|] == p;
    } else {
      assert s[..|s|] == s;
    }
  }

  /** `base`, `sep` and a prefix `spec` of `rest` that ends at a separator or at the end. */
  lemma SplitsAtPrefix(s: string, sep: char, base: string, spec: string, rest: string)
    requires s == base + [sep] + rest && sep !in base && sep !in spec
    requires |spec| <= |rest| && rest[..|spec|] == spec
    requires |spec| == |rest| || rest[|spec|] == sep
    ensures SplitsAt(s, sep, base, spec)
  {
    assert s[..|base| + 1 + |spec|] == base + [sep] + rest[..|spec|];
    assert |spec| == |rest| || s[|base| + 1 + |spec|] == rest[|spec|];
  }

  /** The first two pieces of a split are the text up to the first and the second separator. */
  lemma SplitFirstTwo(s: string, sep: char)
    requires sep in s
    ensures SplitsAt(s, sep, Split(s, sep)[0], Split(s, sep)[1])
  {
    var parts := Split(s, sep);
    var rest := s[IndexOf(s, sep) + 1..];
    assert parts[1] == Split(rest, sep)[0];
    SplitFirst(rest, sep);
    SplitsAtPrefix(s, sep, parts[0], parts[1], rest);
  }

  /** With exactly one separator, base, separator and specification join back into the name. */
  lemma SplitDatasetNameJoins(dataset: string, sep: char)
    requires sep == ',' || sep == ':'
    requires !IsWholeName(dataset)
    requires sep == ',' <==> Contains(dataset, "legal_support")
    requires sep in dataset
    requires multiset(dataset)[sep] == 1
    ensures SplitDatasetName(dataset).0 + [sep] + SplitDatasetName(dataset).1 == dataset
  {
    var (base, spec) := SplitDatasetName(dataset);
    var n := |base| + 1 + |spec|;
    assert dataset == dataset[..n] + dataset[n..];
    if n < |dataset| {
      assert false;
    }
  }

  /** `dataset.replace(":", "_")`. */
  function ReplaceColons(s: string): (r: string)
    ensures |r| == |s|
    ensures forall k | 0 <= k < |s| :: r[k] == if s[k] == ':' then '_' else s[k]
  {
    if s == [] then [] else [if s[0] == ':' then '_' else s[0]] + ReplaceColons(s[1..])
  }

  /**
   * The file-name filter of one dataset: on Windows, where `:` cannot appear
   * in file names, colons become underscores; the filter ends in `*`.
   */
  function Filter(dataset: string, os: string): (f: string)
    ensures |f| == |dataset| + 1 && f[|dataset|] == '*'
    ensures os != "windows" ==> f[..|dataset|] == dataset
    ensures os == "windows" ==> ':' !in f
    ensures forall k | 0 <= k < |dataset| :: f[k] == dataset[k] || (os == "windows" && dataset[k] == ':' && f[k] == '_')
  {
    if os == "windows" then ReplaceColons(dataset) + "*" else dataset + "*"
  }

  /**
   * `getFiltersFromDatasetList`, with the operating-system name that the
   * source reads from `QSysInfo::productType()` passed in.
   */
  method FiltersFromDatasetList(datasetNames: seq<string>, os: string) returns (filters: seq<string>)
    ensures |filters| == |datasetNames|
    ensures forall k | 0 <= k < |datasetNames| :: filters[k] == Filter(datasetNames[k], os)
  {
    filters := [];
    for i := 0 to |datasetNames|
      invariant |filters| == i
      invariant forall k | 0 <= k < i :: filters[k] == Filter(datasetNames[k], os)
    {
      filters := filters + [Filter(datasetNames[i], os)];
    }
  }
}
