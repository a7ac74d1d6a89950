/** What one signal says about one repository. */
module Contributions {
  import RepoRefs

  datatype Source = STATIC_MAPPING | HISTORICAL_CASE | WORKSPACE_METADATA | CODE_SEARCH

  datatype Confidence = LOW | MEDIUM | HIGH

  datatype Contribution = Contribution(ref: RepoRefs.RepoRef, source: Source, score: real, confidence: Confidence,
                                       evidence: seq<string>, paths: seq<string>)

  function Rank(c: Confidence): int {
    match c case LOW => 0 case MEDIUM => 1 case HIGH => 2
  }

  ghost predicate Mentions(key: string, adds: seq<Contribution>) {
    exists a <- adds :: RepoRefs.Key(a.ref) == key
  }
}
