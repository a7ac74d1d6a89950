/** `harden_root_cause_analysis`: confidence an analysis may keep. */
module RootCause {
  datatype Confidence = LOW | MEDIUM | HIGH

  datatype Classification = CONFIRMED | STRONGLY_SUPPORTED | POSSIBLE | UNKNOWN | REJECTED

  datatype Analysis = Analysis(confidence: Confidence, classification: Classification, determined: bool,
                               facts: seq<string>, unknowns: seq<string>)

  const NO_REPOSITORY := "Repository/code evidence was not available for confirmation."

  predicate Supported(a: Analysis, repository: bool) {
    a.determined && a.classification == CONFIRMED && a.facts != [] && a.unknowns == [] && repository
  }

  function Harden(a: Analysis, repository: bool): Analysis {
    if a.confidence != HIGH || Supported(a, repository) then a else
      a.(confidence := if a.classification == STRONGLY_SUPPORTED && a.facts != [] then MEDIUM else LOW,
         classification := if a.classification in {POSSIBLE, UNKNOWN, REJECTED} then a.classification else POSSIBLE,
         unknowns := if repository then a.unknowns else a.unknowns + [NO_REPOSITORY])
  }

  /** What hardening promises, whatever the analysis: high confidence is kept exactly for a determined, confirmed
      cause with facts, no unknowns and a repository, and falls to medium exactly for a strongly supported one
      with facts; a downgraded analysis no longer counts as confirmed or supported, a missing repository is on
      record, anything else stays, and hardening again changes nothing. */
  lemma HardeningSettles(a: Analysis, repository: bool)
    ensures
      var h := Harden(a, repository);
      var kept :=
        a.determined && a.classification == CONFIRMED && a.facts != [] && a.unknowns == [] && repository;
      && (h.confidence == HIGH <==> a.confidence == HIGH && kept)
      && (a.confidence == HIGH ==>
          (h.confidence == MEDIUM <==> a.classification == STRONGLY_SUPPORTED && a.facts != []))
      && (h != a <==> a.confidence == HIGH && !kept)
      && (h != a ==> h.classification in {POSSIBLE, UNKNOWN, REJECTED})
      && (a.classification in {POSSIBLE, UNKNOWN, REJECTED} ==> h.classification == a.classification)
      && (h != a && a.classification in {CONFIRMED, STRONGLY_SUPPORTED} ==> h.classification == POSSIBLE)
      && h.unknowns == a.unknowns + (if h == a || repository then [] else
          ["Repository/code evidence was not available for confirmation."])
      && h.facts == a.facts && h.determined == a.determined && Harden(h, repository) == h
  {
    assert a.unknowns + [] == a.unknowns;
  }
}
