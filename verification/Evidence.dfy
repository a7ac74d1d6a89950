/** The evidence bundle: raw artifacts come in, redacted records with provenance are kept. */
module Evidence {
  import AccessKeyPass
  import opened Redaction
  import opened SecretForms

  datatype EvidenceRecord = EvidenceRecord(
    sourceUri: string, sourceType: string, name: string, content: string, contentHash: string,
    sizeBytes: nat, classification: string, confidence: string,
    sensitiveDataDetected: bool, redactionsPerformed: bool)

  datatype EvidenceItem = EvidenceItem(category: string, name: string, value: string, source: string)

  datatype Readiness = ReadyForRootCause | InsufficientEvidence

  datatype EvidenceAnalysis = EvidenceAnalysis(
    items: seq<EvidenceItem>, strongest: seq<string>, readiness: Readiness,
    sensitiveDataDetected: bool, redactionsPerformed: bool)

  /** What the ingestor takes from its surroundings: the UTF-8 size and SHA-256 digest of a text,
      the last component of a path, and the Unicode word characters. */
  datatype Platform = Platform(size: string -> nat, digest: string -> string, baseName: string -> string,
                               word: char -> bool)

  /** `name or Path(source_uri).name or source_uri` */
  function RecordName(env: Platform, name: string, sourceUri: string): string {
    if name != "" then name else if env.baseName(sourceUri) != "" then env.baseName(sourceUri) else sourceUri
  }

  /** `record` is what ingesting `raw` must leave behind. */
  ghost predicate Represents(env: Platform, record: EvidenceRecord, raw: string) {
    && record.content == Redacted(env.word, raw)
    && SecretFree(env.word, record.content) && MasksFirst(env.word, raw, record.content)
    && record.contentHash == env.digest(raw)
    && record.sizeBytes == env.size(raw)
    && (record.sensitiveDataDetected <==> HoldsSecret(env.word, raw))
    && record.redactionsPerformed == record.sensitiveDataDetected
  }

  class EvidenceIngestor {
    const env: Platform
    const maxBytes: int
    var records: seq<EvidenceRecord>
    /** The artifacts ingested so far, unredacted; they exist only in the specification. */
    ghost var raws: seq<string>

    ghost predicate Valid()
      reads this
    {
      && AccessKeyPass.IsWordClass(env.word)
      && |raws| == |records|
      && (forall i :: 0 <= i < |records| ==> Represents(env, records[i], raws[i]) && env.size(raws[i]) <= maxBytes)
    }

    constructor (env: Platform, maxBytes: int)
      requires AccessKeyPass.IsWordClass(env.word)
      ensures Valid() && records == [] && raws == [] && this.env == env && this.maxBytes == maxBytes
    {
      this.env, this.maxBytes := env, maxBytes;
      records, raws := [], [];
    }

    /** Over the limit nothing is kept; otherwise one record is appended, whatever the content. */
    method IngestText(content: string, sourceUri: string, sourceType: string, name: string,
                      classification: string, confidence: string) returns (ok: bool)
      requires Valid()
      modifies this
      ensures Valid()
      ensures ok <==> env.size(content) <= maxBytes
      ensures !ok ==> records == old(records) && raws == old(raws)
      ensures ok ==> raws == old(raws) + [content] && |records| == |old(records)| + 1
                     && records[..|old(records)|] == old(records)
      ensures ok ==> var r := records[|records| - 1];
                     r.sourceUri == sourceUri && r.sourceType == sourceType
                     && r.classification == classification && r.confidence == confidence
                     && (if name != "" then r.name == name
                         else if env.baseName(sourceUri) != "" then r.name == env.baseName(sourceUri)
                         else r.name == sourceUri)
    {
      if env.size(content) > maxBytes {
        return false;
      }
      var sanitized, sensitive := Redact(env.word, content);
      var record := EvidenceRecord(
        sourceUri, sourceType, RecordName(env, name, sourceUri), sanitized, env.digest(content), env.size(content),
        classification, confidence, sensitive, sensitive);
      records := records + [record];
      raws := raws + [content];
      ok := true;
    }

    function ToAnalysis(): (a: EvidenceAnalysis)
      reads this
    {
      EvidenceAnalysis(
        seq(|records|, i requires 0 <= i < |records| reads this =>
          EvidenceItem(records[i].sourceType, records[i].name, records[i].content, records[i].sourceUri)),
        seq(if |records| < 5 then |records| else 5, i requires 0 <= i < |records| reads this => records[i].name),
        if records != [] then ReadyForRootCause else InsufficientEvidence,
        exists i :: 0 <= i < |records| && records[i].sensitiveDataDetected,
        exists i :: 0 <= i < |records| && records[i].redactionsPerformed)
    }

    /** What an agent is shown: the content of every artifact in order, none of the content's secrets,
        and a flag that is raised exactly when some original content held one. */
    lemma AnalysisContentIsSecretFree()
      requires Valid()
      ensures var a := ToAnalysis();
        && |a.items| == |raws|
        && (forall i :: 0 <= i < |raws| ==>
            a.items[i].value == Redacted(env.word, raws[i]) && SecretFree(env.word, a.items[i].value))
        && (a.sensitiveDataDetected <==> exists i :: 0 <= i < |raws| && HoldsSecret(env.word, raws[i]))
        && a.redactionsPerformed == a.sensitiveDataDetected
        && (a.readiness.ReadyForRootCause? <==> raws != [])
        && (forall i :: 0 <= i < |raws| ==> LabelledAs(a.items[i], records[i]))
        && |a.strongest| == (if |raws| < 5 then |raws| else 5)
        && (forall i :: 0 <= i < |a.strongest| ==> a.strongest[i] == a.items[i].name)
    {
      var a := ToAnalysis();
      forall i | 0 <= i < |raws|
        ensures a.items[i].value == Redacted(env.word, raws[i]) && SecretFree(env.word, a.items[i].value)
      {
        assert Represents(env, records[i], raws[i]);
      }
      if a.sensitiveDataDetected {
        var i :| 0 <= i < |records| && records[i].sensitiveDataDetected;
        assert Represents(env, records[i], raws[i]);
      }
    }

    /** Names, source URIs and source types are passed on as they are, so the whole analysis is free
        of secrets exactly when they were. */
    lemma ShowsNoSecretIff()
      requires Valid()
      ensures ShowsNoSecret(env.word, ToAnalysis()) <==> forall r <- records :: LabelsAreSecretFree(env.word, r)
    {
      var a := ToAnalysis();
      AnalysisContentIsSecretFree();
      if ShowsNoSecret(env.word, a) {
        forall i | 0 <= i < |records| ensures LabelsAreSecretFree(env.word, records[i]) {
          assert a.items[i] in a.items;
        }
      }
      if forall r <- records :: LabelsAreSecretFree(env.word, r) {
        forall i | 0 <= i < |records| ensures ItemIsSecretFree(env.word, a.items[i]) {
          assert records[i] in records;
        }
      }
    }
  }

  /** The item carries the record's name, source URI and source type. */
  predicate LabelledAs(item: EvidenceItem, r: EvidenceRecord) {
    item.name == r.name && item.source == r.sourceUri && item.category == r.sourceType
  }

  ghost predicate ItemIsSecretFree(word: char -> bool, item: EvidenceItem) {
    && SecretFree(word, item.category) && SecretFree(word, item.name)
    && SecretFree(word, item.value) && SecretFree(word, item.source)
  }

  /** No text the agent is given holds a secret. */
  ghost predicate ShowsNoSecret(word: char -> bool, a: EvidenceAnalysis) {
    && (forall item <- a.items :: ItemIsSecretFree(word, item))
    && (forall name <- a.strongest :: SecretFree(word, name))
  }

  /** What a caller says about an artifact, apart from its content, holds no secret. */
  ghost predicate LabelsAreSecretFree(word: char -> bool, r: EvidenceRecord) {
    SecretFree(word, r.sourceType) && SecretFree(word, r.name) && SecretFree(word, r.sourceUri)
  }

  /** Whatever the content, a secret in the name or in the source type of an artifact reaches the agent. */
  method LabelsLeak(env: Platform, content: string, secret: string)
    returns (named: EvidenceAnalysis, typed: EvidenceAnalysis)
    requires AccessKeyPass.IsWordClass(env.word) && env.size(content) <= 5_000_000 && !SecretFree(env.word, secret)
    ensures |named.items| == |typed.items| == 1 && named.items[0].name == typed.items[0].category == secret
    ensures !ShowsNoSecret(env.word, named) && !ShowsNoSecret(env.word, typed)
  {
    EmptyIsSecretFree(env.word);
    named := AnalysisOf(env, content, "TICKET", secret);
    typed := AnalysisOf(env, content, secret, "ticket");
    assert !ItemIsSecretFree(env.word, named.items[0]) && !ItemIsSecretFree(env.word, typed.items[0]);
  }

  /** The analysis of a single artifact. */
  method AnalysisOf(env: Platform, content: string, sourceType: string, name: string) returns (a: EvidenceAnalysis)
    requires AccessKeyPass.IsWordClass(env.word) && env.size(content) <= 5_000_000 && name != ""
    ensures |a.items| == 1 && a.items[0].name == name && a.items[0].category == sourceType
  {
    var ingestor := new EvidenceIngestor(env, 5_000_000);
    var ok := ingestor.IngestText(content, "uri", sourceType, name, "CONFIRMED", "HIGH");
    a := ingestor.ToAnalysis();
  }
}
