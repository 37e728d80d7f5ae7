// Freezing privately authored cases into a benchmark (evalbench/authored.go).
module Authored {
  import opened Wrappers
  import opened IdSorting
  import opened Text
  import opened Benchmark

  datatype Frozen = Frozen(config: Config, cases: seq<Case>, manifest: Manifest)

  datatype FreezeError = BadConfig | WrongCount | BadCase(ordinal: nat)

  predicate IdentifierChar(c: char) {
    'a' <= c <= 'z' || 'A' <= c <= 'Z' || '0' <= c <= '9' || c == '.' || c == '-' || c == '_'
  }

  predicate ValidIdentifier(s: string) {
    s != "" && forall k | 0 <= k < |s| :: IdentifierChar(s[k])
  }

  // Config.Validate
  predicate ValidConfig(c: Config) {
    && ValidIdentifier(c.benchmarkId) && |c.benchmarkId| <= 128
    && ValidIdentifier(c.benchmarkVersion) && |c.benchmarkVersion| <= 64
    && ValidIdentifier(c.sourceRunId) && |c.sourceRunId| <= 128
    && 0 < |c.generatorVersion| <= 64
    && 6 <= c.caseCount <= 10000
    && 1 <= c.developmentCases < c.caseCount
    && (c.commitmentScheme == LEGACY_SCHEME || c.commitmentScheme == NONCE_SCHEME)
    && (c.commitmentScheme == NONCE_SCHEME ==> c.datasetVersionId > 0)
  }

  function FreezeConfig(config: Config): Config {
    var c := Normalize(config);
    c.(generatorVersion := if c.generatorVersion == DEFAULT_VERSION then AUTHORED_VERSION else c.generatorVersion,
       commitmentScheme := NONCE_SCHEME)
  }

  // ---- Semantics of one case -------------------------------------------------

  predicate AnswerableIs(m: map<string, Value>, b: bool) {
    "answerable" in m && m["answerable"] == Bool(b)
  }

  predicate PositiveNumber(m: map<string, Value>, key: string) {
    key in m && m[key].Number? && m[key].n > 0.0
  }

  predicate ZeroNumber(m: map<string, Value>, key: string) {
    key in m && m[key] == Number(0.0)
  }

  predicate ValidSource(s: GoldSource) {
    s.noteId > 0 && (s.sourceType == "note" || s.sourceType == "note_body" || s.sourceType == "note_media" || s.sourceType == "note_comment")
  }

  // validateAuthoredSemantics
  predicate ValidSemantics(c: Case) {
    && (forall k | 0 <= k < |c.goldSources| :: ValidSource(c.goldSources[k]))
    && if c.taskType == "no_relevant_document" || c.taskType == "out_of_domain_noise" then
         c.goldSources == [] && AnswerableIs(c.metadata, false)
       else if c.taskType == "insufficient_evidence" then
         c.goldSources != [] && AnswerableIs(c.metadata, false)
       else if c.taskType == "authorization_boundary" then
         && c.goldSources != [] && PositiveNumber(c.metadata, "required_project_id")
         && PositiveNumber(c.metadata, "authorized_expected_results") && ZeroNumber(c.metadata, "unauthorized_expected_results")
       else if c.taskType == "ocr_detail" then
         exists k :: 0 <= k < |c.goldSources| && c.goldSources[k].sourceType == "note_media"
       else
         c.goldSources != [] && !AnswerableIs(c.metadata, false)
  }

  // normalizeCommitmentNonce; None for a malformed or short nonce.
  function Nonce(o: Oracles, k: nat, nonce: string): Option<string> {
    var value := Trim(nonce);
    if value == "" then Some(o.randomNonce(k))
    else if o.decodedLength(value).None? || o.decodedLength(value).value < 16 then None
    else Some(value)
  }

  function Stamped(config: Config, c: Case): Case {
    c.(metadata := c.metadata["benchmark_version" := Text(config.benchmarkVersion)]
                              ["generator_version" := Text(config.generatorVersion)]
                              ["source_run_id" := Text(config.sourceRunId)]
                              ["dataset_version_id" := Number(config.datasetVersionId as real)],
       provenance := if Trim(c.provenance) == "" then AUTHORED_PROVENANCE else c.provenance,
       reviewStatus := if Trim(c.reviewStatus) == "" then "machine_validated" else c.reviewStatus)
  }

  // The frozen form of authored case k, None when it is invalid on its own.
  function FrozenCase(o: Oracles, config: Config, k: nat, source: Case): Option<Case> {
    var trimmed := source.(split := Trim(source.split), taskType := Trim(source.taskType), query := Trim(source.query),
                           expectedAnswer := Trim(source.expectedAnswer));
    if trimmed.split != "development" && trimmed.split != "holdout" then None
    else if trimmed.query == "" || trimmed.expectedAnswer == "" || trimmed.taskType == "" then None
    else if !ValidSemantics(trimmed) then None
    else
      var c := Stamped(config, trimmed);
      var nonce := Nonce(o, k, c.commitmentNonce);
      if c.reviewStatus != "machine_validated" && c.reviewStatus != "human_approved" then None
      else if nonce.None? then None
      else
        var checksum := ChecksumCase(o, c.(commitmentNonce := nonce.value));
        Some(c.(commitmentNonce := nonce.value, caseChecksum := checksum,
                commitmentHash := CommitmentHash(o, nonce.value, checksum)))
  }

  predicate AllFreeze(o: Oracles, config: Config, authored: seq<Case>) {
    forall k | 0 <= k < |authored| :: FrozenCase(o, config, k, authored[k]).Some?
  }

  function FrozenCases(o: Oracles, config: Config, authored: seq<Case>): seq<Case>
    requires AllFreeze(o, config, authored)
  {
    seq(|authored|, k requires 0 <= k < |authored| => FrozenCase(o, config, k, authored[k]).value)
  }

  // No two cases share a query, a checksum or a commitment.
  ghost predicate DistinctCases(cases: seq<Case>) {
    forall i, j | 0 <= i < j < |cases| ::
      && cases[i].query != cases[j].query && cases[i].caseChecksum != cases[j].caseChecksum
      && cases[i].commitmentHash != cases[j].commitmentHash
  }

  function DevelopmentCount(cases: seq<Case>): nat {
    if cases == [] then 0
    else DevelopmentCount(cases[..|cases| - 1]) + if cases[|cases| - 1].split == "development" then 1 else 0
  }

  ghost predicate Freezable(o: Oracles, config: Config, authored: seq<Case>) {
    var c := FreezeConfig(config);
    && ValidConfig(c)
    && |authored| == c.caseCount
    && AllFreeze(o, c, authored)
    && DistinctCases(FrozenCases(o, c, authored))
    && DevelopmentCount(FrozenCases(o, c, authored)) == c.developmentCases
  }

  // Case k does not repeat an earlier one.
  ghost predicate NewAt(cases: seq<Case>, c: Case) {
    forall i | 0 <= i < |cases| ::
      cases[i].query != c.query && cases[i].caseChecksum != c.caseChecksum && cases[i].commitmentHash != c.commitmentHash
  }

  ghost predicate Seen(cases: seq<Case>, queries: set<string>, checksums: set<string>, commitments: set<string>) {
    SeenBy(QueryOf, cases, queries) && SeenBy(ChecksumOf, cases, checksums) && SeenBy(HashOf, cases, commitments)
  }

  lemma SeenDecides(cases: seq<Case>, queries: set<string>, checksums: set<string>, commitments: set<string>, c: Case)
    requires Seen(cases, queries, checksums, commitments)
    ensures c.query !in queries && c.caseChecksum !in checksums && c.commitmentHash !in commitments <==> NewAt(cases, c)
  {
  }

  lemma AllSeenGrow(cases: seq<Case>, queries: set<string>, checksums: set<string>, commitments: set<string>, c: Case)
    requires Seen(cases, queries, checksums, commitments)
    ensures Seen(cases + [c], queries + {c.query}, checksums + {c.caseChecksum}, commitments + {c.commitmentHash})
  {
    hide SeenBy;
    SeenGrows(QueryOf, cases, queries, c);
    SeenGrows(ChecksumOf, cases, checksums, c);
    SeenGrows(HashOf, cases, commitments, c);
  }

  lemma DistinctGrows(cases: seq<Case>, c: Case)
    ensures DistinctCases(cases + [c]) <==> DistinctCases(cases) && NewAt(cases, c)
  {
    var more := cases + [c];
    assert more[|cases|] == c;
    assert forall i | 0 <= i < |cases| :: more[i] == cases[i];
    if DistinctCases(more) {
      forall i, j | 0 <= i < j < |cases|
        ensures cases[i].query != cases[j].query && cases[i].caseChecksum != cases[j].caseChecksum
                && cases[i].commitmentHash != cases[j].commitmentHash
      {
        assert more[i].query != more[j].query;
      }
      forall i | 0 <= i < |cases|
        ensures cases[i].query != c.query && cases[i].caseChecksum != c.caseChecksum && cases[i].commitmentHash != c.commitmentHash
      {
        assert more[i].query != more[|cases|].query;
      }
    }
  }

  lemma {:induction false} DistinctPrefix(cases: seq<Case>, k: nat)
    requires k <= |cases| && DistinctCases(cases)
    ensures DistinctCases(cases[..k])
  {
  }

  method FreezeAuthored(o: Oracles, config: Config, authored: seq<Case>) returns (r: Result<Frozen, FreezeError>)
    ensures r.Success? <==> Freezable(o, config, authored)
    ensures r.Success? ==>
              var c := FreezeConfig(config);
              && r.value.config == c && r.value.cases == FrozenCases(o, c, authored)
              && r.value.manifest == ManifestOf(o, c, CaseEntries(NONCE_SCHEME, r.value.cases), "approved", "cases.jsonl")
  {
    hide FrozenCase, NewAt, Seen, DistinctCases, FreezeConfig, ValidConfig, ManifestOf;
    var c := FreezeConfig(config);
    if !ValidConfig(c) {
      return Failure(BadConfig);
    }
    if |authored| != c.caseCount {
      return Failure(WrongCount);
    }
    var cases: seq<Case> := [];
    var queries: set<string>, checksums: set<string>, commitments: set<string> := {}, {}, {};
    var developmentCount := 0;
    assert Seen(cases, queries, checksums, commitments) by { NothingSeen(); }
    assert DistinctCases(cases) by { NothingSeen(); }
    for k := 0 to |authored|
      invariant |cases| == k && forall i | 0 <= i < k :: FrozenCase(o, c, i, authored[i]) == Some(cases[i])
      invariant Seen(cases, queries, checksums, commitments) && DistinctCases(cases)
      invariant developmentCount == DevelopmentCount(cases)
    {
      var frozen := FrozenCase(o, c, k, authored[k]);
      if frozen.None? {
        return Failure(BadCase(k + 1));
      }
      var evalCase := frozen.value;
      SeenDecides(cases, queries, checksums, commitments, evalCase);
      AllSeenGrow(cases, queries, checksums, commitments, evalCase);
      DistinctGrows(cases, evalCase);
      if evalCase.query in queries || evalCase.caseChecksum in checksums || evalCase.commitmentHash in commitments {
        RepeatRefuted(o, c, authored, cases + [evalCase]);
        return Failure(BadCase(k + 1));
      }
      queries := queries + {evalCase.query};
      checksums := checksums + {evalCase.caseChecksum};
      commitments := commitments + {evalCase.commitmentHash};
      if evalCase.split == "development" {
        developmentCount := developmentCount + 1;
      }
      assert (cases + [evalCase])[..k] == cases;
      cases := cases + [evalCase];
    }
    assert AllFreeze(o, c, authored) && cases == FrozenCases(o, c, authored);
    if developmentCount != c.developmentCases {
      return Failure(WrongCount);
    }
    FreezeConfigNormal(config);
    var manifest := BuildManifest(o, c, cases);
    return Success(Frozen(c, cases, manifest));
  }

  lemma NothingSeen()
    ensures Seen([], {}, {}, {}) && DistinctCases([])
  {
  }

  lemma RepeatRefuted(o: Oracles, c: Config, authored: seq<Case>, cases: seq<Case>)
    requires |cases| <= |authored| && !DistinctCases(cases)
    requires forall i | 0 <= i < |cases| :: FrozenCase(o, c, i, authored[i]) == Some(cases[i])
    ensures !(AllFreeze(o, c, authored) && DistinctCases(FrozenCases(o, c, authored)))
  {
    hide FrozenCase, DistinctCases;
    if AllFreeze(o, c, authored) && DistinctCases(FrozenCases(o, c, authored)) {
      var all := FrozenCases(o, c, authored);
      assert all[..|cases|] == cases;
      DistinctPrefix(all, |cases|);
    }
  }

  // The configuration of a frozen benchmark is already in normal form.
  lemma FreezeConfigNormal(config: Config)
    ensures Normalize(FreezeConfig(config)) == FreezeConfig(config)
    ensures FreezeConfig(config).commitmentScheme == NONCE_SCHEME
  {
    hide Trim, Trimmed;
    TrimIsStable(config.benchmarkId);
    TrimIsStable(config.benchmarkVersion);
    TrimIsStable(config.sourceRunId);
    TrimIsStable(config.generatorVersion);
    VersionsTrimmed();
    TrimmedStays(AUTHORED_VERSION);
    TrimmedStays(DEFAULT_VERSION);
  }

  lemma VersionsTrimmed()
    ensures Trimmed(AUTHORED_VERSION) && Trimmed(DEFAULT_VERSION)
    ensures AUTHORED_VERSION != "" && DEFAULT_VERSION != ""
  {
    assert AUTHORED_VERSION[0] == 'p' && AUTHORED_VERSION[|AUTHORED_VERSION| - 1] == '4';
    assert DEFAULT_VERSION[0] == 'i' && DEFAULT_VERSION[|DEFAULT_VERSION| - 1] == '3';
  }

  // Every case of a frozen benchmark carries its own checksum and commitment.
  lemma FrozenCaseFacts(o: Oracles, config: Config, k: nat, source: Case)
    requires Sound(o) && FrozenCase(o, config, k, source).Some?
    ensures var c := FrozenCase(o, config, k, source).value;
            && (c.split == "development" || c.split == "holdout")
            && c.taskType != "" && c.reviewStatus != "" && c.commitmentNonce != ""
            && c.caseChecksum == ChecksumCase(o, c)
            && c.commitmentHash == CommitmentHash(o, c.commitmentNonce, c.caseChecksum)
            && ValidSha256(c.commitmentHash)
  {
    hide Trim, ValidSemantics, ValidSha256;
    var c := FrozenCase(o, config, k, source).value;
    assert c.(caseChecksum := "", commitmentNonce := "", commitmentHash := "")
        == c.(caseChecksum := source.caseChecksum, commitmentHash := source.commitmentHash).(caseChecksum := "", commitmentNonce := "", commitmentHash := "");
  }
}
