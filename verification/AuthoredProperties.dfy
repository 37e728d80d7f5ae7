// What a frozen benchmark is made of, in plain terms (evalbench/authored.go).
module AuthoredProperties {
  import opened Wrappers
  import opened IdSorting
  import opened Text
  import opened Benchmark
  import opened Authored

  // ---- One frozen case -------------------------------------------------------

  // Freezing trims four fields, stamps four metadata keys, fills in a provenance
  // and a review status, keeps a given nonce of at least sixteen bytes or draws
  // one, and changes nothing else.
  lemma FrozenCaseKeeps(o: Oracles, config: Config, k: nat, source: Case)
    requires FrozenCase(o, config, k, source).Some?
    ensures var c := FrozenCase(o, config, k, source).value;
            && c.split == Trim(source.split) && c.taskType == Trim(source.taskType)
            && c.query == Trim(source.query) && c.expectedAnswer == Trim(source.expectedAnswer)
            && c.goldSources == source.goldSources && c.adversarialTags == source.adversarialTags
            && c.provenance == (if Trim(source.provenance) == "" then "private_model_assisted_v4" else source.provenance)
            && c.reviewStatus == (if Trim(source.reviewStatus) == "" then "machine_validated" else source.reviewStatus)
            && (if Trim(source.commitmentNonce) == "" then c.commitmentNonce == o.randomNonce(k)
                else c.commitmentNonce == Trim(source.commitmentNonce)
                     && o.decodedLength(c.commitmentNonce).Some? && o.decodedLength(c.commitmentNonce).value >= 16)
  {
    hide Trim, ValidSemantics, ChecksumCase, CommitmentHash;
  }

  lemma FrozenMetadata(o: Oracles, config: Config, k: nat, source: Case, key: string)
    requires FrozenCase(o, config, k, source).Some?
    ensures var m := FrozenCase(o, config, k, source).value.metadata;
            && "benchmark_version" in m && m["benchmark_version"] == Text(config.benchmarkVersion)
            && "generator_version" in m && m["generator_version"] == Text(config.generatorVersion)
            && "source_run_id" in m && m["source_run_id"] == Text(config.sourceRunId)
            && "dataset_version_id" in m && m["dataset_version_id"] == Number(config.datasetVersionId as real)
            && (key != "benchmark_version" && key != "generator_version" && key != "source_run_id" && key != "dataset_version_id" ==>
                  && (key in m <==> key in source.metadata)
                  && (key in m ==> m[key] == source.metadata[key]))
  {
    hide Trim, ValidSemantics, ChecksumCase, CommitmentHash, Nonce;
    var m := FrozenCase(o, config, k, source).value.metadata;
    assert m == Stamped(config, source).metadata;
    KeysDiffer();
  }

  lemma KeysDiffer()
    ensures "benchmark_version" != "generator_version" && "benchmark_version" != "source_run_id"
    ensures "benchmark_version" != "dataset_version_id" && "generator_version" != "source_run_id"
    ensures "generator_version" != "dataset_version_id" && "source_run_id" != "dataset_version_id"
  {
    assert "benchmark_version"[0] == 'b' && "generator_version"[0] == 'g' && "source_run_id"[0] == 's' && "dataset_version_id"[0] == 'd';
  }

  // ---- Which cases freeze ----------------------------------------------------

  ghost predicate SaysUnanswerable(c: Case) {
    "answerable" in c.metadata && c.metadata["answerable"] == Bool(false)
  }

  // Exactly the complete cases of a known split with a usable nonce and review
  // status and consistent semantics freeze.
  lemma FreezesExactly(o: Oracles, config: Config, k: nat, source: Case)
    ensures FrozenCase(o, config, k, source).Some? <==>
              && (Trim(source.split) == "development" || Trim(source.split) == "holdout")
              && Trim(source.taskType) != "" && Trim(source.query) != "" && Trim(source.expectedAnswer) != ""
              && (Trim(source.reviewStatus) == "" || source.reviewStatus == "machine_validated" || source.reviewStatus == "human_approved")
              && (Trim(source.commitmentNonce) == ""
                  || (o.decodedLength(Trim(source.commitmentNonce)).Some? && o.decodedLength(Trim(source.commitmentNonce)).value >= 16))
              && SoundSources(source) && SoundTask(Trim(source.taskType), source)
  {
    hide Trim, ChecksumCase, CommitmentHash;
    var trimmed := source.(split := Trim(source.split), taskType := Trim(source.taskType), query := Trim(source.query),
                           expectedAnswer := Trim(source.expectedAnswer));
    SemanticsExactly(trimmed);
    assert SoundSources(trimmed) == SoundSources(source);
    assert SoundTask(trimmed.taskType, trimmed) == SoundTask(trimmed.taskType, source);
  }

  ghost predicate SoundSources(c: Case) {
    forall s | s in c.goldSources ::
      s.noteId > 0 && s.sourceType in ["note", "note_body", "note_media", "note_comment"]
  }

  // A case has no gold source exactly for the two tasks about missing evidence;
  // it says it cannot be answered for those and for insufficient evidence, and
  // no ordinary task says so; two tasks ask for more.
  ghost predicate SoundTask(task: string, c: Case) {
    && (c.goldSources == [] <==> task in ["no_relevant_document", "out_of_domain_noise"])
    && (task in ["no_relevant_document", "out_of_domain_noise", "insufficient_evidence"] ==> SaysUnanswerable(c))
    && (SaysUnanswerable(c) ==>
          task in ["no_relevant_document", "out_of_domain_noise", "insufficient_evidence", "authorization_boundary", "ocr_detail"])
    && (task == "authorization_boundary" ==>
          && "required_project_id" in c.metadata && Positive(c.metadata["required_project_id"])
          && "authorized_expected_results" in c.metadata && Positive(c.metadata["authorized_expected_results"])
          && "unauthorized_expected_results" in c.metadata && c.metadata["unauthorized_expected_results"] == Number(0.0))
    && (task == "ocr_detail" ==> exists s :: s in c.goldSources && s.sourceType == "note_media")
  }

  predicate Positive(v: Value) {
    v.Number? && v.n > 0.0
  }

  lemma SourcesExactly(c: Case)
    ensures (forall k | 0 <= k < |c.goldSources| :: ValidSource(c.goldSources[k])) <==> SoundSources(c)
  {
    forall s: GoldSource
      ensures ValidSource(s) <==> s.noteId > 0 && s.sourceType in ["note", "note_body", "note_media", "note_comment"]
    {
    }
    assert forall k | 0 <= k < |c.goldSources| :: c.goldSources[k] in c.goldSources;
  }

  lemma SemanticsExactly(c: Case)
    ensures ValidSemantics(c) <==> SoundSources(c) && SoundTask(c.taskType, c)
  {
    SourcesExactly(c);
    TasksDiffer();
    assert c.goldSources != [] ==> c.goldSources[0] in c.goldSources;
    assert (exists k :: 0 <= k < |c.goldSources| && c.goldSources[k].sourceType == "note_media")
           <==> exists s :: s in c.goldSources && s.sourceType == "note_media";
    if c.taskType == "ocr_detail" && ValidSemantics(c) {
      var k :| 0 <= k < |c.goldSources| && c.goldSources[k].sourceType == "note_media";
    }
  }

  lemma TasksDiffer()
    ensures "no_relevant_document" != "out_of_domain_noise" && "no_relevant_document" != "insufficient_evidence"
    ensures "no_relevant_document" != "authorization_boundary" && "no_relevant_document" != "ocr_detail"
    ensures "out_of_domain_noise" != "insufficient_evidence" && "out_of_domain_noise" != "authorization_boundary"
    ensures "out_of_domain_noise" != "ocr_detail" && "insufficient_evidence" != "authorization_boundary"
    ensures "insufficient_evidence" != "ocr_detail" && "authorization_boundary" != "ocr_detail"
  {
    assert "no_relevant_document"[0] == 'n' && "out_of_domain_noise"[1] == 'u' && "insufficient_evidence"[0] == 'i';
    assert "authorization_boundary"[0] == 'a' && "ocr_detail"[1] == 'c' && "out_of_domain_noise"[0] == 'o';
  }

  // ---- The whole benchmark ---------------------------------------------------

  ghost function Places(cases: seq<Case>): set<nat> {
    set k: nat | k < |cases| && cases[k].split == "development"
  }

  lemma PlacesGrow(front: seq<Case>, c: Case)
    ensures |Places(front + [c])| == |Places(front)| + if c.split == "development" then 1 else 0
  {
    assert Places(front + [c]) == if c.split == "development" then Places(front) + {|front|} else Places(front);
  }

  lemma {:induction false} DevelopmentPlaces(cases: seq<Case>)
    ensures DevelopmentCount(cases) == |Places(cases)|
  {
    hide Places;
    if cases != [] {
      var front, c := cases[..|cases| - 1], cases[|cases| - 1];
      DevelopmentPlaces(front);
      PlacesGrow(front, c);
      assert cases == front + [c];
    } else {
      assert Places(cases) == {} by { NoPlaces(); }
    }
  }

  lemma NoPlaces()
    ensures Places([]) == {}
  {
  }

  // A frozen benchmark has between 6 and 10000 cases, as many development cases
  // as configured, at least one of them and at least one holdout case, under
  // plain identifiers of bounded length and for a dataset version.
  lemma FrozenShape(o: Oracles, config: Config, authored: seq<Case>)
    requires Freezable(o, config, authored)
    ensures var c := FreezeConfig(config);
            && 6 <= |authored| <= 10000 && |authored| == config.caseCount
            && 1 <= |set k: nat | k < |authored| && Trim(authored[k].split) == "development"| == config.developmentCases < |authored|
            && |c.benchmarkId| <= 128 && |c.benchmarkVersion| <= 64 && |c.sourceRunId| <= 128
            && Plain(c.benchmarkId) && Plain(c.benchmarkVersion) && Plain(c.sourceRunId)
            && 0 < |c.generatorVersion| <= 64 && c.generatorVersion != "independent_eval_v3"
            && c.commitmentScheme == "sha256_nonce_case_checksum_v1" && config.datasetVersionId > 0
  {
    hide FrozenCase, DistinctCases, Trim, FreezeConfig, AllFreeze, FrozenCases, Places, ValidIdentifier, Plain;
    var c := FreezeConfig(config);
    IdentifiersExactly(c.benchmarkId);
    IdentifiersExactly(c.benchmarkVersion);
    IdentifiersExactly(c.sourceRunId);
    FrozenConfig(config);
    FrozenPlaces(o, c, authored);
    DevelopmentPlaces(FrozenCases(o, c, authored));
  }

  lemma FrozenPlaces(o: Oracles, c: Config, authored: seq<Case>)
    requires AllFreeze(o, c, authored)
    ensures Places(FrozenCases(o, c, authored)) == set k: nat | k < |authored| && Trim(authored[k].split) == "development"
  {
    hide FrozenCase, Trim;
    var cases := FrozenCases(o, c, authored);
    forall k | 0 <= k < |authored|
      ensures cases[k].split == Trim(authored[k].split)
    {
      FrozenCaseKeeps(o, c, k, authored[k]);
    }
  }

  const LOWER := "abcdefghijklmnopqrstuvwxyz"
  const UPPER := "ABCDEFGHIJKLMNOPQRSTUVWXYZ"

  ghost predicate Plain(s: string) {
    s != "" && forall k | 0 <= k < |s| :: s[k] in LOWER || s[k] in UPPER || s[k] in "0123456789.-_"
  }

  // An identifier is not empty and holds only the listed characters.
  lemma IdentifiersExactly(s: string)
    ensures ValidIdentifier(s) <==> Plain(s)
  {
    forall c: char
      ensures IdentifierChar(c) <==> c in LOWER || c in UPPER || c in "0123456789.-_"
    {
      LowerCase(c);
      UpperCase(c);
      DigitOrMark(c);
    }
  }

  lemma LowerCase(c: char)
    ensures 'a' <= c <= 'z' <==> c in LOWER
  {
    if 'a' <= c <= 'z' {
      assert LOWER[c as int - 'a' as int] == c;
    }
  }

  lemma UpperCase(c: char)
    ensures 'A' <= c <= 'Z' <==> c in UPPER
  {
    if 'A' <= c <= 'Z' {
      assert UPPER[c as int - 'A' as int] == c;
    }
  }

  lemma DigitOrMark(c: char)
    ensures '0' <= c <= '9' || c == '.' || c == '-' || c == '_' <==> c in "0123456789.-_"
  {
    var s := "0123456789.-_";
    if '0' <= c <= '9' {
      assert s[c as int - '0' as int] == c;
    } else {
      assert s[10] == '.' && s[11] == '-' && s[12] == '_';
    }
  }

  // The frozen configuration: trimmed names, the generator of authored cases
  // unless another one is named, always the nonce scheme, and nothing else changed.
  lemma FrozenConfig(config: Config)
    ensures var c := FreezeConfig(config);
            && c.benchmarkId == Trim(config.benchmarkId) && c.benchmarkVersion == Trim(config.benchmarkVersion)
            && c.sourceRunId == Trim(config.sourceRunId)
            && c.generatorVersion == (if Trim(config.generatorVersion) == "" || Trim(config.generatorVersion) == "independent_eval_v3"
                                      then "private_authored_eval_v4" else Trim(config.generatorVersion))
            && c.commitmentScheme == "sha256_nonce_case_checksum_v1" && c.generatorVersion != "independent_eval_v3"
            && c.seed == config.seed && c.caseCount == config.caseCount && c.developmentCases == config.developmentCases
            && c.datasetVersionId == config.datasetVersionId
  {
    hide Trim;
    assert AUTHORED_VERSION[0] == 'p' && DEFAULT_VERSION[0] == 'i';
  }
}
