// What acceptance of benchmark artifacts means, and that freezing, publishing
// and verifying fit together.
module CommitmentProperties {
  import opened Wrappers
  import opened Sequences
  import opened IdSorting
  import opened Matching
  import opened Text
  import opened Benchmark
  import opened Authored
  import opened Artifacts

  // ---- Values by split -------------------------------------------------------

  function CaseValues(scheme: string, cases: seq<Case>): seq<string> {
    seq(|cases|, k requires 0 <= k < |cases| => CaseValue(scheme, cases[k]))
  }

  // The values of the commitment lines of a split.
  function SplitValues(scheme: string, split: string, lines: seq<CaseCommitment>): seq<string> {
    if lines == [] then []
    else
      var k := lines[|lines| - 1];
      SplitValues(scheme, split, lines[..|lines| - 1]) + if k.split == split then [LineValue(scheme, k)] else []
  }

  ghost predicate DistinctLines(scheme: string, lines: seq<CaseCommitment>) {
    forall i, j | 0 <= i < j < |lines| :: LineValue(scheme, lines[i]) != LineValue(scheme, lines[j])
  }

  lemma {:induction false} SplitValueFrom(scheme: string, split: string, lines: seq<CaseCommitment>, x: string)
    ensures x in SplitValues(scheme, split, lines)
            <==> exists k :: 0 <= k < |lines| && lines[k].split == split && LineValue(scheme, lines[k]) == x
  {
    hide LineValue;
    if lines != [] {
      var front := lines[..|lines| - 1];
      SplitValueFrom(scheme, split, front, x);
      if k: nat :| k < |lines| && lines[k].split == split && LineValue(scheme, lines[k]) == x && k < |front| {
        assert front[k] == lines[k];
      }
      if k: nat :| k < |front| && front[k].split == split && LineValue(scheme, front[k]) == x {
        assert lines[k] == front[k];
      }
    }
  }

  lemma {:induction false} SplitValuesDistinct(scheme: string, split: string, lines: seq<CaseCommitment>)
    requires DistinctLines(scheme, lines)
    ensures NoDuplicates(SplitValues(scheme, split, lines))
  {
    hide LineValue;
    if lines != [] {
      var front, k := lines[..|lines| - 1], lines[|lines| - 1];
      SplitValuesDistinct(scheme, split, front);
      SplitValueFrom(scheme, split, front, LineValue(scheme, k));
      assert LineValue(scheme, k) !in SplitValues(scheme, split, front);
    }
  }

  lemma {:induction false} SplitValuesCounted(scheme: string, split: string, lines: seq<CaseCommitment>)
    ensures |SplitValues(scheme, split, lines)| == CountIn(Tally(Splits(LineEntries(scheme, lines))), split)
  {
    if lines != [] {
      var front := lines[..|lines| - 1];
      SplitValuesCounted(scheme, split, front);
      assert Splits(LineEntries(scheme, lines)) == Splits(LineEntries(scheme, front)) + [lines[|lines| - 1].split];
      TallyGrows(Splits(LineEntries(scheme, front)), lines[|lines| - 1].split);
    }
  }

  lemma {:induction false} MatchedIsDevelopment(scheme: string, public: set<string>, lines: seq<CaseCommitment>)
    requires forall k | 0 <= k < |lines| :: lines[k].split == "development" <==> LineValue(scheme, lines[k]) in public
    ensures Matched(scheme, public, lines) == |SplitValues(scheme, "development", lines)|
  {
    hide LineValue;
    if lines != [] {
      MatchedIsDevelopment(scheme, public, lines[..|lines| - 1]);
    }
  }

  // ---- Acceptance is a bijection ---------------------------------------------

  // Accepted public artifacts: the development commitments match the public
  // cases one to one and no holdout commitment is public.
  lemma AcceptedPublicMatches(o: Oracles, d: Directory, m: Manifest)
    requires AcceptsPublic(o, d, m)
    ensures var scheme := NormalizedScheme(m.commitmentScheme);
            var development := Decoded(AsCase, d.files[m.developmentFile]);
            var lines := Decoded(AsCommitment, d.files[m.commitmentsFile]);
            && OneToOne(CaseValues(scheme, development), SplitValues(scheme, "development", lines))
            && (forall x :: !(x in CaseValues(scheme, development) && x in SplitValues(scheme, "holdout", lines)))
            && NoDuplicates(SplitValues(scheme, "holdout", lines))
            && |lines| == |SplitValues(scheme, "development", lines)| + |SplitValues(scheme, "holdout", lines)|
  {
    hide GoodCases, ManifestOf, GoodCommitment, GoodDevelopment, AsCase, AsCommitment, SplitValues, CaseValue, LineValue, Matched;
    var scheme := NormalizedScheme(m.commitmentScheme);
    var development := Decoded(AsCase, d.files[m.developmentFile]);
    var lines := Decoded(AsCommitment, d.files[m.commitmentsFile]);
    AcceptedLinesMatch(o, m, scheme, development, lines);
  }

  lemma AcceptedLinesMatch(o: Oracles, m: Manifest, scheme: string, development: seq<Case>, lines: seq<CaseCommitment>)
    requires AcceptsLines(o, m, scheme, development, lines)
    ensures OneToOne(CaseValues(scheme, development), SplitValues(scheme, "development", lines))
    ensures forall x :: !(x in CaseValues(scheme, development) && x in SplitValues(scheme, "holdout", lines))
    ensures NoDuplicates(SplitValues(scheme, "holdout", lines))
    ensures |lines| == |SplitValues(scheme, "development", lines)| + |SplitValues(scheme, "holdout", lines)|
  {
    hide ManifestOf, GoodDevelopment, CaseValue, LineValue, SplitValues, Matched, SameManifest;
    var public := PublicValues(scheme, development);
    MatchedIsDevelopment(scheme, public, lines);
    SplitValuesDistinct(scheme, "development", lines);
    SplitValuesDistinct(scheme, "holdout", lines);
    var xs, ys := CaseValues(scheme, development), SplitValues(scheme, "development", lines);
    forall y | y in ys
      ensures y in xs
    {
      SplitValueFrom(scheme, "development", lines, y);
      PublicAreCaseValues(scheme, development, y);
    }
    DrawnFromMatches(xs, ys);
    forall x | x in xs && x in SplitValues(scheme, "holdout", lines)
      ensures false
    {
      SplitValueFrom(scheme, "holdout", lines, x);
      PublicAreCaseValues(scheme, development, x);
    }
    forall k | 0 <= k < |lines|
      ensures lines[k].split == "development" || lines[k].split == "holdout"
    {
      GoodSplit(scheme, k + 1, lines[k]);
    }
    TwoSplits(scheme, lines);
  }

  lemma PublicAreCaseValues(scheme: string, cases: seq<Case>, x: string)
    ensures x in PublicValues(scheme, cases) <==> x in CaseValues(scheme, cases)
  {
    hide CaseValue;
    if x in PublicValues(scheme, cases) {
      var k :| 0 <= k < |cases| && CaseValue(scheme, cases[k]) == x;
      assert CaseValues(scheme, cases)[k] == x;
    }
  }

  lemma {:induction false} TwoSplits(scheme: string, lines: seq<CaseCommitment>)
    requires forall k | 0 <= k < |lines| :: lines[k].split == "development" || lines[k].split == "holdout"
    ensures |lines| == |SplitValues(scheme, "development", lines)| + |SplitValues(scheme, "holdout", lines)|
  {
    hide LineValue;
    if lines != [] {
      TwoSplits(scheme, lines[..|lines| - 1]);
    }
  }

  function Hashes(cases: seq<Case>): seq<string> {
    seq(|cases|, k requires 0 <= k < |cases| => cases[k].commitmentHash)
  }

  lemma SealedAreValues(lines: seq<CaseCommitment>, x: string)
    ensures x in Sealed(lines) <==> x in SplitValues(NONCE_SCHEME, "holdout", lines)
  {
    SplitValueFrom(NONCE_SCHEME, "holdout", lines, x);
  }

  // Accepted private cases of public artifacts match the holdout commitments
  // one to one.
  lemma AcceptedSealedMatches(o: Oracles, d: Directory, cases: seq<Case>)
    requires AcceptsSealed(o, d, cases) && d.manifest.value.casesFile == ""
    ensures var lines := Decoded(AsCommitment, d.files[d.manifest.value.commitmentsFile]);
            OneToOne(SplitValues(NONCE_SCHEME, "holdout", lines), Hashes(cases))
  {
    hide ReadableCases, ManifestOf, GoodCommitments, GoodDevelopment, AsCase, AsCommitment, SplitValues, PublicValues, Matched;
    var m := d.manifest.value;
    var lines := Decoded(AsCommitment, d.files[m.commitmentsFile]);
    AcceptedPublicMatches(o, d, m);
    SplitValuesCounted(NONCE_SCHEME, "holdout", lines);
    SplitCountsOf(o, m, LineEntries(NONCE_SCHEME, lines));
    forall y | y in Hashes(cases)
      ensures y in SplitValues(NONCE_SCHEME, "holdout", lines)
    {
      SealedAreValues(lines, y);
    }
    DrawnFromMatches(SplitValues(NONCE_SCHEME, "holdout", lines), Hashes(cases));
  }

  lemma SplitCountsOf(o: Oracles, m: Manifest, entries: seq<Entry>)
    ensures ManifestOf(o, ClaimedConfig(m), entries, m.approvalStatus, "").splitCounts == Tally(Splits(entries))
  {
  }

  // For any accepted directory, also one with a full cases file: the private
  // cases match the holdout lines one to one exactly when the manifest's holdout
  // count is the number of those lines, and they use up the sealed commitments
  // exactly when it is the number of distinct ones.
  lemma SealedExactlyWhenCounted(o: Oracles, d: Directory, cases: seq<Case>)
    requires AcceptsSealed(o, d, cases)
    ensures var m := d.manifest.value;
            var sealed := Sealed(Decoded(AsCommitment, d.files[m.commitmentsFile]));
            SetOf(Hashes(cases)) == sealed <==> |sealed| == CountIn(m.splitCounts, "holdout")
    ensures var m := d.manifest.value;
            var holdout := SplitValues(NONCE_SCHEME, "holdout", Decoded(AsCommitment, d.files[m.commitmentsFile]));
            OneToOne(holdout, Hashes(cases)) <==> |holdout| == CountIn(m.splitCounts, "holdout")
  {
    hide AcceptsFull, AcceptsPublic, AsCommitment, Sealed, SplitValues;
    var m := d.manifest.value;
    var sealed := Sealed(Decoded(AsCommitment, d.files[m.commitmentsFile]));
    SetCard(Hashes(cases));
    assert SetOf(Hashes(cases)) <= sealed;
    if |sealed| == |cases| {
      SubsetOfSameSize(SetOf(Hashes(cases)), sealed);
    }
    var lines := Decoded(AsCommitment, d.files[m.commitmentsFile]);
    var holdout := SplitValues(NONCE_SCHEME, "holdout", lines);
    if |holdout| == |cases| {
      forall y | y in Hashes(cases)
        ensures y in holdout
      {
        SealedAreValues(lines, y);
      }
      DrawnFromMatches(holdout, Hashes(cases));
    }
  }

  // With a full cases file the commitments file is not verified: an empty set
  // of private cases is accepted beside a sealed commitment.
  lemma FullArtifactsDoNotBindCommitments(o: Oracles)
    ensures exists d: Directory ::
              && AcceptsSealed(o, d, []) && d.manifest.value.casesFile != ""
              && Sealed(Decoded(AsCommitment, d.files[d.manifest.value.commitmentsFile])) != {}
  {
    hide ManifestOf, Accepts, AcceptsSealed, Sealed, Normalize;
    var id := Config("b", "v", "r", "g", 0, 0, 0, 1, NONCE_SCHEME);
    var m := ManifestOf(o, id, [], "approved", "cases.jsonl").(commitmentsFile := "sealed.jsonl");
    var line := CaseCommitment(1, "holdout", "t", "r", "", "h");
    var d := Directory(Some(m), map["cases.jsonl" := [], "sealed.jsonl" := [CommitmentLine(line)]]);
    UnitConfigNormal(id);
    EmptyManifest(o, id);
    EmptyFullArtifacts(o, id, m, d);
    SealedOne(d.files["sealed.jsonl"], line);
    EmptySealedAccepted(o, d, m);
  }

  lemma UnitConfigNormal(id: Config)
    requires id == Config("b", "v", "r", "g", 0, 0, 0, 1, NONCE_SCHEME)
    ensures Normalize(id) == id
  {
    TrimmedStays("b");
    TrimmedStays("v");
    TrimmedStays("r");
    TrimmedStays("g");
  }

  lemma SealedOne(raw: seq<Line>, line: CaseCommitment)
    requires raw == [CommitmentLine(line)] && line.split == "holdout"
    ensures AllDecode(AsCommitment, raw) && Sealed(Decoded(AsCommitment, raw)) != {}
  {
    var lines := Decoded(AsCommitment, raw);
    assert lines[0].split == "holdout" && lines[0].commitmentHash in Sealed(lines);
  }

  lemma EmptyManifest(o: Oracles, id: Config)
    ensures var m := ManifestOf(o, id, [], "approved", "cases.jsonl");
            && m.splitCounts == map[] && m.casesFile == "cases.jsonl" && m.status == "frozen"
            && m.approvalStatus == "approved" && m.datasetVersionId == id.datasetVersionId
            && ClaimedConfig(m) == id.(caseCount := 0, developmentCases := 0, commitmentScheme := NormalizedScheme(id.commitmentScheme))
            && m.commitmentScheme == id.commitmentScheme
  {
    EmptySummary();
  }

  lemma EmptyFullArtifacts(o: Oracles, id: Config, m: Manifest, d: Directory)
    requires Normalize(id) == id && id.commitmentScheme == NONCE_SCHEME && id.datasetVersionId > 0
    requires id.caseCount == 0 && id.developmentCases == 0
    requires m == ManifestOf(o, id, [], "approved", "cases.jsonl").(commitmentsFile := "sealed.jsonl")
    requires d.manifest == Some(m) && "cases.jsonl" in d.files && d.files["cases.jsonl"] == []
    ensures Accepts(o, d) && CountIn(m.splitCounts, "holdout") == 0 && m.casesFile != ""
  {
    hide ManifestOf, Normalize;
    EmptyManifest(o, id);
    assert "cases.jsonl"[0] == 'c' && "manifest.json"[0] == 'm';
    assert CaseEntries(id.commitmentScheme, Decoded(AsCase, d.files["cases.jsonl"])) == [];
  }

  lemma EmptySealedAccepted(o: Oracles, d: Directory, m: Manifest)
    requires Accepts(o, d) && d.manifest == Some(m) && CountIn(m.splitCounts, "holdout") == 0
    requires m.commitmentScheme == NONCE_SCHEME && Exists(d, m.commitmentsFile)
    requires AllDecode(AsCommitment, d.files[m.commitmentsFile])
    ensures AcceptsSealed(o, d, [])
  {
    hide Accepts, Sealed;
  }

  // ---- Freeze, publish, verify -----------------------------------------------

  lemma {:induction false} SplitMembers(split: string, cases: seq<Case>, c: Case)
    ensures c in OfSplit(split, cases) <==> c in cases && c.split == split
  {
    if cases != [] {
      var front := cases[..|cases| - 1];
      SplitMembers(split, front, c);
      assert cases == front + [cases[|cases| - 1]];
    }
  }

  lemma {:induction false} SplitCounted(scheme: string, split: string, cases: seq<Case>)
    ensures |OfSplit(split, cases)| == CountIn(Tally(Splits(CaseEntries(scheme, cases))), split)
  {
    if cases != [] {
      var front := cases[..|cases| - 1];
      SplitCounted(scheme, split, front);
      assert Splits(CaseEntries(scheme, cases)) == Splits(CaseEntries(scheme, front)) + [cases[|cases| - 1].split];
      TallyGrows(Splits(CaseEntries(scheme, front)), cases[|cases| - 1].split);
    }
  }

  // What makes a frozen list of cases verifiable.
  ghost predicate Sealable(o: Oracles, cases: seq<Case>) {
    && DistinctCases(cases)
    && forall k | 0 <= k < |cases| :: SealedCase(o, cases[k])
  }

  ghost predicate SealedCase(o: Oracles, c: Case) {
    && (c.split == "development" || c.split == "holdout")
    && c.taskType != "" && c.reviewStatus != "" && c.commitmentNonce != ""
    && c.caseChecksum == ChecksumCase(o, c)
    && c.commitmentHash == CommitmentHash(o, c.commitmentNonce, c.caseChecksum)
    && ValidSha256(c.commitmentHash)
  }

  lemma FrozenSealable(o: Oracles, config: Config, authored: seq<Case>)
    requires Sound(o) && Freezable(o, config, authored)
    ensures Sealable(o, FrozenCases(o, FreezeConfig(config), authored))
  {
    hide FrozenCase, FreezeConfig, ValidConfig, DistinctCases, SealedCase, Sound;
    var c := FreezeConfig(config);
    var cases := FrozenCases(o, c, authored);
    forall k | 0 <= k < |cases|
      ensures SealedCase(o, cases[k])
    {
      FrozenCaseFacts(o, c, k, authored[k]);
      SealedCaseFrom(o, cases[k]);
    }
  }

  lemma SealedCaseFrom(o: Oracles, c: Case)
    requires c.split == "development" || c.split == "holdout"
    requires c.taskType != "" && c.reviewStatus != "" && c.commitmentNonce != ""
    requires c.caseChecksum == ChecksumCase(o, c)
    requires c.commitmentHash == CommitmentHash(o, c.commitmentNonce, c.caseChecksum) && ValidSha256(c.commitmentHash)
    ensures SealedCase(o, c)
  {
  }

  lemma SealablePrefix(o: Oracles, cases: seq<Case>)
    requires Sealable(o, cases) && cases != []
    ensures var n := |cases| - 1;
            && Sealable(o, cases[..n]) && NewAt(cases[..n], cases[n]) && SealedCase(o, cases[n])
  {
    hide SealedCase;
    var n := |cases| - 1;
    DistinctPrefix(cases, n);
    assert cases == cases[..n] + [cases[n]];
    DistinctGrows(cases[..n], cases[n]);
  }

  // The cases of one split read back as verified.
  lemma {:induction false} SplitReadable(o: Oracles, split: string, cases: seq<Case>)
    requires Sealable(o, cases)
    ensures GoodCases(o, split, OfSplit(split, cases)) && DistinctHashes(OfSplit(split, cases))
    ensures forall c | c in OfSplit(split, cases) :: SealedCase(o, c)
  {
    hide SealedCase, GoodCase, Sealable, NewAt;
    if cases != [] {
      var n := |cases| - 1;
      var front, c := cases[..n], cases[n];
      SealablePrefix(o, cases);
      SplitReadable(o, split, front);
      if c.split == split {
        var part := OfSplit(split, front);
        forall i | 0 <= i < |part|
          ensures part[i].query != c.query && part[i].caseChecksum != c.caseChecksum && part[i].commitmentHash != c.commitmentHash
        {
          SplitMembers(split, front, part[i]);
          NewDiffers(front, c, part[i]);
        }
        SealedIsGood(o, split, c);
        assert OfSplit(split, cases) == part + [c];
      } else {
        assert OfSplit(split, cases) == OfSplit(split, front);
      }
    }
  }

  lemma NewDiffers(cases: seq<Case>, c: Case, x: Case)
    requires NewAt(cases, c) && x in cases
    ensures x.query != c.query && x.caseChecksum != c.caseChecksum && x.commitmentHash != c.commitmentHash
  {
  }

  lemma SealedIsGood(o: Oracles, split: string, c: Case)
    requires SealedCase(o, c) && c.split == split
    ensures GoodCase(o, split, c) && GoodDevelopment(o, NONCE_SCHEME, c)
  {
    hide ValidSha256;
    assert ValidSha256(c.commitmentHash);
    assert c.commitmentHash != "" by { NotEmpty(c.commitmentHash); }
  }

  lemma NotEmpty(s: string)
    requires ValidSha256(s)
    ensures s != ""
  {
  }

  // The commitment lines of sealable cases.
  lemma LinesGood(o: Oracles, cases: seq<Case>)
    requires Sealable(o, cases)
    ensures var public := PublicValues(NONCE_SCHEME, OfSplit("development", cases));
            var lines := CommitmentsOf(NONCE_SCHEME, cases);
            && GoodCommitments(NONCE_SCHEME, public, lines)
            && Matched(NONCE_SCHEME, public, lines) == |OfSplit("development", cases)|
            && LineEntries(NONCE_SCHEME, lines) == CaseEntries(NONCE_SCHEME, cases)
  {
    hide ValidSha256, Matched, OfSplit, GoodCommitments, PublicValues, SealedCase, Tally;
    var public := PublicValues(NONCE_SCHEME, OfSplit("development", cases));
    var lines := CommitmentsOf(NONCE_SCHEME, cases);
    CommitmentsGood(o, cases);
    assert LineEntries(NONCE_SCHEME, lines) == CaseEntries(NONCE_SCHEME, cases);
    MatchedOfGood(public, lines);
    SplitValuesCounted(NONCE_SCHEME, "development", lines);
    SplitCounted(NONCE_SCHEME, "development", cases);
  }

  lemma MatchedOfGood(public: set<string>, lines: seq<CaseCommitment>)
    requires GoodCommitments(NONCE_SCHEME, public, lines)
    ensures Matched(NONCE_SCHEME, public, lines) == |SplitValues(NONCE_SCHEME, "development", lines)|
  {
    hide Matched, SplitValues, GoodCommitment;
    MatchedIsDevelopment(NONCE_SCHEME, public, lines);
  }

  lemma CommitmentsGood(o: Oracles, cases: seq<Case>)
    requires Sealable(o, cases)
    ensures GoodCommitments(NONCE_SCHEME, PublicValues(NONCE_SCHEME, OfSplit("development", cases)), CommitmentsOf(NONCE_SCHEME, cases))
  {
    hide ValidSha256, OfSplit, PublicValues;
    var public := PublicValues(NONCE_SCHEME, OfSplit("development", cases));
    var lines := CommitmentsOf(NONCE_SCHEME, cases);
    forall k | 0 <= k < |lines|
      ensures GoodCommitment(NONCE_SCHEME, k + 1, lines[k])
      ensures lines[k].split == "development" <==> LineValue(NONCE_SCHEME, lines[k]) in public
      ensures LineValue(NONCE_SCHEME, lines[k]) == cases[k].commitmentHash
    {
      assert SealedCase(o, cases[k]);
      PublicExactly(o, cases, k);
    }
  }

  lemma PublicExactly(o: Oracles, cases: seq<Case>, k: nat)
    requires Sealable(o, cases) && k < |cases|
    ensures cases[k].split == "development"
            <==> cases[k].commitmentHash in PublicValues(NONCE_SCHEME, OfSplit("development", cases))
  {
    hide SealedCase;
    var development := OfSplit("development", cases);
    SplitMembers("development", cases, cases[k]);
    if cases[k].split == "development" {
      var i :| 0 <= i < |development| && development[i] == cases[k];
      assert CaseValue(NONCE_SCHEME, development[i]) == cases[k].commitmentHash;
    }
    if cases[k].commitmentHash in PublicValues(NONCE_SCHEME, development) {
      var i :| 0 <= i < |development| && CaseValue(NONCE_SCHEME, development[i]) == cases[k].commitmentHash;
      SplitMembers("development", cases, development[i]);
      var j :| 0 <= j < |cases| && cases[j] == development[i];
      assert j == k;
    }
  }

  lemma FilesReadBack(d: Directory, b: Frozen)
    ensures var p := Published(d, b);
            var m := PublicManifest(b.manifest);
            && p.manifest == Some(m) && Exists(p, m.developmentFile) && Exists(p, m.commitmentsFile)
            && m.developmentFile != m.commitmentsFile && LocalFilename(m.developmentFile) && LocalFilename(m.commitmentsFile)
            && AllDecode(AsCase, p.files[m.developmentFile]) && AllDecode(AsCommitment, p.files[m.commitmentsFile])
            && Decoded(AsCase, p.files[m.developmentFile]) == OfSplit("development", b.cases)
            && Decoded(AsCommitment, p.files[m.commitmentsFile]) == CommitmentsOf(b.manifest.commitmentScheme, b.cases)
  {
    hide OfSplit, CommitmentOf;
    NamesDiffer();
  }

  lemma NamesDiffer()
    ensures "development.jsonl" != "case_commitments.jsonl" && "development.jsonl" != "manifest.json"
    ensures "case_commitments.jsonl" != "manifest.json"
    ensures LocalFilename("development.jsonl") && LocalFilename("case_commitments.jsonl")
  {
    assert "development.jsonl"[0] == 'd' && "case_commitments.jsonl"[0] == 'c' && "manifest.json"[0] == 'm';
  }

  // Round trip: what FreezeAuthored returns, published anywhere, verifies.
  lemma FrozenVerifies(o: Oracles, config: Config, authored: seq<Case>, d: Directory, b: Frozen)
    requires Sound(o) && Freezable(o, config, authored)
    requires b.config == FreezeConfig(config) && b.cases == FrozenCases(o, b.config, authored)
    requires b.manifest == ManifestOf(o, b.config, CaseEntries(NONCE_SCHEME, b.cases), "approved", "cases.jsonl")
    ensures Accepts(o, Published(d, b)) && Published(d, b).manifest.value.casesFile == ""
  {
    hide FrozenCases, OfSplit, Matched, GoodCommitments, GoodCases, GoodDevelopment, Published, SummaryOf, Sealable, FreezeConfig,
         PublicValues, AllFreeze;
    FreezeConfigNormal(config);
    FrozenSealable(o, config, authored);
    FilesReadBack(d, b);
    LinesGood(o, b.cases);
    SplitReadable(o, "development", b.cases);
    var development := OfSplit("development", b.cases);
    forall k | 0 <= k < |development|
      ensures GoodDevelopment(o, NONCE_SCHEME, development[k])
    {
      SplitMembers("development", b.cases, development[k]);
      SealedIsGood(o, "development", development[k]);
    }
    SplitCounted(NONCE_SCHEME, "development", b.cases);
    SplitCountsKept(o, b);
    assert AcceptsLines(o, PublicManifest(b.manifest), NONCE_SCHEME, development, CommitmentsOf(NONCE_SCHEME, b.cases));
  }

  lemma SplitCountsKept(o: Oracles, b: Frozen)
    requires b.manifest == ManifestOf(o, b.config, CaseEntries(NONCE_SCHEME, b.cases), "approved", "cases.jsonl")
    ensures b.manifest.splitCounts == Tally(Splits(CaseEntries(NONCE_SCHEME, b.cases)))
  {
  }

  // ... and the holdout cases kept back are accepted against the publication.
  lemma FrozenSealedVerifies(o: Oracles, config: Config, authored: seq<Case>, d: Directory, b: Frozen)
    requires Sound(o) && Freezable(o, config, authored)
    requires b.config == FreezeConfig(config) && b.cases == FrozenCases(o, b.config, authored)
    requires b.manifest == ManifestOf(o, b.config, CaseEntries(NONCE_SCHEME, b.cases), "approved", "cases.jsonl")
    ensures AcceptsSealed(o, Published(d, b), OfSplit("holdout", b.cases))
  {
    hide FrozenCases, OfSplit, Accepts, GoodCases, Published, Sealable, FreezeConfig, AllFreeze, Sealed, SealedCase, ManifestOf;
    FrozenVerifies(o, config, authored, d, b);
    FreezeConfigNormal(config);
    assert b.manifest.commitmentScheme == NONCE_SCHEME by { SchemeKept(o, b); }
    FrozenSealable(o, config, authored);
    FilesReadBack(d, b);
    SplitReadable(o, "holdout", b.cases);
    SplitCounted(NONCE_SCHEME, "holdout", b.cases);
    SplitCountsKept(o, b);
    var holdout := OfSplit("holdout", b.cases);
    var lines := CommitmentsOf(NONCE_SCHEME, b.cases);
    forall k | 0 <= k < |holdout|
      ensures GoodPrivate(o, Sealed(lines), holdout[k])
    {
      SplitMembers("holdout", b.cases, holdout[k]);
      HoldoutSealed(o, b.cases, holdout[k]);
    }
  }

  lemma SchemeKept(o: Oracles, b: Frozen)
    requires b.manifest == ManifestOf(o, b.config, CaseEntries(NONCE_SCHEME, b.cases), "approved", "cases.jsonl")
    ensures b.manifest.commitmentScheme == b.config.commitmentScheme
  {
  }

  lemma HoldoutSealed(o: Oracles, cases: seq<Case>, c: Case)
    requires c in cases && c.split == "holdout" && SealedCase(o, c)
    ensures GoodPrivate(o, Sealed(CommitmentsOf(NONCE_SCHEME, cases)), c)
  {
    var lines := CommitmentsOf(NONCE_SCHEME, cases);
    var k :| 0 <= k < |cases| && cases[k] == c;
    assert lines[k].split == "holdout" && lines[k].commitmentHash == c.commitmentHash;
  }
}
