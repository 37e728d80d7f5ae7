// Writing a benchmark's public artifacts and verifying a directory of
// artifacts (evalbench/artifacts.go).
module Artifacts {
  import opened Wrappers
  import opened Sequences
  import opened Benchmark
  import opened Authored

  // One line of a JSON Lines file, by the record it was written from.
  datatype Line = CaseLine(c: Case) | CommitmentLine(k: CaseCommitment) | Malformed

  // A directory: its manifest, if there is one that decodes, and its other files.
  datatype Directory = Directory(manifest: Option<Manifest>, files: map<string, seq<Line>>)

  datatype VerifyError =
    | NoManifest
    | BadManifest
    | MissingFile
    | BadLine(line: nat)
    | CountMismatch
    | ManifestMismatch
    | NotNonceCommitted
    | BadPrivateCase(ordinal: nat)

  // Decoding keeps the fields both records have and drops the others.
  function AsCase(line: Line): Option<Case> {
    match line
    case CaseLine(c) => Some(c)
    case CommitmentLine(k) =>
      Some(Case(k.split, k.taskType, "", "", [], [], "", k.reviewStatus, k.caseChecksum, "", k.commitmentHash, map[]))
    case Malformed => None
  }

  function AsCommitment(line: Line): Option<CaseCommitment> {
    match line
    case CaseLine(c) => Some(CaseCommitment(0, c.split, c.taskType, c.reviewStatus, c.caseChecksum, c.commitmentHash))
    case CommitmentLine(k) => Some(k)
    case Malformed => None
  }

  predicate LocalFilename(name: string) {
    name != "" && (name == "/" || '/' !in name)
  }

  // The manifest is not a JSON Lines file.
  predicate Exists(d: Directory, name: string) {
    name != "manifest.json" && name in d.files
  }

  predicate AllDecode<T>(f: Line -> Option<T>, lines: seq<Line>) {
    forall k | 0 <= k < |lines| :: f(lines[k]).Some?
  }

  function Decoded<T>(f: Line -> Option<T>, lines: seq<Line>): seq<T>
    requires AllDecode(f, lines)
  {
    seq(|lines|, k requires 0 <= k < |lines| => f(lines[k]).value)
  }

  // ---- Writing ---------------------------------------------------------------

  function OfSplit(split: string, cases: seq<Case>): seq<Case> {
    if cases == [] then []
    else OfSplit(split, cases[..|cases| - 1]) + if cases[|cases| - 1].split == split then [cases[|cases| - 1]] else []
  }

  function CommitmentOf(scheme: string, ordinal: nat, c: Case): CaseCommitment {
    if NormalizedScheme(scheme) == NONCE_SCHEME
    then CaseCommitment(ordinal, c.split, c.taskType, c.reviewStatus, "", c.commitmentHash)
    else CaseCommitment(ordinal, c.split, c.taskType, c.reviewStatus, c.caseChecksum, "")
  }

  function CommitmentsOf(scheme: string, cases: seq<Case>): seq<CaseCommitment> {
    seq(|cases|, k requires 0 <= k < |cases| => CommitmentOf(scheme, k + 1, cases[k]))
  }

  function PublicManifest(m: Manifest): Manifest {
    m.(artifactScope := PUBLIC_SCOPE, casesFile := "", developmentFile := "development.jsonl",
       commitmentsFile := "case_commitments.jsonl")
  }

  function Published(d: Directory, b: Frozen): Directory {
    var m := PublicManifest(b.manifest);
    Directory(Some(m),
              d.files[m.developmentFile := Map((c: Case) => CaseLine(c), OfSplit("development", b.cases))]
                     [m.commitmentsFile := Map((k: CaseCommitment) => CommitmentLine(k), CommitmentsOf(b.manifest.commitmentScheme, b.cases))])
  }

  method WritePublicArtifacts(d: Directory, b: Frozen) returns (r: Directory)
    ensures r == Published(d, b)
  {
    var development: seq<Case> := [];
    var commitments: seq<CaseCommitment> := [];
    var scheme := b.manifest.commitmentScheme;
    for index := 0 to |b.cases|
      invariant development == OfSplit("development", b.cases[..index])
      invariant commitments == CommitmentsOf(scheme, b.cases)[..index]
    {
      var evalCase := b.cases[index];
      Extend(b.cases, index);
      if evalCase.split == "development" {
        development := development + [evalCase];
      }
      var commitment := CaseCommitment(index + 1, evalCase.split, evalCase.taskType, evalCase.reviewStatus, "", "");
      if NormalizedScheme(scheme) == NONCE_SCHEME {
        commitment := commitment.(commitmentHash := evalCase.commitmentHash);
      } else {
        commitment := commitment.(caseChecksum := evalCase.caseChecksum);
      }
      commitments := commitments + [commitment];
    }
    assert b.cases[..|b.cases|] == b.cases;
    assert commitments == CommitmentsOf(scheme, b.cases);
    var m := PublicManifest(b.manifest);
    var files := d.files[m.developmentFile := Map((c: Case) => CaseLine(c), development)];
    files := files[m.commitmentsFile := Map((k: CaseCommitment) => CommitmentLine(k), commitments)];
    r := Directory(Some(m), files);
  }

  // ---- Reading cases ---------------------------------------------------------

  // A case carries its own checksum and, if it has a commitment at all, a correct one.
  predicate GoodCase(o: Oracles, requiredSplit: string, c: Case) {
    && (requiredSplit == "" || c.split == requiredSplit)
    && ChecksumCase(o, c) == c.caseChecksum
    && (c.commitmentNonce != "" || c.commitmentHash != "" ==>
          && c.commitmentNonce != "" && ValidSha256(c.commitmentHash)
          && c.commitmentHash == CommitmentHash(o, c.commitmentNonce, c.caseChecksum))
  }

  ghost predicate GoodCases(o: Oracles, requiredSplit: string, cases: seq<Case>) {
    && (forall k | 0 <= k < |cases| :: GoodCase(o, requiredSplit, cases[k]))
    && (forall i, j | 0 <= i < j < |cases| ::
          cases[i].caseChecksum != cases[j].caseChecksum && cases[i].query != cases[j].query)
  }

  ghost predicate ReadableCases(o: Oracles, d: Directory, name: string, requiredSplit: string) {
    && Exists(d, name) && AllDecode(AsCase, d.files[name])
    && GoodCases(o, requiredSplit, Decoded(AsCase, d.files[name]))
  }

  ghost predicate SeenCases(cases: seq<Case>, checksums: set<string>, queries: set<string>) {
    SeenBy(ChecksumOf, cases, checksums) && SeenBy(QueryOf, cases, queries)
  }

  lemma GoodCasesGrow(o: Oracles, split: string, cases: seq<Case>, checksums: set<string>, queries: set<string>, c: Case)
    requires SeenCases(cases, checksums, queries)
    ensures GoodCases(o, split, cases + [c])
            <==> GoodCases(o, split, cases) && GoodCase(o, split, c) && c.caseChecksum !in checksums && c.query !in queries
  {
    hide GoodCase;
    var more := cases + [c];
    assert more[|cases|] == c;
    assert forall i | 0 <= i < |cases| :: more[i] == cases[i];
    if GoodCases(o, split, more) {
      assert more[..|cases|] == cases;
      GoodCasesPrefix(o, split, more, |cases|);
    }
  }

  lemma GoodCasesPrefix(o: Oracles, split: string, cases: seq<Case>, k: nat)
    requires k <= |cases| && GoodCases(o, split, cases)
    ensures GoodCases(o, split, cases[..k])
  {
    hide GoodCase;
  }

  lemma FirstCasesGood(o: Oracles, split: string, lines: seq<Line>, cases: seq<Case>)
    requires |cases| <= |lines| && forall i | 0 <= i < |cases| :: AsCase(lines[i]) == Some(cases[i])
    ensures AllDecode(AsCase, lines) && GoodCases(o, split, Decoded(AsCase, lines)) ==> GoodCases(o, split, cases)
  {
    hide GoodCases, AsCase;
    if AllDecode(AsCase, lines) {
      assert Decoded(AsCase, lines)[..|cases|] == cases;
      if GoodCases(o, split, Decoded(AsCase, lines)) {
        GoodCasesPrefix(o, split, Decoded(AsCase, lines), |cases|);
      }
    }
  }

  method ReadVerifiedCases(o: Oracles, d: Directory, name: string, requiredSplit: string) returns (r: Result<seq<Case>, VerifyError>)
    ensures r.Success? <==> ReadableCases(o, d, name, requiredSplit)
    ensures r.Success? ==> r.value == Decoded(AsCase, d.files[name])
  {
    hide GoodCases, GoodCase, SeenBy;
    if !Exists(d, name) {
      return Failure(MissingFile);
    }
    var lines := d.files[name];
    var cases: seq<Case> := [];
    var checksums: set<string>, queries: set<string> := {}, {};
    assert SeenCases(cases, checksums, queries) && GoodCases(o, requiredSplit, cases) by { NoCases(o, requiredSplit); }
    for k := 0 to |lines|
      invariant |cases| == k && forall i | 0 <= i < k :: AsCase(lines[i]) == Some(cases[i])
      invariant SeenCases(cases, checksums, queries) && GoodCases(o, requiredSplit, cases)
    {
      var decoded := AsCase(lines[k]);
      if decoded.None? {
        return Failure(BadLine(k + 1));
      }
      var evalCase := decoded.value;
      GoodCasesGrow(o, requiredSplit, cases, checksums, queries, evalCase);
      if !GoodCase(o, requiredSplit, evalCase) || evalCase.caseChecksum in checksums || evalCase.query in queries {
        FirstCasesGood(o, requiredSplit, lines, cases + [evalCase]);
        return Failure(BadLine(k + 1));
      }
      SeenGrows(ChecksumOf, cases, checksums, evalCase);
      SeenGrows(QueryOf, cases, queries, evalCase);
      checksums := checksums + {evalCase.caseChecksum};
      queries := queries + {evalCase.query};
      cases := cases + [evalCase];
    }
    assert AllDecode(AsCase, lines) && cases == Decoded(AsCase, lines);
    return Success(cases);
  }

  lemma NoCases(o: Oracles, split: string)
    ensures SeenCases([], {}, {}) && GoodCases(o, split, [])
  {
  }

  // ---- Verifying public artifacts --------------------------------------------

  function CaseValue(scheme: string, c: Case): string {
    CaseEntry(scheme, c).commitment
  }

  function LineValue(scheme: string, k: CaseCommitment): string {
    LineEntry(scheme, k).commitment
  }

  predicate GoodDevelopment(o: Oracles, scheme: string, c: Case) {
    scheme == NONCE_SCHEME ==>
      c.commitmentNonce != "" && c.commitmentHash != "" && c.commitmentHash == CommitmentHash(o, c.commitmentNonce, c.caseChecksum)
  }

  function PublicValues(scheme: string, cases: seq<Case>): set<string> {
    set k | 0 <= k < |cases| :: CaseValue(scheme, cases[k])
  }

  function LineValues(scheme: string, lines: seq<CaseCommitment>): set<string> {
    set k | 0 <= k < |lines| :: LineValue(scheme, lines[k])
  }

  predicate GoodCommitment(scheme: string, ordinal: nat, k: CaseCommitment) {
    && k.ordinal == ordinal
    && (k.split == "development" || k.split == "holdout")
    && (if scheme == NONCE_SCHEME then k.caseChecksum == "" else k.commitmentHash == "")
    && k.taskType != "" && k.reviewStatus != "" && ValidSha256(LineValue(scheme, k))
  }

  // Line k is well formed, new, and public exactly if it is a development line.
  ghost predicate GoodCommitments(scheme: string, public: set<string>, lines: seq<CaseCommitment>) {
    && (forall k | 0 <= k < |lines| ::
          && GoodCommitment(scheme, k + 1, lines[k])
          && (lines[k].split == "development" <==> LineValue(scheme, lines[k]) in public))
    && (forall i, j | 0 <= i < j < |lines| :: LineValue(scheme, lines[i]) != LineValue(scheme, lines[j]))
  }

  function Matched(scheme: string, public: set<string>, lines: seq<CaseCommitment>): nat {
    if lines == [] then 0
    else Matched(scheme, public, lines[..|lines| - 1]) + if LineValue(scheme, lines[|lines| - 1]) in public then 1 else 0
  }

  ghost predicate AcceptsPublic(o: Oracles, d: Directory, m: Manifest) {
    var scheme := NormalizedScheme(m.commitmentScheme);
    && m.artifactScope == PUBLIC_SCOPE
    && LocalFilename(m.developmentFile) && LocalFilename(m.commitmentsFile) && m.developmentFile != m.commitmentsFile
    && ReadableCases(o, d, m.developmentFile, "development")
    && Exists(d, m.commitmentsFile) && AllDecode(AsCommitment, d.files[m.commitmentsFile])
    && var development := Decoded(AsCase, d.files[m.developmentFile]);
       var lines := Decoded(AsCommitment, d.files[m.commitmentsFile]);
       AcceptsLines(o, m, scheme, development, lines)
  }

  ghost predicate AcceptsLines(o: Oracles, m: Manifest, scheme: string, development: seq<Case>, lines: seq<CaseCommitment>) {
    var public := PublicValues(scheme, development);
    && (forall k | 0 <= k < |development| :: GoodDevelopment(o, scheme, development[k]))
    && GoodCommitments(scheme, public, lines)
    && |lines| == m.caseCount
    && Matched(scheme, public, lines) == |development|
    && |development| == CountIn(m.splitCounts, "development")
    && SameManifest(ManifestOf(o, ClaimedConfig(m), LineEntries(scheme, lines), m.approvalStatus, ""), m)
  }

  lemma GoodCommitmentsGrow(scheme: string, public: set<string>, lines: seq<CaseCommitment>, k: CaseCommitment)
    ensures GoodCommitments(scheme, public, lines + [k])
            <==> && GoodCommitments(scheme, public, lines)
                 && GoodCommitment(scheme, |lines| + 1, k)
                 && LineValue(scheme, k) !in LineValues(scheme, lines)
                 && (k.split == "development" <==> LineValue(scheme, k) in public)
  {
    hide LineValue, GoodCommitment;
    var more := lines + [k];
    assert more[|lines|] == k;
    assert forall i | 0 <= i < |lines| :: more[i] == lines[i];
    if GoodCommitments(scheme, public, more) {
      assert more[..|lines|] == lines;
      GoodCommitmentsPrefix(scheme, public, more, |lines|);
    }
  }

  lemma GoodCommitmentsPrefix(scheme: string, public: set<string>, lines: seq<CaseCommitment>, k: nat)
    requires k <= |lines| && GoodCommitments(scheme, public, lines)
    ensures GoodCommitments(scheme, public, lines[..k])
  {
    hide LineValue, GoodCommitment;
  }

  lemma LineValuesGrow(scheme: string, lines: seq<CaseCommitment>, k: CaseCommitment)
    ensures LineValues(scheme, lines + [k]) == LineValues(scheme, lines) + {LineValue(scheme, k)}
  {
    hide LineValue;
    var more := lines + [k];
    assert more[|lines|] == k;
    assert forall i | 0 <= i < |lines| :: more[i] == lines[i];
    forall x
      ensures x in LineValues(scheme, more) <==> x in LineValues(scheme, lines) + {LineValue(scheme, k)}
    {
      if x in LineValues(scheme, lines) {
        var i :| 0 <= i < |lines| && LineValue(scheme, lines[i]) == x;
        assert LineValue(scheme, more[i]) == x;
      }
      if x == LineValue(scheme, k) {
        assert LineValue(scheme, more[|lines|]) == x;
      }
    }
  }

  // The first loop of verifyPublicArtifacts: the values of the public cases.
  method CollectPublic(o: Oracles, scheme: string, development: seq<Case>) returns (r: Option<set<string>>)
    ensures r.Some? <==> forall k | 0 <= k < |development| :: GoodDevelopment(o, scheme, development[k])
    ensures r.Some? ==> r.value == PublicValues(scheme, development)
  {
    hide GoodDevelopment, CaseValue;
    var public: set<string> := {};
    for k := 0 to |development|
      invariant forall i | 0 <= i < k :: GoodDevelopment(o, scheme, development[i])
      invariant public == set i | 0 <= i < k :: CaseValue(scheme, development[i])
    {
      if !GoodDevelopment(o, scheme, development[k]) {
        return None;
      }
      public := public + {CaseValue(scheme, development[k])};
    }
    return Some(public);
  }

  // The second loop: scan the commitments file.
  method ScanCommitments(scheme: string, public: set<string>, raw: seq<Line>) returns (r: Result<(seq<CaseCommitment>, nat), VerifyError>)
    ensures r.Success? <==> AllDecode(AsCommitment, raw) && GoodCommitments(scheme, public, Decoded(AsCommitment, raw))
    ensures r.Success? ==> r.value.0 == Decoded(AsCommitment, raw) && r.value.1 == Matched(scheme, public, r.value.0)
  {
    hide GoodCommitments, GoodCommitment, LineValue, LineValues;
    var lines: seq<CaseCommitment> := [];
    var seen: set<string> := {};
    var matched := 0;
    assert GoodCommitments(scheme, public, lines) && seen == LineValues(scheme, lines) by { NoLines(scheme, public); }
    for k := 0 to |raw|
      invariant |lines| == k && forall i | 0 <= i < k :: AsCommitment(raw[i]) == Some(lines[i])
      invariant GoodCommitments(scheme, public, lines) && seen == LineValues(scheme, lines)
      invariant matched == Matched(scheme, public, lines)
    {
      var decoded := AsCommitment(raw[k]);
      if decoded.None? {
        return Failure(BadLine(k + 1));
      }
      var commitment := decoded.value;
      var value := LineValue(scheme, commitment);
      var isPublic := value in public;
      GoodCommitmentsGrow(scheme, public, lines, commitment);
      LineValuesGrow(scheme, lines, commitment);
      if !GoodCommitment(scheme, k + 1, commitment) || value in seen
         || (commitment.split == "development" && !isPublic) || (commitment.split == "holdout" && isPublic) {
        FirstLinesGood(scheme, public, raw, lines + [commitment]);
        return Failure(BadLine(k + 1));
      }
      GoodSplit(scheme, k + 1, commitment);
      if isPublic {
        matched := matched + 1;
      }
      assert (lines + [commitment])[..k] == lines;
      seen := seen + {value};
      lines := lines + [commitment];
    }
    assert AllDecode(AsCommitment, raw) && lines == Decoded(AsCommitment, raw);
    return Success((lines, matched));
  }

  lemma GoodSplit(scheme: string, ordinal: nat, k: CaseCommitment)
    requires GoodCommitment(scheme, ordinal, k)
    ensures k.split == "development" || k.split == "holdout"
  {
  }

  lemma FirstLinesGood(scheme: string, public: set<string>, raw: seq<Line>, lines: seq<CaseCommitment>)
    requires |lines| <= |raw| && forall i | 0 <= i < |lines| :: AsCommitment(raw[i]) == Some(lines[i])
    ensures AllDecode(AsCommitment, raw) && GoodCommitments(scheme, public, Decoded(AsCommitment, raw))
            ==> GoodCommitments(scheme, public, lines)
  {
    hide GoodCommitments, AsCommitment;
    if AllDecode(AsCommitment, raw) {
      assert Decoded(AsCommitment, raw)[..|lines|] == lines;
      if GoodCommitments(scheme, public, Decoded(AsCommitment, raw)) {
        GoodCommitmentsPrefix(scheme, public, Decoded(AsCommitment, raw), |lines|);
      }
    }
  }

  lemma NoLines(scheme: string, public: set<string>)
    ensures GoodCommitments(scheme, public, []) && LineValues(scheme, []) == {} && Matched(scheme, public, []) == 0
  {
  }

  method VerifyPublicArtifacts(o: Oracles, d: Directory, m: Manifest) returns (r: Result<Manifest, VerifyError>)
    ensures r.Success? <==> AcceptsPublic(o, d, m)
    ensures r.Success? ==> r.value == m
  {
    hide ReadableCases, GoodCommitments, GoodDevelopment, ManifestOf, PublicValues, Matched, GoodCase;
    if m.artifactScope != PUBLIC_SCOPE || !LocalFilename(m.developmentFile) || !LocalFilename(m.commitmentsFile)
       || m.developmentFile == m.commitmentsFile {
      return Failure(BadManifest);
    }
    var scheme := NormalizedScheme(m.commitmentScheme);
    var cases := ReadVerifiedCases(o, d, m.developmentFile, "development");
    if cases.Failure? {
      return Failure(cases.error);
    }
    var development := cases.value;
    var public := CollectPublic(o, scheme, development);
    if public.None? {
      return Failure(CountMismatch);
    }
    if !Exists(d, m.commitmentsFile) {
      return Failure(MissingFile);
    }
    var scanned := ScanCommitments(scheme, public.value, d.files[m.commitmentsFile]);
    if scanned.Failure? {
      return Failure(scanned.error);
    }
    var (lines, matched) := scanned.value;
    if |lines| != m.caseCount {
      return Failure(CountMismatch);
    }
    if matched != |development| || |development| != CountIn(m.splitCounts, "development") {
      return Failure(CountMismatch);
    }
    var rebuilt := BuildManifestFromCommitments(o, m, lines);
    if !SameManifest(rebuilt, m) {
      return Failure(ManifestMismatch);
    }
    return Success(m);
  }

  // ---- Verifying full artifacts and any directory ----------------------------

  ghost predicate AcceptsFull(o: Oracles, d: Directory, m: Manifest) {
    var c := Normalize(ClaimedConfig(m));
    && LocalFilename(m.casesFile)
    && ReadableCases(o, d, m.casesFile, "")
    && SameManifest(ManifestOf(o, c, CaseEntries(c.commitmentScheme, Decoded(AsCase, d.files[m.casesFile])), "approved", "cases.jsonl"), m)
  }

  method VerifyFullArtifacts(o: Oracles, d: Directory, m: Manifest) returns (r: Result<Manifest, VerifyError>)
    ensures r.Success? <==> AcceptsFull(o, d, m)
    ensures r.Success? ==> r.value == m
  {
    hide ReadableCases, ManifestOf, Normalize;
    if !LocalFilename(m.casesFile) {
      return Failure(BadManifest);
    }
    var cases := ReadVerifiedCases(o, d, m.casesFile, "");
    if cases.Failure? {
      return Failure(cases.error);
    }
    var rebuilt := BuildManifest(o, ClaimedConfig(m), cases.value);
    if !SameManifest(rebuilt, m) {
      return Failure(ManifestMismatch);
    }
    return Success(m);
  }

  predicate AcceptableManifest(m: Manifest) {
    var scheme := NormalizedScheme(m.commitmentScheme);
    && m.status == "frozen"
    && (scheme == LEGACY_SCHEME || scheme == NONCE_SCHEME)
    && (scheme == NONCE_SCHEME ==> m.datasetVersionId > 0 && m.approvalStatus == "approved")
  }

  ghost predicate Accepts(o: Oracles, d: Directory) {
    && d.manifest.Some?
    && var m := d.manifest.value;
       && AcceptableManifest(m)
       && if m.casesFile != "" then AcceptsFull(o, d, m) else AcceptsPublic(o, d, m)
  }

  method VerifyArtifacts(o: Oracles, d: Directory) returns (r: Result<Manifest, VerifyError>)
    ensures r.Success? <==> Accepts(o, d)
    ensures r.Success? ==> d.manifest == Some(r.value)
  {
    hide AcceptsFull, AcceptsPublic;
    if d.manifest.None? {
      return Failure(NoManifest);
    }
    var m := d.manifest.value;
    if !AcceptableManifest(m) {
      return Failure(BadManifest);
    }
    if m.casesFile != "" {
      r := VerifyFullArtifacts(o, d, m);
    } else {
      r := VerifyPublicArtifacts(o, d, m);
    }
  }

  // ---- Verifying sealed cases ------------------------------------------------

  // The commitment hashes of the holdout lines.
  function Sealed(lines: seq<CaseCommitment>): set<string> {
    set k | 0 <= k < |lines| && lines[k].split == "holdout" :: lines[k].commitmentHash
  }

  predicate GoodPrivate(o: Oracles, sealed: set<string>, c: Case) {
    && c.split == "holdout" && c.commitmentNonce != ""
    && CommitmentHash(o, c.commitmentNonce, c.caseChecksum) == c.commitmentHash
    && c.commitmentHash in sealed
  }

  ghost predicate DistinctHashes(cases: seq<Case>) {
    forall i, j | 0 <= i < j < |cases| :: cases[i].commitmentHash != cases[j].commitmentHash
  }

  ghost predicate AcceptsSealed(o: Oracles, d: Directory, cases: seq<Case>) {
    && Accepts(o, d)
    && var m := d.manifest.value;
       && NormalizedScheme(m.commitmentScheme) == NONCE_SCHEME
       && Exists(d, m.commitmentsFile) && AllDecode(AsCommitment, d.files[m.commitmentsFile])
       && |cases| == CountIn(m.splitCounts, "holdout")
       && (forall k | 0 <= k < |cases| :: GoodPrivate(o, Sealed(Decoded(AsCommitment, d.files[m.commitmentsFile])), cases[k]))
       && DistinctHashes(cases)
  }

  lemma SealedOf(raw: seq<Line>)
    requires AllDecode(AsCommitment, raw)
    ensures Sealed(Decoded(AsCommitment, raw))
            == set i | 0 <= i < |raw| && AsCommitment(raw[i]).Some? && AsCommitment(raw[i]).value.split == "holdout"
                 :: AsCommitment(raw[i]).value.commitmentHash
  {
    hide AsCommitment;
    var lines := Decoded(AsCommitment, raw);
    forall x | x in Sealed(lines)
      ensures exists i :: && 0 <= i < |raw| && AsCommitment(raw[i]).Some? && AsCommitment(raw[i]).value.split == "holdout"
                          && AsCommitment(raw[i]).value.commitmentHash == x
    {
      var i :| 0 <= i < |lines| && lines[i].split == "holdout" && lines[i].commitmentHash == x;
      assert AsCommitment(raw[i]).value == lines[i];
    }
    forall i | 0 <= i < |raw| && AsCommitment(raw[i]).value.split == "holdout"
      ensures AsCommitment(raw[i]).value.commitmentHash in Sealed(lines)
    {
      assert lines[i] == AsCommitment(raw[i]).value;
    }
  }

  method CollectSealed(raw: seq<Line>) returns (r: Option<set<string>>)
    ensures r.Some? <==> AllDecode(AsCommitment, raw)
    ensures r.Some? ==> r.value == Sealed(Decoded(AsCommitment, raw))
  {
    var sealed: set<string> := {};
    for k := 0 to |raw|
      invariant forall i | 0 <= i < k :: AsCommitment(raw[i]).Some?
      invariant sealed == set i | 0 <= i < k && AsCommitment(raw[i]).Some? && AsCommitment(raw[i]).value.split == "holdout"
                            :: AsCommitment(raw[i]).value.commitmentHash
    {
      hide AsCommitment;
      var decoded := AsCommitment(raw[k]);
      if decoded.None? {
        return None;
      }
      if decoded.value.split == "holdout" {
        sealed := sealed + {decoded.value.commitmentHash};
      }
    }
    SealedOf(raw);
    return Some(sealed);
  }

  method VerifySealedCases(o: Oracles, d: Directory, cases: seq<Case>) returns (r: Result<Manifest, VerifyError>)
    ensures r.Success? <==> AcceptsSealed(o, d, cases)
    ensures r.Success? ==> d.manifest == Some(r.value)
  {
    hide Accepts, GoodPrivate, Sealed;
    var verified := VerifyArtifacts(o, d);
    if verified.Failure? {
      return Failure(verified.error);
    }
    var m := verified.value;
    if NormalizedScheme(m.commitmentScheme) != NONCE_SCHEME {
      return Failure(NotNonceCommitted);
    }
    if !Exists(d, m.commitmentsFile) {
      return Failure(MissingFile);
    }
    var collected := CollectSealed(d.files[m.commitmentsFile]);
    if collected.None? {
      return Failure(BadLine(0));
    }
    var sealed := collected.value;
    if |cases| != CountIn(m.splitCounts, "holdout") {
      return Failure(CountMismatch);
    }
    var seen: set<string> := {};
    for index := 0 to |cases|
      invariant forall k | 0 <= k < index :: GoodPrivate(o, sealed, cases[k])
      invariant forall i, j | 0 <= i < j < index :: cases[i].commitmentHash != cases[j].commitmentHash
      invariant forall x :: x in seen <==> exists i :: 0 <= i < index && cases[i].commitmentHash == x
    {
      var evalCase := cases[index];
      if !GoodPrivate(o, sealed, evalCase) || evalCase.commitmentHash in seen {
        return Failure(BadPrivateCase(index + 1));
      }
      seen := seen + {evalCase.commitmentHash};
    }
    return Success(m);
  }
}
