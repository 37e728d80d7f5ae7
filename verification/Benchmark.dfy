// Benchmark cases, their commitments and the manifest (evalbench: models.go,
// generator.go).  JSON lines are values; SHA-256 is an uninterpreted function.
module Benchmark {
  import opened Wrappers
  import opened Sequences
  import opened Text

  const AUTHORED_VERSION := "private_authored_eval_v4"
  const DEFAULT_VERSION := "independent_eval_v3"
  const AUTHORED_PROVENANCE := "private_model_assisted_v4"
  const LEGACY_SCHEME := "legacy_case_checksum_v1"
  const NONCE_SCHEME := "sha256_nonce_case_checksum_v1"
  const PUBLIC_SCOPE := "public_development_with_sealed_holdout"

  datatype Value = Bool(b: bool) | Number(n: real) | Text(s: string)

  datatype GoldSource = GoldSource(sourceType: string, noteId: int, topic: string, position: int)

  datatype Case = Case(
    split: string,
    taskType: string,
    query: string,
    expectedAnswer: string,
    goldSources: seq<GoldSource>,
    adversarialTags: seq<string>,
    provenance: string,
    reviewStatus: string,
    caseChecksum: string,
    commitmentNonce: string,
    commitmentHash: string,
    metadata: map<string, Value>)

  datatype CaseCommitment = CaseCommitment(
    ordinal: int,
    split: string,
    taskType: string,
    reviewStatus: string,
    caseChecksum: string,
    commitmentHash: string)

  datatype Config = Config(
    benchmarkId: string,
    benchmarkVersion: string,
    sourceRunId: string,
    generatorVersion: string,
    seed: int,
    caseCount: int,
    developmentCases: int,
    datasetVersionId: int,
    commitmentScheme: string)

  datatype Manifest = Manifest(
    benchmarkId: string,
    benchmarkVersion: string,
    sourceRunId: string,
    generatorVersion: string,
    seed: int,
    status: string,
    caseCount: int,
    splitCounts: map<string, nat>,
    taskCounts: map<string, nat>,
    reviewCounts: map<string, nat>,
    manifestChecksum: string,
    datasetVersionId: int,
    commitmentScheme: string,
    approvalStatus: string,
    artifactScope: string,
    casesFile: string,
    developmentFile: string,
    commitmentsFile: string)

  // ---- Hashing ---------------------------------------------------------------

  // What writeManifestIdentity feeds to the hash.
  datatype Identity =
    | NonceIdentity(id: string, version: string, generator: string, seed: int, datasetVersionId: int, scheme: string)
    | LegacyIdentity(id: string, version: string, generator: string, seed: int)

  // The three kinds of text that are hashed.
  datatype Payload =
    | CasePayload(c: Case)
    | NoncePayload(nonce: string, checksum: string)
    | ManifestPayload(identity: Identity, commitments: seq<string>)

  // What the model does not compute: SHA-256 in hexadecimal, the length of a
  // base64url text (None if it is malformed) and fresh random nonces.
  datatype Oracles = Oracles(sha: Payload -> string, decodedLength: string -> Option<nat>, randomNonce: nat -> string)

  predicate HexDigit(c: char) {
    '0' <= c <= '9' || 'a' <= c <= 'f' || 'A' <= c <= 'F'
  }

  predicate ValidSha256(s: string) {
    |s| == 64 && forall k | 0 <= k < |s| :: HexDigit(s[k])
  }

  ghost predicate Sound(o: Oracles) {
    && (forall p :: ValidSha256(o.sha(p)))
    && (forall k :: o.randomNonce(k) != "")
    && o.decodedLength("") == Some(0)
  }

  function ChecksumCase(o: Oracles, c: Case): string {
    o.sha(CasePayload(c.(caseChecksum := "", commitmentNonce := "", commitmentHash := "")))
  }

  function CommitmentHash(o: Oracles, nonce: string, checksum: string): string {
    o.sha(NoncePayload(nonce, checksum))
  }

  function IdentityOf(c: Config): Identity {
    if c.commitmentScheme == NONCE_SCHEME
    then NonceIdentity(c.benchmarkId, c.benchmarkVersion, c.generatorVersion, c.seed, c.datasetVersionId, c.commitmentScheme)
    else LegacyIdentity(c.benchmarkId, c.benchmarkVersion, c.generatorVersion, c.seed)
  }

  // ---- Counting --------------------------------------------------------------

  // A missing key of a Go map reads as 0.
  function CountIn(m: map<string, nat>, key: string): nat {
    if key in m then m[key] else 0
  }

  function Incremented(m: map<string, nat>, key: string): map<string, nat> {
    m[key := CountIn(m, key) + 1]
  }

  function Tally(keys: seq<string>): map<string, nat> {
    if keys == [] then map[] else Incremented(Tally(keys[..|keys| - 1]), keys[|keys| - 1])
  }

  // The positions of a key.
  function Where(keys: seq<string>, key: string): set<nat> {
    set k: nat | k < |keys| && keys[k] == key
  }

  lemma {:induction false} TallyCounts(keys: seq<string>, key: string)
    ensures CountIn(Tally(keys), key) == |Where(keys, key)|
  {
    if keys == [] {
      assert Where(keys, key) == {};
    } else {
      var n := |keys| - 1;
      TallyCounts(keys[..n], key);
      if keys[n] == key {
        assert Where(keys, key) == Where(keys[..n], key) + {n};
      } else {
        assert Where(keys, key) == Where(keys[..n], key);
      }
    }
  }

  // A set that holds the values of a field over a list of cases.
  ghost predicate SeenBy(f: Case -> string, cases: seq<Case>, seen: set<string>) {
    forall x :: x in seen <==> exists i :: 0 <= i < |cases| && f(cases[i]) == x
  }

  lemma SeenGrows(f: Case -> string, cases: seq<Case>, seen: set<string>, c: Case)
    requires SeenBy(f, cases, seen)
    ensures SeenBy(f, cases + [c], seen + {f(c)})
  {
    var more := cases + [c];
    assert more[|cases|] == c;
    assert forall i | 0 <= i < |cases| :: more[i] == cases[i];
  }

  function QueryOf(c: Case): string { c.query }

  function ChecksumOf(c: Case): string { c.caseChecksum }

  function HashOf(c: Case): string { c.commitmentHash }

  // ---- Manifests -------------------------------------------------------------

  function NormalizedScheme(scheme: string): string {
    if scheme == "" then LEGACY_SCHEME else scheme
  }

  function Normalize(c: Config): Config {
    var generator := Trim(c.generatorVersion);
    c.(benchmarkId := Trim(c.benchmarkId), benchmarkVersion := Trim(c.benchmarkVersion),
       sourceRunId := Trim(c.sourceRunId),
       generatorVersion := if generator == "" then DEFAULT_VERSION else generator,
       commitmentScheme := NormalizedScheme(c.commitmentScheme))
  }

  // What a case or a line of the commitments file contributes to the manifest.
  datatype Entry = Entry(split: string, taskType: string, reviewStatus: string, commitment: string)

  function Splits(entries: seq<Entry>): seq<string> {
    Map((e: Entry) => e.split, entries)
  }

  function Tasks(entries: seq<Entry>): seq<string> {
    Map((e: Entry) => e.taskType, entries)
  }

  function Reviews(entries: seq<Entry>): seq<string> {
    Map((e: Entry) => e.reviewStatus, entries)
  }

  function Commitments(entries: seq<Entry>): seq<string> {
    Map((e: Entry) => e.commitment, entries)
  }

  // The three count maps and the hashed commitments of a list of entries.
  datatype Summary = Summary(splits: map<string, nat>, tasks: map<string, nat>, reviews: map<string, nat>, commitments: seq<string>)

  function SummaryOf(entries: seq<Entry>): Summary {
    Summary(Tally(Splits(entries)), Tally(Tasks(entries)), Tally(Reviews(entries)), Commitments(entries))
  }

  function Counted(s: Summary, e: Entry): Summary {
    Summary(Incremented(s.splits, e.split), Incremented(s.tasks, e.taskType), Incremented(s.reviews, e.reviewStatus),
            s.commitments + [e.commitment])
  }

  lemma SummaryGrows(entries: seq<Entry>, e: Entry)
    ensures SummaryOf(entries + [e]) == Counted(SummaryOf(entries), e)
  {
    assert Splits(entries + [e]) == Splits(entries) + [e.split];
    assert Tasks(entries + [e]) == Tasks(entries) + [e.taskType];
    assert Reviews(entries + [e]) == Reviews(entries) + [e.reviewStatus];
    assert Commitments(entries + [e]) == Commitments(entries) + [e.commitment];
    TallyGrows(Splits(entries), e.split);
    TallyGrows(Tasks(entries), e.taskType);
    TallyGrows(Reviews(entries), e.reviewStatus);
  }

  lemma TallyGrows(keys: seq<string>, key: string)
    ensures Tally(keys + [key]) == Incremented(Tally(keys), key)
  {
    assert (keys + [key])[..|keys + [key]| - 1] == keys;
  }

  function CaseEntry(scheme: string, c: Case): Entry {
    Entry(c.split, c.taskType, c.reviewStatus, if scheme == NONCE_SCHEME then c.commitmentHash else c.caseChecksum)
  }

  function CaseEntries(scheme: string, cases: seq<Case>): seq<Entry> {
    seq(|cases|, k requires 0 <= k < |cases| => CaseEntry(scheme, cases[k]))
  }

  function LineEntry(scheme: string, c: CaseCommitment): Entry {
    Entry(c.split, c.taskType, c.reviewStatus, if scheme == NONCE_SCHEME then c.commitmentHash else c.caseChecksum)
  }

  function LineEntries(scheme: string, lines: seq<CaseCommitment>): seq<Entry> {
    seq(|lines|, k requires 0 <= k < |lines| => LineEntry(scheme, lines[k]))
  }

  function ManifestOf(o: Oracles, c: Config, entries: seq<Entry>, approval: string, casesFile: string): Manifest {
    var s := SummaryOf(entries);
    Manifest(c.benchmarkId, c.benchmarkVersion, c.sourceRunId, c.generatorVersion, c.seed, "frozen", |entries|,
             s.splits, s.tasks, s.reviews, o.sha(ManifestPayload(IdentityOf(c), s.commitments)),
             c.datasetVersionId, c.commitmentScheme, approval, "", casesFile, "", "")
  }

  method BuildManifest(o: Oracles, config: Config, cases: seq<Case>) returns (m: Manifest)
    ensures var c := Normalize(config);
            m == ManifestOf(o, c, CaseEntries(c.commitmentScheme, cases), "approved", "cases.jsonl")
  {
    hide SummaryOf, Counted;
    var c := Normalize(config);
    var s := Summary(map[], map[], map[], []);
    ghost var entries := CaseEntries(c.commitmentScheme, cases);
    assert s == SummaryOf([]) by { EmptySummary(); }
    for k := 0 to |cases|
      invariant s == SummaryOf(entries[..k])
    {
      Extend(entries, k);
      SummaryGrows(entries[..k], entries[k]);
      s := Counted(s, CaseEntry(c.commitmentScheme, cases[k]));
    }
    assert entries[..|cases|] == entries;
    m := Manifest(c.benchmarkId, c.benchmarkVersion, c.sourceRunId, c.generatorVersion, c.seed, "frozen", |cases|,
                  s.splits, s.tasks, s.reviews, o.sha(ManifestPayload(IdentityOf(c), s.commitments)),
                  c.datasetVersionId, c.commitmentScheme, "approved", "", "cases.jsonl", "", "");
  }

  lemma EmptySummary()
    ensures SummaryOf([]) == Summary(map[], map[], map[], [])
  {
  }

  // The identity a manifest claims for itself.
  function ClaimedConfig(m: Manifest): Config {
    Config(m.benchmarkId, m.benchmarkVersion, m.sourceRunId, m.generatorVersion, m.seed, 0, 0,
           m.datasetVersionId, NormalizedScheme(m.commitmentScheme))
  }

  method BuildManifestFromCommitments(o: Oracles, source: Manifest, lines: seq<CaseCommitment>) returns (m: Manifest)
    ensures var c := ClaimedConfig(source);
            m == ManifestOf(o, c, LineEntries(c.commitmentScheme, lines), source.approvalStatus, "")
  {
    hide SummaryOf, Counted;
    var c := ClaimedConfig(source);
    var s := Summary(map[], map[], map[], []);
    ghost var entries := LineEntries(c.commitmentScheme, lines);
    assert s == SummaryOf([]) by { EmptySummary(); }
    for k := 0 to |lines|
      invariant s == SummaryOf(entries[..k])
    {
      Extend(entries, k);
      SummaryGrows(entries[..k], entries[k]);
      s := Counted(s, LineEntry(c.commitmentScheme, lines[k]));
    }
    assert entries[..|lines|] == entries;
    m := Manifest(c.benchmarkId, c.benchmarkVersion, c.sourceRunId, c.generatorVersion, c.seed, "frozen", |lines|,
                  s.splits, s.tasks, s.reviews, o.sha(ManifestPayload(IdentityOf(c), s.commitments)),
                  c.datasetVersionId, c.commitmentScheme, source.approvalStatus, "", "", "", "");
  }

  // compareManifest accepts.
  predicate SameManifest(rebuilt: Manifest, expected: Manifest) {
    && rebuilt.manifestChecksum == expected.manifestChecksum
    && rebuilt.caseCount == expected.caseCount
    && rebuilt.splitCounts == expected.splitCounts
    && rebuilt.taskCounts == expected.taskCounts
    && rebuilt.reviewCounts == expected.reviewCounts
  }
}
