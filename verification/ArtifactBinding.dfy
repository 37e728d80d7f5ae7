// What accepted artifacts are bound to: the content of the cases, the lines of
// the commitments file and the identity of the benchmark (evalbench).  SHA-256
// enters only through the assumption that the texts at hand do not collide.
module ArtifactBinding {
  import opened Wrappers
  import opened Sequences
  import opened IdSorting
  import opened Matching
  import opened Benchmark
  import opened Authored
  import opened Artifacts
  import opened CommitmentProperties

  // A case without its checksum and commitment: what the checksum is taken of.
  function Content(c: Case): Case {
    c.(caseChecksum := "", commitmentNonce := "", commitmentHash := "")
  }

  ghost predicate NoCollisions(o: Oracles, payloads: set<Payload>) {
    forall p, q | p in payloads && q in payloads && o.sha(p) == o.sha(q) :: p == q
  }

  // The texts hashed for the cases of a list.
  function CasePayloads(cases: seq<Case>): set<Payload> {
    set k | 0 <= k < |cases| :: CasePayload(Content(cases[k]))
  }

  function NoncePayloads(cases: seq<Case>): set<Payload> {
    set k | 0 <= k < |cases| :: NoncePayload(cases[k].commitmentNonce, cases[k].caseChecksum)
  }

  // ---- Every case carries the hash of its own content ------------------------

  ghost predicate CarriesChecksum(o: Oracles, c: Case) {
    c.caseChecksum == o.sha(CasePayload(Content(c)))
  }

  ghost predicate CarriesCommitment(o: Oracles, c: Case) {
    c.commitmentNonce != "" && c.commitmentHash == o.sha(NoncePayload(c.commitmentNonce, c.caseChecksum))
  }

  // Cases read as verified: right split, own checksum, an own commitment or
  // none, and no checksum or query twice.
  lemma ReadCasesAreBound(o: Oracles, d: Directory, name: string, split: string)
    requires ReadableCases(o, d, name, split)
    ensures name in d.files && AllDecode(AsCase, d.files[name])
    ensures var cases := Decoded(AsCase, d.files[name]);
            && (forall k | 0 <= k < |cases| ::
                  && CarriesChecksum(o, cases[k])
                  && (split != "" ==> cases[k].split == split)
                  && ((cases[k].commitmentNonce == "" && cases[k].commitmentHash == "") || CarriesCommitment(o, cases[k])))
            && (forall i, j | 0 <= i < j < |cases| ::
                  cases[i].caseChecksum != cases[j].caseChecksum && cases[i].query != cases[j].query)
  {
    hide ValidSha256, AsCase;
    var cases := Decoded(AsCase, d.files[name]);
    forall k | 0 <= k < |cases|
      ensures CarriesChecksum(o, cases[k])
      ensures split != "" ==> cases[k].split == split
      ensures (cases[k].commitmentNonce == "" && cases[k].commitmentHash == "") || CarriesCommitment(o, cases[k])
    {
      assert GoodCase(o, split, cases[k]);
    }
  }

  // Accepted public cases are development cases with their own checksum and,
  // under the nonce scheme, their own commitment.
  lemma PublicCasesAreBound(o: Oracles, d: Directory, m: Manifest)
    requires AcceptsPublic(o, d, m)
    ensures var development := Decoded(AsCase, d.files[m.developmentFile]);
            forall k | 0 <= k < |development| ::
              && development[k].split == "development" && CarriesChecksum(o, development[k])
              && (NormalizedScheme(m.commitmentScheme) == NONCE_SCHEME ==> CarriesCommitment(o, development[k]))
  {
    hide GoodCases, GoodCommitments, ManifestOf, AsCase, AsCommitment, Matched, PublicValues, CarriesChecksum;
    ReadCasesAreBound(o, d, m.developmentFile, "development");
    var development := Decoded(AsCase, d.files[m.developmentFile]);
    forall k | 0 <= k < |development| && NormalizedScheme(m.commitmentScheme) == NONCE_SCHEME
      ensures CarriesCommitment(o, development[k])
    {
      assert GoodDevelopment(o, NONCE_SCHEME, development[k]);
    }
  }

  // ---- The commitment lines fix the public content ---------------------------

  lemma SameChecksumSameContent(o: Oracles, c: Case, e: Case, payloads: set<Payload>)
    requires NoCollisions(o, payloads) && CasePayload(Content(c)) in payloads && CasePayload(Content(e)) in payloads
    requires CarriesChecksum(o, c) && CarriesChecksum(o, e) && c.caseChecksum == e.caseChecksum
    ensures Content(c) == Content(e)
  {
  }

  lemma SameHashSameNonce(o: Oracles, c: Case, e: Case, payloads: set<Payload>)
    requires NoCollisions(o, payloads)
    requires NoncePayload(c.commitmentNonce, c.caseChecksum) in payloads && NoncePayload(e.commitmentNonce, e.caseChecksum) in payloads
    requires CarriesCommitment(o, c) && CarriesCommitment(o, e) && c.commitmentHash == e.commitmentHash
    ensures c.commitmentNonce == e.commitmentNonce && c.caseChecksum == e.caseChecksum
  {
  }

  ghost predicate SomeWithContent(cases: seq<Case>, c: Case) {
    exists k :: 0 <= k < |cases| && Content(cases[k]) == Content(c)
  }

  // Two accepted public directories with the same scheme and the same commitment
  // lines publish cases of the same content.
  lemma LinesFixPublicContent(o: Oracles, d: Directory, m: Manifest, e: Directory, n: Manifest, c: Case)
    requires AcceptsPublic(o, d, m) && AcceptsPublic(o, e, n)
    requires NormalizedScheme(m.commitmentScheme) == NormalizedScheme(n.commitmentScheme)
    requires Decoded(AsCommitment, d.files[m.commitmentsFile]) == Decoded(AsCommitment, e.files[n.commitmentsFile])
    requires var xs, ys := Decoded(AsCase, d.files[m.developmentFile]), Decoded(AsCase, e.files[n.developmentFile]);
             && NoCollisions(o, CasePayloads(xs) + CasePayloads(ys)) && NoCollisions(o, NoncePayloads(xs) + NoncePayloads(ys))
             && c in xs
    ensures SomeWithContent(Decoded(AsCase, e.files[n.developmentFile]), c)
  {
    hide AcceptsPublic, AsCase, AsCommitment, Decoded, SplitValues, NoCollisions, CarriesChecksum, CarriesCommitment, OneToOne;
    PublicFiles(o, d, m);
    PublicFiles(o, e, n);
    AcceptedPublicMatches(o, d, m);
    AcceptedPublicMatches(o, e, n);
    PublicCasesAreBound(o, d, m);
    PublicCasesAreBound(o, e, n);
    MatchingContent(o, NormalizedScheme(m.commitmentScheme), Decoded(AsCase, d.files[m.developmentFile]),
                    Decoded(AsCase, e.files[n.developmentFile]),
                    SplitValues(NormalizedScheme(m.commitmentScheme), "development", Decoded(AsCommitment, d.files[m.commitmentsFile])), c);
  }

  lemma PublicFiles(o: Oracles, d: Directory, m: Manifest)
    requires AcceptsPublic(o, d, m)
    ensures m.developmentFile in d.files && AllDecode(AsCase, d.files[m.developmentFile])
    ensures m.commitmentsFile in d.files && AllDecode(AsCommitment, d.files[m.commitmentsFile])
    ensures m.artifactScope == "public_development_with_sealed_holdout" && m.developmentFile != m.commitmentsFile
    ensures m.developmentFile != "" && m.commitmentsFile != ""
    ensures ('/' in m.developmentFile ==> m.developmentFile == "/") && ('/' in m.commitmentsFile ==> m.commitmentsFile == "/")
  {
    hide GoodCases, GoodCommitments, ManifestOf, AsCase, AsCommitment, Matched, PublicValues;
  }

  lemma MatchingContent(o: Oracles, scheme: string, xs: seq<Case>, ys: seq<Case>, values: seq<string>, c: Case)
    requires OneToOne(CaseValues(scheme, xs), values) && OneToOne(CaseValues(scheme, ys), values)
    requires forall k | 0 <= k < |xs| :: CarriesChecksum(o, xs[k]) && (scheme == NONCE_SCHEME ==> CarriesCommitment(o, xs[k]))
    requires forall k | 0 <= k < |ys| :: CarriesChecksum(o, ys[k]) && (scheme == NONCE_SCHEME ==> CarriesCommitment(o, ys[k]))
    requires NoCollisions(o, CasePayloads(xs) + CasePayloads(ys)) && NoCollisions(o, NoncePayloads(xs) + NoncePayloads(ys))
    requires c in xs
    ensures SomeWithContent(ys, c)
  {
    hide NoCollisions, CarriesChecksum, CarriesCommitment, Content;
    var i :| 0 <= i < |xs| && xs[i] == c;
    assert CaseValues(scheme, xs)[i] in CaseValues(scheme, ys);
    var j :| 0 <= j < |ys| && CaseValues(scheme, ys)[j] == CaseValues(scheme, xs)[i];
    var e := ys[j];
    if scheme == NONCE_SCHEME {
      SameHashSameNonce(o, c, e, NoncePayloads(xs) + NoncePayloads(ys));
    }
    assert CasePayload(Content(c)) in CasePayloads(xs) && CasePayload(Content(e)) in CasePayloads(ys);
    SameChecksumSameContent(o, c, e, CasePayloads(xs) + CasePayloads(ys));
  }

  // ---- The manifest checksum fixes identity, lines and full content ----------

  // What the checksum of a manifest is taken of.
  function ManifestText(c: Config, entries: seq<Entry>): Payload {
    ManifestPayload(IdentityOf(c), Commitments(entries))
  }

  lemma ManifestChecksumIs(o: Oracles, c: Config, entries: seq<Entry>, approval: string, file: string)
    ensures ManifestOf(o, c, entries, approval, file).manifestChecksum == o.sha(ManifestText(c, entries))
    ensures ManifestOf(o, c, entries, approval, file).caseCount == |entries|
    ensures ManifestOf(o, c, entries, approval, file).splitCounts == Tally(Splits(entries))
    ensures ManifestOf(o, c, entries, approval, file).taskCounts == Tally(Tasks(entries))
    ensures ManifestOf(o, c, entries, approval, file).reviewCounts == Tally(Reviews(entries))
  {
    hide Tally;
  }

  // The identity names everything the checksum covers.
  lemma IdentityBinds(c: Config, e: Config)
    requires IdentityOf(c) == IdentityOf(e)
    ensures c.benchmarkId == e.benchmarkId && c.benchmarkVersion == e.benchmarkVersion
    ensures c.generatorVersion == e.generatorVersion && c.seed == e.seed
    ensures c.commitmentScheme == NONCE_SCHEME <==> e.commitmentScheme == NONCE_SCHEME
    ensures c.commitmentScheme == NONCE_SCHEME ==> c.datasetVersionId == e.datasetVersionId
  {
  }

  // Two accepted public directories with one manifest checksum have the same
  // identity and commit to the same values in the same order.
  lemma ManifestFixesLines(o: Oracles, d: Directory, m: Manifest, e: Directory, n: Manifest)
    requires AcceptsPublic(o, d, m) && AcceptsPublic(o, e, n) && m.manifestChecksum == n.manifestChecksum
    requires var xs := LineEntries(NormalizedScheme(m.commitmentScheme), Decoded(AsCommitment, d.files[m.commitmentsFile]));
             var ys := LineEntries(NormalizedScheme(n.commitmentScheme), Decoded(AsCommitment, e.files[n.commitmentsFile]));
             NoCollisions(o, {ManifestText(ClaimedConfig(m), xs), ManifestText(ClaimedConfig(n), ys)})
    ensures m.benchmarkId == n.benchmarkId && m.benchmarkVersion == n.benchmarkVersion
    ensures m.generatorVersion == n.generatorVersion && m.seed == n.seed
    ensures var xs := LineEntries(NormalizedScheme(m.commitmentScheme), Decoded(AsCommitment, d.files[m.commitmentsFile]));
            var ys := LineEntries(NormalizedScheme(n.commitmentScheme), Decoded(AsCommitment, e.files[n.commitmentsFile]));
            Commitments(xs) == Commitments(ys)
  {
    hide GoodCases, GoodCommitments, AsCase, AsCommitment, Matched, PublicValues, ManifestOf, IdentityOf, LineEntries, GoodDevelopment;
    var xs := LineEntries(NormalizedScheme(m.commitmentScheme), Decoded(AsCommitment, d.files[m.commitmentsFile]));
    var ys := LineEntries(NormalizedScheme(n.commitmentScheme), Decoded(AsCommitment, e.files[n.commitmentsFile]));
    ManifestChecksumIs(o, ClaimedConfig(m), xs, m.approvalStatus, "");
    ManifestChecksumIs(o, ClaimedConfig(n), ys, n.approvalStatus, "");
    IdentityBinds(ClaimedConfig(m), ClaimedConfig(n));
  }

  // Two accepted full directories with one manifest checksum have as many cases,
  // and case by case the same content, unless the case has no commitment of its
  // own under the nonce scheme.
  lemma ManifestFixesFullContent(o: Oracles, d: Directory, m: Manifest, e: Directory, n: Manifest)
    requires AcceptsFull(o, d, m) && AcceptsFull(o, e, n) && m.manifestChecksum == n.manifestChecksum
    requires var c, f := Normalize(ClaimedConfig(m)), Normalize(ClaimedConfig(n));
             var xs, ys := Decoded(AsCase, d.files[m.casesFile]), Decoded(AsCase, e.files[n.casesFile]);
             && NoCollisions(o, {ManifestText(c, CaseEntries(c.commitmentScheme, xs)), ManifestText(f, CaseEntries(f.commitmentScheme, ys))})
             && NoCollisions(o, CasePayloads(xs) + CasePayloads(ys)) && NoCollisions(o, NoncePayloads(xs) + NoncePayloads(ys))
    ensures var xs, ys := Decoded(AsCase, d.files[m.casesFile]), Decoded(AsCase, e.files[n.casesFile]);
            && |xs| == |ys|
            && forall k | 0 <= k < |xs| ::
                 NormalizedScheme(m.commitmentScheme) != NONCE_SCHEME || xs[k].commitmentHash != "" ==> Content(xs[k]) == Content(ys[k])
  {
    hide AsCase, ManifestOf, IdentityOf, NoCollisions, CarriesChecksum, CarriesCommitment, Normalize, GoodCases, Content;
    var c, f := Normalize(ClaimedConfig(m)), Normalize(ClaimedConfig(n));
    var xs, ys := Decoded(AsCase, d.files[m.casesFile]), Decoded(AsCase, e.files[n.casesFile]);
    var us, vs := CaseEntries(c.commitmentScheme, xs), CaseEntries(f.commitmentScheme, ys);
    ManifestChecksumIs(o, c, us, "approved", "cases.jsonl");
    ManifestChecksumIs(o, f, vs, "approved", "cases.jsonl");
    SameText(o, c, us, f, vs);
    IdentityBinds(c, f);
    SchemeOf(m);
    SchemeOf(n);
    ReadCasesAreBound(o, d, m.casesFile, "");
    ReadCasesAreBound(o, e, n.casesFile, "");
    assert |Commitments(us)| == |xs| && |Commitments(vs)| == |ys|;
    forall k | 0 <= k < |xs| && (NormalizedScheme(m.commitmentScheme) != NONCE_SCHEME || xs[k].commitmentHash != "")
      ensures Content(xs[k]) == Content(ys[k])
    {
      assert Commitments(us)[k] == Commitments(vs)[k];
      SameValueSameContent(o, c.commitmentScheme, f.commitmentScheme, xs, ys, k);
    }
  }

  lemma SameText(o: Oracles, c: Config, us: seq<Entry>, f: Config, vs: seq<Entry>)
    requires NoCollisions(o, {ManifestText(c, us), ManifestText(f, vs)}) && o.sha(ManifestText(c, us)) == o.sha(ManifestText(f, vs))
    ensures IdentityOf(c) == IdentityOf(f) && Commitments(us) == Commitments(vs)
  {
  }

  lemma SchemeOf(m: Manifest)
    ensures Normalize(ClaimedConfig(m)).commitmentScheme == NormalizedScheme(m.commitmentScheme)
  {
  }

  lemma SameValueSameContent(o: Oracles, s: string, t: string, xs: seq<Case>, ys: seq<Case>, k: nat)
    requires k < |xs| && k < |ys| && (s == NONCE_SCHEME <==> t == NONCE_SCHEME)
    requires CaseEntry(s, xs[k]).commitment == CaseEntry(t, ys[k]).commitment
    requires CarriesChecksum(o, xs[k]) && CarriesChecksum(o, ys[k])
    requires (xs[k].commitmentNonce == "" && xs[k].commitmentHash == "") || CarriesCommitment(o, xs[k])
    requires (ys[k].commitmentNonce == "" && ys[k].commitmentHash == "") || CarriesCommitment(o, ys[k])
    requires NoCollisions(o, CasePayloads(xs) + CasePayloads(ys)) && NoCollisions(o, NoncePayloads(xs) + NoncePayloads(ys))
    requires s != NONCE_SCHEME || xs[k].commitmentHash != ""
    ensures Content(xs[k]) == Content(ys[k])
  {
    hide NoCollisions, CarriesChecksum, CarriesCommitment, Content;
    if s == NONCE_SCHEME {
      assert NoncePayload(xs[k].commitmentNonce, xs[k].caseChecksum) in NoncePayloads(xs);
      assert NoncePayload(ys[k].commitmentNonce, ys[k].caseChecksum) in NoncePayloads(ys);
      SameHashSameNonce(o, xs[k], ys[k], NoncePayloads(xs) + NoncePayloads(ys));
    }
    assert CasePayload(Content(xs[k])) in CasePayloads(xs) && CasePayload(Content(ys[k])) in CasePayloads(ys);
    SameChecksumSameContent(o, xs[k], ys[k], CasePayloads(xs) + CasePayloads(ys));
  }

  // The exception is real: under the nonce scheme an uncommitted case of a full
  // cases file can be exchanged for any other readable one of the same split,
  // task and review status.
  lemma UncommittedCaseIsFree(o: Oracles, d: Directory, m: Manifest, k: nat, c: Case)
    requires AcceptsFull(o, d, m) && NormalizedScheme(m.commitmentScheme) == NONCE_SCHEME
    requires k < |Decoded(AsCase, d.files[m.casesFile])| && Decoded(AsCase, d.files[m.casesFile])[k].commitmentHash == c.commitmentHash == ""
    requires var old_ := Decoded(AsCase, d.files[m.casesFile])[k];
             c.split == old_.split && c.taskType == old_.taskType && c.reviewStatus == old_.reviewStatus
    requires GoodCases(o, "", Decoded(AsCase, d.files[m.casesFile])[k := c])
    ensures var e := d.(files := d.files[m.casesFile := d.files[m.casesFile][k := CaseLine(c)]]);
            AcceptsFull(o, e, m)
  {
    hide GoodCases, ManifestOf, Normalize;
    SchemeOf(m);
    var lines := d.files[m.casesFile];
    var e := d.(files := d.files[m.casesFile := lines[k := CaseLine(c)]]);
    assert Decoded(AsCase, e.files[m.casesFile]) == Decoded(AsCase, lines)[k := c];
    assert CaseEntries(NONCE_SCHEME, Decoded(AsCase, lines)[k := c]) == CaseEntries(NONCE_SCHEME, Decoded(AsCase, lines));
  }

  // ---- The sealed commitments fix the private cases --------------------------

  // Two lists of private cases accepted against one public directory hold the
  // same nonces and checksums.
  lemma SealedCasesAreFixed(o: Oracles, d: Directory, xs: seq<Case>, ys: seq<Case>, c: Case)
    requires AcceptsSealed(o, d, xs) && AcceptsSealed(o, d, ys) && d.manifest.value.casesFile == ""
    requires NoCollisions(o, NoncePayloads(xs) + NoncePayloads(ys)) && c in xs
    ensures exists e :: e in ys && e.commitmentNonce == c.commitmentNonce && e.caseChecksum == c.caseChecksum
  {
    hide Accepts, AsCommitment, SplitValues, Sealed, NoCollisions, Decoded;
    AcceptedSealedMatches(o, d, xs);
    AcceptedSealedMatches(o, d, ys);
    var i :| 0 <= i < |xs| && xs[i] == c;
    assert Hashes(xs)[i] in Hashes(xs) && Hashes(xs)[i] in Hashes(ys);
    var j :| 0 <= j < |ys| && Hashes(ys)[j] == Hashes(xs)[i];
    PrivateCommitment(o, d, xs, i);
    PrivateCommitment(o, d, ys, j);
    SameHashSameNonce(o, c, ys[j], NoncePayloads(xs) + NoncePayloads(ys));
    assert ys[j] in ys;
  }

  // An accepted private case is a holdout case with its own commitment.
  lemma PrivateCommitment(o: Oracles, d: Directory, cases: seq<Case>, k: nat)
    requires AcceptsSealed(o, d, cases) && k < |cases|
    ensures cases[k].split == "holdout" && CarriesCommitment(o, cases[k])
  {
    hide AcceptsFull, AcceptsPublic, AsCommitment, Sealed;
    assert GoodPrivate(o, Sealed(Decoded(AsCommitment, d.files[d.manifest.value.commitmentsFile])), cases[k]);
  }

  // ---- Lines, counts and manifests in plain terms ----------------------------

  // Every accepted commitment line: numbered, of one of the two splits, complete,
  // a 64-digit hash, and under the nonce scheme no checksum beside it.
  lemma AcceptedLine(o: Oracles, d: Directory, m: Manifest, k: nat)
    requires AcceptsPublic(o, d, m) && k < |Decoded(AsCommitment, d.files[m.commitmentsFile])|
    ensures var line := Decoded(AsCommitment, d.files[m.commitmentsFile])[k];
            && line.ordinal == k + 1 && (line.split == "development" || line.split == "holdout")
            && line.taskType != "" && line.reviewStatus != ""
            && (m.commitmentScheme == "sha256_nonce_case_checksum_v1" ==> line.caseChecksum == "" && HexText(line.commitmentHash))
            && (m.commitmentScheme != "sha256_nonce_case_checksum_v1" ==> line.commitmentHash == "" && HexText(line.caseChecksum))
  {
    hide GoodCases, AsCase, AsCommitment, Matched, PublicValues, ManifestOf, ValidSha256;
    var scheme, line := NormalizedScheme(m.commitmentScheme), Decoded(AsCommitment, d.files[m.commitmentsFile])[k];
    assert GoodCommitment(scheme, k + 1, line);
    HashIsHex(LineValue(scheme, line));
  }

  predicate HexText(s: string) {
    |s| == 64 && forall k | 0 <= k < |s| :: s[k] in "0123456789abcdefABCDEF"
  }

  lemma HashIsHex(s: string)
    ensures ValidSha256(s) <==> HexText(s)
  {
    var digits := "0123456789abcdefABCDEF";
    forall c: char
      ensures HexDigit(c) <==> c in digits
    {
      HexDigits(c);
    }
  }

  lemma HexDigits(c: char)
    ensures HexDigit(c) <==> c in "0123456789abcdefABCDEF"
  {
    var s := "0123456789abcdefABCDEF";
    if '0' <= c <= '9' {
      assert s[c as int - '0' as int] == c;
    } else if 'a' <= c <= 'f' {
      assert s[10 + (c as int - 'a' as int)] == c;
    } else if 'A' <= c <= 'F' {
      assert s[16 + (c as int - 'A' as int)] == c;
    }
  }

  // The manifest counts what the commitments file holds.
  lemma AcceptedCounts(o: Oracles, d: Directory, m: Manifest, key: string)
    requires AcceptsPublic(o, d, m)
    ensures var lines := Decoded(AsCommitment, d.files[m.commitmentsFile]);
            && m.caseCount == |lines|
            && CountIn(m.splitCounts, key) == |set k: nat | k < |lines| && lines[k].split == key|
            && CountIn(m.taskCounts, key) == |set k: nat | k < |lines| && lines[k].taskType == key|
            && CountIn(m.reviewCounts, key) == |set k: nat | k < |lines| && lines[k].reviewStatus == key|
  {
    hide GoodCases, GoodCommitments, AsCase, AsCommitment, Matched, PublicValues, ManifestOf, Tally, GoodDevelopment;
    var scheme, lines := NormalizedScheme(m.commitmentScheme), Decoded(AsCommitment, d.files[m.commitmentsFile]);
    var entries := LineEntries(scheme, lines);
    ManifestChecksumIs(o, ClaimedConfig(m), entries, m.approvalStatus, "");
    TallyCounts(Splits(entries), key);
    TallyCounts(Tasks(entries), key);
    TallyCounts(Reviews(entries), key);
    assert Where(Splits(entries), key) == set k: nat | k < |lines| && lines[k].split == key;
    assert Where(Tasks(entries), key) == set k: nat | k < |lines| && lines[k].taskType == key;
    assert Where(Reviews(entries), key) == set k: nat | k < |lines| && lines[k].reviewStatus == key;
  }

  // An accepted manifest is frozen, of a known scheme, and under the nonce scheme
  // approved for a dataset version.
  lemma AcceptedManifest(o: Oracles, d: Directory)
    requires Accepts(o, d)
    ensures d.manifest.Some?
    ensures var m := d.manifest.value;
            && m.status == "frozen"
            && (m.commitmentScheme == "" || m.commitmentScheme == "legacy_case_checksum_v1"
                || m.commitmentScheme == "sha256_nonce_case_checksum_v1")
            && (m.commitmentScheme == "sha256_nonce_case_checksum_v1" ==> m.datasetVersionId > 0 && m.approvalStatus == "approved")
  {
    hide AcceptsFull, AcceptsPublic;
  }

  // The named file is a file of the directory itself, and not the manifest.
  ghost predicate FileOf(d: Directory, name: string) {
    name in d.files && name != "" && name != "manifest.json" && (name == "/" || forall k | 0 <= k < |name| :: name[k] != '/')
  }

  // An accepted manifest names one file of all cases, or in the public scope two
  // different files.
  lemma AcceptedFiles(o: Oracles, d: Directory)
    requires Accepts(o, d)
    ensures var m := d.manifest.value;
            if m.casesFile != "" then FileOf(d, m.casesFile)
            else && m.artifactScope == "public_development_with_sealed_holdout" && m.developmentFile != m.commitmentsFile
                 && FileOf(d, m.developmentFile) && FileOf(d, m.commitmentsFile)
  {
    hide GoodCases, AcceptsLines, AllDecode, SameManifest, ManifestOf;
    var m := d.manifest.value;
    assert m.casesFile != "" ==> AcceptsFull(o, d, m);
  }

  // ---- What is published -----------------------------------------------------

  // Publishing writes the development cases in order, a line for every case
  // without its content, and a manifest that names the two files; every other
  // file stays as it was.
  lemma PublishedFiles(d: Directory, b: Frozen, name: string)
    ensures var p := Published(d, b);
            && p.manifest == Some(b.manifest.(artifactScope := "public_development_with_sealed_holdout", casesFile := "",
                                              developmentFile := "development.jsonl", commitmentsFile := "case_commitments.jsonl"))
            && "development.jsonl" in p.files && "case_commitments.jsonl" in p.files
            && p.files["development.jsonl"] == Map((c: Case) => CaseLine(c), OfSplit("development", b.cases))
            && |p.files["case_commitments.jsonl"]| == |b.cases|
            && (forall k | 0 <= k < |b.cases| :: LineFor(b.manifest.commitmentScheme, k, b.cases[k], p.files["case_commitments.jsonl"][k]))
            && (name != "development.jsonl" && name != "case_commitments.jsonl" ==>
                  && (name in p.files <==> name in d.files) && (name in p.files ==> p.files[name] == d.files[name]))
  {
    hide OfSplit;
    NamesDiffer();
  }

  predicate LineFor(scheme: string, k: nat, c: Case, line: Line) {
    if scheme == "sha256_nonce_case_checksum_v1"
    then line == CommitmentLine(CaseCommitment(k + 1, c.split, c.taskType, c.reviewStatus, "", c.commitmentHash))
    else line == CommitmentLine(CaseCommitment(k + 1, c.split, c.taskType, c.reviewStatus, c.caseChecksum, ""))
  }
}
