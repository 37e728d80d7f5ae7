// Every document the builder makes of valid sources is complete and exact:
// building it never fails, each chunk cites a source, each citation quotes the
// bytes it points at, and every byte of every source is cited.
module CitationProperties {
  import opened Wrappers
  import opened Utf8
  import opened Chunker
  import opened ChunkerProperties
  import opened Canonical
  import opened Citations

  // Blank line, "[comment ", at most twenty digits, "]" and a line feed.
  const MAX_GAP := 33

  ghost predicate Fits(text: seq<Byte>, seg: Segment) {
    && seg.docStart < seg.docEnd <= |text|
    && Boundary(text, seg.docStart) && Boundary(text, seg.docEnd)
    && seg.sourceStart == 0
    && seg.source.canonicalText == text[seg.docStart..seg.docEnd]
  }

  // The sources lie in the text in order, whole, and close to each other.
  ghost predicate Placed(text: seq<Byte>, sources: seq<DocumentSource>, segments: seq<Segment>) {
    && Valid(text) && NoCr(text)
    && |segments| == |sources| > 0
    && (forall k | 0 <= k < |segments| :: Fits(text, segments[k]) && segments[k].source == sources[k])
    && segments[0].docStart <= MAX_GAP
    && segments[|segments| - 1].docEnd == |text|
    && (forall k | 0 < k < |segments| ::
          segments[k - 1].docEnd <= segments[k].docStart <= segments[k - 1].docEnd + MAX_GAP)
  }

  // What a citation promises: it lies in its chunk, it names the source, and
  // the document bytes, the source bytes and the hashed bytes are the same.
  ghost predicate Quotes(text: seq<Byte>, r: ByteRange, source: DocumentSource, c: Citation) {
    && c.evidenceSourceId == source.evidenceSourceId && c.sourceType == source.sourceType
    && c.sourceId == source.sourceId && c.sourceVersion == source.sourceVersion
    && c.sourceContentHash == source.contentHash
    && r.startByte <= c.docStart < c.docEnd <= r.endByte
    && c.docEnd <= |text| && c.sourceStart <= c.sourceEnd <= |source.canonicalText|
    && text[c.docStart..c.docEnd] == source.canonicalText[c.sourceStart..c.sourceEnd]
    && Valid(text[c.docStart..c.docEnd])
    && c.quoteHash == Digest(text[c.docStart..c.docEnd])
  }

  // ---- One chunk -------------------------------------------------------------

  lemma SliceOfSlice(text: seq<Byte>, low: nat, high: nat, i: nat, j: nat)
    requires low <= i <= j <= high <= |text|
    ensures text[low..high][i - low..j - low] == text[i..j]
  {
    var part := text[low..high];
    assert |part[i - low..j - low]| == |text[i..j]|;
    assert forall k | 0 <= k < j - i :: part[i - low..j - low][k] == text[i..j][k];
  }

  lemma CitationQuotes(text: seq<Byte>, r: ByteRange, seg: Segment)
    requires Valid(text) && Fits(text, seg) && Intersects(r, seg)
    requires Boundary(text, r.startByte) && Boundary(text, r.endByte)
    ensures CitationFor(r, seg).Success? && Quotes(text, r, seg.source, CitationFor(r, seg).value)
    ensures var c := CitationFor(r, seg).value;
            && c.sourceStart == Max(r.startByte, seg.docStart) - seg.docStart
            && c.sourceEnd == Min(r.endByte, seg.docEnd) - seg.docStart
  {
    hide Valid, HeadSize;
    var i, j := Max(r.startByte, seg.docStart), Min(r.endByte, seg.docEnd);
    SliceValid(text, i, j);
    SliceOfSlice(text, seg.docStart, seg.docEnd, i, j);
  }

  // A chunk cites exactly the segments it shares bytes with.
  lemma {:induction false} CitationsExact(text: seq<Byte>, r: ByteRange, segments: seq<Segment>)
    requires Valid(text) && forall k | 0 <= k < |segments| :: Fits(text, segments[k])
    requires Boundary(text, r.startByte) && Boundary(text, r.endByte)
    ensures CitationsFor(r, segments).Success?
    ensures forall c :: c in CitationsFor(r, segments).value <==>
                        exists k :: 0 <= k < |segments| && Intersects(r, segments[k])
                                    && CitationFor(r, segments[k]) == Success(c)
  {
    hide Valid, HeadSize, Fits, CitationFor, Intersects, Boundary;
    if segments != [] {
      var n := |segments| - 1;
      CitationsExact(text, r, segments[..n]);
      if Intersects(r, segments[n]) {
        CitationQuotes(text, r, segments[n]);
      }
    }
  }

  // A chunk longer than any gap, or ending with the text, meets a segment.
  lemma {:induction false} MeetsSegment(text: seq<Byte>, sources: seq<DocumentSource>, segments: seq<Segment>, r: ByteRange, k: nat) returns (m: nat)
    requires Placed(text, sources, segments)
    requires r.startByte < r.endByte <= |text|
    requires r.endByte - r.startByte > MAX_GAP || r.endByte == |text|
    requires k < |segments| && segments[k].docStart <= r.startByte + MAX_GAP
    ensures m < |segments| && Intersects(r, segments[m])
    decreases |segments| - k
  {
    hide Valid;
    assert Fits(text, segments[k]);
    if segments[k].docEnd > r.startByte {
      m := k;
    } else {
      assert segments[(k + 1) - 1].docEnd <= segments[k + 1].docStart;
      m := MeetsSegment(text, sources, segments, r, k + 1);
    }
  }

  // ---- All chunks ------------------------------------------------------------

  ghost predicate GoodRange(text: seq<Byte>, r: ByteRange) {
    && r.startByte < r.endByte <= |text|
    && Boundary(text, r.startByte) && Boundary(text, r.endByte)
    && (r.endByte - r.startByte > MAX_GAP || r.endByte == |text|)
  }

  lemma {:induction false} ChunksExact(text: seq<Byte>, sources: seq<DocumentSource>, segments: seq<Segment>, ranges: seq<ByteRange>)
    requires Placed(text, sources, segments)
    requires forall j | 0 <= j < |ranges| :: GoodRange(text, ranges[j])
    ensures ChunksFor(ranges, segments).Success?
    ensures var chunks := ChunksFor(ranges, segments).value;
            && |chunks| == |ranges|
            && forall j | 0 <= j < |chunks| ::
                 && chunks[j].index == j && chunks[j].range == ranges[j]
                 && chunks[j].contentHash == Digest(ranges[j].content)
                 && CitationsFor(ranges[j], segments) == Success(chunks[j].citations)
                 && chunks[j].citations != []
  {
    hide Valid, HeadSize, CitationsFor, CitationFor, Intersects;
    if ranges != [] {
      var n := |ranges| - 1;
      ChunksExact(text, sources, segments, ranges[..n]);
      var r := ranges[n];
      assert GoodRange(text, r);
      CitationsExact(text, r, segments);
      var m := MeetsSegment(text, sources, segments, r, 0);
      CitationQuotes(text, r, segments[m]);
      assert CitationFor(r, segments[m]).value in CitationsFor(r, segments).value;
    }
  }

  lemma RangesGood(text: seq<Byte>)
    requires Valid(text) && text != []
    ensures SplitOf(text, MAX_CHUNK_BYTES, CHUNK_OVERLAP).Chunks?
    ensures var ranges := SplitOf(text, MAX_CHUNK_BYTES, CHUNK_OVERLAP).ranges;
            && |ranges| > 0 && (forall j | 0 <= j < |ranges| :: GoodRange(text, ranges[j]))
            && Covers(text, 0, ranges, MAX_CHUNK_BYTES, CHUNK_OVERLAP)
  {
    hide Valid, HeadSize, SplitFrom;
    assert SafeBounds(MAX_CHUNK_BYTES, CHUNK_OVERLAP) && MinimumChunk(MAX_CHUNK_BYTES) == 721;
    HeadOfValid(text);
    SplitFromLong(text, 0, MAX_CHUNK_BYTES, CHUNK_OVERLAP);
    SplitCovers(text, MAX_CHUNK_BYTES, CHUNK_OVERLAP);
    var ranges := SplitOf(text, MAX_CHUNK_BYTES, CHUNK_OVERLAP).ranges;
    forall j | 0 <= j < |ranges|
      ensures GoodRange(text, ranges[j])
    {
      RuneOffsetsAgree(text, MAX_CHUNK_BYTES, CHUNK_OVERLAP, j);
      assert IsWindow(text, ranges[j], MAX_CHUNK_BYTES);
      assert ranges[j] in ranges;
    }
  }

  lemma {:induction false} ByteInSomeRange(data: seq<Byte>, start: nat, ranges: seq<ByteRange>, maxBytes: int, overlapBytes: int, p: nat)
    returns (j: nat)
    requires Covers(data, start, ranges, maxBytes, overlapBytes) && start <= p < |data|
    ensures j < |ranges| && ranges[j].startByte <= p < ranges[j].endByte
    decreases |ranges|
  {
    hide Valid, HeadSize, RuneCount;
    if p < ranges[0].endByte {
      j := 0;
    } else {
      assert |ranges| > 1;
      CoversTail(data, start, ranges, maxBytes, overlapBytes);
      j := ByteInSomeRange(data, ranges[1].startByte, ranges[1..], maxBytes, overlapBytes, p);
      j := j + 1;
    }
  }

  // ---- The document ----------------------------------------------------------

  ghost predicate ByteCited(d: Document, source: DocumentSource, i: nat) {
    exists j, c :: 0 <= j < |d.chunks| && c in d.chunks[j].citations
                   && Quotes(d.canonicalText, d.chunks[j].range, source, c) && c.sourceStart <= i < c.sourceEnd
  }

  ghost predicate QuotesSome(d: Document, r: ByteRange, c: Citation) {
    exists source :: source in d.sources && Quotes(d.canonicalText, r, source, c)
  }

  // The chunks are the split of the text, every chunk has citations, each of
  // them quotes a source exactly, and no byte of any source goes uncited.
  ghost predicate Exact(d: Document) {
    && d.contentHash == Digest(d.canonicalText)
    && (forall j | 0 <= j < |d.chunks| ::
          d.chunks[j].index == j && d.chunks[j].contentHash == Digest(d.chunks[j].range.content))
    && SplitOf(d.canonicalText, 1200, 160)
       == Outcome.Chunks(seq(|d.chunks|, j requires 0 <= j < |d.chunks| => d.chunks[j].range))
    && (forall j | 0 <= j < |d.chunks| ::
          d.chunks[j].citations != []
          && forall c | c in d.chunks[j].citations :: QuotesSome(d, d.chunks[j].range, c))
    && (forall k, i | 0 <= k < |d.sources| && 0 <= i < |d.sources[k].canonicalText| :: ByteCited(d, d.sources[k], i))
  }

  lemma CitedExactly(d: Document, segments: seq<Segment>, j: nat)
    requires Placed(d.canonicalText, d.sources, segments)
    requires j < |d.chunks| && GoodRange(d.canonicalText, d.chunks[j].range)
    requires CitationsFor(d.chunks[j].range, segments) == Success(d.chunks[j].citations)
    ensures forall c | c in d.chunks[j].citations :: QuotesSome(d, d.chunks[j].range, c)
  {
    hide Valid, HeadSize, CitationsFor, CitationFor, Intersects, Quotes;
    var r := d.chunks[j].range;
    CitationsExact(d.canonicalText, r, segments);
    forall c | c in d.chunks[j].citations
      ensures QuotesSome(d, r, c)
    {
      var k :| 0 <= k < |segments| && Intersects(r, segments[k]) && CitationFor(r, segments[k]) == Success(c);
      CitationQuotes(d.canonicalText, r, segments[k]);
      assert d.sources[k] in d.sources;
    }
  }

  lemma SourceByteCited(d: Document, segments: seq<Segment>, ranges: seq<ByteRange>, k: nat, i: nat)
    requires Placed(d.canonicalText, d.sources, segments)
    requires Covers(d.canonicalText, 0, ranges, MAX_CHUNK_BYTES, CHUNK_OVERLAP)
    requires |d.chunks| == |ranges|
    requires forall j | 0 <= j < |ranges| ::
               && GoodRange(d.canonicalText, ranges[j]) && d.chunks[j].range == ranges[j]
               && CitationsFor(ranges[j], segments) == Success(d.chunks[j].citations)
    requires k < |d.sources| && i < |d.sources[k].canonicalText|
    ensures ByteCited(d, d.sources[k], i)
  {
    hide Valid, HeadSize, CitationsFor, CitationFor, Quotes, Covers;
    var seg := segments[k];
    assert Fits(d.canonicalText, seg);
    var j := ByteInSomeRange(d.canonicalText, 0, ranges, MAX_CHUNK_BYTES, CHUNK_OVERLAP, seg.docStart + i);
    assert GoodRange(d.canonicalText, ranges[j]);
    CitationQuotes(d.canonicalText, ranges[j], seg);
    CitationsExact(d.canonicalText, ranges[j], segments);
    var c := CitationFor(ranges[j], seg).value;
    assert c in d.chunks[j].citations;
    assert Quotes(d.canonicalText, d.chunks[j].range, d.sources[k], c);
  }

  // Building a document from well placed sources never fails and is exact.
  lemma PlacedDocumentIsExact(text: seq<Byte>, sources: seq<DocumentSource>, segments: seq<Segment>)
    requires Placed(text, sources, segments)
    ensures var r := DocumentOf(text, sources, segments);
            r.Success? && Exact(r.value) && r.value.canonicalText == text && r.value.sources == sources
  {
    hide Valid, HeadSize, SplitOf, CitationsFor, Covers, GoodRange, ByteCited, QuotesSome, ChunksFor;
    assert Fits(text, segments[0]);
    NoCrUnchanged(text);
    assert NormalizeLineEndings(text) == text;
    RangesGood(text);
    var ranges := SplitOf(text, MAX_CHUNK_BYTES, CHUNK_OVERLAP).ranges;
    ChunksExact(text, sources, segments, ranges);
    var d := DocumentOf(text, sources, segments).value;
    assert seq(|d.chunks|, j requires 0 <= j < |d.chunks| => d.chunks[j].range) == ranges;
    forall j | 0 <= j < |d.chunks|
      ensures forall c | c in d.chunks[j].citations :: QuotesSome(d, d.chunks[j].range, c)
    {
      CitedExactly(d, segments, j);
    }
    forall k, i | 0 <= k < |d.sources| && 0 <= i < |d.sources[k].canonicalText|
      ensures ByteCited(d, d.sources[k], i)
    {
      SourceByteCited(d, segments, ranges, k, i);
    }
  }

  // ---- Direct documents ------------------------------------------------------

  // A valid source gives no document when it is empty, and else an exact one.
  lemma DirectDocumentIsExact(input: SourceInput)
    requires Valid(input.canonicalText)
    ensures var r := DirectOf(input);
            && r.Success?
            && (r.value.None? <==> input.canonicalText == [])
            && (r.value.Some? ==> Exact(r.value.value) && r.value.value.sources == [SourceOf(input, 0)]
                                  && r.value.value.canonicalText == NormalizeLineEndings(input.canonicalText))
  {
    hide Valid, HeadSize, NormalizeLineEndings, DocumentOf, Exact;
    NormalizeIsStable(input.canonicalText);
    NormalizeKeepsValid(input.canonicalText);
    var text := NormalizeLineEndings(input.canonicalText);
    if text != [] {
      HeadOfValid(text);
      var source := SourceOf(input, 0);
      var seg := Segment(source, 0, |text|, 0);
      assert text[0..|text|] == text;
      assert Fits(text, seg);
      PlacedDocumentIsExact(text, [source], [seg]);
    }
  }

  // ---- Comment clusters ------------------------------------------------------

  ghost predicate ValidInputs(members: seq<SourceInput>) {
    forall k | 0 <= k < |members| :: Valid(members[k].canonicalText)
  }

  ghost predicate PlacedOrEmpty(c: Cluster) {
    if c.sources == [] then c == Cluster([], [], []) else Placed(c.text, c.sources, c.segments)
  }

  lemma HeadingShape(text: seq<Byte>, id: Int64)
    ensures var h := Heading(text, id); 0 < |h| <= MAX_GAP && Valid(h) && NoCr(h) && RuneStart(h[0])
  {
    hide Valid, HeadSize;
    DecimalShape(id);
    AsciiValid(Heading(text, id));
  }

  lemma NoCrJoin(a: seq<Byte>, b: seq<Byte>)
    requires NoCr(a) && NoCr(b)
    ensures NoCr(a + b)
  {
  }

  lemma FitsLonger(text: seq<Byte>, more: seq<Byte>, seg: Segment)
    requires Fits(text, seg) && (more == [] || RuneStart(more[0]))
    ensures Fits(text + more, seg)
  {
    assert (text + more)[seg.docStart..seg.docEnd] == text[seg.docStart..seg.docEnd];
  }

  lemma FitsLast(before: seq<Byte>, canonical: seq<Byte>, source: DocumentSource)
    requires Valid(canonical) && canonical != [] && source.canonicalText == canonical
    ensures Fits(before + canonical, Segment(source, |before|, |before| + |canonical|, 0))
  {
    hide Valid, HeadSize;
    HeadOfValid(canonical);
    assert (before + canonical)[|before|..|before| + |canonical|] == canonical;
  }

  lemma WithMemberPlaced(c: Cluster, member: SourceInput)
    requires PlacedOrEmpty(c) && Valid(member.canonicalText)
    ensures PlacedOrEmpty(WithMember(c, member))
  {
    hide Valid, HeadSize, NormalizeLineEndings, Heading, Fits;
    var canonical := NormalizeLineEndings(member.canonicalText);
    NormalizeIsStable(member.canonicalText);
    NormalizeKeepsValid(member.canonicalText);
    if canonical != [] {
      var r := WithMember(c, member);
      var heading := Heading(c.text, member.sourceId);
      HeadingShape(c.text, member.sourceId);
      assert Valid(c.text) && NoCr(c.text) by { EmptyIsValid(); }
      JoinValid(c.text, heading);
      JoinValid(c.text + heading, canonical);
      NoCrJoin(c.text, heading);
      NoCrJoin(c.text + heading, canonical);
      FitsLast(c.text + heading, canonical, r.sources[|c.sources|]);
      forall k | 0 <= k < |c.segments|
        ensures Fits(r.text, r.segments[k]) && r.segments[k].source == r.sources[k]
      {
        FitsLonger(c.text, heading + canonical, c.segments[k]);
        assert c.text + heading + canonical == c.text + (heading + canonical);
      }
    }
  }

  lemma EmptyIsValid()
    ensures Valid([])
  {
  }

  lemma {:induction false} ClusterPlaced(members: seq<SourceInput>)
    requires ValidInputs(members)
    ensures PlacedOrEmpty(ClusterOf(members))
  {
    hide Valid, WithMember, Placed;
    if members != [] {
      ClusterPlaced(members[..|members| - 1]);
      WithMemberPlaced(ClusterOf(members[..|members| - 1]), members[|members| - 1]);
    }
  }

  // The sources a note's documents must hold: its non-empty comments in order.
  function Quotable(members: seq<SourceInput>): seq<DocumentSource> {
    if members == [] then []
    else
      var m := members[|members| - 1];
      Quotable(members[..|members| - 1]) + if NormalizeLineEndings(m.canonicalText) == [] then [] else [SourceOf(m, 0)]
  }

  // A source without its position in its document.
  function Unplaced(sources: seq<DocumentSource>): seq<DocumentSource> {
    seq(|sources|, k requires 0 <= k < |sources| => sources[k].(sourceOrder := 0))
  }

  function UnplacedSources(documents: seq<Document>): seq<DocumentSource> {
    if documents == [] then [] else Unplaced(documents[0].sources) + UnplacedSources(documents[1..])
  }

  ghost predicate Numbered(sources: seq<DocumentSource>) {
    forall k | 0 <= k < |sources| :: sources[k].sourceOrder == k
  }

  lemma {:induction false} ClusterSources(members: seq<SourceInput>)
    ensures Unplaced(ClusterOf(members).sources) == Quotable(members)
    ensures Numbered(ClusterOf(members).sources)
  {
    if members != [] {
      var front := members[..|members| - 1];
      ClusterSources(front);
      var m := members[|members| - 1];
      var c := ClusterOf(front);
      assert Unplaced(c.sources + [SourceOf(m, |c.sources|)]) == Unplaced(c.sources) + [SourceOf(m, 0)];
    }
  }

  lemma {:induction false} QuotableJoin(a: seq<SourceInput>, b: seq<SourceInput>)
    ensures Quotable(a + b) == Quotable(a) + Quotable(b)
  {
    if b == [] {
      assert a + b == a;
    } else {
      assert (a + b)[..|a + b| - 1] == a + b[..|b| - 1];
      QuotableJoin(a, b[..|b| - 1]);
    }
  }

  // Comment documents: building them from valid comments never fails, each is
  // exact with at most twelve sources, and together they hold every non-empty
  // comment exactly once, in order.
  lemma {:induction false} CommentDocumentsExact(sources: seq<SourceInput>)
    requires ValidInputs(sources)
    ensures ClustersOf(sources).Success?
    ensures var documents := ClustersOf(sources).value;
            && UnplacedSources(documents) == Quotable(sources)
            && forall k | 0 <= k < |documents| :: GoodDocument(documents[k])
    decreases |sources|
  {
    hide Valid, Placed, DocumentOf, ClusterOf, Exact, Quotable;
    if sources != [] {
      var first, rest := FirstCluster(sources), AfterFirst(sources);
      CommentDocumentsExact(rest);
      ClusterPlaced(first);
      ClusterSources(first);
      var c := ClusterOf(first);
      assert first + rest == sources;
      QuotableJoin(first, rest);
      if c.sources == [] {
        assert Unplaced(c.sources) == [];
        assert [] + Quotable(rest) == Quotable(rest);
      } else {
        PlacedDocumentIsExact(c.text, c.sources, c.segments);
        ClusterSize(first);
        var d := DocumentOf(c.text, c.sources, c.segments).value;
        assert GoodDocument(d);
        var documents := ClustersOf(sources).value;
        assert documents == [d] + ClustersOf(rest).value;
        assert documents[1..] == ClustersOf(rest).value;
      }
    } else {
      QuotableNone();
    }
  }

  ghost predicate GoodDocument(d: Document) {
    Exact(d) && Numbered(d.sources) && 0 < |d.sources| <= 12
  }

  lemma QuotableNone()
    ensures Quotable([]) == []
  {
  }

  lemma {:induction false} ClusterSize(members: seq<SourceInput>)
    ensures |ClusterOf(members).sources| <= |members|
  {
    hide NormalizeLineEndings, Heading;
    if members != [] {
      ClusterSize(members[..|members| - 1]);
    }
  }

  // ---- What the documents hold of their inputs -------------------------------

  // The inputs whose text is not empty.
  function NonEmpty(members: seq<SourceInput>): seq<SourceInput> {
    if members == [] then []
    else
      var m := members[|members| - 1];
      NonEmpty(members[..|members| - 1]) + if m.canonicalText == [] then [] else [m]
  }

  // A source is its input, with line endings normalised.
  predicate Mirrors(source: DocumentSource, input: SourceInput) {
    && source.evidenceSourceId == input.evidenceSourceId && source.sourceType == input.sourceType
    && source.sourceId == input.sourceId && source.sourceVersion == input.sourceVersion
    && source.contentHash == input.contentHash
    && source.canonicalText == NormalizeLineEndings(input.canonicalText)
  }

  lemma {:induction false} QuotableMirrors(members: seq<SourceInput>)
    ensures |Quotable(members)| == |NonEmpty(members)|
    ensures forall k | 0 <= k < |Quotable(members)| :: Mirrors(Quotable(members)[k], NonEmpty(members)[k])
  {
    hide NormalizeLineEndings;
    if members != [] {
      QuotableMirrors(members[..|members| - 1]);
      NormalizeIsStable(members[|members| - 1].canonicalText);
    }
  }

  // Segment k of a cluster comes right after "[comment <id>]" on a line of its
  // own, with a blank line between comments.
  ghost predicate Headed(c: Cluster) {
    |c.segments| == |c.sources| && forall k | 0 <= k < |c.segments| :: HeadedAt(c, k)
  }

  ghost predicate HeadedAt(c: Cluster, k: nat)
    requires k < |c.segments| == |c.sources|
  {
    var before := if k == 0 then 0 else c.segments[k - 1].docEnd;
    && before <= c.segments[k].docStart <= c.segments[k].docEnd <= |c.text|
    && c.text[before..c.segments[k].docStart]
       == Ascii(if k == 0 then "" else "\n\n") + Ascii("[comment ") + Decimal(c.sources[k].sourceId) + Ascii("]\n")
  }

  lemma HeadingBytes(text: seq<Byte>, id: Int64)
    ensures Heading(text, id) == Ascii(if text == [] then "" else "\n\n") + Ascii("[comment ") + Decimal(id) + Ascii("]\n")
  {
    hide Decimal;
    assert Ascii("\n\n") == [LF, LF] && Ascii("") == [];
    assert Ascii("[comment ") == COMMENT_OPEN;
    assert Ascii("]\n") == COMMENT_CLOSE;
  }

  lemma HeadedGrows(c: Cluster, member: SourceInput)
    requires Headed(c) && (if c.sources == [] then c.text == [] else c.text != [] && c.segments[|c.segments| - 1].docEnd == |c.text|)
    ensures Headed(WithMember(c, member))
    ensures var r := WithMember(c, member);
            if r.sources == [] then r.text == [] else r.text != [] && r.segments[|r.segments| - 1].docEnd == |r.text|
  {
    hide NormalizeLineEndings, Heading, Ascii, Decimal;
    var canonical := NormalizeLineEndings(member.canonicalText);
    if canonical != [] {
      var r, heading := WithMember(c, member), Heading(c.text, member.sourceId);
      HeadingBytes(c.text, member.sourceId);
      var n := |c.segments|;
      assert r.text == c.text + (heading + canonical);
      forall k | 0 <= k <= n
        ensures HeadedAt(r, k)
      {
        if k < n {
          assert HeadedAt(c, k);
          assert r.segments[k] == c.segments[k] && r.sources[k] == c.sources[k];
          SliceOfFront(c.text, heading + canonical, if k == 0 then 0 else c.segments[k - 1].docEnd, c.segments[k].docStart);
        } else {
          SliceOfMiddle(c.text, heading, canonical);
        }
      }
    }
  }

  lemma SliceOfFront<T>(a: seq<T>, b: seq<T>, i: nat, j: nat)
    requires i <= j <= |a|
    ensures (a + b)[i..j] == a[i..j]
  {
  }

  lemma SliceOfMiddle<T>(a: seq<T>, b: seq<T>, c: seq<T>)
    ensures (a + b + c)[|a|..|a| + |b|] == b
  {
  }

  // The text of a cluster is its headed comments and nothing else.
  lemma {:induction false} ClusterIsHeaded(members: seq<SourceInput>)
    ensures Headed(ClusterOf(members))
    ensures var c := ClusterOf(members);
            if c.sources == [] then c.text == [] else c.text != [] && c.segments[|c.segments| - 1].docEnd == |c.text|
  {
    hide WithMember;
    if members != [] {
      ClusterIsHeaded(members[..|members| - 1]);
      HeadedGrows(ClusterOf(members[..|members| - 1]), members[|members| - 1]);
    }
  }

  // Inputs 12k up to 12k + 12.
  function Block(sources: seq<SourceInput>, k: nat): seq<SourceInput>
    requires 12 * k <= |sources|
  {
    sources[12 * k..if 12 * k + 12 <= |sources| then 12 * k + 12 else |sources|]
  }

  lemma BlockShift(sources: seq<SourceInput>, k: nat)
    requires 0 < k && 12 * k <= |sources|
    ensures 12 * (k - 1) <= |AfterFirst(sources)| && Block(sources, k) == Block(AfterFirst(sources), k - 1)
  {
  }

  lemma FirstBlock(sources: seq<SourceInput>)
    ensures Block(sources, 0) == FirstCluster(sources)
  {
  }

  // Without empty comments every twelve of them make one document, in order.
  lemma {:induction false} TwelvePerDocument(sources: seq<SourceInput>)
    requires ValidInputs(sources) && forall k | 0 <= k < |sources| :: sources[k].canonicalText != []
    ensures ClustersOf(sources).Success?
    ensures var documents := ClustersOf(sources).value;
            && |documents| == (|sources| + 11) / 12
            && forall k | 0 <= k < |documents| :: Unplaced(documents[k].sources) == Quotable(Block(sources, k))
    decreases |sources|
  {
    hide Valid, Placed, DocumentOf, ClusterOf, Exact, Quotable, NormalizeLineEndings, Unplaced, Block, Mirrors, NonEmpty;
    CommentDocumentsExact(sources);
    if sources != [] {
      var rest := AfterFirst(sources);
      TwelvePerDocument(rest);
      FirstDocument(sources);
      var c := ClusterOf(FirstCluster(sources));
      var d := DocumentOf(c.text, c.sources, c.segments).value;
      var documents := ClustersOf(sources).value;
      assert documents == [d] + ClustersOf(rest).value;
      assert |documents| == (|rest| + 11) / 12 + 1;
      forall k | 0 <= k < |documents|
        ensures Unplaced(documents[k].sources) == Quotable(Block(sources, k))
      {
        if k > 0 {
          BlockShift(sources, k);
          assert documents[k] == ClustersOf(rest).value[k - 1];
        } else {
          FirstBlock(sources);
        }
      }
    }
  }

  lemma FirstDocument(sources: seq<SourceInput>)
    requires ValidInputs(sources) && sources != [] && forall k | 0 <= k < |sources| :: sources[k].canonicalText != []
    ensures var c := ClusterOf(FirstCluster(sources));
            && c.sources != [] && DocumentOf(c.text, c.sources, c.segments).Success?
            && Unplaced(DocumentOf(c.text, c.sources, c.segments).value.sources) == Quotable(FirstCluster(sources))
  {
    hide Valid, Placed, DocumentOf, ClusterOf, Exact, Quotable, NormalizeLineEndings;
    var first := FirstCluster(sources);
    ClusterPlaced(first);
    ClusterSources(first);
    QuotableMirrors(first);
    AllNonEmpty(first);
    var c := ClusterOf(first);
    assert |Unplaced(c.sources)| == |c.sources|;
    PlacedDocumentIsExact(c.text, c.sources, c.segments);
  }

  lemma {:induction false} AllNonEmpty(members: seq<SourceInput>)
    requires forall k | 0 <= k < |members| :: members[k].canonicalText != []
    ensures NonEmpty(members) == members
  {
    if members != [] {
      AllNonEmpty(members[..|members| - 1]);
    }
  }
}
