// Building an evidence document: its chunks and, for every chunk, citations
// back to the sources whose text it quotes (builder.go).
module Citations {
  import opened Wrappers
  import opened Utf8
  import opened Chunker
  import opened Canonical

  datatype DocumentSource = DocumentSource(
    evidenceSourceId: Int64,
    sourceType: string,
    sourceId: Int64,
    sourceVersion: Int64,
    contentHash: string,
    sourceOrder: nat,
    canonicalText: seq<Byte>)

  // Bytes docStart..docEnd of the document are source bytes from sourceStart on.
  datatype Segment = Segment(source: DocumentSource, docStart: nat, docEnd: nat, sourceStart: nat)

  datatype Citation = Citation(
    evidenceSourceId: Int64,
    sourceType: string,
    sourceId: Int64,
    sourceVersion: Int64,
    sourceContentHash: string,
    docStart: nat,
    docEnd: nat,
    sourceStart: nat,
    sourceEnd: nat,
    quoteHash: Digest)

  datatype Chunk = Chunk(index: nat, range: ByteRange, contentHash: Digest, citations: seq<Citation>)

  datatype Document = Document(canonicalText: seq<Byte>, contentHash: Digest, sources: seq<DocumentSource>, chunks: seq<Chunk>)

  // Panicked stands for the chunker's index out of range, the rest are errors.
  datatype BuildError = Panicked | NotUtf8 | EmptyText | InvalidSourceRange | Uncited

  function Max(a: nat, b: nat): nat { if a >= b then a else b }

  function Min(a: nat, b: nat): nat { if a <= b then a else b }

  predicate Intersects(r: ByteRange, seg: Segment) {
    Max(r.startByte, seg.docStart) < Min(r.endByte, seg.docEnd)
  }

  // The citation for a chunk and a segment that intersect; InvalidSourceRange
  // when the source has no such bytes or they are not valid UTF-8.
  function CitationFor(r: ByteRange, seg: Segment): Result<Citation, BuildError>
    requires Intersects(r, seg)
  {
    var docStart, docEnd := Max(r.startByte, seg.docStart), Min(r.endByte, seg.docEnd);
    var sourceStart := seg.sourceStart + docStart - seg.docStart;
    var sourceEnd := sourceStart + docEnd - docStart;
    var bytes := seg.source.canonicalText;
    if sourceEnd > |bytes| || !Valid(bytes[sourceStart..sourceEnd]) then Failure(InvalidSourceRange)
    else
      var s := seg.source;
      Success(Citation(s.evidenceSourceId, s.sourceType, s.sourceId, s.sourceVersion, s.contentHash,
                       docStart, docEnd, sourceStart, sourceEnd, Digest(bytes[sourceStart..sourceEnd])))
  }

  function CitationsFor(r: ByteRange, segments: seq<Segment>): Result<seq<Citation>, BuildError> {
    if segments == [] then Success([])
    else
      var earlier := CitationsFor(r, segments[..|segments| - 1]);
      var seg := segments[|segments| - 1];
      if earlier.Failure? || !Intersects(r, seg) then earlier
      else
        var c := CitationFor(r, seg);
        if c.Failure? then Failure(c.error) else Success(earlier.value + [c.value])
  }

  function ChunksFor(ranges: seq<ByteRange>, segments: seq<Segment>): Result<seq<Chunk>, BuildError> {
    if ranges == [] then Success([])
    else
      var n := |ranges| - 1;
      var earlier := ChunksFor(ranges[..n], segments);
      if earlier.Failure? then earlier
      else
        var citations := CitationsFor(ranges[n], segments);
        if citations.Failure? then Failure(citations.error)
        else if citations.value == [] then Failure(Uncited)
        else Success(earlier.value + [Chunk(n, ranges[n], Digest(ranges[n].content), citations.value)])
  }

  function DocumentOf(text: seq<Byte>, sources: seq<DocumentSource>, segments: seq<Segment>): Result<Document, BuildError> {
    var canonical := NormalizeLineEndings(text);
    match SplitOf(canonical, MAX_CHUNK_BYTES, CHUNK_OVERLAP)
    case Rejected => Failure(NotUtf8)
    case OutOfRange => Failure(Panicked)
    case Chunks(ranges) =>
      if ranges == [] then Failure(EmptyText)
      else
        var chunks := ChunksFor(ranges, segments);
        if chunks.Failure? then Failure(chunks.error)
        else Success(Document(canonical, Digest(canonical), sources, chunks.value))
  }

  method CiteChunk(current: ByteRange, segments: seq<Segment>) returns (r: Result<seq<Citation>, BuildError>)
    ensures r == CitationsFor(current, segments)
  {
    hide Valid, CitationFor;
    var citations: seq<Citation> := [];
    for k := 0 to |segments|
      invariant CitationsFor(current, segments[..k]) == Success(citations)
    {
      var seg := segments[k];
      assert segments[..k + 1][..k] == segments[..k];
      if Intersects(current, seg) {
        var c := CitationFor(current, seg);
        if c.Failure? {
          FailureStays(current, segments, k + 1);
          return Failure(c.error);
        }
        citations := citations + [c.value];
      }
    }
    assert segments[..|segments|] == segments;
    return Success(citations);
  }

  // The first error ends the construction.
  lemma {:induction false} FailureStays(r: ByteRange, segments: seq<Segment>, k: nat)
    requires k <= |segments| && CitationsFor(r, segments[..k]).Failure?
    ensures CitationsFor(r, segments) == CitationsFor(r, segments[..k])
    decreases |segments|
  {
    hide CitationFor;
    if k < |segments| {
      var front := segments[..|segments| - 1];
      assert front[..k] == segments[..k];
      FailureStays(r, front, k);
    } else {
      assert segments[..k] == segments;
    }
  }

  lemma {:induction false} ChunkFailureStays(ranges: seq<ByteRange>, segments: seq<Segment>, k: nat)
    requires k <= |ranges| && ChunksFor(ranges[..k], segments).Failure?
    ensures ChunksFor(ranges, segments) == ChunksFor(ranges[..k], segments)
    decreases |ranges|
  {
    hide CitationsFor;
    if k < |ranges| {
      var front := ranges[..|ranges| - 1];
      assert front[..k] == ranges[..k];
      ChunkFailureStays(front, segments, k);
    } else {
      assert ranges[..k] == ranges;
    }
  }

  method BuildDocument(text: seq<Byte>, sources: seq<DocumentSource>, segments: seq<Segment>)
    returns (r: Result<Document, BuildError>)
    ensures r == DocumentOf(text, sources, segments)
  {
    hide SplitOf, CitationsFor, NormalizeLineEndings;
    var canonical := NormalizeLineEndings(text);
    var split := SplitCanonicalText(canonical, MAX_CHUNK_BYTES, CHUNK_OVERLAP);
    if split.Rejected? {
      return Failure(NotUtf8);
    }
    if split.OutOfRange? {
      return Failure(Panicked);
    }
    var ranges := split.ranges;
    if |ranges| == 0 {
      return Failure(EmptyText);
    }
    var chunks: seq<Chunk> := [];
    for index := 0 to |ranges|
      invariant ChunksFor(ranges[..index], segments) == Success(chunks)
    {
      assert ranges[..index + 1][..index] == ranges[..index];
      var citations := CiteChunk(ranges[index], segments);
      if citations.Failure? {
        ChunkFailureStays(ranges, segments, index + 1);
        return Failure(citations.error);
      }
      if |citations.value| == 0 {
        ChunkFailureStays(ranges, segments, index + 1);
        return Failure(Uncited);
      }
      chunks := chunks + [Chunk(index, ranges[index], Digest(ranges[index].content), citations.value)];
    }
    assert ranges[..|ranges|] == ranges;
    return Success(Document(canonical, Digest(canonical), sources, chunks));
  }

  // ---- Direct documents and comment clusters ---------------------------------

  datatype SourceInput = SourceInput(
    evidenceSourceId: Int64,
    sourceType: string,
    sourceId: Int64,
    sourceVersion: Int64,
    contentHash: string,
    canonicalText: seq<Byte>)

  function SourceOf(input: SourceInput, order: nat): DocumentSource {
    DocumentSource(input.evidenceSourceId, input.sourceType, input.sourceId, input.sourceVersion,
                   input.contentHash, order, NormalizeLineEndings(input.canonicalText))
  }

  // A direct document quotes its only source whole; None for an empty source.
  method BuildDirectDocument(input: SourceInput) returns (r: Result<Option<Document>, BuildError>)
    ensures r == DirectOf(input)
  {
    var canonical := NormalizeLineEndings(input.canonicalText);
    if |canonical| == 0 {
      return Success(None);
    }
    var source := SourceOf(input, 0);
    var document := BuildDocument(canonical, [source], [Segment(source, 0, |canonical|, 0)]);
    return if document.Failure? then Failure(document.error) else Success(Some(document.value));
  }

  function DirectOf(input: SourceInput): Result<Option<Document>, BuildError> {
    var canonical := NormalizeLineEndings(input.canonicalText);
    if canonical == [] then Success(None)
    else
      var source := SourceOf(input, 0);
      var document := DocumentOf(canonical, [source], [Segment(source, 0, |canonical|, 0)]);
      if document.Failure? then Failure(document.error) else Success(Some(document.value))
  }

  const COMMENT_CLUSTER_SIZE := 12

  const COMMENT_OPEN: seq<Byte> := [0x5B, 0x63, 0x6F, 0x6D, 0x6D, 0x65, 0x6E, 0x74, 0x20]  // "[comment "
  const COMMENT_CLOSE: seq<Byte> := [0x5D, LF]                                              // "]\n"

  datatype Cluster = Cluster(text: seq<Byte>, segments: seq<Segment>, sources: seq<DocumentSource>)

  // Separator and heading written in front of a comment.
  function Heading(text: seq<Byte>, id: Int64): seq<Byte> {
    (if |text| > 0 then [LF, LF] else []) + COMMENT_OPEN + Decimal(id) + COMMENT_CLOSE
  }

  function WithMember(c: Cluster, member: SourceInput): Cluster {
    var canonical := NormalizeLineEndings(member.canonicalText);
    if canonical == [] then c
    else
      var source := SourceOf(member, |c.sources|);
      var before := c.text + Heading(c.text, member.sourceId);
      Cluster(before + canonical,
              c.segments + [Segment(source, |before|, |before| + |canonical|, 0)],
              c.sources + [source])
  }

  function ClusterOf(members: seq<SourceInput>): Cluster {
    if members == [] then Cluster([], [], [])
    else WithMember(ClusterOf(members[..|members| - 1]), members[|members| - 1])
  }

  method BuildCluster(members: seq<SourceInput>) returns (c: Cluster)
    ensures c == ClusterOf(members)
  {
    hide NormalizeLineEndings, Heading;
    var text: seq<Byte> := [];
    var segments: seq<Segment> := [];
    var sources: seq<DocumentSource> := [];
    for k := 0 to |members|
      invariant Cluster(text, segments, sources) == ClusterOf(members[..k])
    {
      var member := members[k];
      assert members[..k + 1][..k] == members[..k];
      var canonical := NormalizeLineEndings(member.canonicalText);
      if |canonical| == 0 {
        continue;
      }
      text := text + Heading(text, member.sourceId);
      var documentStart := |text|;
      text := text + canonical;
      var source := SourceOf(member, |sources|);
      sources := sources + [source];
      segments := segments + [Segment(source, documentStart, |text|, 0)];
    }
    assert members[..|members|] == members;
    c := Cluster(text, segments, sources);
  }

  function FirstCluster(sources: seq<SourceInput>): seq<SourceInput> {
    sources[..Min(COMMENT_CLUSTER_SIZE, |sources|)]
  }

  function AfterFirst(sources: seq<SourceInput>): seq<SourceInput> {
    sources[Min(COMMENT_CLUSTER_SIZE, |sources|)..]
  }

  // The documents of a note's comments, already in the order of the sort.
  function ClustersOf(sources: seq<SourceInput>): Result<seq<Document>, BuildError> {
    if sources == [] then Success([])
    else
      var c := ClusterOf(FirstCluster(sources));
      if c.sources == [] then ClustersOf(AfterFirst(sources))
      else
        var document := DocumentOf(c.text, c.sources, c.segments);
        if document.Failure? then Failure(document.error)
        else PrependDocuments([document.value], ClustersOf(AfterFirst(sources)))
  }

  function PrependDocuments(documents: seq<Document>, rest: Result<seq<Document>, BuildError>): Result<seq<Document>, BuildError> {
    if rest.Failure? then rest else Success(documents + rest.value)
  }

  method BuildCommentClusters(sources: seq<SourceInput>) returns (r: Result<seq<Document>, BuildError>)
    ensures r == ClustersOf(sources)
  {
    hide ClusterOf, DocumentOf;
    var documents: seq<Document> := [];
    var start := 0;
    assert sources[0..] == sources;
    PrependNone(ClustersOf(sources));
    while start < |sources|
      invariant start <= |sources|
      invariant ClustersOf(sources) == PrependDocuments(documents, ClustersOf(sources[start..]))
    {
      var end := Min(start + COMMENT_CLUSTER_SIZE, |sources|);
      var rest := sources[start..];
      assert FirstCluster(rest) == sources[start..end];
      assert AfterFirst(rest) == sources[end..];
      var c := BuildCluster(sources[start..end]);
      if |c.sources| > 0 {
        var document := BuildDocument(c.text, c.sources, c.segments);
        if document.Failure? {
          return Failure(document.error);
        }
        PrependAgain(documents, document.value, ClustersOf(sources[end..]));
        documents := documents + [document.value];
      }
      start := end;
    }
    assert sources[start..] == [] && documents + [] == documents;
    return Success(documents);
  }

  lemma PrependNone(rest: Result<seq<Document>, BuildError>)
    ensures PrependDocuments([], rest) == rest
  {
    if rest.Success? {
      assert [] + rest.value == rest.value;
    }
  }

  lemma PrependAgain(documents: seq<Document>, d: Document, rest: Result<seq<Document>, BuildError>)
    ensures PrependDocuments(documents, PrependDocuments([d], rest)) == PrependDocuments(documents + [d], rest)
  {
    if rest.Success? {
      assert documents + ([d] + rest.value) == documents + [d] + rest.value;
    }
  }
}
