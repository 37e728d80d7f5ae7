// What splitCanonicalText guarantees, and exactly for which parameters.
module ChunkerProperties {
  import opened Utf8
  import opened Chunker

  // The shortest chunk that is not the last: a preferred boundary just after
  // three fifths of the window, or the window cut back by at most three bytes.
  function MinimumChunk(maxBytes: int): int {
    if maxBytes * 3 / 5 + 1 < maxBytes - 3 then maxBytes * 3 / 5 + 1 else maxBytes - 3
  }

  // The parameters for which splitting succeeds on every valid text.
  predicate SafeBounds(maxBytes: int, overlapBytes: int) {
    maxBytes >= 4 && 0 <= overlapBytes <= MinimumChunk(maxBytes)
  }

  // ---- The three searches ----------------------------------------------------

  lemma {:induction false} BackToStartStops(data: seq<Byte>, start: nat, limit: nat, stop: nat)
    requires start <= stop <= limit < |data| && RuneStart(data[stop])
    ensures BackToStart(data, start, limit) >= stop
    ensures Boundary(data, BackToStart(data, start, limit)) || BackToStart(data, start, limit) == start
    decreases limit
  {
    if limit > start && !RuneStart(data[limit]) {
      BackToStartStops(data, start, limit - 1, stop);
    }
  }

  lemma {:induction false} ForwardToStartStops(data: seq<Byte>, position: nat, bound: nat)
    requires position <= bound <= |data| && Boundary(data, bound)
    ensures Boundary(data, ForwardToStart(data, position, bound))
    decreases bound - position
  {
    if position < bound && !RuneStart(data[position]) {
      ForwardToStartStops(data, position + 1, bound);
    }
  }

  // Decoding at a boundary of valid text steps to the next boundary.
  lemma DecodeSteps(data: seq<Byte>, position: nat, limit: nat)
    requires Valid(data) && Boundary(data, position) && Boundary(data, limit) && position < limit
    ensures var size := DecodeRune(data[position..limit]).1;
            size > 0 && position + size <= limit && Boundary(data, position + size)
  {
    hide Valid, HeadSize, DecodeRune;
    SliceValid(data, position, limit);
    var slice := data[position..limit];
    HeadOfValid(slice);
    var size := DecodeRune(slice).1;
    if position + size < limit {
      assert slice[size] == data[position + size];
    }
  }

  predicate PreferredAt(data: seq<Byte>, q: nat, limit: nat)
    requires limit <= |data|
  {
    q < limit && IsPreferredBoundary(DecodeRune(data[q..limit]).0)
  }

  // LastPreferred is what its name says: it ends a preferred rune after which
  // no rune of the window is preferred, or there is no preferred rune at all.
  lemma {:induction false} LastPreferredIsLast(data: seq<Byte>, position: nat, limit: nat, best: nat)
    requires Valid(data) && Boundary(data, position) && Boundary(data, limit) && position <= limit
    ensures var r := LastPreferred(data, position, limit, best);
            || (r == best && forall q | position <= q < limit && Boundary(data, q) :: !PreferredAt(data, q, limit))
            || (position < r <= limit && Boundary(data, r) && EndsPreferred(data, position, limit, r)
                && forall q | r <= q < limit && Boundary(data, q) :: !PreferredAt(data, q, limit))
    decreases limit - position
  {
    hide Valid, HeadSize, DecodeRune, IsPreferredBoundary;
    if position < limit {
      var (c, size) := DecodeRune(data[position..limit]);
      DecodeSteps(data, position, limit);
      LastPreferredIsLast(data, position + size, limit, if IsPreferredBoundary(c) then position + size else best);
      NoBoundaryInside(data, position, limit);
      if IsPreferredBoundary(c) {
        assert PreferredAt(data, position, limit);
      }
      var r := LastPreferred(data, position, limit, best);
      if position + size < r && EndsPreferred(data, position + size, limit, r) {
        assert EndsPreferred(data, position, limit, r);
      }
    }
  }

  ghost predicate EndsPreferred(data: seq<Byte>, from: nat, limit: nat, end: nat)
    requires limit <= |data|
  {
    exists q: nat :: from <= q && PreferredAt(data, q, limit) && end == q + DecodeRune(data[q..limit]).1
  }

  lemma NoBoundaryInside(data: seq<Byte>, position: nat, limit: nat)
    requires Valid(data) && Boundary(data, position) && Boundary(data, limit) && position < limit
    ensures forall q | position < q < position + DecodeRune(data[position..limit]).1 :: !Boundary(data, q)
  {
    SliceValid(data, position, limit);
    var slice := data[position..limit];
    HeadOfValid(slice);
    HeadShape(slice);
    forall q | position < q < position + HeadSize(slice)
      ensures !Boundary(data, q)
    {
      assert slice[q - position] == data[q];
    }
  }

  // ---- One step of the loop --------------------------------------------------

  lemma EmptySearches(data: seq<Byte>, position: nat, bound: nat, best: nat)
    requires bound <= position && bound <= |data|
    ensures ForwardToStart(data, position, bound) == position
    ensures LastPreferred(data, position, bound, best) == best
  {
  }

  lemma PreferredEndBounds(data: seq<Byte>, start: nat, maxBytes: nat)
    requires Valid(data) && Boundary(data, start) && maxBytes >= 4 && start + maxBytes < |data|
    ensures var end := PreferredEndOf(data, start, start + maxBytes, maxBytes * 3 / 5);
            start + MinimumChunk(maxBytes) <= end <= start + maxBytes && Boundary(data, end)
  {
    hide Valid, HeadSize, DecodeRune, BackToStart, ForwardToStart, LastPreferred;
    var limit := start + maxBytes;
    var stop := StartNearby(data, limit);
    BackToStartStops(data, start, limit, stop);
    var back := BackToStart(data, start, limit);
    var m := start + maxBytes * 3 / 5;
    var minimum := ForwardToStart(data, m, back);
    if m <= back {
      ForwardToStartStops(data, m, back);
      LastPreferredIsLast(data, minimum, back, 0);
    } else {
      EmptySearches(data, m, back, 0);
    }
  }

  lemma StepFacts(data: seq<Byte>, start: nat, maxBytes: nat, overlapBytes: nat)
    requires Valid(data) && Boundary(data, start) && start < |data| && SafeBounds(maxBytes, overlapBytes)
    ensures var end := EndOf(data, start, maxBytes);
            && start < end <= |data| && Boundary(data, end) && Valid(data[start..end])
            && (end < |data| ==>
                  end - start >= MinimumChunk(maxBytes)
                  && var next := NextStart(data, start, end, overlapBytes);
                     start < next <= end && Boundary(data, next)
                     && next - start >= MinimumChunk(maxBytes) - overlapBytes)
  {
    hide Valid, HeadSize, DecodeRune, BackToStart, ForwardToStart, LastPreferred, PreferredEndOf;
    var end := EndOf(data, start, maxBytes);
    if |data| - start > maxBytes {
      PreferredEndBounds(data, start, maxBytes);
    }
    SliceValid(data, start, end);
    if end < |data| {
      ForwardToStartStops(data, end - overlapBytes, end);
    }
  }

  // Splitting never fails on valid text.
  lemma {:induction false} SplitFromTotal(data: seq<Byte>, start: nat, maxBytes: nat, overlapBytes: nat)
    requires Valid(data) && Boundary(data, start) && start < |data| && SafeBounds(maxBytes, overlapBytes)
    ensures SplitFrom(data, start, maxBytes, overlapBytes).Chunks?
    decreases |data| - start
  {
    StepFacts(data, start, maxBytes, overlapBytes);
    var end := EndOf(data, start, maxBytes);
    if end < |data| {
      SplitFromTotal(data, NextStart(data, start, end, overlapBytes), maxBytes, overlapBytes);
    }
  }

  // ---- The shape of a successful split ---------------------------------------

  // Chunk k of `ranges` is a non-empty window of at most maxBytes valid bytes.
  ghost predicate IsWindow(data: seq<Byte>, r: ByteRange, maxBytes: int) {
    && r.startByte < r.endByte <= |data| && r.endByte - r.startByte <= maxBytes
    && r == RangeOf(data, r.startByte, r.endByte)
    && Valid(r.content)
  }

  // The next chunk starts later, leaves no gap and repeats at most overlapBytes.
  ghost predicate Follows(data: seq<Byte>, r: ByteRange, next: ByteRange, overlapBytes: int) {
    && r.startByte < next.startByte <= r.endByte < |data|
    && r.endByte - next.startByte <= overlapBytes
    && Boundary(data, next.startByte)
  }

  ghost predicate Covers(data: seq<Byte>, start: nat, ranges: seq<ByteRange>, maxBytes: int, overlapBytes: int) {
    && |ranges| > 0
    && ranges[0].startByte == start
    && ranges[|ranges| - 1].endByte == |data|
    && (forall k | 0 <= k < |ranges| :: IsWindow(data, ranges[k], maxBytes))
    && (forall k | 0 <= k < |ranges| - 1 :: Follows(data, ranges[k], ranges[k + 1], overlapBytes))
  }

  lemma PreferredEndAtMostLimit(data: seq<Byte>, start: nat, limit: nat, minimumLength: nat)
    requires start <= limit < |data|
    ensures PreferredEndOf(data, start, limit, minimumLength) <= limit
  {
    var back := BackToStart(data, start, limit);
    var minimum := ForwardToStart(data, start + minimumLength, back);
    LastPreferredAtMost(data, minimum, back, 0);
  }

  lemma {:induction false} LastPreferredAtMost(data: seq<Byte>, position: nat, limit: nat, best: nat)
    requires limit <= |data| && best <= limit
    ensures LastPreferred(data, position, limit, best) <= limit
    decreases limit - position
  {
    if position < limit {
      var (r, size) := DecodeRune(data[position..limit]);
      LastPreferredAtMost(data, position + size, limit, if IsPreferredBoundary(r) then position + size else best);
    }
  }

  lemma {:induction false} ForwardIsStartOrBound(data: seq<Byte>, position: nat, bound: nat)
    requires position <= bound <= |data|
    ensures var p := ForwardToStart(data, position, bound); p == bound || RuneStart(data[p])
    decreases bound - position
  {
    if position < bound && !RuneStart(data[position]) {
      ForwardIsStartOrBound(data, position + 1, bound);
    }
  }

  // One step of a successful split.
  lemma SplitUnfolds(data: seq<Byte>, start: nat, maxBytes: nat, overlapBytes: nat)
    requires start < |data| && SplitFrom(data, start, maxBytes, overlapBytes).Chunks? && 0 < maxBytes
    ensures var end := EndOf(data, start, maxBytes);
            var ranges := SplitFrom(data, start, maxBytes, overlapBytes).ranges;
            && start < end <= |data| && end - start <= maxBytes && Valid(data[start..end])
            && (end == |data| ==> ranges == [RangeOf(data, start, end)])
            && (end < |data| ==>
                  var next := NextStart(data, start, end, overlapBytes);
                  && start < next <= end && end - next <= overlapBytes && (next == end || RuneStart(data[next]))
                  && SplitFrom(data, next, maxBytes, overlapBytes).Chunks?
                  && ranges == [RangeOf(data, start, end)] + SplitFrom(data, next, maxBytes, overlapBytes).ranges)
  {
    hide Valid, HeadSize, RuneCount, PreferredEndOf, LastPreferred, BackToStart;
    var end := EndOf(data, start, maxBytes);
    if |data| - start > maxBytes {
      PreferredEndAtMostLimit(data, start, start + maxBytes, maxBytes * 3 / 5);
    }
    if end < |data| {
      ForwardIsStartOrBound(data, end - overlapBytes, end);
    }
  }

  lemma CoversCons(data: seq<Byte>, r: ByteRange, rest: seq<ByteRange>, maxBytes: int, overlapBytes: int)
    requires IsWindow(data, r, maxBytes)
    requires |rest| > 0 && Follows(data, r, rest[0], overlapBytes)
    requires Covers(data, rest[0].startByte, rest, maxBytes, overlapBytes)
    ensures Covers(data, r.startByte, [r] + rest, maxBytes, overlapBytes)
  {
    hide IsWindow, Follows;
    var ranges := [r] + rest;
    forall k | 0 <= k < |ranges|
      ensures IsWindow(data, ranges[k], maxBytes)
    {
      assert k > 0 ==> ranges[k] == rest[k - 1];
    }
    forall k | 0 <= k < |ranges| - 1
      ensures Follows(data, ranges[k], ranges[k + 1], overlapBytes)
    {
      assert ranges[k + 1] == rest[k];
      if k > 0 {
        assert Follows(data, rest[k - 1], rest[(k - 1) + 1], overlapBytes);
      }
    }
  }

  // On any text, valid or not, a successful split covers the text from `start`
  // and that text is valid.
  lemma {:induction false} SplitFromCovers(data: seq<Byte>, start: nat, maxBytes: nat, overlapBytes: nat)
    requires start < |data| && SplitFrom(data, start, maxBytes, overlapBytes).Chunks?
    requires 0 < maxBytes
    ensures Valid(data[start..])
    ensures Covers(data, start, SplitFrom(data, start, maxBytes, overlapBytes).ranges, maxBytes, overlapBytes)
    decreases |data| - start
  {
    hide Valid, HeadSize, RuneCount, SplitFrom, EndOf, NextStart;
    SplitUnfolds(data, start, maxBytes, overlapBytes);
    var end := EndOf(data, start, maxBytes);
    if end == |data| {
      assert data[start..end] == data[start..];
    } else {
      var next := NextStart(data, start, end, overlapBytes);
      SplitFromCovers(data, next, maxBytes, overlapBytes);
      NextIsBoundary(data, start, end, next);
      CoversCons(data, RangeOf(data, start, end), SplitFrom(data, next, maxBytes, overlapBytes).ranges,
                 maxBytes, overlapBytes);
    }
  }

  // A chunk followed by the rest from inside it: the join is valid and the cut
  // is a boundary of the whole.
  lemma NextIsBoundary(data: seq<Byte>, start: nat, end: nat, next: nat)
    requires start < next <= end <= |data| && next < |data|
    requires Valid(data[start..end]) && Valid(data[next..])
    requires next == end || RuneStart(data[next])
    ensures Boundary(data, next) && Valid(data[start..])
  {
    hide Valid, HeadSize;
    var chunk := data[start..end];
    SplitValid(chunk, next - start);
    assert chunk[..next - start] == data[start..next];
    HeadOfValid(data[next..]);
    JoinValid(data[start..next], data[next..]);
    assert data[start..next] + data[next..] == data[start..];
  }

  // A successful split of a non-empty text, under any parameters, is a cover
  // of the whole text, and the text is valid UTF-8.
  lemma SplitCovers(text: seq<Byte>, maxBytes: int, overlapBytes: int)
    requires text != [] && SplitOf(text, maxBytes, overlapBytes).Chunks?
    ensures Valid(text)
    ensures Covers(text, 0, SplitOf(text, maxBytes, overlapBytes).ranges, maxBytes, overlapBytes)
  {
    hide Valid, HeadSize, SplitFrom;
    SplitFromCovers(text, 0, maxBytes, overlapBytes);
    assert text[0..] == text;
  }

  // With safe parameters splitting accepts exactly the valid texts.
  lemma SplitSucceedsIffValid(text: seq<Byte>, maxBytes: int, overlapBytes: int)
    requires SafeBounds(maxBytes, overlapBytes)
    ensures SplitOf(text, maxBytes, overlapBytes).Chunks? <==> Valid(text)
  {
    if text != [] {
      if Valid(text) {
        HeadOfValid(text);
        SplitFromTotal(text, 0, maxBytes, overlapBytes);
      }
      if SplitOf(text, maxBytes, overlapBytes).Chunks? {
        SplitCovers(text, maxBytes, overlapBytes);
      }
    }
  }

  // ---- Exactly which parameters are safe -------------------------------------

  const LETTER: Byte := 0x61
  const STOP: Byte := 0x2E

  function Repeat(b: Byte, n: nat): (s: seq<Byte>)
    ensures |s| == n && forall k | 0 <= k < n :: s[k] == b
  {
    seq(n, _ => b)
  }

  lemma {:induction false} AsciiValid(s: seq<Byte>)
    requires forall k | 0 <= k < |s| :: s[k] <= 0x7F
    ensures Valid(s)
    decreases |s|
  {
    if s != [] {
      AsciiValid(s[1..]);
    }
  }

  lemma {:induction false} LettersNotPreferred(data: seq<Byte>, position: nat, limit: nat, best: nat)
    requires limit <= |data| && forall k | position <= k < limit :: data[k] == LETTER
    ensures LastPreferred(data, position, limit, best) == best
    decreases limit - position
  {
    if position < limit {
      assert DecodeRune(data[position..limit]) == (LETTER, 1);
      LettersNotPreferred(data, position + 1, limit, best);
    }
  }

  // A full stop right after three fifths of the window: too short a first chunk
  // for a larger overlap.
  function StopText(maxBytes: nat): seq<Byte>
    requires maxBytes > 0
  {
    Repeat(LETTER, maxBytes * 3 / 5) + [STOP] + Repeat(LETTER, maxBytes - maxBytes * 3 / 5)
  }

  lemma StopTextShape(maxBytes: nat)
    requires maxBytes > 0
    ensures var m := maxBytes * 3 / 5;
            var text := StopText(maxBytes);
            && |text| == maxBytes + 1 && m < maxBytes && text[m] == STOP
            && (forall k | 0 <= k < |text| && k != m :: text[k] == LETTER)
            && Valid(text) && Valid(text[0..m + 1])
  {
    hide Valid, HeadSize;
    var m := maxBytes * 3 / 5;
    var text := StopText(maxBytes);
    assert text[m] == STOP;
    assert forall k | 0 <= k < |text| && k != m :: text[k] == LETTER;
    AsciiValid(text);
    AsciiValid(text[0..m + 1]);
  }

  lemma StopTextEnd(maxBytes: nat)
    requires maxBytes > 0
    ensures EndOf(StopText(maxBytes), 0, maxBytes) == maxBytes * 3 / 5 + 1
  {
    hide Valid;
    var m := maxBytes * 3 / 5;
    var text := StopText(maxBytes);
    StopTextShape(maxBytes);
    assert BackToStart(text, 0, maxBytes) == maxBytes;
    assert ForwardToStart(text, m, maxBytes) == m;
    assert DecodeRune(text[m..maxBytes]) == (STOP, 1);
    LettersNotPreferred(text, m + 1, maxBytes, m + 1);
    assert LastPreferred(text, m, maxBytes, 0) == m + 1;
  }

  lemma StopTextBreaks(maxBytes: nat, overlapBytes: nat)
    requires maxBytes * 3 / 5 + 1 < overlapBytes < maxBytes
    ensures Valid(StopText(maxBytes)) && SplitOf(StopText(maxBytes), maxBytes, overlapBytes) == OutOfRange
  {
    hide Valid, HeadSize, StopText, EndOf;
    StopTextShape(maxBytes);
    StopTextEnd(maxBytes);
  }

  // A four-byte rune across the end of the window.
  const SMILE: seq<Byte> := [0xF0, 0x9F, 0x98, 0x80]

  function WideText(n: nat): seq<Byte> {
    Repeat(LETTER, n) + SMILE
  }

  lemma WideTextValid(n: nat)
    ensures Valid(WideText(n))
  {
    AsciiValid(Repeat(LETTER, n));
    assert HeadSize(SMILE) == 4;
    assert SMILE[4..] == [];
    JoinValid(Repeat(LETTER, n), SMILE);
  }

  lemma WideTextEnd(n: nat, maxBytes: nat)
    requires n < maxBytes <= n + 3
    ensures PreferredEndOf(WideText(n), 0, maxBytes, maxBytes * 3 / 5) == n
  {
    var text := WideText(n);
    assert forall k | 0 <= k < n :: text[k] == LETTER;
    assert text[n] == 0xF0 && text[n + 1] == 0x9F && text[n + 2] == 0x98 && text[n + 3] == 0x80;
    assert BackToStart(text, 0, maxBytes) == n by {
      assert BackToStart(text, 0, n) == n;
      if maxBytes >= n + 2 { assert BackToStart(text, 0, n + 1) == n; }
      if maxBytes == n + 3 { assert BackToStart(text, 0, n + 2) == n; }
    }
    var minimum := ForwardToStart(text, maxBytes * 3 / 5, n);
    LettersNotPreferred(text, minimum, n, 0);
  }

  lemma WideTextBreaks(maxBytes: nat, overlapBytes: nat)
    requires 4 <= maxBytes && maxBytes - 3 < overlapBytes < maxBytes
    ensures SplitOf(WideText(maxBytes - 3), maxBytes, overlapBytes) == OutOfRange
  {
    var n := maxBytes - 3;
    var text := WideText(n);
    WideTextEnd(n, maxBytes);
    assert forall k | 0 <= k < n :: text[0..n][k] == LETTER;
    AsciiValid(text[0..n]);
  }

  lemma WideTextRejected(maxBytes: nat, overlapBytes: nat)
    requires 1 <= maxBytes <= 3
    ensures SplitOf(WideText(0), maxBytes, overlapBytes) == Rejected
  {
    if overlapBytes < maxBytes {
      WideTextEnd(0, maxBytes);
    }
  }

  // The exact condition: splitting succeeds on every valid text if and only if
  // the window holds at least one four-byte rune and the overlap is no longer
  // than the shortest chunk.  Otherwise some valid text is rejected or makes
  // the code index its input at a negative offset.
  lemma SafeBoundsExact(maxBytes: int, overlapBytes: int)
    ensures SafeBounds(maxBytes, overlapBytes)
            <==> forall text :: Valid(text) ==> SplitOf(text, maxBytes, overlapBytes).Chunks?
  {
    if SafeBounds(maxBytes, overlapBytes) {
      forall text | Valid(text)
        ensures SplitOf(text, maxBytes, overlapBytes).Chunks?
      {
        SplitSucceedsIffValid(text, maxBytes, overlapBytes);
      }
    } else if maxBytes <= 0 || overlapBytes < 0 || overlapBytes >= maxBytes {
      WideTextValid(0);
      assert SplitOf(WideText(0), maxBytes, overlapBytes) == Rejected;
    } else if maxBytes <= 3 {
      WideTextValid(0);
      WideTextRejected(maxBytes, overlapBytes);
    } else if overlapBytes > maxBytes - 3 {
      WideTextValid(maxBytes - 3);
      WideTextBreaks(maxBytes, overlapBytes);
    } else {
      StopTextBreaks(maxBytes, overlapBytes);
    }
  }

  // ---- Losslessness, offsets and size ----------------------------------------

  // Drop from every chunk the tail its successor repeats, and concatenate.
  function Rebuild(ranges: seq<ByteRange>): seq<Byte>
    requires forall k | 0 <= k < |ranges| - 1 ::
               ranges[k].startByte <= ranges[k + 1].startByte <= ranges[k].startByte + |ranges[k].content|
  {
    if ranges == [] then []
    else if |ranges| == 1 then ranges[0].content
    else ranges[0].content[..ranges[1].startByte - ranges[0].startByte] + Rebuild(ranges[1..])
  }

  lemma CoversTail(data: seq<Byte>, start: nat, ranges: seq<ByteRange>, maxBytes: int, overlapBytes: int)
    requires Covers(data, start, ranges, maxBytes, overlapBytes) && |ranges| > 1
    ensures Covers(data, ranges[1].startByte, ranges[1..], maxBytes, overlapBytes)
    ensures Follows(data, ranges[0], ranges[1], overlapBytes) && IsWindow(data, ranges[0], maxBytes)
  {
    assert Follows(data, ranges[0], ranges[0 + 1], overlapBytes);
    forall k | 0 <= k < |ranges[1..]| - 1
      ensures Follows(data, ranges[1..][k], ranges[1..][k + 1], overlapBytes)
    {
      assert Follows(data, ranges[k + 1], ranges[(k + 1) + 1], overlapBytes);
    }
  }

  lemma CoversRebuildable(data: seq<Byte>, start: nat, ranges: seq<ByteRange>, maxBytes: int, overlapBytes: int)
    requires Covers(data, start, ranges, maxBytes, overlapBytes)
    ensures forall k | 0 <= k < |ranges| - 1 ::
              ranges[k].startByte <= ranges[k + 1].startByte <= ranges[k].startByte + |ranges[k].content|
  {
    forall k | 0 <= k < |ranges| - 1
      ensures ranges[k].startByte <= ranges[k + 1].startByte <= ranges[k].startByte + |ranges[k].content|
    {
      assert Follows(data, ranges[k], ranges[k + 1], overlapBytes);
      assert IsWindow(data, ranges[k], maxBytes);
    }
  }

  lemma DropTail<T>(data: seq<T>, start: nat, next: nat, end: nat)
    requires start <= next <= end <= |data|
    ensures data[start..end][..next - start] + data[next..] == data[start..]
  {
  }

  // Splitting is lossless.
  lemma {:induction false} RebuildRestores(data: seq<Byte>, start: nat, ranges: seq<ByteRange>, maxBytes: int, overlapBytes: int)
    requires Covers(data, start, ranges, maxBytes, overlapBytes)
    requires forall k | 0 <= k < |ranges| - 1 ::
               ranges[k].startByte <= ranges[k + 1].startByte <= ranges[k].startByte + |ranges[k].content|
    ensures start <= |data| && Rebuild(ranges) == data[start..]
    decreases |ranges|
  {
    hide Valid, HeadSize, RuneCount;
    assert IsWindow(data, ranges[0], maxBytes);
    if |ranges| > 1 {
      CoversTail(data, start, ranges, maxBytes, overlapBytes);
      var next := ranges[1].startByte;
      CoversRebuildable(data, next, ranges[1..], maxBytes, overlapBytes);
      RebuildRestores(data, next, ranges[1..], maxBytes, overlapBytes);
      DropTail(data, start, next, ranges[0].endByte);
    }
  }

  // Rune offsets match byte offsets: they count the rune starts before the
  // byte offset, and their difference counts the runes of the content.
  lemma RuneOffsetsAgree(text: seq<Byte>, maxBytes: int, overlapBytes: int, k: nat)
    requires text != [] && SplitOf(text, maxBytes, overlapBytes).Chunks?
    requires k < |SplitOf(text, maxBytes, overlapBytes).ranges|
    ensures var r := SplitOf(text, maxBytes, overlapBytes).ranges[k];
            && r.startByte <= r.endByte <= |text|
            && Boundary(text, r.startByte) && Boundary(text, r.endByte)
            && r.startRune == Starts(text[..r.startByte]) && r.endRune == Starts(text[..r.endByte])
            && r.endRune == r.startRune + RuneCount(r.content)
  {
    hide Valid, HeadSize, RuneCount, SplitOf, Starts;
    var ranges := SplitOf(text, maxBytes, overlapBytes).ranges;
    SplitCovers(text, maxBytes, overlapBytes);
    assert IsWindow(text, ranges[k], maxBytes);
    HeadOfValid(text);
    if k > 0 {
      assert Follows(text, ranges[k - 1], ranges[(k - 1) + 1], overlapBytes);
    }
    WindowOffsets(text, ranges[k].startByte, ranges[k].endByte);
  }

  lemma WindowOffsets(text: seq<Byte>, start: nat, end: nat)
    requires Valid(text) && Boundary(text, start) && start <= end <= |text| && Valid(text[start..end])
    ensures Boundary(text, end)
    ensures RuneCount(text[..start]) == Starts(text[..start]) && RuneCount(text[..end]) == Starts(text[..end])
    ensures RuneCount(text[..end]) == RuneCount(text[..start]) + RuneCount(text[start..end])
  {
    hide Valid, HeadSize, RuneCount, Starts;
    SplitValid(text, start);
    assert text[..start] + text[start..end] == text[..end];
    JoinValid(text[..start], text[start..end]);
    CountJoin(text[..start], text[start..end]);
    RuneCountIsStarts(text[..start]);
    RuneCountIsStarts(text[..end]);
    EndIsBoundary(text, end);
  }

  // Cutting valid text so that the front is valid cuts it at a boundary.
  lemma {:induction false} EndIsBoundary(s: seq<Byte>, i: nat)
    requires Valid(s) && i <= |s| && Valid(s[..i])
    ensures Boundary(s, i)
    decreases |s|
  {
    if 0 < i < |s| {
      UnconsValid(s[..i]);
      var k := HeadSize(s[..i]);
      HeadStable(s[..i], s[i..]);
      assert s[..i] + s[i..] == s;
      assert s[..i][k..] == s[k..][..i - k];
      EndIsBoundary(s[k..], i - k);
    } else if i == 0 && s != [] {
      HeadOfValid(s);
    }
  }

  lemma {:induction false} SplitFromCount(data: seq<Byte>, start: nat, maxBytes: nat, overlapBytes: nat)
    requires Valid(data) && Boundary(data, start) && start < |data| && SafeBounds(maxBytes, overlapBytes)
    requires overlapBytes < MinimumChunk(maxBytes)
    ensures SplitFrom(data, start, maxBytes, overlapBytes).Chunks?
    ensures (|SplitFrom(data, start, maxBytes, overlapBytes).ranges| - 1) * (MinimumChunk(maxBytes) - overlapBytes)
            <= |data| - 1 - start
    decreases |data| - start
  {
    hide Valid, HeadSize, RuneCount, SplitFrom, EndOf, NextStart;
    SplitFromTotal(data, start, maxBytes, overlapBytes);
    SplitUnfolds(data, start, maxBytes, overlapBytes);
    StepFacts(data, start, maxBytes, overlapBytes);
    var end := EndOf(data, start, maxBytes);
    if end < |data| {
      var next := NextStart(data, start, end, overlapBytes);
      SplitFromCount(data, next, maxBytes, overlapBytes);
      var n, stride := |SplitFrom(data, next, maxBytes, overlapBytes).ranges|, MinimumChunk(maxBytes) - overlapBytes;
      assert |SplitFrom(data, start, maxBytes, overlapBytes).ranges| == n + 1;
      OneMore(n, stride);
    }
  }

  lemma OneMore(n: int, stride: int)
    ensures n * stride == (n - 1) * stride + stride
  {
  }

  // Every chunk but the last is at least as long as the shortest one.
  lemma {:induction false} SplitFromLong(data: seq<Byte>, start: nat, maxBytes: nat, overlapBytes: nat)
    requires Valid(data) && Boundary(data, start) && start < |data| && SafeBounds(maxBytes, overlapBytes)
    ensures SplitFrom(data, start, maxBytes, overlapBytes).Chunks?
    ensures forall r | r in SplitFrom(data, start, maxBytes, overlapBytes).ranges ::
              r.endByte == |data| || r.endByte - r.startByte >= MinimumChunk(maxBytes)
    decreases |data| - start
  {
    hide Valid, HeadSize, RuneCount, SplitFrom, EndOf, NextStart;
    SplitFromTotal(data, start, maxBytes, overlapBytes);
    SplitUnfolds(data, start, maxBytes, overlapBytes);
    StepFacts(data, start, maxBytes, overlapBytes);
    var end := EndOf(data, start, maxBytes);
    if end < |data| {
      SplitFromLong(data, NextStart(data, start, end, overlapBytes), maxBytes, overlapBytes);
    }
  }

  // The deployed parameters: total on valid text, lossless, and at most
  // (len-1)/561 + 1 chunks of at most 1200 bytes.
  lemma DeployedSplit(text: seq<Byte>)
    requires Valid(text) && text != []
    ensures MAX_CHUNK_BYTES == 1200 && CHUNK_OVERLAP == 160
    ensures var r := SplitOf(text, 1200, 160);
            && r.Chunks?
            && Covers(text, 0, r.ranges, 1200, 160)
            && |r.ranges| <= (|text| - 1) / 561 + 1
  {
    hide Valid, HeadSize, RuneCount, SplitFrom, Covers;
    assert SafeBounds(MAX_CHUNK_BYTES, CHUNK_OVERLAP) && MinimumChunk(MAX_CHUNK_BYTES) == 721;
    HeadOfValid(text);
    SplitFromCount(text, 0, MAX_CHUNK_BYTES, CHUNK_OVERLAP);
    SplitCovers(text, MAX_CHUNK_BYTES, CHUNK_OVERLAP);
  }

  // The text is rebuilt from its chunks.
  lemma SplitIsLossless(text: seq<Byte>, maxBytes: int, overlapBytes: int)
    requires text != [] && SplitOf(text, maxBytes, overlapBytes).Chunks?
    ensures var ranges := SplitOf(text, maxBytes, overlapBytes).ranges;
            && (forall k | 0 <= k < |ranges| - 1 ::
                  ranges[k].startByte <= ranges[k + 1].startByte <= ranges[k].startByte + |ranges[k].content|)
            && Rebuild(ranges) == text
  {
    hide Valid, HeadSize, RuneCount, SplitOf, Rebuild;
    var ranges := SplitOf(text, maxBytes, overlapBytes).ranges;
    SplitCovers(text, maxBytes, overlapBytes);
    CoversRebuildable(text, 0, ranges, maxBytes, overlapBytes);
    RebuildRestores(text, 0, ranges, maxBytes, overlapBytes);
    assert text[0..] == text;
  }
}
