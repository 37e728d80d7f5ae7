// Where every chunk begins and ends, read off the text alone.
module ChunkerSteps {
  import opened Utf8
  import opened Chunker
  import opened ChunkerProperties

  // The line feed, the ASCII marks . ! ? ; : , and the full-width marks for
  // them, as bytes; the number of bytes of the mark at the head of `s`, 0 if
  // there is none.
  function MarkSize(s: seq<Byte>): nat {
    if s == [] then 0
    else if s[0] == 0x0A || s[0] == 0x2E || s[0] == 0x21 || s[0] == 0x3F || s[0] == 0x3B || s[0] == 0x3A || s[0] == 0x2C then 1
    else if |s| < 3 then 0
    else if s[0] == 0xE3 && s[1] == 0x80 && s[2] == 0x82 then 3
    else if s[0] == 0xEF && s[1] == 0xBC
            && (s[2] == 0x81 || s[2] == 0x9F || s[2] == 0x9B || s[2] == 0x9A || s[2] == 0x8C) then 3
    else 0
  }

  lemma PreferredIsMark(s: seq<Byte>)
    requires HeadSize(s) > 0
    ensures IsPreferredBoundary(DecodeRune(s).0) <==> MarkSize(s) > 0
    ensures MarkSize(s) > 0 ==> MarkSize(s) == DecodeRune(s).1
  {
    hide CodePoint;
    var n := HeadSize(s);
    if n == 2 {
      CodePoints(s[0] % 32, s[1] % 64, 0, 0);
    } else if n == 3 {
      MarkOfThree(s);
    } else if n == 4 {
      CodePoints(s[0] % 8, s[1] % 64, s[2] % 64, s[3] % 64);
    }
  }

  lemma MarkOfThree(s: seq<Byte>)
    requires HeadSize(s) == 3
    ensures IsPreferredBoundary(DecodeRune(s).0) <==> MarkSize(s) > 0
    ensures MarkSize(s) > 0 ==> MarkSize(s) == 3
  {
    hide CodePoint;
    var h, m, l := s[0] % 16, s[1] % 64, s[2] % 64;
    CodePoints(h, m, l, 0);
    assert s[0] == 0xE0 + h && s[1] == 0x80 + m && s[2] == 0x80 + l;
  }

  // q is the first boundary at or after `from`.
  ghost predicate FirstBoundary(data: seq<Byte>, from: int, q: int) {
    from <= q && Boundary(data, q) && forall x | from <= x < q :: !Boundary(data, x)
  }

  // q is the last boundary at or before `to`.
  ghost predicate LastBoundary(data: seq<Byte>, to: int, q: int) {
    q <= to && Boundary(data, q) && forall x | q < x <= to :: !Boundary(data, x)
  }

  lemma {:induction false} ForwardIsFirst(data: seq<Byte>, position: nat, bound: nat)
    requires position <= bound <= |data| && Boundary(data, bound)
    ensures FirstBoundary(data, position, ForwardToStart(data, position, bound))
    decreases bound - position
  {
    if position < bound && !RuneStart(data[position]) {
      ForwardIsFirst(data, position + 1, bound);
    }
  }

  lemma {:induction false} BackIsLast(data: seq<Byte>, start: nat, limit: nat)
    requires start <= limit < |data| && Boundary(data, start)
    ensures LastBoundary(data, limit, BackToStart(data, start, limit))
    decreases limit
  {
    if limit > start && !RuneStart(data[limit]) {
      BackIsLast(data, start, limit - 1);
    }
  }

  // A boundary lies within three bytes after any position.
  lemma {:induction false} BoundarySoon(s: seq<Byte>, i: nat) returns (q: nat)
    requires Valid(s) && i <= |s|
    ensures i <= q <= i + 3 && Boundary(s, q)
    decreases |s|
  {
    if i == 0 {
      q := 0;
      if s != [] {
        HeadShape(s);
      }
    } else {
      var k := HeadSize(s);
      HeadOfValid(s);
      if i <= k {
        q := k;
      } else {
        q := BoundarySoon(s[k..], i - k);
        q := q + k;
      }
    }
  }

  // ---- The chunks of a split -------------------------------------------------

  lemma {:induction false} SplitSteps(data: seq<Byte>, start: nat, maxBytes: nat, overlapBytes: nat, k: nat)
    requires start < |data| && 0 < maxBytes && SplitFrom(data, start, maxBytes, overlapBytes).Chunks?
    requires k < |SplitFrom(data, start, maxBytes, overlapBytes).ranges|
    ensures var ranges := SplitFrom(data, start, maxBytes, overlapBytes).ranges;
            && ranges[k].startByte < |data| && ranges[k].endByte == EndOf(data, ranges[k].startByte, maxBytes)
            && (k + 1 < |ranges| ==>
                  && ranges[k].startByte < ranges[k].endByte < |data|
                  && ranges[k + 1].startByte == NextStart(data, ranges[k].startByte, ranges[k].endByte, overlapBytes))
    decreases |data| - start
  {
    hide Valid, HeadSize, RuneCount, SplitFrom, EndOf, NextStart;
    SplitUnfolds(data, start, maxBytes, overlapBytes);
    var end := EndOf(data, start, maxBytes);
    if end < |data| {
      var next := NextStart(data, start, end, overlapBytes);
      SplitStarts(data, next, maxBytes, overlapBytes);
      if k > 0 {
        SplitSteps(data, next, maxBytes, overlapBytes, k - 1);
      }
    }
  }

  lemma SplitStarts(data: seq<Byte>, start: nat, maxBytes: nat, overlapBytes: nat)
    requires start < |data| && 0 < maxBytes && SplitFrom(data, start, maxBytes, overlapBytes).Chunks?
    ensures var ranges := SplitFrom(data, start, maxBytes, overlapBytes).ranges; |ranges| > 0 && ranges[0].startByte == start
  {
    hide Valid, HeadSize, RuneCount, SplitFrom, EndOf, NextStart;
    SplitUnfolds(data, start, maxBytes, overlapBytes);
  }

  ghost predicate StartsWell(text: seq<Byte>, from: int, r: ByteRange, next: nat) {
    exists q :: FirstBoundary(text, from, q) && next == if q > r.startByte then q else r.endByte
  }

  // The next chunk starts at the first boundary from `overlapBytes` before the
  // end of this one, or at the end when that does not lie inside this chunk.
  lemma NextChunkStart(text: seq<Byte>, maxBytes: nat, overlapBytes: nat, k: nat)
    requires Valid(text) && SafeBounds(maxBytes, overlapBytes) && SplitOf(text, maxBytes, overlapBytes).Chunks?
    requires k + 1 < |SplitOf(text, maxBytes, overlapBytes).ranges|
    ensures var r, next := SplitOf(text, maxBytes, overlapBytes).ranges[k], SplitOf(text, maxBytes, overlapBytes).ranges[k + 1];
            StartsWell(text, r.endByte - overlapBytes, r, next.startByte)
  {
    hide Valid, HeadSize, SplitFrom, RuneCount, NextStart, EndOf, StartsWell;
    SplitSteps(text, 0, maxBytes, overlapBytes, k);
    RuneOffsetsAgree(text, maxBytes, overlapBytes, k);
    var r := SplitOf(text, maxBytes, overlapBytes).ranges[k];
    LongEnough(text, maxBytes, overlapBytes, k);
    NextStartsWell(text, r, overlapBytes);
  }

  lemma LongEnough(text: seq<Byte>, maxBytes: nat, overlapBytes: nat, k: nat)
    requires Valid(text) && SafeBounds(maxBytes, overlapBytes) && SplitOf(text, maxBytes, overlapBytes).Chunks?
    requires k < |SplitOf(text, maxBytes, overlapBytes).ranges| && SplitOf(text, maxBytes, overlapBytes).ranges[k].endByte < |text|
    ensures var r := SplitOf(text, maxBytes, overlapBytes).ranges[k]; r.endByte - r.startByte >= overlapBytes
  {
    hide Valid, HeadSize, SplitFrom, RuneCount;
    HeadOfValid(text);
    SplitFromLong(text, 0, maxBytes, overlapBytes);
    var ranges := SplitOf(text, maxBytes, overlapBytes).ranges;
    assert ranges[k] in ranges;
  }

  lemma NextStartsWell(text: seq<Byte>, r: ByteRange, overlapBytes: nat)
    requires r.startByte < r.endByte < |text| && Boundary(text, r.endByte) && r.endByte - r.startByte >= overlapBytes
    ensures StartsWell(text, r.endByte - overlapBytes, r, NextStart(text, r.startByte, r.endByte, overlapBytes))
  {
    ForwardIsFirst(text, r.endByte - overlapBytes, r.endByte);
  }

  // With 1200/160 neighbouring chunks share between 157 and 160 bytes.
  lemma DeployedOverlap(text: seq<Byte>, k: nat)
    requires Valid(text) && SplitOf(text, 1200, 160).Chunks? && k + 1 < |SplitOf(text, 1200, 160).ranges|
    ensures var r, next := SplitOf(text, 1200, 160).ranges[k], SplitOf(text, 1200, 160).ranges[k + 1];
            && 157 <= r.endByte - next.startByte <= 160
            && r.endByte <= |text| && r.endByte - next.startByte <= |next.content|
            && next.content[..r.endByte - next.startByte] == text[next.startByte..r.endByte]
  {
    hide Valid, HeadSize, SplitFrom, RuneCount;
    NextChunkStart(text, 1200, 160, k);
    var ranges := SplitOf(text, 1200, 160).ranges;
    var r, next := ranges[k], ranges[k + 1];
    SplitFromLong(text, 0, 1200, 160) by { HeadOfValid(text); }
    assert r in ranges && next in ranges;
    SplitSteps(text, 0, 1200, 160, k);
    SplitCovers(text, 1200, 160);
    assert IsWindow(text, next, 1200) && IsWindow(text, r, 1200);
    assert Follows(text, r, ranges[k + 1], 160);
    var from := r.endByte - 160;
    var q :| FirstBoundary(text, from, q) && next.startByte == if q > r.startByte then q else r.endByte;
    var soon := BoundarySoon(text, r.endByte - 160);
    NextReaches(text, k);
    assert text[next.startByte..next.endByte][..r.endByte - next.startByte] == text[next.startByte..r.endByte];
  }

  // The next chunk goes at least as far as this one.
  lemma NextReaches(text: seq<Byte>, k: nat)
    requires Valid(text) && SplitOf(text, 1200, 160).Chunks? && k + 1 < |SplitOf(text, 1200, 160).ranges|
    ensures SplitOf(text, 1200, 160).ranges[k + 1].endByte >= SplitOf(text, 1200, 160).ranges[k].endByte
  {
    hide Valid, HeadSize, SplitFrom, RuneCount;
    HeadOfValid(text);
    SplitFromLong(text, 0, 1200, 160);
    SplitCovers(text, 1200, 160);
    var ranges := SplitOf(text, 1200, 160).ranges;
    assert ranges[k + 1] in ranges;
    assert Follows(text, ranges[k], ranges[k + 1], 160);
    assert IsWindow(text, ranges[k], 1200) && IsWindow(text, ranges[k + 1], 1200);
  }

  // A mark begins at q and ends within the window.
  predicate MarkAt(data: seq<Byte>, q: nat, limit: nat)
    requires limit <= |data|
  {
    q < limit && MarkSize(data[q..limit]) > 0
  }

  // A chunk runs to the end of the text if that is within reach.  Otherwise let
  // w be the last boundary within maxBytes and m the first boundary from three
  // fifths of maxBytes on: the chunk ends after the last mark that begins
  // between m and w, or at w if there is none.
  ghost predicate EndsWell(data: seq<Byte>, start: nat, maxBytes: nat, end: nat) {
    if |data| - start <= maxBytes then end == |data|
    else WindowEnds(data, start + maxBytes, start + maxBytes * 3 / 5, end)
  }

  ghost predicate WindowEnds(data: seq<Byte>, limit: nat, from: nat, end: nat) {
    exists w: nat :: LastBoundary(data, limit, w) && w <= |data| && EndsInWindow(data, from, w, end)
  }

  ghost predicate EndsInWindow(data: seq<Byte>, from: nat, w: nat, end: nat)
    requires w <= |data|
  {
    || (end == w && forall q | from <= q < w && Boundary(data, q) :: !MarkAt(data, q, w))
    || ((exists q: nat :: from <= q < w && Boundary(data, q) && MarkAt(data, q, w) && end == q + MarkSize(data[q..w]))
        && forall q | end <= q < w && Boundary(data, q) :: !MarkAt(data, q, w))
  }

  lemma PreferredAtIsMark(data: seq<Byte>, q: nat, limit: nat)
    requires Valid(data) && Boundary(data, q) && Boundary(data, limit) && q < limit
    ensures PreferredAt(data, q, limit) <==> MarkAt(data, q, limit)
    ensures MarkAt(data, q, limit) ==> MarkSize(data[q..limit]) == DecodeRune(data[q..limit]).1
  {
    hide Valid, HeadSize, DecodeRune, IsPreferredBoundary, MarkSize;
    SliceValid(data, q, limit);
    HeadOfValid(data[q..limit]);
    PreferredIsMark(data[q..limit]);
  }

  lemma {:induction false} PreferredStartsAtBoundary(data: seq<Byte>, position: nat, limit: nat, best: nat) returns (q: nat)
    requires Valid(data) && Boundary(data, position) && Boundary(data, limit) && position <= limit
    requires LastPreferred(data, position, limit, best) != best
    ensures position <= q < limit && Boundary(data, q) && PreferredAt(data, q, limit)
    ensures LastPreferred(data, position, limit, best) == q + DecodeRune(data[q..limit]).1
    decreases limit - position
  {
    hide Valid, HeadSize, DecodeRune, IsPreferredBoundary;
    var (c, size) := DecodeRune(data[position..limit]);
    DecodeSteps(data, position, limit);
    var later := if IsPreferredBoundary(c) then position + size else best;
    if LastPreferred(data, position + size, limit, later) == later {
      q := position;
    } else {
      q := PreferredStartsAtBoundary(data, position + size, limit, later);
    }
  }

  lemma ChunkEnd(data: seq<Byte>, start: nat, maxBytes: nat)
    requires Valid(data) && Boundary(data, start) && start < |data| && maxBytes >= 4
    ensures EndsWell(data, start, maxBytes, EndOf(data, start, maxBytes))
  {
    hide Valid, HeadSize, DecodeRune, MarkSize, LastPreferred, BackToStart, ForwardToStart;
    if |data| - start > maxBytes {
      var limit, from := start + maxBytes, start + maxBytes * 3 / 5;
      BackIsLast(data, start, limit);
      var w := BackToStart(data, start, limit);
      if from <= w {
        ForwardIsFirst(data, from, w);
        var m := ForwardToStart(data, from, w);
        ScanEnds(data, from, m, w, start);
      } else {
        EmptySearches(data, from, w, 0);
      }
      assert EndsInWindow(data, from, w, EndOf(data, start, maxBytes));
    }
  }

  lemma ScanEnds(data: seq<Byte>, from: nat, m: nat, w: nat, start: nat)
    requires Valid(data) && Boundary(data, w) && FirstBoundary(data, from, m) && m <= w && start <= from && w <= |data|
    ensures var best := LastPreferred(data, m, w, 0); EndsInWindow(data, from, w, if best > start then best else w)
  {
    hide Valid, HeadSize, DecodeRune, MarkSize, LastPreferred, PreferredAt, MarkAt;
    LastPreferredIsLast(data, m, w, 0);
    var best := LastPreferred(data, m, w, 0);
    forall q | from <= q < w && Boundary(data, q)
      ensures q >= m && (PreferredAt(data, q, w) <==> MarkAt(data, q, w))
    {
      PreferredAtIsMark(data, q, w);
    }
    if best != 0 {
      var q := PreferredStartsAtBoundary(data, m, w, 0);
      PreferredAtIsMark(data, q, w);
      MarkNotEmpty(data, q, w);
    }
  }

  lemma MarkNotEmpty(data: seq<Byte>, q: nat, limit: nat)
    requires limit <= |data| && MarkAt(data, q, limit)
    ensures MarkSize(data[q..limit]) > 0
  {
  }

  // Every chunk of a split of valid text ends where the text says.
  lemma ChunksEndWell(text: seq<Byte>, maxBytes: nat, overlapBytes: nat, k: nat)
    requires Valid(text) && SafeBounds(maxBytes, overlapBytes) && SplitOf(text, maxBytes, overlapBytes).Chunks?
    requires k < |SplitOf(text, maxBytes, overlapBytes).ranges|
    ensures var r := SplitOf(text, maxBytes, overlapBytes).ranges[k]; EndsWell(text, r.startByte, maxBytes, r.endByte)
  {
    hide Valid, HeadSize, SplitFrom, RuneCount, EndsWell, EndOf;
    SplitSteps(text, 0, maxBytes, overlapBytes, k);
    RuneOffsetsAgree(text, maxBytes, overlapBytes, k);
    ChunkEnd(text, SplitOf(text, maxBytes, overlapBytes).ranges[k].startByte, maxBytes);
  }

  // ---- Text that is not UTF-8 ------------------------------------------------

  // A hundred letters before stray continuation bytes.
  function StrayText(): (s: seq<Byte>)
    ensures |s| == 2000
    ensures (forall k | 0 <= k < 100 :: s[k] == 0x61) && forall k | 100 <= k < 2000 :: s[k] == 0x80
  {
    Repeat(0x61, 100) + Repeat(0x80, 1900)
  }

  lemma {:induction false} BackOverStray(data: seq<Byte>, start: nat, limit: nat, stop: nat)
    requires start <= stop <= limit < |data| && RuneStart(data[stop])
    requires forall k | stop < k <= limit :: !RuneStart(data[k])
    ensures BackToStart(data, start, limit) == stop
    decreases limit
  {
    if limit > stop {
      BackOverStray(data, start, limit - 1, stop);
    }
  }

  // On text that is not valid the deployed parameters do not always end in an
  // error: the first chunk can be shorter than the overlap, and the code then
  // indexes the text at a negative offset.
  lemma StrayTextBreaks()
    ensures !Valid(StrayText()) && SplitOf(StrayText(), 1200, 160) == OutOfRange
  {
    hide Valid, HeadSize, StrayText;
    var text := StrayText();
    BackOverStray(text, 0, 1200, 99);
    EmptySearches(text, 720, 99, 0);
    assert EndOf(text, 0, 1200) == 99;
    AsciiValid(text[0..99]);
    if Valid(text) {
      SplitSucceedsIffValid(text, 1200, 160);
    }
  }
}
