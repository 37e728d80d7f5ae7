// Overlapping byte windows over UTF-8 text, cut at rune boundaries and after
// punctuation where possible (chunker.go).
module Chunker {
  import opened Utf8

  const MAX_CHUNK_BYTES := 1200
  const CHUNK_OVERLAP := 160

  datatype ByteRange = ByteRange(startByte: nat, endByte: nat, startRune: nat, endRune: nat, content: seq<Byte>)

  // Chunks: the ranges returned; Rejected: an error returned; OutOfRange: the
  // code reads data at a negative index and panics.
  datatype Outcome = Chunks(ranges: seq<ByteRange>) | Rejected | OutOfRange

  // Line feed, ASCII and full-width punctuation.
  predicate IsPreferredBoundary(r: nat) {
    || r == 0x0A || r == 0x2E || r == 0x21 || r == 0x3F || r == 0x3B || r == 0x3A || r == 0x2C
    || r == 0x3002 || r == 0xFF01 || r == 0xFF1F || r == 0xFF1B || r == 0xFF1A || r == 0xFF0C
  }

  // ---- The three searches as functions ---------------------------------------

  function BackToStart(data: seq<Byte>, start: nat, limit: nat): (p: nat)
    requires start <= limit < |data|
    ensures start <= p <= limit
  {
    if limit > start && !RuneStart(data[limit]) then BackToStart(data, start, limit - 1) else limit
  }

  function ForwardToStart(data: seq<Byte>, position: nat, bound: nat): (p: nat)
    requires bound <= |data|
    ensures position <= p && (p <= bound || p == position)
    decreases bound - position
  {
    if position < bound && !RuneStart(data[position]) then ForwardToStart(data, position + 1, bound) else position
  }

  // Offset after the last preferred rune of data[position..limit], or `best`.
  function LastPreferred(data: seq<Byte>, position: nat, limit: nat, best: nat): nat
    requires limit <= |data|
    decreases limit - position
  {
    if position < limit then
      var (r, size) := DecodeRune(data[position..limit]);
      LastPreferred(data, position + size, limit, if IsPreferredBoundary(r) then position + size else best)
    else best
  }

  function PreferredEndOf(data: seq<Byte>, start: nat, limit: nat, minimumLength: nat): nat
    requires start <= limit
  {
    if limit >= |data| then |data|
    else
      var back := BackToStart(data, start, limit);
      var minimum := ForwardToStart(data, start + minimumLength, back);
      var best := LastPreferred(data, minimum, back, 0);
      if best > start then best else back
  }

  method ScanPreferred(data: seq<Byte>, minimum: nat, limit: nat) returns (best: nat)
    requires limit <= |data|
    ensures best == LastPreferred(data, minimum, limit, 0)
  {
    best := 0;
    var position := minimum;
    while position < limit
      invariant LastPreferred(data, minimum, limit, 0) == LastPreferred(data, position, limit, best)
      decreases limit - position
    {
      var (r, size) := DecodeRune(data[position..limit]);
      if IsPreferredBoundary(r) {
        best := position + size;
      }
      position := position + size;
    }
  }

  method PreferredEnd(data: seq<Byte>, start: nat, limit: nat, minimumLength: nat) returns (end: nat)
    requires start <= limit
    ensures end == PreferredEndOf(data, start, limit, minimumLength)
  {
    if limit >= |data| {
      return |data|;
    }
    var back := limit;
    while back > start && !RuneStart(data[back])
      invariant start <= back <= limit
      invariant BackToStart(data, start, limit) == BackToStart(data, start, back)
    {
      back := back - 1;
    }
    var minimum := start + minimumLength;
    while minimum < back && !RuneStart(data[minimum])
      invariant ForwardToStart(data, start + minimumLength, back) == ForwardToStart(data, minimum, back)
    {
      minimum := minimum + 1;
    }
    var best := ScanPreferred(data, minimum, back);
    end := if best > start then best else back;
  }

  // ---- The splitting loop ----------------------------------------------------

  function EndOf(data: seq<Byte>, start: nat, maxBytes: nat): nat
    requires start < |data|
  {
    if |data| - start > maxBytes then PreferredEndOf(data, start, start + maxBytes, maxBytes * 3 / 5) else |data|
  }

  function RangeOf(data: seq<Byte>, start: nat, end: nat): ByteRange
    requires start <= end <= |data|
  {
    ByteRange(start, end, RuneCount(data[..start]), RuneCount(data[..end]), data[start..end])
  }

  // Where the next chunk starts, or None on a negative index.
  function NextStart(data: seq<Byte>, start: nat, end: nat, overlapBytes: nat): (next: int)
    requires start < end <= |data|
    ensures next < 0 || start < next <= end
  {
    if end < overlapBytes then -1
    else
      var next := ForwardToStart(data, end - overlapBytes, end);
      if next <= start then end else next
  }

  function Prepend(ranges: seq<ByteRange>, rest: Outcome): Outcome {
    if rest.Chunks? then Chunks(ranges + rest.ranges) else rest
  }

  function SplitFrom(data: seq<Byte>, start: nat, maxBytes: nat, overlapBytes: nat): Outcome
    requires start < |data|
    decreases |data| - start
  {
    var end := EndOf(data, start, maxBytes);
    if end <= start || end > |data| || !Valid(data[start..end]) then Rejected
    else if end == |data| then Chunks([RangeOf(data, start, end)])
    else
      var next := NextStart(data, start, end, overlapBytes);
      if next < 0 then OutOfRange
      else Prepend([RangeOf(data, start, end)], SplitFrom(data, next, maxBytes, overlapBytes))
  }

  function SplitOf(text: seq<Byte>, maxBytes: int, overlapBytes: int): Outcome {
    if text == [] then Chunks([])
    else if maxBytes <= 0 || overlapBytes < 0 || overlapBytes >= maxBytes then Rejected
    else SplitFrom(text, 0, maxBytes, overlapBytes)
  }

  method AdvanceStart(text: seq<Byte>, start: nat, end: nat, overlapBytes: nat) returns (next: int)
    requires start < end <= |text|
    ensures next == NextStart(text, start, end, overlapBytes)
  {
    next := end - overlapBytes;
    if next < 0 {
      return -1;
    }
    while next < end && !RuneStart(text[next])
      invariant 0 <= next <= end
      invariant ForwardToStart(text, end - overlapBytes, end) == ForwardToStart(text, next, end)
    {
      next := next + 1;
    }
    if next <= start {
      next := end;
    }
  }

  lemma PrependTwice(a: seq<ByteRange>, b: ByteRange, rest: Outcome)
    ensures Prepend(a, Prepend([b], rest)) == Prepend(a + [b], rest)
  {
    if rest.Chunks? {
      assert a + ([b] + rest.ranges) == a + [b] + rest.ranges;
    }
  }

  method SplitCanonicalText(text: seq<Byte>, maxBytes: int, overlapBytes: int) returns (r: Outcome)
    ensures r == SplitOf(text, maxBytes, overlapBytes)
  {
    hide Valid, HeadSize, RuneCount, PreferredEndOf, NextStart;
    if text == [] {
      return Chunks([]);
    }
    if maxBytes <= 0 || overlapBytes < 0 || overlapBytes >= maxBytes {
      return Rejected;
    }
    var result: seq<ByteRange> := [];
    var start := 0;
    while true
      invariant start < |text|
      invariant SplitFrom(text, 0, maxBytes, overlapBytes)
                == Prepend(result, SplitFrom(text, start, maxBytes, overlapBytes))
      decreases |text| - start
    {
      var end := |text|;
      if end - start > maxBytes {
        end := PreferredEnd(text, start, start + maxBytes, maxBytes * 3 / 5);
      }
      if end <= start || end > |text| || !Valid(text[start..end]) {
        return Rejected;
      }
      var current := RangeOf(text, start, end);
      if end == |text| {
        return Chunks(result + [current]);
      }
      var next := AdvanceStart(text, start, end, overlapBytes);
      if next < 0 {
        return OutOfRange;
      }
      PrependTwice(result, current, SplitFrom(text, next, maxBytes, overlapBytes));
      result := result + [current];
      start := next;
    }
  }
}
