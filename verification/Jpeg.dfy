/** Finding the dimensions of a JPEG image: the marker scan against the marker syntax of ITU-T T.81. */
module Jpeg {
  import opened Basics

  type Bytes = seq<Byte>

  datatype ScanError = Truncated | InvalidSegment | ShortFrameHeader | BadDimensions | NoFrameHeader

  datatype Found = Dimensions(width: nat, height: nat) | Failed(error: ScanError)

  /** Markers without a segment: stuffed zero, TEM, SOI, EOI and the restart markers. */
  predicate Standalone(marker: Byte) {
    marker == 0x00 || marker == 0x01 || marker == 0xD8 || marker == 0xD9 || 0xD0 <= marker <= 0xD7
  }

  /** Start of frame, without DHT (C4), JPG (C8) and DAC (CC). */
  predicate FrameMarker(marker: Byte) {
    0xC0 <= marker <= 0xCF && marker != 0xC4 && marker != 0xC8 && marker != 0xCC
  }

  function Word(content: Bytes, at: nat): nat
    requires at + 2 <= |content|
  {
    (content[at] as int) * 256 + content[at + 1]
  }

  function SkipOthers(content: Bytes, at: nat): (n: nat)
    requires at <= |content|
    ensures at <= n <= |content|
    ensures forall i :: at <= i < n ==> content[i] != 0xFF
    ensures n < |content| ==> content[n] == 0xFF
    decreases |content| - at
  {
    if at < |content| && content[at] != 0xFF then SkipOthers(content, at + 1) else at
  }

  function SkipFill(content: Bytes, at: nat): (n: nat)
    requires at <= |content|
    ensures at <= n <= |content|
    ensures forall i :: at <= i < n ==> content[i] == 0xFF
    ensures n < |content| ==> content[n] != 0xFF
    decreases |content| - at
  {
    if at < |content| && content[at] == 0xFF then SkipFill(content, at + 1) else at
  }

  /** Where the next marker code stands: after any other bytes and a run of fill bytes. */
  function MarkerAt(content: Bytes, at: nat): (n: nat)
    requires at <= |content|
    ensures at <= n <= |content|
  {
    SkipFill(content, SkipOthers(content, at))
  }

  function ReadFrame(content: Bytes, at: nat, length: nat): Found
    requires at + length <= |content| && length >= 2
  {
    if length < 7 then Failed(ShortFrameHeader)
    else
      var height, width := Word(content, at + 3), Word(content, at + 5);
      if width == 0 || height == 0 then Failed(BadDimensions) else Dimensions(width, height)
  }

  /** The loop of `_jpeg_dimensions` from an index. */
  function Scan(content: Bytes, at: nat): Found
    requires at <= |content|
    decreases |content| - at
  {
    if at == |content| then Failed(NoFrameHeader)
    else
      var n := MarkerAt(content, at);
      if n == |content| then Failed(NoFrameHeader)
      else if Standalone(content[n]) then Scan(content, n + 1)
      else if n + 3 > |content| then Failed(NoFrameHeader)
      else
        var length := Word(content, n + 1);
        if length < 2 || n + 1 + length > |content| then Failed(InvalidSegment)
        else if FrameMarker(content[n]) then ReadFrame(content, n + 1, length)
        else Scan(content, n + 1 + length)
  }

  lemma EmptyScan(content: Bytes)
    ensures Scan(content, |content|) == Failed(NoFrameHeader)
  {
  }

  /** One turn of the loop. */
  lemma ScanOnce(content: Bytes, at: nat)
    requires at < |content|
    ensures var n := MarkerAt(content, at);
            Scan(content, at) ==
              if n == |content| then Failed(NoFrameHeader)
              else if Standalone(content[n]) then Scan(content, n + 1)
              else if n + 3 > |content| then Failed(NoFrameHeader)
              else
                var length := Word(content, n + 1);
                if length < 2 || n + 1 + length > |content| then Failed(InvalidSegment)
                else if FrameMarker(content[n]) then ReadFrame(content, n + 1, length)
                else Scan(content, n + 1 + length)
  {
  }

  predicate LongEnoughAndEnded(content: Bytes) {
    |content| >= 12 && content[|content| - 2] == 0xFF && content[|content| - 1] == 0xD9
  }

  /** `_jpeg_dimensions`, for content that starts with SOI. */
  function DimensionsOf(content: Bytes): Found {
    if !LongEnoughAndEnded(content) then Failed(Truncated) else Scan(content, 2)
  }

  /** The two inner loops: to the next 0xFF, and past it and its repetitions. */
  method NextMarker(content: Bytes, at: nat) returns (index: nat)
    requires at <= |content|
    ensures index == MarkerAt(content, at)
  {
    index := at;
    while index < |content| && content[index] != 0xFF
      invariant at <= index <= |content|
      invariant SkipOthers(content, at) == SkipOthers(content, index)
    {
      index := index + 1;
    }
    ghost var fill := index;
    while index < |content| && content[index] == 0xFF
      invariant fill <= index <= |content|
      invariant SkipFill(content, fill) == SkipFill(content, index)
    {
      index := index + 1;
    }
  }

  /** The same with the source's index and loops. Every read is in bounds on any bytes. */
  method FindDimensions(content: Bytes) returns (found: Found)
    ensures found == DimensionsOf(content)
  {
    if !LongEnoughAndEnded(content) {
      return Failed(Truncated);
    }
    found := FindFrame(content);
  }

  method FindFrame(content: Bytes) returns (found: Found)
    requires |content| >= 2
    ensures found == Scan(content, 2)
  {
    hide Scan, Word, Standalone, FrameMarker, ReadFrame, MarkerAt, SkipOthers, SkipFill;
    var index := 2;
    while index < |content|
      invariant 2 <= index <= |content|
      invariant Scan(content, 2) == Scan(content, index)
      decreases |content| - index
    {
      ScanOnce(content, index);
      index := NextMarker(content, index);
      if index >= |content| {
        break;
      }
      var marker := content[index];
      index := index + 1;
      if Standalone(marker) {
        continue;
      }
      if index + 2 > |content| {
        break;
      }
      var length := Word(content, index);
      if length < 2 || index + length > |content| {
        return Failed(InvalidSegment);
      }
      if FrameMarker(marker) {
        return ReadFrame(content, index, length);
      }
      index := index + length;
    }
    EmptyScan(content);
    return Failed(NoFrameHeader);
  }

  // ----- the marker syntax -----

  /** SOF0 to SOF3, SOF5 to SOF7, SOF9 to SOF11 and SOF13 to SOF15. */
  predicate StartsFrame(marker: Byte) {
    0xC0 <= marker <= 0xC3 || 0xC5 <= marker <= 0xC7 || 0xC9 <= marker <= 0xCB || 0xCD <= marker <= 0xCF
  }

  /** A stuffed zero, TEM, RST0 to RST7, SOI and EOI: markers that no segment follows. */
  predicate StandsAlone(marker: Byte) {
    marker <= 0x01 || 0xD0 <= marker <= 0xD9
  }

  /** The scan tells markers apart as the standard does. */
  lemma MarkersAgree(marker: Byte)
    ensures FrameMarker(marker) <==> StartsFrame(marker)
    ensures Standalone(marker) <==> StandsAlone(marker)
  {
  }

  /** One piece of a marker stream: bytes that are no marker, fill bytes, the marker code, and for most markers a
      segment whose length counts its own two bytes. */
  datatype Item = Item(others: Bytes, fill: nat, marker: Byte, payload: Bytes)

  ghost predicate WellFormed(item: Item) {
    && 0xFF !in item.others
    && item.fill >= 1 && item.marker != 0xFF
    && (StandsAlone(item.marker) ==> item.payload == [])
    && |item.payload| + 2 < 0x1_0000
  }

  /** Anything that may stand before the frame header. */
  ghost predicate Passable(item: Item) {
    WellFormed(item) && !StartsFrame(item.marker)
  }

  function LengthOf(item: Item): nat { |item.payload| + 2 }

  function Fill(n: nat): (bytes: Bytes)
    ensures |bytes| == n && forall i :: 0 <= i < n ==> bytes[i] == 0xFF
  {
    seq(n, i => 0xFF)
  }

  ghost function Encoded(item: Item): Bytes
    requires WellFormed(item)
  {
    item.others + Fill(item.fill) + [item.marker]
    + (if StandsAlone(item.marker) then [] else [LengthOf(item) / 256, LengthOf(item) % 256] + item.payload)
  }

  ghost predicate AllPassable(items: seq<Item>) {
    forall item :: item in items ==> Passable(item)
  }

  ghost function Stream(items: seq<Item>): Bytes
    requires AllPassable(items)
  {
    if items == [] then []
    else
      assert items[0] in items && forall item :: item in items[1..] ==> item in items;
      Encoded(items[0]) + Stream(items[1..])
  }

  /** A frame header long enough to hold its dimensions, which are not zero. */
  ghost predicate FrameHeader(item: Item, width: nat, height: nat) {
    && WellFormed(item) && StartsFrame(item.marker)
    && |item.payload| >= 5
    && Word(item.payload, 1) == height > 0
    && Word(item.payload, 3) == width > 0
  }

  /** The bytes from `at` on are passable items, a frame header with these dimensions, and anything after it. */
  ghost predicate Shows(content: Bytes, at: nat, items: seq<Item>, frame: Item, rest: Bytes, width: nat, height: nat) {
    && at <= |content|
    && AllPassable(items) && FrameHeader(frame, width, height)
    && content[at..] == Stream(items) + Encoded(frame) + rest
  }

  // ----- reading an item -----

  /** `item` is what stands at `at`, and the next one starts at `next`. */
  ghost predicate StandsAt(content: Bytes, at: nat, item: Item, next: nat) {
    && WellFormed(item)
    && at <= next <= |content|
    && content[at..next] == Encoded(item)
  }

  lemma SkipOthersTo(content: Bytes, at: nat, n: nat)
    requires at <= n < |content| && content[n] == 0xFF && forall i :: at <= i < n ==> content[i] != 0xFF
    ensures SkipOthers(content, at) == n
  {
  }

  lemma SkipFillTo(content: Bytes, at: nat, n: nat)
    requires at <= n < |content| && content[n] != 0xFF && forall i :: at <= i < n ==> content[i] == 0xFF
    ensures SkipFill(content, at) == n
  {
  }

  /** The parts of an encoded item, by position. */
  lemma EncodedParts(content: Bytes, at: nat, item: Item, next: nat)
    requires StandsAt(content, at, item, next)
    ensures var f := at + |item.others|;
            var m := f + item.fill;
            && m < next
            && (forall i :: at <= i < f ==> content[i] != 0xFF)
            && (forall i :: f <= i < m ==> content[i] == 0xFF)
            && content[m] == item.marker
            && (StandsAlone(item.marker) ==> next == m + 1)
            && (!StandsAlone(item.marker) ==>
                  && next == m + 1 + LengthOf(item) && Word(content, m + 1) == LengthOf(item)
                  && content[m + 3..next] == item.payload)
  {
    var f := at + |item.others|;
    var m := f + item.fill;
    var bytes := Encoded(item);
    assert |content[at..next]| == |bytes|;
    assert forall i :: at <= i < next ==> content[i] == bytes[i - at];
    assert forall i :: 0 <= i < |item.others| ==> bytes[i] == item.others[i];
    assert bytes[m - at] == item.marker;
    if !StandsAlone(item.marker) {
      assert bytes[m + 1 - at] == LengthOf(item) / 256 && bytes[m + 2 - at] == LengthOf(item) % 256;
      assert bytes[m + 3 - at..] == item.payload;
      assert content[m + 3..next] == content[at..next][m + 3 - at..];
    }
  }

  lemma MarkerOfItem(content: Bytes, at: nat, item: Item, next: nat)
    requires StandsAt(content, at, item, next)
    ensures MarkerAt(content, at) == at + |item.others| + item.fill
  {
    EncodedParts(content, at, item, next);
    SkipOthersTo(content, at, at + |item.others|);
    SkipFillTo(content, at + |item.others|, at + |item.others| + item.fill);
  }

  /** The scan passes over an item that is not a frame header, whatever its payload holds. */
  lemma ScanPasses(content: Bytes, at: nat, item: Item, next: nat)
    requires StandsAt(content, at, item, next) && Passable(item)
    ensures Scan(content, at) == Scan(content, next)
  {
    hide Scan, Encoded, MarkerAt, Word, ReadFrame, Standalone, StandsAlone, FrameMarker, StartsFrame;
    MarkersAgree(item.marker);
    EncodedParts(content, at, item, next);
    MarkerOfItem(content, at, item, next);
    ScanOnce(content, at);
  }

  /** The two words of the dimensions, read from the content or from the payload. */
  lemma WordsOfPayload(content: Bytes, from: nat, next: nat, payload: Bytes)
    requires from + 5 <= next <= |content| && content[from..next] == payload
    ensures Word(content, from + 1) == Word(payload, 1) && Word(content, from + 3) == Word(payload, 3)
  {
    assert payload[1] == content[from + 1] && payload[2] == content[from + 2];
    assert payload[3] == content[from + 3] && payload[4] == content[from + 4];
  }

  lemma ScanReadsFrame(content: Bytes, at: nat, item: Item, next: nat, width: nat, height: nat)
    requires StandsAt(content, at, item, next) && FrameHeader(item, width, height)
    ensures Scan(content, at) == Dimensions(width, height)
  {
    hide Scan, Encoded, MarkerAt, Word;
    EncodedParts(content, at, item, next);
    MarkerOfItem(content, at, item, next);
    ScanOnce(content, at);
    WordsOfPayload(content, at + |item.others| + item.fill + 3, next, item.payload);
  }

  lemma SplitAt(content: Bytes, at: nat, first: Bytes, later: Bytes)
    requires at <= |content| && content[at..] == first + later
    ensures at + |first| <= |content|
    ensures content[at..at + |first|] == first && content[at + |first|..] == later
  {
    assert |content[at..]| == |first| + |later|;
    assert content[at..at + |first|] == content[at..][..|first|];
    assert content[at + |first|..] == content[at..][|first|..];
  }

  lemma {:induction false} ScanOfStream(
      content: Bytes, at: nat, items: seq<Item>, frame: Item, rest: Bytes, width: nat, height: nat)
    requires Shows(content, at, items, frame, rest, width, height)
    ensures Scan(content, at) == Dimensions(width, height)
    decreases |items|
  {
    hide Scan, Encoded, Passable;
    if items == [] {
      var next := at + |Encoded(frame)|;
      assert content[at..next] == content[at..][..|Encoded(frame)|] == Encoded(frame);
      ScanReadsFrame(content, at, frame, next, width, height);
    } else {
      var first := items[0];
      assert first in items;
      assert forall item :: item in items[1..] ==> item in items;
      WellFormedPassable(first);
      var next := at + |Encoded(first)|;
      var later := Stream(items[1..]) + Encoded(frame) + rest;
      assert content[at..] == Encoded(first) + later;
      SplitAt(content, at, Encoded(first), later);
      ScanPasses(content, at, first, next);
      ScanOfStream(content, next, items[1..], frame, rest, width, height);
    }
  }

  lemma WellFormedPassable(item: Item)
    ensures Passable(item) ==> WellFormed(item)
  {
  }

  // ----- the item the scan has just read -----

  /** What stands between `at` and the end of the piece whose marker code is at `n`. */
  ghost function ItemAt(content: Bytes, at: nat, n: nat, next: nat): Item
    requires at <= n < next <= |content|
  {
    var f := SkipOthers(content, at);
    Item(content[at..f], if f <= n then n - f else 0, content[n], if n + 3 <= next then content[n + 3..next] else [])
  }

  lemma ReadBack(content: Bytes, at: nat, next: nat)
    requires at < |content|
    requires var n := MarkerAt(content, at);
             && n < next <= |content|
             && (if StandsAlone(content[n]) then next == n + 1
                 else n + 3 <= next && Word(content, n + 1) == next - n - 1)
    ensures StandsAt(content, at, ItemAt(content, at, MarkerAt(content, at), next), next)
    ensures ItemAt(content, at, MarkerAt(content, at), next).marker == content[MarkerAt(content, at)]
  {
    var f, n := SkipOthers(content, at), MarkerAt(content, at);
    var item := ItemAt(content, at, n, next);
    hide SkipOthers, SkipFill, Scan;
    assert f < n && 0xFF !in content[at..f];
    assert content[f..n] == Fill(n - f);
    FourParts(content, at, f, n, next);
    if !StandsAlone(content[n]) {
      LengthBytes(content[n + 1], content[n + 2], LengthOf(item));
      assert content[n + 1..next] == [content[n + 1], content[n + 2]] + content[n + 3..next];
    } else {
      assert content[n + 1..next] == [];
    }
  }

  lemma FourParts(content: Bytes, at: nat, f: nat, n: nat, next: nat)
    requires at <= f <= n < next <= |content|
    ensures content[at..next] == content[at..f] + content[f..n] + [content[n]] + content[n + 1..next]
  {
  }

  lemma LengthBytes(high: Byte, low: Byte, length: nat)
    ensures length == (high as int) * 256 + low ==> length / 256 == high && length % 256 == low
  {
  }

  /** A scan that finds dimensions has a whole piece before it: the frame header, or one it scans on behind. */
  lemma TurnThatFinds(content: Bytes, at: nat, width: nat, height: nat) returns (next: nat)
    requires at <= |content| && Scan(content, at) == Dimensions(width, height)
    ensures var n := MarkerAt(content, at);
            && at < |content| && n < next <= |content|
            && (if StandsAlone(content[n]) then next == n + 1
                else n + 3 <= next && Word(content, n + 1) == next - n - 1)
            && (StartsFrame(content[n]) || Scan(content, next) == Dimensions(width, height))
  {
    hide Scan, MarkerAt, Word, Standalone, FrameMarker, StandsAlone, StartsFrame;
    if at == |content| {
      EmptyScan(content);
    }
    ScanOnce(content, at);
    var n := MarkerAt(content, at);
    MarkersAgree(content[n]);
    next := if StandsAlone(content[n]) then n + 1 else n + 1 + Word(content, n + 1);
  }

  lemma {:induction false} ScanShows(content: Bytes, at: nat, width: nat, height: nat)
    requires at <= |content| && Scan(content, at) == Dimensions(width, height)
    ensures exists items, frame, rest :: Shows(content, at, items, frame, rest, width, height)
    decreases |content| - at
  {
    hide Scan, MarkerAt, Word, StandsAlone, StartsFrame, Shows, StandsAt;
    var next := TurnThatFinds(content, at, width, height);
    ReadBack(content, at, next);
    var n := MarkerAt(content, at);
    var item := ItemAt(content, at, n, next);
    if StartsFrame(content[n]) {
      FrameShows(content, at, item, next, width, height);
    } else {
      ScanShows(content, next, width, height);
      var items, frame, rest :| Shows(content, next, items, frame, rest, width, height);
      MoreShows(content, at, item, next, items, frame, rest, width, height);
    }
  }

  lemma FrameShows(content: Bytes, at: nat, item: Item, next: nat, width: nat, height: nat)
    requires StandsAt(content, at, item, next) && StartsFrame(item.marker)
    requires Scan(content, at) == Dimensions(width, height)
    ensures Shows(content, at, [], item, content[next..], width, height)
  {
    hide Scan, Encoded, MarkerAt, Word;
    EncodedParts(content, at, item, next);
    MarkerOfItem(content, at, item, next);
    ScanOnce(content, at);
    if |item.payload| >= 5 {
      WordsOfPayload(content, at + |item.others| + item.fill + 3, next, item.payload);
    }
    assert content[at..] == content[at..next] + content[next..];
  }

  lemma MoreShows(content: Bytes, at: nat, item: Item, next: nat,
                  items: seq<Item>, frame: Item, rest: Bytes, width: nat, height: nat)
    requires StandsAt(content, at, item, next) && !StartsFrame(item.marker)
    requires Shows(content, next, items, frame, rest, width, height)
    ensures Shows(content, at, [item] + items, frame, rest, width, height)
  {
    hide Encoded;
    assert ([item] + items)[1..] == items;
    assert content[at..] == content[at..next] + content[next..];
    assert Stream([item] + items) == Encoded(item) + Stream(items);
    assert content[at..] == Stream([item] + items) + Encoded(frame) + rest;
  }

  // ----- why a scan fails -----

  /** Nothing but other bytes and fill bytes is left. */
  lemma NoMarkerLeft(content: Bytes, at: nat, others: Bytes, fill: nat)
    requires at <= |content| && content[at..] == others + Fill(fill) && 0xFF !in others
    ensures Scan(content, at) == Failed(NoFrameHeader)
  {
    hide ReadFrame;
    assert forall i :: at <= i < |content| ==> content[i] == (others + Fill(fill))[i - at];
    var m := SkipOthers(content, at);
    assert forall i :: at <= i < at + |others| ==> content[i] == others[i - at];
    if at < |content| {
      ScanOnce(content, at);
      assert MarkerAt(content, at) == |content|;
    } else {
      EmptyScan(content);
    }
  }

  lemma MarkerStands(content: Bytes, at: nat, others: Bytes, fill: nat, marker: Byte, after: Bytes)
    requires at <= |content| && content[at..] == others + Fill(fill) + [marker] + after
    requires 0xFF !in others && fill >= 1 && marker != 0xFF
    ensures var m := at + |others| + fill;
            && MarkerAt(content, at) == m && |content| == m + 1 + |after| && content[m] == marker
            && forall i :: 0 <= i < |after| ==> content[m + 1 + i] == after[i]
  {
    var f := at + |others|;
    var m := f + fill;
    var bytes := others + Fill(fill) + [marker] + after;
    assert forall i :: at <= i < |content| ==> content[i] == bytes[i - at];
    assert forall i :: 0 <= i < |others| ==> bytes[i] == others[i];
    SkipOthersTo(content, at, f);
    SkipFillTo(content, f, m);
  }

  /** After a marker that a segment follows: too few bytes for its length, a length that does not fit, a frame header
      too short for its dimensions, and a dimension that is zero each have their own failure. */
  lemma MarkerFailsAs(content: Bytes, at: nat, others: Bytes, fill: nat, marker: Byte, after: Bytes)
    requires at <= |content| && content[at..] == others + Fill(fill) + [marker] + after
    requires 0xFF !in others && fill >= 1 && marker != 0xFF && !StandsAlone(marker)
    ensures |after| < 2 ==> Scan(content, at) == Failed(NoFrameHeader)
    ensures |after| >= 2 ==>
        var length := (after[0] as int) * 256 + after[1];
        && (length < 2 || length > |after| ==> Scan(content, at) == Failed(InvalidSegment))
        && (2 <= length <= |after| && StartsFrame(marker) ==>
              && (length < 7 ==> Scan(content, at) == Failed(ShortFrameHeader))
              && (length >= 7 && ((after[3] == 0 && after[4] == 0) || (after[5] == 0 && after[6] == 0)) ==>
                    Scan(content, at) == Failed(BadDimensions)))
  {
    hide Scan, FrameMarker, Standalone, StandsAlone, StartsFrame, MarkerAt;
    MarkersAgree(marker);
    MarkerStands(content, at, others, fill, marker, after);
    ScanOnce(content, at);
  }

  /** Dimensions come back exactly when the image is long enough, ends in EOI and holds, after its first two bytes,
      passable items with arbitrary payloads and a frame header with those dimensions: the first one, never bytes inside
      a skipped segment. The caller has compared the first two bytes with SOI. */
  lemma FoundExactlyWhenShown(content: Bytes, width: nat, height: nat)
    ensures DimensionsOf(content) == Dimensions(width, height) <==>
        && |content| >= 12 && content[|content| - 2..] == [0xFF, 0xD9]
        && exists items, frame, rest :: Shows(content, 2, items, frame, rest, width, height)
    ensures |content| < 12 || content[|content| - 2..] != [0xFF, 0xD9] ==> DimensionsOf(content) == Failed(Truncated)
  {
    hide Scan, Shows;
    if LongEnoughAndEnded(content) {
      if exists items, frame, rest :: Shows(content, 2, items, frame, rest, width, height) {
        var items, frame, rest :| Shows(content, 2, items, frame, rest, width, height);
        ScanOfStream(content, 2, items, frame, rest, width, height);
      }
      if Scan(content, 2) == Dimensions(width, height) {
        ScanShows(content, 2, width, height);
      }
    }
  }
}
