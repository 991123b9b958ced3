/** Following a journal line by line with bounded reads, while it grows and when it disappears. */
module FollowerSpec {
  import opened Basics

  type Bytes = seq<Byte>

  const NEWLINE: Byte := 10

  /** `readline(limit)`: up to and including the first newline, at most `limit` bytes. */
  function ReadLine(rest: Bytes, limit: nat): (raw: Bytes)
    ensures |raw| <= limit && raw <= rest
    ensures raw == [] <==> rest == [] || limit == 0
    ensures forall i :: 0 <= i < |raw| - 1 ==> raw[i] != NEWLINE
    ensures |raw| < limit && (raw == [] || raw[|raw| - 1] != NEWLINE) ==> raw == rest
  {
    if rest == [] || limit == 0 then []
    else if rest[0] == NEWLINE then [rest[0]]
    else [rest[0]] + ReadLine(rest[1..], limit - 1)
  }

  /** How many bytes the next read moves the offset by: none at the end of the journal or before a partial line. */
  function Cut(bytes: Bytes, bound: nat): (n: nat)
    ensures n <= |bytes|
  {
    var raw := ReadLine(bytes, bound + 1);
    if raw == [] || (|raw| <= bound && raw[|raw| - 1] != NEWLINE) then 0 else |raw|
  }

  /** The reads of at most `bound` bytes that end in a newline, in order. Over-long reads are skipped. */
  function Chunks(bytes: Bytes, bound: nat): seq<Bytes>
    decreases |bytes|
  {
    var n := Cut(bytes, bound);
    if n == 0 then []
    else (if n <= bound then [bytes[..n]] else []) + Chunks(bytes[n..], bound)
  }

  /** Where the follower comes to rest. */
  function Consumed(bytes: Bytes, bound: nat): (n: nat)
    ensures n <= |bytes|
    decreases |bytes|
  {
    var n := Cut(bytes, bound);
    if n == 0 then 0 else n + Consumed(bytes[n..], bound)
  }

  function Health(chunks: seq<Bytes>, isHealth: Bytes -> bool): seq<Bytes> {
    if chunks == [] then []
    else (if isHealth(chunks[0]) then [chunks[0]] else []) + Health(chunks[1..], isHealth)
  }

  /** What a poll did: where it left the offset, which records it handed to the publisher, whether the
      publisher raised. */
  datatype Polled = Polled(offset: nat, attempts: seq<Bytes>, raised: bool)

  /** The loop of `poll` from an offset; the publisher raises after `patience` successful calls. */
  function PollFrom(journal: Bytes, offset: nat, bound: nat, isHealth: Bytes -> bool, patience: nat): (r: Polled)
    requires offset <= |journal|
    ensures offset <= r.offset <= |journal|
    decreases |journal| - offset
  {
    var n := Cut(journal[offset..], bound);
    if n == 0 then Polled(offset, [], false)
    else
      var raw := journal[offset..offset + n];
      if n > bound || !isHealth(raw) then PollFrom(journal, offset + n, bound, isHealth, patience)
      else if patience == 0 then Polled(offset + n, [raw], true)
      else
        var rest := PollFrom(journal, offset + n, bound, isHealth, patience - 1);
        rest.(attempts := [raw] + rest.attempts)
  }

  /** One turn of the loop. */
  lemma PollOnce(journal: Bytes, offset: nat, bound: nat, isHealth: Bytes -> bool, patience: nat)
    requires offset <= |journal|
    ensures var n := Cut(journal[offset..], bound);
            var raw := journal[offset..offset + n];
            PollFrom(journal, offset, bound, isHealth, patience) ==
              if n == 0 then Polled(offset, [], false)
              else if n > bound || !isHealth(raw) then PollFrom(journal, offset + n, bound, isHealth, patience)
              else if patience == 0 then Polled(offset + n, [raw], true)
              else
                var rest := PollFrom(journal, offset + n, bound, isHealth, patience - 1);
                rest.(attempts := [raw] + rest.attempts)
  {
  }

  datatype Follower = Follower(offset: nat, initialized: bool)

  function SizeOf(file: Option<Bytes>): nat { if file.Some? then |file.value| else 0 }

  /** `poll` on a file that may be missing, truncated or replaced. */
  function Poll(f: Follower, file: Option<Bytes>, bound: nat, isHealth: Bytes -> bool, patience: nat)
    : (Follower, seq<Bytes>, bool)
  {
    if !f.initialized then (Follower(SizeOf(file), true), [], false)
    else if file.None? then (Follower(0, true), [], false)
    else
      var r := PollFrom(file.value, if |file.value| < f.offset then 0 else f.offset, bound, isHealth, patience);
      (Follower(r.offset, true), r.attempts, r.raised)
  }

  // ----- reading is incremental -----

  /** A non-empty start of the bytes that ends at the limit or in its only newline is what is read. */
  lemma ReadLineIs(rest: Bytes, limit: nat, raw: Bytes)
    requires raw != [] && raw <= rest && |raw| <= limit
    requires forall i :: 0 <= i < |raw| - 1 ==> raw[i] != NEWLINE
    requires |raw| == limit || raw[|raw| - 1] == NEWLINE
    ensures ReadLine(rest, limit) == raw
  {
    hide ReadLine;
    var r := ReadLine(rest, limit);
    assert forall i :: 0 <= i < |r| ==> r[i] == rest[i];
    assert forall i :: 0 <= i < |raw| ==> raw[i] == rest[i];
    assert |r| == |raw|;
  }

  lemma ReadLineIsStable(a: Bytes, b: Bytes, limit: nat)
    requires var raw := ReadLine(a, limit); raw != [] && (|raw| == limit || raw[|raw| - 1] == NEWLINE)
    ensures ReadLine(a + b, limit) == ReadLine(a, limit)
  {
    ReadLineIs(a + b, limit, ReadLine(a, limit));
  }

  lemma CutIsStable(a: Bytes, b: Bytes, bound: nat)
    ensures Cut(a, bound) > 0 ==> Cut(a + b, bound) == Cut(a, bound)
  {
    hide ReadLine;
    if Cut(a, bound) > 0 {
      ReadLineIsStable(a, b, bound + 1);
    }
  }

  lemma ReadingStep(bytes: Bytes, bound: nat)
    ensures var n := Cut(bytes, bound);
            n > 0 ==>
              && Chunks(bytes, bound) == (if n <= bound then [bytes[..n]] else []) + Chunks(bytes[n..], bound)
              && Consumed(bytes, bound) == n + Consumed(bytes[n..], bound)
  {
  }

  lemma SlicesAlong(a: Bytes, b: Bytes, n: nat, k: nat)
    requires n + k <= |a|
    ensures (a + b)[n..] == a[n..] + b && (a + b)[..n] == a[..n] && a[n..][k..] == a[n + k..]
  {
  }

  lemma JoinsAlong(first: seq<Bytes>, middle: seq<Bytes>, last: seq<Bytes>)
    ensures first + (middle + last) == (first + middle) + last
  {
  }

  /** Bytes that arrive later change neither what was read nor where the follower rests: it goes on from there. */
  lemma {:induction false} ReadingIsIncremental(a: Bytes, b: Bytes, bound: nat)
    ensures var rest := a[Consumed(a, bound)..] + b;
            && Chunks(a + b, bound) == Chunks(a, bound) + Chunks(rest, bound)
            && Consumed(a + b, bound) == Consumed(a, bound) + Consumed(rest, bound)
    decreases |a|
  {
    hide Cut;
    var n := Cut(a, bound);
    CutIsStable(a, b, bound);
    if n == 0 {
      assert a[0..] + b == a + b;
    } else {
      hide Chunks, Consumed;
      var tail := a[n..];
      var rest := tail[Consumed(tail, bound)..] + b;
      ReadingStep(a, bound);
      ReadingStep(a + b, bound);
      ReadingIsIncremental(tail, b, bound);
      SlicesAlong(a, b, n, Consumed(tail, bound));
      JoinsAlong(if n <= bound then [a[..n]] else [], Chunks(tail, bound), Chunks(rest, bound));
    }
  }

  lemma HealthStep(raw: Bytes, rest: seq<Bytes>, isHealth: Bytes -> bool)
    ensures Health([raw] + rest, isHealth) == (if isHealth(raw) then [raw] else []) + Health(rest, isHealth)
  {
    assert ([raw] + rest)[1..] == rest;
  }

  lemma {:induction false} HealthJoin(a: seq<Bytes>, b: seq<Bytes>, isHealth: Bytes -> bool)
    ensures Health(a + b, isHealth) == Health(a, isHealth) + Health(b, isHealth)
  {
    if a == [] {
      assert a + b == b;
    } else {
      hide Health;
      HealthJoin(a[1..], b, isHealth);
      var rest := a[1..] + b;
      assert a + b == [a[0]] + rest;
      HealthStep(a[0], a[1..], isHealth);
      HealthStep(a[0], rest, isHealth);
      assert a == [a[0]] + a[1..];
    }
  }

  /** The bytes between two places were read completely, and the records in them are `attempts`. */
  ghost predicate ReadBetween(journal: Bytes, from: nat, to: nat, bound: nat, isHealth: Bytes -> bool,
                              attempts: seq<Bytes>) {
    && from <= to <= |journal|
    && Consumed(journal[from..to], bound) == to - from
    && attempts == Health(Chunks(journal[from..to], bound), isHealth)
  }

  lemma ReadFurther(
      journal: Bytes, from: nat, mid: nat, to: nat, bound: nat, isHealth: Bytes -> bool, a: seq<Bytes>, b: seq<Bytes>)
    requires ReadBetween(journal, from, mid, bound, isHealth, a) && ReadBetween(journal, mid, to, bound, isHealth, b)
    ensures ReadBetween(journal, from, to, bound, isHealth, a + b)
  {
    hide Chunks, Consumed, Health;
    var left, right := journal[from..mid], journal[mid..to];
    assert left + right == journal[from..to];
    assert left[Consumed(left, bound)..] + right == right;
    ReadingIsIncremental(left, right, bound);
    HealthJoin(Chunks(left, bound), Chunks(right, bound), isHealth);
  }

  lemma OneRead(journal: Bytes, from: nat, bound: nat, isHealth: Bytes -> bool)
    requires from <= |journal|
    ensures var n := Cut(journal[from..], bound);
            var raw := journal[from..from + n];
            ReadBetween(journal, from, from + n, bound, isHealth, if 0 < n <= bound && isHealth(raw) then [raw] else [])
  {
    hide Cut, Chunks, Consumed;
    var n := Cut(journal[from..], bound);
    var raw := journal[from..from + n];
    assert journal[from..][..n] == raw;
    CutAlone(journal[from..], bound);
    ChunksOfOne(raw, bound);
    NothingToRead(bound);
    HealthOfOne(raw, isHealth);
  }

  lemma NothingToRead(bound: nat)
    ensures Cut([], bound) == 0 && Chunks([], bound) == [] && Consumed([], bound) == 0
  {
  }

  lemma HealthOfOne(raw: Bytes, isHealth: Bytes -> bool)
    ensures Health([raw], isHealth) == if isHealth(raw) then [raw] else []
  {
    assert [raw][1..] == [];
  }

  /** Bytes that are one whole read. */
  lemma ChunksOfOne(raw: Bytes, bound: nat)
    ensures Cut(raw, bound) == |raw| ==>
        && Chunks(raw, bound) == (if 0 < |raw| <= bound then [raw] else [])
        && Consumed(raw, bound) == |raw|
  {
    hide Cut;
    NothingToRead(bound);
    assert raw[|raw|..] == [] && raw[..|raw|] == raw;
  }

  lemma CutAlone(a: Bytes, bound: nat)
    ensures Cut(a[..Cut(a, bound)], bound) == Cut(a, bound)
  {
    hide ReadLine;
    var raw := ReadLine(a, bound + 1);
    if Cut(a, bound) > 0 {
      assert a[..|raw|] == raw;
      ReadLineIs(raw, bound + 1, raw);
    } else {
      assert a[..0] == [];
    }
  }

  /** A poll reads on from where it stood; if the publisher does not raise, to the end of the last complete line. */
  lemma {:induction false} PollReads(journal: Bytes, offset: nat, bound: nat, isHealth: Bytes -> bool, patience: nat)
    requires offset <= |journal|
    ensures var r := PollFrom(journal, offset, bound, isHealth, patience);
            && ReadBetween(journal, offset, r.offset, bound, isHealth, r.attempts)
            && (!r.raised ==> && r.offset == offset + Consumed(journal[offset..], bound)
                              && r.attempts == Health(Chunks(journal[offset..], bound), isHealth))
    decreases |journal| - offset
  {
    hide Cut, ReadBetween;
    var r := PollFrom(journal, offset, bound, isHealth, patience);
    var n := Cut(journal[offset..], bound);
    OneRead(journal, offset, bound, isHealth);
    if n > 0 {
      var raw := journal[offset..offset + n];
      var handed := if n <= bound && isHealth(raw) then [raw] else [];
      assert journal[offset..][n..] == journal[offset + n..] && journal[offset..][..n] == raw;
      HealthJoin(if n <= bound then [raw] else [], Chunks(journal[offset + n..], bound), isHealth);
      assert Health(if n <= bound then [raw] else [], isHealth) == handed;
      if handed == [] || patience > 0 {
        var left := if handed == [] then patience else patience - 1;
        PollReads(journal, offset + n, bound, isHealth, left);
        var rest := PollFrom(journal, offset + n, bound, isHealth, left);
        assert r.offset == rest.offset && r.attempts == handed + rest.attempts;
        ReadFurther(journal, offset, offset + n, rest.offset, bound, isHealth, handed, rest.attempts);
      }
    }
  }

  /** A journal found shorter than the offset is read from its start. One replaced by something at least as long is read
      on from the old offset: its beginning is never handed out. */
  lemma ReplacedJournalIsReadFrom(offset: nat, journal: Bytes, bound: nat, isHealth: Bytes -> bool, patience: nat)
    ensures var (f, attempts, raised) := Poll(Follower(offset, true), Some(journal), bound, isHealth, patience);
            var start := if |journal| < offset then 0 else offset;
            !raised ==>
              && attempts == Health(Chunks(journal[start..], bound), isHealth)
              && f == Follower(start + Consumed(journal[start..], bound), true)
  {
    hide Chunks, Consumed, Health, PollFrom;
    PollReads(journal, if |journal| < offset then 0 else offset, bound, isHealth, patience);
  }

  /** Where reading stops, nothing more can be read. */
  lemma {:induction false} RestIsUnread(bytes: Bytes, bound: nat)
    ensures Cut(bytes[Consumed(bytes, bound)..], bound) == 0
    decreases |bytes|
  {
    hide Cut;
    var n := Cut(bytes, bound);
    if n == 0 {
      assert bytes[0..] == bytes;
    } else {
      RestIsUnread(bytes[n..], bound);
      assert bytes[n..][Consumed(bytes[n..], bound)..] == bytes[Consumed(bytes, bound)..];
    }
  }

  /** Reads up to a place where reading rests, and the reads after it. */
  lemma ReadsSplit(journal: Bytes, at: nat, bound: nat, isHealth: Bytes -> bool)
    requires at <= |journal| && Consumed(journal[..at], bound) == at
    ensures Health(Chunks(journal, bound), isHealth)
         == Health(Chunks(journal[..at], bound), isHealth) + Health(Chunks(journal[at..], bound), isHealth)
  {
    hide Chunks, Consumed, Health;
    var left, right := journal[..at], journal[at..];
    assert left + right == journal && left[at..] + right == right;
    ReadingIsIncremental(left, right, bound);
    HealthJoin(Chunks(left, bound), Chunks(right, bound), isHealth);
  }

  /** A poll after the journal was replaced hands out all of the new journal's records exactly when it is shorter than
      the offset, or what stands before the offset holds none: if the offset is where reading the new journal would
      rest. */
  lemma ReplacementIsHandedOutWholeExactlyWhen(offset: nat, journal: Bytes, bound: nat, isHealth: Bytes -> bool,
                                               patience: nat)
    requires offset <= |journal| ==> Consumed(journal[..offset], bound) == offset
    ensures var (_, attempts, raised) := Poll(Follower(offset, true), Some(journal), bound, isHealth, patience);
            !raised ==>
              (attempts == Health(Chunks(journal, bound), isHealth) <==>
                 |journal| < offset || Health(Chunks(journal[..offset], bound), isHealth) == [])
  {
    hide Chunks, Consumed, Health, PollFrom;
    ReplacedJournalIsReadFrom(offset, journal, bound, isHealth, patience);
    if offset <= |journal| {
      ReadsSplit(journal, offset, bound, isHealth);
    } else {
      assert journal[0..] == journal;
    }
  }

  /** The read of the new journal in which an offset falls: its start, and its end if it is complete. */
  function ReadAround(journal: Bytes, offset: nat, bound: nat): (r: (nat, nat))
    requires offset <= |journal|
    ensures r.0 <= r.1 <= |journal| && r.0 <= offset
  {
    var start := Consumed(journal[..offset], bound);
    (start, start + Cut(journal[start..], bound))
  }

  lemma CutInPrefix(journal: Bytes, start: nat, end: nat, offset: nat, bound: nat)
    requires start <= end <= |journal| && offset <= |journal|
    ensures Cut(journal[start..end], bound) > 0 && end <= offset ==>
        Cut(journal[start..offset], bound) == Cut(journal[start..end], bound)
  {
    hide Cut;
    if end <= offset {
      CutIsStable(journal[start..end], journal[end..offset], bound);
      assert journal[start..end] + journal[end..offset] == journal[start..offset];
    }
  }

  lemma ReadGoesPastOffset(journal: Bytes, offset: nat, bound: nat)
    requires offset <= |journal|
    ensures var (start, end) := ReadAround(journal, offset, bound);
            && Consumed(journal[..start], bound) == start
            && (start < end ==> offset < end)
            && Consumed(journal[..end], bound) == end
            && Chunks(journal[..end], bound)
               == Chunks(journal[..start], bound) + if 0 < end - start <= bound then [journal[start..end]] else []
  {
    hide Chunks, Consumed, Cut;
    var before := journal[..offset];
    var (start, end) := ReadAround(journal, offset, bound);
    RestIsUnread(before, bound);
    ConsumedIsARest(before, bound);
    assert before[..start] == journal[..start] && before[start..] == journal[start..offset];
    CutAlone(journal[start..], bound);
    assert journal[start..][..end - start] == journal[start..end];
    CutInPrefix(journal, start, end, offset, bound);
    ReadingIsIncremental(journal[..start], journal[start..end], bound);
    assert journal[..start] + journal[start..end] == journal[..end];
    assert journal[..start][start..] + journal[start..end] == journal[start..end];
    ChunksOfOne(journal[start..end], bound);
  }

  /** What was read of some bytes is read again alone. */
  lemma {:induction false} ConsumedIsARest(bytes: Bytes, bound: nat)
    ensures var n := Consumed(bytes, bound); Consumed(bytes[..n], bound) == n
    decreases |bytes|
  {
    hide Cut;
    var n := Cut(bytes, bound);
    if n == 0 {
      NothingToRead(bound);
      assert bytes[..0] == [];
    } else {
      var m := Consumed(bytes[n..], bound);
      ConsumedIsARest(bytes[n..], bound);
      CutAlone(bytes, bound);
      CutIsStable(bytes[..n], bytes[n..][..m], bound);
      assert bytes[..n] + bytes[n..][..m] == bytes[..n + m] && bytes[..n + m][n..] == bytes[n..][..m];
    }
  }

  /** An offset inside a line of the new journal that fits the bound: the poll starts with the rest of that line as if
      it were a line, and hands out all records exactly when that gives what the lines up to there give. */
  lemma ReplacementInsideALine(offset: nat, journal: Bytes, bound: nat, isHealth: Bytes -> bool, patience: nat)
    requires offset <= |journal|
    requires var (start, end) := ReadAround(journal, offset, bound); start < offset < end <= start + bound
    ensures var end := ReadAround(journal, offset, bound).1;
            var (_, attempts, raised) := Poll(Follower(offset, true), Some(journal), bound, isHealth, patience);
            !raised ==>
              && attempts == Health([journal[offset..end]], isHealth) + Health(Chunks(journal[end..], bound), isHealth)
              && (attempts == Health(Chunks(journal, bound), isHealth) <==>
                    Health([journal[offset..end]], isHealth) == Health(Chunks(journal[..end], bound), isHealth))
  {
    hide Chunks, Consumed, Health, PollFrom, ReadLine;
    var (start, end) := ReadAround(journal, offset, bound);
    ReadGoesPastOffset(journal, offset, bound);
    ReplacedJournalIsReadFrom(offset, journal, bound, isHealth, patience);
    ReadsSplit(journal, end, bound, isHealth);
    RestOfLine(journal, start, offset, end, bound);
    ChunksFrom(journal, offset, end, bound);
    HealthJoin([journal[offset..end]], Chunks(journal[end..], bound), isHealth);
    SameTail(Health([journal[offset..end]], isHealth), Health(Chunks(journal[..end], bound), isHealth),
             Health(Chunks(journal[end..], bound), isHealth));
  }

  lemma SameTail(a: seq<Bytes>, b: seq<Bytes>, tail: seq<Bytes>)
    ensures a + tail == b + tail <==> a == b
  {
    if a + tail == b + tail {
      assert a == (a + tail)[..|a|] && b == (b + tail)[..|b|];
    }
  }

  lemma RestOfLine(journal: Bytes, start: nat, offset: nat, end: nat, bound: nat)
    requires start <= offset < end <= |journal| && end - start <= bound && Cut(journal[start..], bound) == end - start
    ensures Cut(journal[offset..], bound) == end - offset
  {
    hide ReadLine;
    var raw := ReadLine(journal[start..], bound + 1);
    assert raw == journal[start..end];
    var rest := journal[offset..end];
    assert forall i :: 0 <= i < |rest| ==> rest[i] == raw[offset - start + i];
    ReadLineIs(journal[offset..], bound + 1, rest);
  }

  lemma ChunksFrom(journal: Bytes, offset: nat, end: nat, bound: nat)
    requires offset < end <= |journal| && end - offset <= bound && Cut(journal[offset..], bound) == end - offset
    ensures Chunks(journal[offset..], bound) == [journal[offset..end]] + Chunks(journal[end..], bound)
  {
    hide Cut;
    assert journal[offset..][..end - offset] == journal[offset..end]
        && journal[offset..][end - offset..] == journal[end..];
  }

  /** An offset inside a last line that is not complete: nothing is handed out. */
  lemma ReplacementInsideThePartialLine(offset: nat, journal: Bytes, bound: nat, isHealth: Bytes -> bool, patience: nat)
    requires offset <= |journal|
    requires var (start, end) := ReadAround(journal, offset, bound); start < offset && start == end
    ensures var (_, attempts, raised) := Poll(Follower(offset, true), Some(journal), bound, isHealth, patience);
            && !raised && attempts == []
            && (attempts == Health(Chunks(journal, bound), isHealth) <==>
                Health(Chunks(journal[..offset], bound), isHealth) == [])
  {
    hide Chunks, Consumed, Health, ReadLine;
    var (start, end) := ReadAround(journal, offset, bound);
    ReadGoesPastOffset(journal, offset, bound);
    RestOfPartialLine(journal, start, offset, bound);
    ReadsSplit(journal, start, bound, isHealth);
    var before := journal[..offset];
    assert before[..start] == journal[..start] && before[start..] == journal[start..offset];
    RestIsUnread(before, bound);
    ReadsSplit(before, start, bound, isHealth);
    UncutHasNoChunks(journal[start..], bound);
    UncutHasNoChunks(before[start..], bound);
    NoHealth(isHealth);
  }

  lemma RestOfPartialLine(journal: Bytes, start: nat, offset: nat, bound: nat)
    requires start <= offset <= |journal| && Cut(journal[start..], bound) == 0
    ensures Cut(journal[offset..], bound) == 0
  {
    hide ReadLine;
    var raw := ReadLine(journal[start..], bound + 1);
    var rest := ReadLine(journal[offset..], bound + 1);
    assert raw == journal[start..];
    assert forall i :: 0 <= i < |rest| ==> rest[i] == journal[offset..][i] == raw[offset - start + i];
  }

  lemma UncutHasNoChunks(bytes: Bytes, bound: nat)
    requires Cut(bytes, bound) == 0
    ensures Chunks(bytes, bound) == []
  {
  }

  lemma NoHealth(isHealth: Bytes -> bool)
    ensures Health([], isHealth) == []
  {
  }

  lemma FirstCut(line: Bytes, rest: Bytes, bound: nat)
    requires 0 < |line| <= bound && line[|line| - 1] == NEWLINE
    requires forall i :: 0 <= i < |line| - 1 ==> line[i] != NEWLINE
    ensures Cut(line + rest, bound) == |line|
    ensures Chunks(line + rest, bound) == [line] + Chunks(rest, bound)
  {
    hide ReadLine;
    ReadLineIs(line + rest, bound + 1, line);
    assert (line + rest)[..|line|] == line && (line + rest)[|line|..] == rest;
  }

  predicate Anything(raw: Bytes) { true }

  const TwoRecords: Bytes := [65, NEWLINE, 66, NEWLINE]

  /** A journal of two records replaced the one read so far: the first is never handed out. One byte into it, its
      newline is handed to the parser instead. */
  lemma ReplacementLosesARecord()
    ensures Chunks(TwoRecords, 4) == [[65, NEWLINE], [66, NEWLINE]]
    ensures PollFrom(TwoRecords, 2, 4, Anything, 9) == Polled(4, [[66, NEWLINE]], false)
    ensures PollFrom(TwoRecords, 1, 4, Anything, 9) == Polled(4, [[NEWLINE], [66, NEWLINE]], false)
  {
    hide Cut, Chunks, PollFrom;
    NothingToRead(4);
    FirstCut([65, NEWLINE], [66, NEWLINE], 4);
    FirstCut([NEWLINE], [66, NEWLINE], 4);
    FirstCut([66, NEWLINE], [], 4);
    assert [65, NEWLINE] + [66, NEWLINE] == TwoRecords && [66, NEWLINE] + [] == [66, NEWLINE];
    assert TwoRecords[1..] == [NEWLINE] + [66, NEWLINE] && TwoRecords[2..] == [66, NEWLINE] && TwoRecords[4..] == [];
    assert TwoRecords[1..2] == [NEWLINE] && TwoRecords[2..4] == [66, NEWLINE];
    PollOnce(TwoRecords, 4, 4, Anything, 8);
    PollOnce(TwoRecords, 4, 4, Anything, 7);
    PollOnce(TwoRecords, 2, 4, Anything, 9);
    PollOnce(TwoRecords, 2, 4, Anything, 8);
    PollOnce(TwoRecords, 1, 4, Anything, 9);
  }

  // ----- runs -----

  /** What may happen to the journal, which an append creates when it is missing, and the polls in between. */
  datatype Op = Append(bytes: Bytes) | Vanish | PollNow(patience: nat)

  /** A primed follower and its journal, with every record it ever handed to the publisher. */
  datatype Following = Following(file: Option<Bytes>, offset: nat, attempts: seq<Bytes>)

  function Content(file: Option<Bytes>): Bytes { if file.Some? then file.value else [] }

  function Do(s: Following, op: Op, bound: nat, isHealth: Bytes -> bool): Following {
    match op
    case Append(bytes) => s.(file := Some(Content(s.file) + bytes))
    case Vanish => s.(file := None)
    case PollNow(patience) =>
      var (f, attempts, _) := Poll(Follower(s.offset, true), s.file, bound, isHealth, patience);
      s.(offset := f.offset, attempts := s.attempts + attempts)
  }

  function Run(s: Following, ops: seq<Op>, bound: nat, isHealth: Bytes -> bool): Following
    decreases |ops|
  {
    if ops == [] then s else Run(Do(s, ops[0], bound, isHealth), ops[1..], bound, isHealth)
  }

  /** From `base` on the journal, or what is missing of it, has been read up to the offset, and `told` handed out. */
  ghost predicate ReadSince(s: Following, base: nat, bound: nat, isHealth: Bytes -> bool, told: seq<Bytes>) {
    ReadBetween(Content(s.file), base, s.offset, bound, isHealth, told)
  }

  lemma DoReads(s: Following, op: Op, base: nat, bound: nat, isHealth: Bytes -> bool, told: seq<Bytes>)
    requires ReadSince(s, base, bound, isHealth, told) && !op.Vanish?
    ensures var next := Do(s, op, bound, isHealth);
            && |s.attempts| <= |next.attempts| && next.attempts[..|s.attempts|] == s.attempts
            && ReadSince(next, base, bound, isHealth, told + next.attempts[|s.attempts|..])
            && Content(s.file) <= Content(next.file) && (s.file.Some? ==> next.file.Some?)
  {
    hide Chunks, Consumed, Health, PollFrom;
    var journal := Content(s.file);
    assert s.attempts[|s.attempts|..] == [] && told + [] == told;
    match op
    case Append(bytes) =>
      assert (journal + bytes)[base..s.offset] == journal[base..s.offset];
    case PollNow(patience) =>
      if s.file.Some? {
        var r := PollFrom(journal, s.offset, bound, isHealth, patience);
        PollReads(journal, s.offset, bound, isHealth, patience);
        ReadFurther(journal, base, s.offset, r.offset, bound, isHealth, told, r.attempts);
        assert (s.attempts + r.attempts)[|s.attempts|..] == r.attempts;
        assert (s.attempts + r.attempts)[..|s.attempts|] == s.attempts;
      }
  }

  /** Whatever the appends cut in two and wherever the publisher raises, the records handed out of one journal are
      exactly the health records among its complete reads passed so far: each once, in order. */
  lemma {:induction false} EachReadIsAttemptedOnce(
      s: Following, ops: seq<Op>, base: nat, bound: nat, isHealth: Bytes -> bool, told: seq<Bytes>)
    requires ReadSince(s, base, bound, isHealth, told) && Vanish !in ops
    ensures var after := Run(s, ops, bound, isHealth);
            && |s.attempts| <= |after.attempts| && after.attempts[..|s.attempts|] == s.attempts
            && ReadSince(after, base, bound, isHealth, told + after.attempts[|s.attempts|..])
            && Content(s.file) <= Content(after.file) && (s.file.Some? ==> after.file.Some?)
    decreases |ops|
  {
    hide ReadSince, Do;
    if ops == [] {
      assert s.attempts[|s.attempts|..] == [] && told + [] == told;
    } else {
      assert ops[0] in ops && forall op :: op in ops[1..] ==> op in ops;
      var next := Do(s, ops[0], bound, isHealth);
      DoReads(s, ops[0], base, bound, isHealth, told);
      EachReadIsAttemptedOnce(next, ops[1..], base, bound, isHealth, told + next.attempts[|s.attempts|..]);
      var after := Run(next, ops[1..], bound, isHealth);
      var (first, rest) := (next.attempts[|s.attempts|..], after.attempts[|next.attempts|..]);
      assert after.attempts[|s.attempts|..] == first + rest && told + (first + rest) == told + first + rest;
      assert after.attempts[..|s.attempts|] == after.attempts[..|next.attempts|][..|s.attempts|];
    }
  }

  function Primed(journal: Bytes): Following { Following(Some(journal), |journal|, []) }

  /** A follower that was not primed is primed by its first poll: that poll hands out nothing, whatever the journal
      holds, and the next ones go on from there. */
  lemma FirstPollPrimes(offset: nat, file: Option<Bytes>, bound: nat, isHealth: Bytes -> bool, patience: nat)
    ensures var (f, attempts, raised) := Poll(Follower(offset, false), file, bound, isHealth, patience);
            f == Follower(Primed(Content(file)).offset, true) && attempts == [] && !raised
  {
  }

  lemma PrimedReads(journal: Bytes, bound: nat, isHealth: Bytes -> bool)
    ensures ReadBetween(journal, |journal|, |journal|, bound, isHealth, [])
  {
    assert journal[|journal|..|journal|] == [];
    assert Cut([], bound) == 0;
  }

  lemma ReadToTheEnd(journal: Bytes, base: nat, mid: nat, bound: nat, isHealth: Bytes -> bool, a: seq<Bytes>)
    requires ReadBetween(journal, base, mid, bound, isHealth, a)
    ensures mid + Consumed(journal[mid..], bound) == base + Consumed(journal[base..], bound)
    ensures a + Health(Chunks(journal[mid..], bound), isHealth) == Health(Chunks(journal[base..], bound), isHealth)
  {
    hide Chunks, Consumed, Health;
    var left, right := journal[base..mid], journal[mid..];
    assert left + right == journal[base..] && left[Consumed(left, bound)..] + right == right;
    ReadingIsIncremental(left, right, bound);
    HealthJoin(Chunks(left, bound), Chunks(right, bound), isHealth);
  }

  /** After a poll whose publisher did not raise, everything appended since priming has been handed out. */
  lemma PollCatchesUp(journal: Bytes, ops: seq<Op>, bound: nat, isHealth: Bytes -> bool, patience: nat)
    requires Vanish !in ops
    ensures var before := Run(Primed(journal), ops, bound, isHealth);
            var now := Content(before.file);
            var (f, attempts, raised) := Poll(Follower(before.offset, true), before.file, bound, isHealth, patience);
            !raised ==>
              && |journal| <= |now|
              && before.attempts + attempts == Health(Chunks(now[|journal|..], bound), isHealth)
              && f.offset == |journal| + Consumed(now[|journal|..], bound)
  {
    hide Run, Chunks, Consumed, Health, PollFrom;
    var before := Run(Primed(journal), ops, bound, isHealth);
    var now := Content(before.file);
    PrimedReads(journal, bound, isHealth);
    EachReadIsAttemptedOnce(Primed(journal), ops, |journal|, bound, isHealth, []);
    assert [] + before.attempts[0..] == before.attempts;
    PollReads(now, before.offset, bound, isHealth, patience);
    ReadToTheEnd(now, |journal|, before.offset, bound, isHealth, before.attempts);
  }

  // ----- a journal that disappears and comes back -----

  /** One journal, from its creation or the priming to its disappearance: from where and to where it was read. */
  datatype Life = Life(journal: Bytes, base: nat, read: nat)

  /** Every disappearance is noticed: some poll finds the journal missing before anything is appended again. */
  predicate Noticed(ops: seq<Op>, missed: bool) {
    if ops == [] then true
    else match ops[0]
      case Append(_) => !missed && Noticed(ops[1..], false)
      case Vanish => Noticed(ops[1..], true)
      case PollNow(_) => Noticed(ops[1..], false)
  }

  /** The journals of a run, one after the other. */
  function Lives(s: Following, base: nat, missed: bool, ops: seq<Op>, bound: nat, isHealth: Bytes -> bool): seq<Life>
    decreases |ops|
  {
    var life := Life(Content(s.file), base, if missed then base else s.offset);
    if ops == [] then [life]
    else
      var next := Do(s, ops[0], bound, isHealth);
      if ops[0].Vanish? then [life] + Lives(next, 0, true, ops[1..], bound, isHealth)
      else Lives(next, base, false, ops[1..], bound, isHealth)
  }

  ghost predicate WhollyRead(life: Life, bound: nat) {
    && life.base <= life.read <= |life.journal|
    && Consumed(life.journal[life.base..life.read], bound) == life.read - life.base
  }

  ghost function ToldOf(life: Life, bound: nat, isHealth: Bytes -> bool): seq<Bytes> {
    if life.base <= life.read <= |life.journal| then Health(Chunks(life.journal[life.base..life.read], bound), isHealth)
    else []
  }

  ghost function AllTold(lives: seq<Life>, bound: nat, isHealth: Bytes -> bool): seq<Bytes> {
    if lives == [] then [] else ToldOf(lives[0], bound, isHealth) + AllTold(lives[1..], bound, isHealth)
  }

  /** When every disappearance is noticed, the records handed out are those of one journal after the other, each read
      once from its first byte on, the first one from where it was primed. */
  lemma {:induction false} EveryLifeIsReadOnce(s: Following, base: nat, missed: bool, ops: seq<Op>, bound: nat,
                                               isHealth: Bytes -> bool, past: seq<Bytes>, told: seq<Bytes>)
    requires Noticed(ops, missed) && s.attempts == past + told
    requires if missed then s.file.None? && base == 0 && told == [] else ReadSince(s, base, bound, isHealth, told)
    ensures var lives := Lives(s, base, missed, ops, bound, isHealth);
            && Run(s, ops, bound, isHealth).attempts == past + AllTold(lives, bound, isHealth)
            && forall life :: life in lives ==> WhollyRead(life, bound)
    decreases |ops|
  {
    hide Do, Chunks, Consumed, Health, WhollyRead, ToldOf, AllTold, ReadSince;
    var life := Life(Content(s.file), base, if missed then base else s.offset);
    LifeSoFar(s, base, missed, bound, isHealth, told);
    if ops == [] {
      ToldFirst(life, [], bound, isHealth);
      assert [life] + [] == [life] && told + [] == told;
    } else {
      var next, rest := Do(s, ops[0], bound, isHealth), ops[1..];
      if ops[0].Vanish? {
        VanishMeans(s, bound, isHealth);
        EveryLifeIsReadOnce(next, 0, true, rest, bound, isHealth, past + told, []);
        var lives := Lives(next, 0, true, rest, bound, isHealth);
        ToldFirst(life, lives, bound, isHealth);
        JoinsAlong(past, told, AllTold(lives, bound, isHealth));
      } else if missed {
        PollOfMissing(s, ops[0], bound, isHealth);
        EveryLifeIsReadOnce(next, 0, false, rest, bound, isHealth, past, []);
      } else {
        DoReads(s, ops[0], base, bound, isHealth, told);
        var more := next.attempts[|s.attempts|..];
        assert next.attempts == past + (told + more);
        EveryLifeIsReadOnce(next, base, false, rest, bound, isHealth, past, told + more);
      }
    }
  }

  lemma ToldFirst(life: Life, lives: seq<Life>, bound: nat, isHealth: Bytes -> bool)
    ensures AllTold([life] + lives, bound, isHealth) == ToldOf(life, bound, isHealth) + AllTold(lives, bound, isHealth)
    ensures AllTold([], bound, isHealth) == []
  {
    assert ([life] + lives)[1..] == lives;
  }

  lemma LifeSoFar(s: Following, base: nat, missed: bool, bound: nat, isHealth: Bytes -> bool, told: seq<Bytes>)
    requires if missed then s.file.None? && base == 0 && told == [] else ReadSince(s, base, bound, isHealth, told)
    ensures var life := Life(Content(s.file), base, if missed then base else s.offset);
            WhollyRead(life, bound) && ToldOf(life, bound, isHealth) == told
  {
    NothingToRead(bound);
    NoHealth(isHealth);
  }

  lemma VanishMeans(s: Following, bound: nat, isHealth: Bytes -> bool)
    ensures Do(s, Vanish, bound, isHealth) == s.(file := None)
  {
  }

  /** A poll that finds the journal missing starts over. */
  lemma PollOfMissing(s: Following, op: Op, bound: nat, isHealth: Bytes -> bool)
    requires op.PollNow? && s.file.None?
    ensures var next := Do(s, op, bound, isHealth);
            && next == s.(offset := 0) && ReadSince(next, 0, bound, isHealth, [])
  {
    NothingToRead(bound);
    NoHealth(isHealth);
    assert s.attempts + [] == s.attempts;
  }

  // ----- lines -----

  function LineEnd(bytes: Bytes): (n: nat)
    ensures n <= |bytes|
    ensures n > 0 ==> bytes[n - 1] == NEWLINE
    ensures forall i :: 0 <= i < (if n > 0 then n - 1 else |bytes|) ==> bytes[i] != NEWLINE
  {
    if bytes == [] then 0
    else if bytes[0] == NEWLINE then 1
    else
      var n := LineEnd(bytes[1..]);
      assert forall i :: 0 < i < |bytes| ==> bytes[i] == bytes[1..][i - 1];
      if n == 0 then 0 else n + 1
  }

  /** The complete lines, each with its newline. */
  function Lines(bytes: Bytes): seq<Bytes>
    decreases |bytes|
  {
    var n := LineEnd(bytes);
    if n == 0 then [] else [bytes[..n]] + Lines(bytes[n..])
  }

  ghost predicate LinesFit(bytes: Bytes, bound: nat) {
    forall line :: line in Lines(bytes) ==> |line| <= bound
  }

  lemma CutOfShortLine(bytes: Bytes, bound: nat)
    ensures 0 < LineEnd(bytes) <= bound ==> Cut(bytes, bound) == LineEnd(bytes)
    ensures LineEnd(bytes) == 0 ==> Cut(bytes, bound) == 0 || Cut(bytes, bound) == bound + 1
  {
    hide ReadLine, LineEnd;
    var raw := ReadLine(bytes, bound + 1);
    assert forall i :: 0 <= i < |raw| ==> raw[i] == bytes[i];
  }

  lemma {:induction false} NoLineNoChunk(bytes: Bytes, bound: nat)
    requires LineEnd(bytes) == 0
    ensures Chunks(bytes, bound) == []
    decreases |bytes|
  {
    CutOfShortLine(bytes, bound);
    var n := Cut(bytes, bound);
    if n > 0 {
      assert forall i :: 0 <= i < |bytes[n..]| ==> bytes[n..][i] == bytes[n + i];
      NoLineNoChunk(bytes[n..], bound);
    }
  }

  lemma {:induction false} ChunksAreShort(bytes: Bytes, bound: nat)
    ensures forall chunk :: chunk in Chunks(bytes, bound) ==> |chunk| <= bound
    decreases |bytes|
  {
    var n := Cut(bytes, bound);
    if n > 0 {
      ChunksAreShort(bytes[n..], bound);
    }
  }

  lemma {:induction false} ShortLinesAreRead(bytes: Bytes, bound: nat)
    requires LinesFit(bytes, bound)
    ensures Chunks(bytes, bound) == Lines(bytes)
    decreases |bytes|
  {
    var n := LineEnd(bytes);
    CutOfShortLine(bytes, bound);
    if n == 0 {
      NoLineNoChunk(bytes, bound);
    } else {
      assert bytes[..n] in Lines(bytes);
      ShortLinesAreRead(bytes[n..], bound);
    }
  }

  /** The complete reads are the complete lines exactly when no complete line is longer than the bound. */
  lemma ReadsAreLinesExactlyWhen(bytes: Bytes, bound: nat)
    ensures Chunks(bytes, bound) == Lines(bytes) <==> LinesFit(bytes, bound)
  {
    if LinesFit(bytes, bound) {
      ShortLinesAreRead(bytes, bound);
    } else {
      ChunksAreShort(bytes, bound);
    }
  }

  /** No line, complete or not, is longer than the bound. */
  ghost predicate Bounded(bytes: Bytes, bound: nat)
    decreases |bytes|
  {
    var n := LineEnd(bytes);
    if n == 0 then |bytes| <= bound else n <= bound && Bounded(bytes[n..], bound)
  }

  lemma {:induction false} BoundedRestsOnLines(bytes: Bytes, bound: nat)
    requires Bounded(bytes, bound)
    ensures LinesFit(bytes, bound)
    ensures var n := Consumed(bytes, bound); n == 0 || bytes[n - 1] == NEWLINE
    ensures LineEnd(bytes[Consumed(bytes, bound)..]) == 0
    decreases |bytes|
  {
    hide Cut, LineEnd;
    var n := LineEnd(bytes);
    CutOfShortLine(bytes, bound);
    if n == 0 {
      assert Cut(bytes, bound) == 0;
      assert bytes[0..] == bytes;
    } else {
      BoundedRestsOnLines(bytes[n..], bound);
      var m := Consumed(bytes[n..], bound);
      assert bytes[n..][m..] == bytes[n + m..];
      assert m > 0 ==> bytes[n..][m - 1] == bytes[n + m - 1];
    }
  }

  /** With lines within the bound, after a poll that returns exactly the health records among the complete lines
      appended since priming have been handed to the publisher, each once and in order, and the offset rests where the
      last complete line ends. A record whose publisher call raised in an earlier poll is among them: it is not handed
      out again. */
  lemma FollowingHandsOutTheLines(journal: Bytes, ops: seq<Op>, bound: nat, isHealth: Bytes -> bool, patience: nat)
    requires Vanish !in ops
    ensures var before := Run(Primed(journal), ops, bound, isHealth);
            var now := Content(before.file);
            var (f, attempts, raised) := Poll(Follower(before.offset, true), before.file, bound, isHealth, patience);
            !raised && |journal| <= |now| && Bounded(now[|journal|..], bound) ==>
              && before.attempts + attempts == Health(Lines(now[|journal|..]), isHealth)
              && |journal| <= f.offset <= |now|
              && (f.offset == |journal| || now[f.offset - 1] == NEWLINE)
              && LineEnd(now[f.offset..]) == 0
  {
    hide Run, Poll, Chunks, Lines, Consumed, Bounded, LinesFit, LineEnd;
    PollCatchesUp(journal, ops, bound, isHealth, patience);
    var now := Content(Run(Primed(journal), ops, bound, isHealth).file);
    if |journal| <= |now| && Bounded(now[|journal|..], bound) {
      var appended := now[|journal|..];
      BoundedRestsOnLines(appended, bound);
      ReadsAreLinesExactlyWhen(appended, bound);
      var n := Consumed(appended, bound);
      assert appended[n..] == now[|journal| + n..];
      assert n > 0 ==> appended[n - 1] == now[|journal| + n - 1];
    }
  }

  /** A line that starts with more bytes than the bound is cut there. */
  lemma LongLineIsCut(bytes: Bytes, bound: nat)
    requires |bytes| > bound && NEWLINE !in bytes[..bound + 1]
    ensures Cut(bytes, bound) == bound + 1
  {
    var raw := ReadLine(bytes, bound + 1);
    assert forall i :: 0 <= i < |raw| ==> raw[i] == bytes[..bound + 1][i];
  }

  lemma OneLine(line: Bytes)
    requires line != [] && LineEnd(line) == |line|
    ensures Lines(line) == [line]
  {
    assert line[..|line|] == line && line[|line|..] == [];
  }

  /** The end of an over-long line is handed to the parser as if it were a line. */
  lemma OverlongLineLeavesItsTail(head: Bytes, tail: Bytes, bound: nat)
    requires |head| == bound + 1 && NEWLINE !in head
    requires 0 < |tail| <= bound && LineEnd(tail) == |tail|
    ensures Lines(head + tail) == [head + tail]
    ensures Chunks(head + tail, bound) == [tail]
  {
    hide Cut, Lines;
    var bytes := head + tail;
    assert bytes[..bound + 1] == head && bytes[bound + 1..] == tail;
    assert forall i :: 0 <= i < |head| ==> bytes[i] == head[i] != NEWLINE;
    assert forall i :: 0 <= i < |tail| ==> bytes[|head| + i] == tail[i];
    OneLine(bytes);
    OneLine(tail);
    LongLineIsCut(bytes, bound);
    assert LinesFit(tail, bound);
    ReadsAreLinesExactlyWhen(tail, bound);
  }
}
