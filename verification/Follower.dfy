/** The journal follower as a mutable object, proved to do what module FollowerSpec says. */
module Follower {
  import opened Basics
  import opened FollowerSpec

  class JournalFile {
    var content: Option<Bytes>      // None: missing

    constructor (content: Option<Bytes>)
      ensures this.content == content
    {
      this.content := content;
    }
  }

  class BodyHealthJournalFollower {
    const file: JournalFile
    const bound: nat
    var offset: nat
    var initialized: bool

    constructor (file: JournalFile, bound: nat)
      ensures this.file == file && this.bound == bound && Abs() == FollowerSpec.Follower(0, false)
    {
      this.file, this.bound := file, bound;
      offset, initialized := 0, false;
    }

    function Abs(): FollowerSpec.Follower
      reads this
    {
      FollowerSpec.Follower(offset, initialized)
    }

    method Prime()
      modifies this
      ensures Abs() == FollowerSpec.Follower(SizeOf(file.content), true)
    {
      offset := if file.content.Some? then |file.content.value| else 0;
      initialized := true;
    }

    /** The records handed to the publisher, and whether it raised at the last of them. */
    method Poll(isHealth: Bytes -> bool, patience: nat) returns (attempts: seq<Bytes>, raised: bool)
      modifies this
      ensures (Abs(), attempts, raised) == FollowerSpec.Poll(old(Abs()), file.content, bound, isHealth, patience)
    {
      if !initialized {
        Prime();
        return [], false;
      }
      if file.content.None? {
        offset := 0;
        return [], false;
      }
      var journal := file.content.value;
      if |journal| < offset {
        offset := 0;
      }
      attempts, raised := ReadLines(journal, isHealth, patience);
    }

    method ReadLines(journal: Bytes, isHealth: Bytes -> bool, patience: nat)
      returns (attempts: seq<Bytes>, raised: bool)
      requires offset <= |journal|
      modifies this`offset
      ensures Polled(offset, attempts, raised) == PollFrom(journal, old(offset), bound, isHealth, patience)
    {
      hide ReadLine, PollFrom;
      attempts := [];
      var position, published := offset, 0;
      while true
        invariant position == offset <= |journal| && published == |attempts| <= patience
        invariant PollFrom(journal, old(offset), bound, isHealth, patience) ==
          var rest := PollFrom(journal, position, bound, isHealth, patience - published);
          rest.(attempts := attempts + rest.attempts)
        decreases |journal| - position
      {
        var lineStart := position;
        PollOnce(journal, lineStart, bound, isHealth, patience - published);
        var raw := ReadLine(journal[position..], bound + 1);
        position := position + |raw|;
        if raw == [] {
          return attempts, false;
        }
        assert raw == journal[lineStart..position];
        if |raw| > bound {
          offset := position;
          continue;
        }
        if raw[|raw| - 1] != NEWLINE {
          offset := lineStart;
          return attempts, false;
        }
        offset := position;
        if !isHealth(raw) {
          continue;
        }
        attempts := attempts + [raw];
        if published == patience {
          return attempts, true;
        }
        published := published + 1;
      }
    }
  }
}
