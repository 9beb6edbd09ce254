/** Single-node Kafka-style log service: a map from log key to a log of
    (offset, message) entries with a committed offset, behind one lock, so that
    every request handler is one atomic state transition. */
module Kafka {

  /** Number of entries one poll returns per key at most. */
  const BatchSize: nat := 3

  /** Offsets of the n-th log created start at n * FirstOffsetStride. */
  const FirstOffsetStride: int := 1000

  datatype LogEntry = LogEntry(offset: int, message: int)

  datatype Log = Log(committedOffset: int, entries: seq<LogEntry>)

  /** Offsets are gap-free: the i-th entry sits exactly i offsets after the
      first (`AdjacentOffsets` restates this entry by entry). */
  ghost predicate Contiguous(entries: seq<LogEntry>)
  {
    forall i :: 0 <= i < |entries| ==> entries[i].offset == entries[0].offset + i
  }

  /** The invariant every request handler keeps: each stored log has at least
      one entry, its offsets are gap-free and ascending, and its committed
      offset is never below its first offset. */
  ghost predicate WellFormed(logs: map<string, Log>)
  {
    forall k :: k in logs ==>
      && |logs[k].entries| > 0
      && Contiguous(logs[k].entries)
      && logs[k].entries[0].offset <= logs[k].committedOffset
  }

  /** In a contiguous log each entry's offset is one more than the previous
      entry's, and a log with that property is contiguous. */
  lemma {:induction false} AdjacentOffsets(entries: seq<LogEntry>)
    ensures Contiguous(entries) <==>
      forall i :: 0 < i < |entries| ==> entries[i].offset == entries[i - 1].offset + 1
  {
    if (forall i :: 0 < i < |entries| ==> entries[i].offset == entries[i - 1].offset + 1) && |entries| > 0 {
      AdjacentOffsetsUpTo(entries, |entries| - 1);
    }
  }

  lemma {:induction false} AdjacentOffsetsUpTo(entries: seq<LogEntry>, n: nat)
    requires n < |entries|
    requires forall i :: 0 < i < |entries| ==> entries[i].offset == entries[i - 1].offset + 1
    ensures forall i :: 0 <= i <= n ==> entries[i].offset == entries[0].offset + i
  {
    if n > 0 {
      AdjacentOffsetsUpTo(entries, n - 1);
      assert entries[n].offset == entries[n - 1].offset + 1;
    }
  }

  /** Offsets within a stored log never repeat: they strictly increase with the
      position of the entry. */
  lemma OffsetsStrictlyIncrease(logs: map<string, Log>, key: string, i: nat, j: nat)
    requires WellFormed(logs)
    requires key in logs
    requires i < j < |logs[key].entries|
    ensures logs[key].entries[i].offset < logs[key].entries[j].offset
  {
  }

  // ---------------------------------------------------------------------------
  // send

  /** The state after `send(key, msg)` and the offset it replies with. A known
      key gets the offset after its last entry, appended at the end of its log;
      a new key gets a fresh one-entry log whose first (and committed) offset is
      (number of logs + 1) * 1000. No other log changes. */
  function Append(logs: map<string, Log>, key: string, msg: int): (r: (map<string, Log>, int))
    requires WellFormed(logs)
    ensures r.0.Keys == logs.Keys + {key}
    ensures forall k :: k in logs && k != key ==> r.0[k] == logs[k]
    ensures key in logs ==> r.1 == Last(logs[key].entries).offset + 1
    ensures key in logs ==> r.0[key] == Log(logs[key].committedOffset, logs[key].entries + [LogEntry(r.1, msg)])
    ensures key !in logs ==> r.1 == (|logs| + 1) * FirstOffsetStride
    ensures key !in logs ==> r.0[key] == Log(r.1, [LogEntry(r.1, msg)])
  {
    if key in logs then
      var log := logs[key];
      var offset := Last(log.entries).offset + 1;
      (logs[key := log.(entries := log.entries + [LogEntry(offset, msg)])], offset)
    else
      var offset := (|logs| + 1) * FirstOffsetStride;
      (logs[key := Log(offset, [LogEntry(offset, msg)])], offset)
  }

  function Last(entries: seq<LogEntry>): LogEntry
    requires |entries| > 0
  {
    entries[|entries| - 1]
  }

  /** `send` keeps the log invariant, its entry ends up last in the key's log,
      and its offset is above every offset already in that log. */
  lemma SendKeepsInvariant(logs: map<string, Log>, key: string, msg: int)
    requires WellFormed(logs)
    ensures var (after, offset) := Append(logs, key, msg);
      && WellFormed(after)
      && Last(after[key].entries) == LogEntry(offset, msg)
      && (key in logs ==> forall e :: e in logs[key].entries ==> e.offset < offset)
  {
    var (after, offset) := Append(logs, key, msg);
    if key in logs {
      var log := logs[key];
      LastOffsetIsGreatest(log.entries);
      ExtendContiguous(log.entries, LogEntry(offset, msg));
      assert after == logs[key := Log(log.committedOffset, log.entries + [LogEntry(offset, msg)])];
    } else {
      assert after == logs[key := Log(offset, [LogEntry(offset, msg)])];
    }
  }

  /** An entry one past the last keeps a contiguous log contiguous. */
  lemma ExtendContiguous(entries: seq<LogEntry>, e: LogEntry)
    requires |entries| > 0 && Contiguous(entries)
    requires e.offset == Last(entries).offset + 1
    ensures Contiguous(entries + [e]) && (entries + [e])[0] == entries[0]
  {
    var n := |entries|;
    forall i | 0 <= i < n + 1
      ensures (entries + [e])[i].offset == entries[0].offset + i
    {
      if i < n {
        assert (entries + [e])[i] == entries[i];
      }
    }
  }

  /** No entry of a contiguous log has an offset above the last entry's. */
  lemma LastOffsetIsGreatest(entries: seq<LogEntry>)
    requires |entries| > 0
    requires Contiguous(entries)
    ensures forall e :: e in entries ==> e.offset <= Last(entries).offset
  {
    forall e | e in entries ensures e.offset <= Last(entries).offset {
      var i :| 0 <= i < |entries| && entries[i] == e;
    }
  }

  // ---------------------------------------------------------------------------
  // poll

  /** The first `room` entries of `entries`, in log order, whose offset is at
      least `start`. */
  function Batch(entries: seq<LogEntry>, start: int, room: nat): (batch: seq<LogEntry>)
    ensures |batch| <= room
    ensures forall e :: e in batch ==> e.offset >= start
  {
    if room == 0 || entries == [] then []
    else if entries[0].offset >= start then [entries[0]] + Batch(entries[1..], start, room - 1)
    else Batch(entries[1..], start, room)
  }

  /** What `poll` replies for one requested key: the batch from the key's log,
      or nothing when the key has no log. */
  function PollKey(logs: map<string, Log>, key: string, start: int): (batch: seq<LogEntry>)
    ensures |batch| <= BatchSize
    ensures forall e :: e in batch ==> e.offset >= start
    ensures key !in logs ==> batch == []
  {
    if key in logs then Batch(logs[key].entries, start, BatchSize) else []
  }

  /** A batch is taken from the log: every entry in it is an entry of the log. */
  lemma {:induction false} BatchSound(entries: seq<LogEntry>, start: int, room: nat)
    ensures forall e :: e in Batch(entries, start, room) ==> e in entries
  {
    if room != 0 && entries != [] {
      BatchSound(entries[1..], start, if entries[0].offset >= start then room - 1 else room);
    }
  }

  /** Entries at or above the start offset are skipped only when the batch is
      full: if fewer than `room` entries come back, every qualifying entry of the
      log is among them. */
  lemma {:induction false} BatchComplete(entries: seq<LogEntry>, start: int, room: nat)
    requires |Batch(entries, start, room)| < room
    ensures forall e :: e in entries && e.offset >= start ==> e in Batch(entries, start, room)
  {
    if entries != [] {
      BatchComplete(entries[1..], start, if entries[0].offset >= start then room - 1 else room);
    }
  }

  /** Index of the first entry at or above `start` in a contiguous log. */
  function FirstAtOrAbove(entries: seq<LogEntry>, start: int): (j: nat)
    requires |entries| > 0
    ensures j <= |entries|
  {
    if start <= entries[0].offset then 0
    else if start - entries[0].offset <= |entries| then start - entries[0].offset
    else |entries|
  }

  /** On a contiguous log `FirstAtOrAbove` is the first index at or above the
      start offset: every entry before it is below `start`, every entry from it
      on is at or above. */
  lemma FirstAtOrAboveIsFirst(entries: seq<LogEntry>, start: int)
    requires |entries| > 0
    requires Contiguous(entries)
    ensures var j := FirstAtOrAbove(entries, start);
      && (forall i :: 0 <= i < j ==> entries[i].offset < start)
      && (forall i :: j <= i < |entries| ==> entries[i].offset >= start)
  {
  }

  /** Entries below the start offset at the front of a log do not affect the
      batch. */
  lemma {:induction false} BatchSkipsBelow(entries: seq<LogEntry>, start: int, room: nat, j: nat)
    requires j <= |entries|
    requires forall i :: 0 <= i < j ==> entries[i].offset < start
    ensures Batch(entries, start, room) == Batch(entries[j..], start, room)
  {
    if j > 0 && room != 0 {
      assert entries[1..][j - 1..] == entries[j..];
      BatchSkipsBelow(entries[1..], start, room, j - 1);
    } else if j > 0 {
      assert Batch(entries[j..], start, room) == [];
    }
  }

  /** When every entry is at or above the start offset, the batch is the first
      `room` entries. */
  lemma {:induction false} BatchTakesPrefix(entries: seq<LogEntry>, start: int, room: nat)
    requires forall i :: 0 <= i < |entries| ==> entries[i].offset >= start
    ensures Batch(entries, start, room) == entries[..if room <= |entries| then room else |entries|]
  {
    if room != 0 && entries != [] {
      BatchTakesPrefix(entries[1..], start, room - 1);
      var n := if room <= |entries| then room else |entries|;
      assert entries[..n] == [entries[0]] + entries[1..][..n - 1];
    }
  }

  /** On a contiguous log a batch is a slice: the entries from the start offset
      onward, cut after `room` of them. */
  lemma BatchOfContiguous(entries: seq<LogEntry>, start: int, room: nat)
    requires |entries| > 0
    requires Contiguous(entries)
    ensures var j := FirstAtOrAbove(entries, start);
      Batch(entries, start, room) == entries[j..if j + room <= |entries| then j + room else |entries|]
  {
    var j := FirstAtOrAbove(entries, start);
    var end := if j + room <= |entries| then j + room else |entries|;
    BatchSkipsBelow(entries, start, room, j);
    var tail := entries[j..];
    assert forall i :: 0 <= i < |tail| ==> tail[i] == entries[j + i];
    BatchTakesPrefix(tail, start, room);
    assert tail[..end - j] == entries[j..end];
  }

  /** Polling a contiguous log from the offset of its last entry yields that
      entry alone. */
  lemma BatchFromLast(entries: seq<LogEntry>, room: nat)
    requires |entries| > 0
    requires Contiguous(entries)
    requires room > 0
    ensures Batch(entries, entries[|entries| - 1].offset, room) == [entries[|entries| - 1]]
  {
    var n := |entries|;
    assert FirstAtOrAbove(entries, entries[n - 1].offset) == n - 1;
    BatchOfContiguous(entries, entries[n - 1].offset, room);
  }

  /** A poll for key k from offset o, right after `send(k, m)` answered o,
      returns exactly that entry. */
  lemma PollAfterSend(logs: map<string, Log>, key: string, msg: int)
    requires WellFormed(logs)
    ensures PollKey(Append(logs, key, msg).0, key, Append(logs, key, msg).1) == [LogEntry(Append(logs, key, msg).1, msg)]
  {
    var r := Append(logs, key, msg);
    SendKeepsInvariant(logs, key, msg);
    BatchFromLast(r.0[key].entries, BatchSize);
  }

  /** The batch cap means a poll from 0 after a send can miss the sent entry:
      with entries 1000..1002 in "x", a send gets 1003 and a poll from 0 still
      returns 1000..1002 only. */
  lemma PollFromZeroIsCapped()
    ensures var logs := map["x" := Log(1000, [LogEntry(1000, 1), LogEntry(1001, 2), LogEntry(1002, 3)])];
      var (after, offset) := Append(logs, "x", 4);
      && offset == 1003
      && PollKey(after, "x", 0) == [LogEntry(1000, 1), LogEntry(1001, 2), LogEntry(1002, 3)]
      && LogEntry(1003, 4) !in PollKey(after, "x", 0)
  {
    var logs := map["x" := Log(1000, [LogEntry(1000, 1), LogEntry(1001, 2), LogEntry(1002, 3)])];
    var (after, offset) := Append(logs, "x", 4);
    BatchOfContiguous(after["x"].entries, 0, BatchSize);
  }

  // ---------------------------------------------------------------------------
  // commit_offsets

  /** The state after `commit_offsets(offsets)`: each requested key that has a
      log keeps the larger of its committed offset and the requested one; keys
      without a log are ignored. */
  function CommitAll(logs: map<string, Log>, offsets: map<string, int>): (r: map<string, Log>)
    ensures r.Keys == logs.Keys
    ensures forall k :: k in r ==> r[k].entries == logs[k].entries
    ensures forall k :: k in r ==> logs[k].committedOffset <= r[k].committedOffset
    ensures forall k :: k in r && k in offsets ==> offsets[k] <= r[k].committedOffset
    ensures forall k :: k in r && k in offsets ==>
      r[k].committedOffset == logs[k].committedOffset || r[k].committedOffset == offsets[k]
    ensures forall k :: k in r && k !in offsets ==> r[k] == logs[k]
  {
    map k | k in logs ::
      if k in offsets then logs[k].(committedOffset := Max(logs[k].committedOffset, offsets[k]))
      else logs[k]
  }

  function Max(a: int, b: int): int
  {
    if a < b then b else a
  }

  /** A commit keeps the log invariant. */
  lemma CommitPreservesWellFormed(logs: map<string, Log>, offsets: map<string, int>)
    requires WellFormed(logs)
    ensures WellFormed(CommitAll(logs, offsets))
  {
  }

  /** Repeating a commit changes nothing. */
  lemma CommitIdempotent(logs: map<string, Log>, offsets: map<string, int>)
    ensures CommitAll(CommitAll(logs, offsets), offsets) == CommitAll(logs, offsets)
  {
  }

  /** A commit below a log's first offset is ignored: every log's committed
      offset already starts at its first offset. */
  lemma CommitBelowFirstIgnored(logs: map<string, Log>, key: string, offset: int)
    requires WellFormed(logs)
    requires key in logs
    requires offset < logs[key].entries[0].offset
    ensures CommitAll(logs, map[key := offset]) == logs
  {
    var r := CommitAll(logs, map[key := offset]);
    assert r[key] == logs[key];
  }

  /** Commits merge by maximum, so their order does not matter. */
  lemma CommitCommutes(logs: map<string, Log>, a: map<string, int>, b: map<string, int>)
    ensures CommitAll(CommitAll(logs, a), b) == CommitAll(CommitAll(logs, b), a)
  {
  }

  /** The inner loop of `poll`: walk one log in order, collecting entries at
      or above `start`, and stop as soon as three are collected. */
  method CollectBatch(entries: seq<LogEntry>, start: int) returns (logMessages: seq<LogEntry>)
    ensures logMessages == Batch(entries, start, BatchSize)
  {
    logMessages := [];
    var count := 0;
    var i := 0;
    while i < |entries|
      invariant 0 <= i <= |entries|
      invariant count == |logMessages| < BatchSize
      invariant logMessages + Batch(entries[i..], start, BatchSize - count) == Batch(entries, start, BatchSize)
    {
      assert entries[i..][1..] == entries[i + 1..];
      if entries[i].offset >= start {
        assert Batch(entries[i..], start, BatchSize - count)
          == [entries[i]] + Batch(entries[i + 1..], start, BatchSize - count - 1);
        logMessages := logMessages + [entries[i]];
        count := count + 1;
        if count == BatchSize {
          break;
        }
      }
      i := i + 1;
    }
  }

  // ---------------------------------------------------------------------------
  // The handlers, each one atomic step on the shared map.

  class ThreadSafeLog {
    var logs: map<string, Log>

    ghost predicate Valid()
      reads this
    {
      WellFormed(logs)
    }

    constructor ()
      ensures Valid()
      ensures logs == map[]
    {
      logs := map[];
    }

    /** `send`: append `msg` to the log of `key`, creating the log if needed,
        and reply with the offset it was given. */
    method Send(key: string, msg: int) returns (offset: int)
      requires Valid()
      modifies this
      ensures Valid()
      ensures (logs, offset) == Append(old(logs), key, msg)
    {
      ghost var before := logs;
      SendKeepsInvariant(before, key, msg);
      if key in logs {
        var log := logs[key];
        offset := log.entries[|log.entries| - 1].offset + 1;
        logs := logs[key := log.(entries := log.entries + [LogEntry(offset, msg)])];
      } else {
        offset := (|logs| + 1) * FirstOffsetStride;
        logs := logs[key := Log(offset, [LogEntry(offset, msg)])];
      }
      assert (logs, offset) == Append(before, key, msg);
    }

    /** `poll`: for every requested key, up to three entries at or above the
        requested offset, in log order; a key without a log gets an empty list. */
    method Poll(offsets: map<string, int>) returns (msgs: map<string, seq<LogEntry>>)
      requires Valid()
      ensures msgs.Keys == offsets.Keys
      ensures forall k :: k in msgs ==> msgs[k] == PollKey(logs, k, offsets[k])
    {
      msgs := map[];
      var pending := offsets.Keys;
      while pending != {}
        invariant pending <= offsets.Keys
        invariant msgs.Keys == offsets.Keys - pending
        invariant forall k :: k in msgs ==> msgs[k] == PollKey(logs, k, offsets[k])
        decreases pending
      {
        var key :| key in pending;
        var start := offsets[key];
        var logMessages := [];
        if key in logs {
          logMessages := CollectBatch(logs[key].entries, start);
        }
        msgs := msgs[key := logMessages];
        pending := pending - {key};
      }
    }

    /** `commit_offsets`: raise the committed offset of every requested key that
        has a log to the requested one, never lowering it. */
    method CommitOffsets(offsets: map<string, int>)
      requires Valid()
      modifies this
      ensures Valid()
      ensures logs == CommitAll(old(logs), offsets)
    {
      var pending := offsets.Keys;
      while pending != {}
        invariant pending <= offsets.Keys
        invariant logs.Keys == old(logs).Keys
        invariant forall k :: k in logs ==>
          logs[k] == if k in offsets && k !in pending then CommitAll(old(logs), offsets)[k] else old(logs)[k]
        decreases pending
      {
        var key :| key in pending;
        if key in logs {
          var log := logs[key];
          logs := logs[key := log.(committedOffset := Max(log.committedOffset, offsets[key]))];
        }
        pending := pending - {key};
      }
      CommitPreservesWellFormed(old(logs), offsets);
    }

    /** `list_committed_offsets`: the committed offset of each requested key
        that has a log; keys without a log are left out of the reply. */
    method ListCommittedOffsets(keys: seq<string>) returns (offsets: map<string, int>)
      requires Valid()
      ensures forall k :: k in offsets <==> k in keys && k in logs
      ensures forall k :: k in offsets ==> offsets[k] == logs[k].committedOffset
    {
      offsets := map[];
      for i := 0 to |keys|
        invariant forall k :: k in offsets <==> k in keys[..i] && k in logs
        invariant forall k :: k in offsets ==> offsets[k] == logs[k].committedOffset
      {
        var key := keys[i];
        if key in logs {
          offsets := offsets[key := logs[key].committedOffset];
        }
      }
      assert keys[..|keys|] == keys;
    }
  }

  /** The end-to-end exchange: two sends to "x", a poll, a commit and a lookup. */
  lemma Scenario()
    ensures var (s1, o1) := Append(map[], "x", 10);
      var (s2, o2) := Append(s1, "x", 20);
      var s3 := CommitAll(s2, map["x" := 1000]);
      && o1 == 1000 && o2 == 1001
      && PollKey(s2, "x", 1000) == [LogEntry(1000, 10), LogEntry(1001, 20)]
      && "x" in s3 && s3["x"].committedOffset == 1000
  {
    var (s1, o1) := Append(map[], "x", 10);
    var (s2, o2) := Append(s1, "x", 20);
    assert s2["x"].entries == [LogEntry(1000, 10), LogEntry(1001, 20)];
    BatchOfContiguous(s2["x"].entries, 1000, BatchSize);
  }
}
