/**
 * The activity log: a most-recent-first list of `"[time] message"` lines,
 * trimmed to the ten newest on every insertion, and the split that the
 * log view applies to each line.
 */
module ActivityLog {
  import opened JsText
  import opened JsMath

  /** The log keeps at most this many lines. */
  const Capacity: nat := 10

  /** The lines the log starts with, newest first. */
  const InitialEntries: seq<string> := [
    "[23:59:59] User logged in from the void",
    "[23:59:58] Spectral process spawned",
    "[23:59:57] Memory corruption detected",
    "[23:59:56] Ghost in the shell protocol active",
    "[23:59:55] Phantom DLL loaded successfully"
  ]

  /** The messages a new line is drawn from. */
  const RandomEntries: seq<string> := [
    "Paranormal activity detected in sector 7",
    "Ectoplasm leak in memory bank",
    "Ghost process consuming infinite resources",
    "Spectral signature found in boot sector",
    "Phantom registry keys discovered",
    "Soul.sys has stopped responding",
    "Haunted pixels detected on display",
    "Supernatural I/O error occurred",
    "Poltergeist interference in audio driver",
    "Spirit level overflow exception"
  ]

  /** What separates a line's time stamp from its message. */
  const Separator: string := "] "

  function Min(a: int, b: int): int {
    if a < b then a else b
  }

  /** The message picked by the draw `draw` of `Math.random()`. */
  function PickMessage(draw: real): (m: string)
    requires IsDraw(draw)
    ensures m in RandomEntries
  {
    RandomEntries[RandomBelow(draw, |RandomEntries|)]
  }

  /** The line `[timestamp] message`. */
  function MakeEntry(timestamp: string, message: string): (e: string)
    ensures |e| == |timestamp| + |message| + 3 && e[0] == '['
    ensures OccursAt(e, Separator, |timestamp| + 1) && e[|timestamp| + 3..] == message
  {
    "[" + timestamp + Separator + message
  }

  /**
   * The log after a line is put in front of it and the result is cut to
   * its first `Capacity` lines.
   */
  function Prepend(log: seq<string>, entry: string): (r: seq<string>)
    ensures |r| == Min(|log| + 1, Capacity)
    ensures r[0] == entry
    ensures forall k :: 0 < k < |r| ==> r[k] == log[k - 1]
  {
    var pushed := [entry] + log;
    if |pushed| > Capacity then pushed[..Capacity] else pushed
  }

  /** The log after `entries` are inserted one by one, `entries[0]` first. */
  function PrependAll(log: seq<string>, entries: seq<string>): seq<string>
    decreases |entries|
  {
    if entries == [] then log
    else Prepend(PrependAll(log, entries[..|entries| - 1]), entries[|entries| - 1])
  }

  /**
   * From a log within capacity, after any number of insertions the log holds, newest first, the
   * inserted lines followed by the old ones, cut to `Capacity`; so after
   * `Capacity` or more insertions it holds exactly the latest ones.
   */
  lemma {:induction false} PrependAllNewestFirst(log: seq<string>, entries: seq<string>)
    requires |log| <= Capacity
    ensures |PrependAll(log, entries)| == Min(|log| + |entries|, Capacity)
    ensures forall k :: 0 <= k < |PrependAll(log, entries)| ==>
      PrependAll(log, entries)[k] ==
        if k < |entries| then entries[|entries| - 1 - k] else log[k - |entries|]
  {
    PrependAllLength(log, entries);
    forall k | 0 <= k < |PrependAll(log, entries)|
      ensures PrependAll(log, entries)[k] ==
        if k < |entries| then entries[|entries| - 1 - k] else log[k - |entries|]
    {
      PrependAllAt(log, entries, k);
    }
  }

  lemma {:induction false} PrependAllLength(log: seq<string>, entries: seq<string>)
    requires |log| <= Capacity
    ensures |PrependAll(log, entries)| == Min(|log| + |entries|, Capacity)
    decreases |entries|
  {
    if entries != [] {
      var before := entries[..|entries| - 1];
      PrependAllLength(log, before);
    }
  }

  lemma {:induction false} PrependAllAt(log: seq<string>, entries: seq<string>, k: nat)
    requires |log| <= Capacity && k < Min(|log| + |entries|, Capacity)
    ensures k < |PrependAll(log, entries)|
    ensures PrependAll(log, entries)[k] ==
      if k < |entries| then entries[|entries| - 1 - k] else log[k - |entries|]
    decreases |entries|
  {
    PrependAllLength(log, entries);
    if entries != [] && k > 0 {
      var n := |entries|;
      var before := entries[..n - 1];
      var prev := PrependAll(log, before);
      assert PrependAll(log, entries) == Prepend(prev, entries[n - 1]);
      PrependAllAt(log, before, k - 1);
      if k < n {
        assert before[n - 2 - (k - 1)] == entries[n - 1 - k];
      }
    }
  }

  /**
   * The view's split of a line: the text before the first `"] "`, and
   * all pieces after it joined back with `"] "`.
   */
  function SplitEntry(entry: string): (r: (string, string))
    ensures !Contains(r.0, Separator)
    ensures Contains(entry, Separator) ==> r.0 + Separator + r.1 == entry
    ensures !Contains(entry, Separator) ==> r == (entry, "")
  {
    var parts := Split(entry, Separator);
    SplitFirstPiece(entry, Separator);
    if Contains(entry, Separator) then
      SplitRejoin(entry, Separator);
      (parts[0], Join(parts[1..], Separator))
    else
      (parts[0], Join(parts[1..], Separator))
  }

  lemma SeparatorAt(s: string, k: nat)
    ensures OccursAt(s, Separator, k) <==> k + 2 <= |s| && s[k] == ']' && s[k + 1] == ' '
  {
    if k + 2 <= |s| {
      assert s[k..k + 2] == [s[k], s[k + 1]];
    }
  }

  /**
   * A line built by `MakeEntry` splits back into `"[" + timestamp` and the
   * whole message, even when the message itself holds `"] "`, as long as
   * the time stamp does not.
   */
  lemma EntryRoundTrip(timestamp: string, message: string)
    requires !Contains(timestamp, Separator)
    ensures SplitEntry(MakeEntry(timestamp, message)) == ("[" + timestamp, message)
  {
    var head := "[" + timestamp;
    var entry := MakeEntry(timestamp, message);
    assert entry == head + Separator + message;
    forall k: nat | k < |head|
      ensures !OccursAt(entry, Separator, k)
    {
      SeparatorAt(entry, k);
      if k == 0 {
        assert entry[0] == '[';
      } else if k + 1 == |head| {
        assert entry[k + 1] == ']';
      } else {
        SeparatorAt(timestamp, k - 1);
        assert entry[k] == timestamp[k - 1] && entry[k + 1] == timestamp[k];
      }
    }
    assert entry[|head|..|head| + 2] == Separator;
    IndexOfFirst(entry, Separator, |head|);
    SplitRejoin(entry, Separator);
    SplitUnfold(entry, Separator, |head|);
    assert entry[..|head|] == head;
    var r := SplitEntry(entry);
    assert r.0 == head;
    assert head + Separator + r.1 == head + Separator + message;
    assert r.1 == (head + Separator + r.1)[|head| + 2..];
  }
}
