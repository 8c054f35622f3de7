/** Replicated logs as values: how a follower merges the entries of an append request. */
module RaftLog {
  import opened CoreTypes

  type Log = seq<LogEntry>

  /** How many of `entries` agree in term with what `log` already holds from position `at` on,
      counting from the first and stopping at the first conflict or at the end of the log. */
  function Agreeing(log: Log, at: nat, entries: Log): (k: nat)
    ensures k <= |entries|
    ensures k > 0 ==> at + k <= |log|
    ensures forall i | 0 <= i < k :: log[at + i].term == entries[i].term
    ensures k < |entries| && at + k < |log| ==> log[at + k].term != entries[k].term
    decreases |entries|
  {
    if entries == [] || at >= |log| || log[at].term != entries[0].term then 0
    else
      var rest := Agreeing(log, at + 1, entries[1..]);
      assert forall i | 1 <= i < rest + 1 :: log[at + i].term == entries[i].term by {
        forall i | 1 <= i < rest + 1
          ensures log[at + i].term == entries[i].term
        {
          assert log[at + 1 + (i - 1)].term == entries[1..][i - 1].term;
        }
      }
      1 + rest
  }

  /** The log after an accepted append: entries that agree in term are kept as they are, and from
      the first one that is missing or conflicts on, the old log is cut and the rest appended. */
  function Spliced(log: Log, at: nat, entries: Log): Log
    requires at <= |log|
  {
    var k := Agreeing(log, at, entries);
    if k == |entries| then log else log[..at + k] + entries[k..]
  }

  /** No entry of the request meets an old entry of another term. */
  predicate NoConflict(log: Log, at: nat, entries: Log) {
    forall i | 0 <= i < |entries| && at + i < |log| :: log[at + i].term == entries[i].term
  }

  /** Log matching for a pair of logs (section 5.3 of the Raft paper): an entry of the same term at
      the same position implies the same log up to and including it. */
  predicate LogsMatch(a: Log, b: Log) {
    forall i | 0 <= i < |a| && i < |b| :: a[i].term == b[i].term ==> a[..i + 1] == b[..i + 1]
  }

  /** What is sent: the entries of `source` from `at` on. */
  predicate IsTailOf(entries: Log, source: Log, at: nat) {
    at <= |source| && entries == source[at..]
  }

  // ---------------------------------------------------------------- merging

  lemma AgreeingIsWholeIffInPlace(log: Log, at: nat, entries: Log)
    requires at <= |log|
    ensures Agreeing(log, at, entries) == |entries| <==>
            at + |entries| <= |log| && NoConflict(log, at, entries)
  {
  }

  /** Entry by entry: the old one as long as no term has conflicted, and the sent one from the first
      conflict on. */
  lemma SplicedAt(log: Log, at: nat, entries: Log, i: nat)
    requires at <= |log| && i < |entries|
    ensures var r := Spliced(log, at, entries);
            && at + |entries| <= |r| && r[at + i].term == entries[i].term
            && r[at + i] == if at + i < |log| && NoConflict(log, at, entries[..i + 1]) then log[at + i] else entries[i]
  {
    var k := Agreeing(log, at, entries);
    if i < k {
    } else {
      assert Spliced(log, at, entries)[at + i] == entries[k..][i - k];
      assert entries[..i + 1][k] == entries[k];
    }
  }

  /** An old suffix survives exactly when no term conflicted. */
  lemma SplicedSuffix(log: Log, at: nat, entries: Log)
    requires at <= |log|
    ensures var r := Spliced(log, at, entries);
            NoConflict(log, at, entries) ==>
              r == if at + |entries| <= |log| then log else log + entries[|log| - at..]
    ensures !NoConflict(log, at, entries) ==> |Spliced(log, at, entries)| == at + |entries|
    ensures at + |entries| < |log| ==>
              (NoConflict(log, at, entries) <==>
               log[at + |entries|..] <= Spliced(log, at, entries)[at + |entries|..])
  {
    var k := Agreeing(log, at, entries);
    AgreeingIsWholeIffInPlace(log, at, entries);
    if k < |entries| && NoConflict(log, at, entries) {
      assert at + k == |log|;
      assert log[..at + k] == log;
    }
  }

  /** What an accepted append guarantees of the new log, whatever the old one held: the old prefix
      stays, the sent terms follow it, each entry there is the old one as long as no term has conflicted
      and the sent one from the first conflict on, and an old suffix survives exactly when no term
      conflicted. */
  lemma SplicedMeetsRequest(log: Log, at: nat, entries: Log)
    requires at <= |log|
    ensures var r := Spliced(log, at, entries);
            && at + |entries| <= |r|
            && r[..at] == log[..at]
            && (forall i | 0 <= i < |entries| ::
                 && r[at + i].term == entries[i].term
                 && r[at + i] == if at + i < |log| && NoConflict(log, at, entries[..i + 1])
                                 then log[at + i] else entries[i])
    ensures var r := Spliced(log, at, entries);
            NoConflict(log, at, entries) ==>
              r == if at + |entries| <= |log| then log else log + entries[|log| - at..]
    ensures !NoConflict(log, at, entries) ==> |Spliced(log, at, entries)| == at + |entries|
    ensures at + |entries| < |log| ==>
              (NoConflict(log, at, entries) <==>
               log[at + |entries|..] <= Spliced(log, at, entries)[at + |entries|..])
  {
    hide NoConflict, Spliced;
    SplicedKeepsPrefix(log, at, entries);
    SplicedSuffix(log, at, entries);
    forall i | 0 <= i < |entries|
      ensures Spliced(log, at, entries)[at + i].term == entries[i].term
      ensures Spliced(log, at, entries)[at + i]
              == if at + i < |log| && NoConflict(log, at, entries[..i + 1]) then log[at + i] else entries[i]
    {
      SplicedAt(log, at, entries, i);
    }
  }

  lemma SplicedKeepsPrefix(log: Log, at: nat, entries: Log)
    requires at <= |log|
    ensures at + |entries| <= |Spliced(log, at, entries)| && Spliced(log, at, entries)[..at] == log[..at]
  {
  }

  /** Handling the same append twice is handling it once. */
  lemma SplicedIsIdempotent(log: Log, at: nat, entries: Log)
    requires at <= |log|
    ensures at <= |Spliced(log, at, entries)|
    ensures Spliced(Spliced(log, at, entries), at, entries) == Spliced(log, at, entries)
  {
    SplicedMeetsRequest(log, at, entries);
    AgreeingIsWholeIffInPlace(Spliced(log, at, entries), at, entries);
  }

  lemma AgreedPartIsCommon(log: Log, source: Log, at: nat, entries: Log)
    requires at <= |log| && IsTailOf(entries, source, at)
    requires LogsMatch(log, source)
    requires at > 0 ==> log[at - 1].term == source[at - 1].term
    ensures var k := Agreeing(log, at, entries); at + k <= |source| && log[..at + k] == source[..at + k]
  {
    var k := Agreeing(log, at, entries);
    if k > 0 {
      assert log[at + (k - 1)].term == entries[k - 1].term;
      assert entries[k - 1] == source[at + (k - 1)];
    }
    if at + k > 0 {
      var last := at + k - 1;
      assert log[last].term == source[last].term;
      assert log[..last + 1] == source[..last + 1];
    }
  }

  /** When the follower's log matches the sender's, an accepted append makes the follower's log
      begin with the whole of the sender's; nothing else about the follower's log changes unless
      a conflict was cut away. */
  lemma SplicedAdoptsSource(log: Log, source: Log, at: nat, entries: Log)
    requires at <= |log| && IsTailOf(entries, source, at)
    requires LogsMatch(log, source)
    requires at > 0 ==> log[at - 1].term == source[at - 1].term
    ensures source <= Spliced(log, at, entries)
    ensures Spliced(log, at, entries) == source || Spliced(log, at, entries) == log
  {
    hide LogsMatch;
    var k := Agreeing(log, at, entries);
    AgreedPartIsCommon(log, source, at, entries);
    if k == |entries| {
      assert source[..at + k] == source;
    } else {
      assert entries[k..] == source[at + k..];
      assert source[..at + k] + source[at + k..] == source;
    }
  }

  /** A late append from a shorter version of the follower's own log changes nothing. */
  lemma LateAppendChangesNothing(log: Log, source: Log, at: nat, entries: Log)
    requires source <= log && IsTailOf(entries, source, at)
    ensures Spliced(log, at, entries) == log
  {
  }
}
