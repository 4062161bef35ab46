/**
 The recent-activity query (server/controllers/actionController.js): the log
 sorted by timestamp, newest first, cut to the first twenty. It is a pure
 function of the log, so it cannot change it.
 */
module ActionController {
  import opened ActionModel

  /** `.limit(20)` */
  const Limit: nat := 20

  ghost predicate NewestFirst(s: seq<LogEntry>) {
    forall i, j :: 0 <= i < j < |s| ==> s[i].timestamp >= s[j].timestamp
  }

  /** Places `e` into a newest-first sequence, ahead of every entry no newer than it. */
  function Insert(e: LogEntry, s: seq<LogEntry>): (r: seq<LogEntry>)
    requires NewestFirst(s)
    ensures NewestFirst(r)
    ensures multiset(r) == multiset(s) + multiset{e}
    ensures |r| == |s| + 1
    ensures forall i :: 0 <= i < |r| ==> r[i] == e || r[i] in s
  {
    if |s| == 0 then [e]
    else if s[0].timestamp <= e.timestamp then [e] + s
    else
      var rest := Insert(e, s[1..]);
      assert s == [s[0]] + s[1..];
      assert forall i :: 0 <= i < |rest| ==> rest[i].timestamp <= s[0].timestamp by {
        forall i | 0 <= i < |rest|
          ensures rest[i].timestamp <= s[0].timestamp
        {
          if rest[i] != e {
            var m :| 0 <= m < |s[1..]| && s[1..][m] == rest[i];
            assert s[m + 1] == rest[i];
          }
        }
      }
      [s[0]] + rest
  }

  /** `.sort({timestamp: -1})` */
  function SortNewestFirst(s: seq<LogEntry>): (r: seq<LogEntry>)
    ensures NewestFirst(r)
    ensures multiset(r) == multiset(s)
    ensures |r| == |s|
  {
    if |s| == 0 then []
    else
      assert s == [s[0]] + s[1..];
      Insert(s[0], SortNewestFirst(s[1..]))
  }

  /**
   `getActionLogs`: at most twenty entries of the log, newest first, and no
   entry left out is newer than the oldest one returned.
   */
  function GetActionLogs(log: seq<LogEntry>): (r: seq<LogEntry>)
    ensures |r| == if |log| < Limit then |log| else Limit
    ensures NewestFirst(r)
    ensures multiset(r) <= multiset(log)
    ensures forall e :: e in multiset(log) - multiset(r) ==>
      |r| > 0 && e.timestamp <= r[|r| - 1].timestamp
  {
    var sorted := SortNewestFirst(log);
    var n := if |log| < Limit then |log| else Limit;
    TakeNewest(sorted, n);
    assert multiset(sorted) == multiset(log);
    sorted[..n]
  }

  /** The first `n` entries of a newest-first sequence are at least as new as every entry after them. */
  lemma TakeNewest(sorted: seq<LogEntry>, n: nat)
    requires NewestFirst(sorted) && n <= |sorted| && (n == 0 ==> |sorted| == 0)
    ensures NewestFirst(sorted[..n])
    ensures multiset(sorted[..n]) <= multiset(sorted)
    ensures forall e :: e in multiset(sorted) - multiset(sorted[..n]) ==>
      n > 0 && e.timestamp <= sorted[n - 1].timestamp
  {
    var r := sorted[..n];
    assert sorted == r + sorted[n..];
    assert multiset(sorted) - multiset(r) == multiset(sorted[n..]);
    forall e | e in multiset(sorted[n..])
      ensures n > 0 && e.timestamp <= sorted[n - 1].timestamp
    {
      assert e in sorted[n..];
      var m :| 0 <= m < |sorted[n..]| && sorted[n..][m] == e;
      assert sorted[n + m] == e;
    }
  }
}
