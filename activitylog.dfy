/** get_activity_logs (db_utils.py): `SELECT * FROM activity_log [WHERE
    username = ?] ORDER BY timestamp DESC LIMIT ?`.  The order among entries
    with equal timestamps is whatever SQLite produces; the model fixes one
    and promises nothing about it. */
module ActivityLog {
  import opened Wrappers
  import opened Schema
  import opened Timestamps
  import Text

  /** Each entry's timestamp is at or after every later entry's. */
  predicate NewestFirst(s: seq<LogEntry>) {
    forall i, j :: 0 <= i < j < |s| ==> LexLe(s[j].timestamp, s[i].timestamp)
  }

  /** The WHERE clause, present only for a truthy username. */
  predicate Selected(e: LogEntry, username: Option<string>) {
    !Text.Truthy(username) || e.username == username
  }

  function Matching(log: seq<LogEntry>, username: Option<string>): (r: seq<LogEntry>)
    ensures forall e :: multiset(r)[e] == if Selected(e, username) then multiset(log)[e] else 0
  {
    if log == [] then []
    else
      assert log == [log[0]] + log[1..];
      (if Selected(log[0], username) then [log[0]] else []) + Matching(log[1..], username)
  }

  /** Inserts `e` into a newest-first sequence before the first entry that
      is not newer than it. */
  function Insert(e: LogEntry, s: seq<LogEntry>): (r: seq<LogEntry>)
    requires NewestFirst(s)
    ensures NewestFirst(r)
    ensures multiset(r) == multiset(s) + multiset{e}
  {
    if s == [] then [e]
    else if LexLe(s[0].timestamp, e.timestamp) then
      HeadNewest(e, s);
      [e] + s
    else
      LexLeTotal(s[0].timestamp, e.timestamp);
      var rest := Insert(e, s[1..]);
      assert s == [s[0]] + s[1..];
      BoundedByHead(e, s, rest);
      ConsNewest(s[0], rest);
      [s[0]] + rest
  }

  /** An entry at least as new as the head of a newest-first sequence can
      go in front of it. */
  lemma HeadNewest(e: LogEntry, s: seq<LogEntry>)
    requires NewestFirst(s) && s != [] && LexLe(s[0].timestamp, e.timestamp)
    ensures NewestFirst([e] + s)
  {
    forall j | 0 <= j < |s| ensures LexLe(s[j].timestamp, e.timestamp) {
      if j > 0 { LexLeTrans(s[j].timestamp, s[0].timestamp, e.timestamp); }
    }
    assert forall j :: 0 < j < |[e] + s| ==> ([e] + s)[j] == s[j - 1];
  }

  /** An entry no older than every entry of a newest-first sequence can go
      in front of it. */
  lemma ConsNewest(x: LogEntry, rest: seq<LogEntry>)
    requires NewestFirst(rest) && forall y :: y in rest ==> LexLe(y.timestamp, x.timestamp)
    ensures NewestFirst([x] + rest)
  {
    assert forall j :: 0 < j < |[x] + rest| ==> ([x] + rest)[j] == rest[j - 1];
  }

  /** What goes behind the head when `e` is older than it: the tail and
      `e`, all no newer than the head. */
  lemma BoundedByHead(e: LogEntry, s: seq<LogEntry>, rest: seq<LogEntry>)
    requires NewestFirst(s) && s != [] && LexLe(e.timestamp, s[0].timestamp)
    requires multiset(rest) == multiset(s[1..]) + multiset{e}
    ensures forall x :: x in rest ==> LexLe(x.timestamp, s[0].timestamp)
  {
    forall x | x in rest ensures LexLe(x.timestamp, s[0].timestamp) {
      assert x in multiset(rest);
      if x != e {
        assert x in multiset(s[1..]);
        var j :| 0 <= j < |s[1..]| && s[1..][j] == x;
        assert s[j + 1] == x;
      }
    }
  }

  /** ORDER BY timestamp DESC. */
  function SortNewestFirst(s: seq<LogEntry>): (r: seq<LogEntry>)
    ensures NewestFirst(r)
    ensures multiset(r) == multiset(s)
  {
    if s == [] then []
    else
      assert s == [s[0]] + s[1..];
      Insert(s[0], SortNewestFirst(s[1..]))
  }

  /** `LIMIT n`; SQLite reads a negative limit as no limit. */
  function Limit(s: seq<LogEntry>, limit: int): (r: seq<LogEntry>)
    ensures limit >= 0 ==> |r| <= limit
    ensures (limit < 0 || limit >= |s|) ==> r == s
    ensures r == s[..|r|]
  {
    if limit < 0 || limit >= |s| then s else s[..limit]
  }

  /** The limit get_activity_logs uses when its caller names none. */
  const DefaultLimit: int := 100

  /** get_activity_logs (`limit` defaults to DefaultLimit): at most `limit`
      entries, all of the given user, newest first, and they are the newest
      ones: any matching entry left out is no newer than every entry
      returned. */
  function GetActivityLogs(log: seq<LogEntry>, username: Option<string>, limit: int): (r: seq<LogEntry>)
    ensures limit >= 0 ==> |r| <= limit
    ensures Text.Truthy(username) ==> forall i :: 0 <= i < |r| ==> r[i].username == username
    ensures NewestFirst(r)
    ensures multiset(r) <= multiset(Matching(log, username))
    ensures (limit < 0 || limit >= |Matching(log, username)|) ==> multiset(r) == multiset(Matching(log, username))
    ensures forall e :: multiset(r)[e] < multiset(Matching(log, username))[e] ==>
              forall i :: 0 <= i < |r| ==> LexLe(e.timestamp, r[i].timestamp)
  {
    var m := Matching(log, username);
    var sorted := SortNewestFirst(m);
    LimitOfSorted(sorted, limit);
    SortedLength(m);
    LimitSelected(sorted, username, limit);
    Limit(sorted, limit)
  }

  /** Sorting keeps the number of entries. */
  lemma SortedLength(m: seq<LogEntry>)
    ensures |SortNewestFirst(m)| == |m|
  {
    assert |multiset(SortNewestFirst(m))| == |multiset(m)|;
  }

  /** Every entry kept from a sequence of selected entries is selected. */
  lemma LimitSelected(sorted: seq<LogEntry>, username: Option<string>, limit: int)
    requires forall e :: e in multiset(sorted) ==> Selected(e, username)
    ensures forall i :: 0 <= i < |Limit(sorted, limit)| ==> Selected(Limit(sorted, limit)[i], username)
  {
    var r := Limit(sorted, limit);
    forall i | 0 <= i < |r| ensures Selected(r[i], username) {
      assert r[i] == sorted[i];
      assert sorted[i] in multiset(sorted);
    }
  }

  /** A prefix of a newest-first sequence holds its newest entries. */
  lemma LimitOfSorted(sorted: seq<LogEntry>, limit: int)
    requires NewestFirst(sorted)
    ensures var r := Limit(sorted, limit);
            && NewestFirst(r)
            && multiset(r) <= multiset(sorted)
            && forall e :: multiset(r)[e] < multiset(sorted)[e] ==>
                 forall i :: 0 <= i < |r| ==> LexLe(e.timestamp, r[i].timestamp)
  {
    var r := Limit(sorted, limit);
    var tail := sorted[|r|..];
    assert sorted == r + tail;
    assert multiset(sorted) == multiset(r) + multiset(tail);
    forall e | multiset(r)[e] < multiset(sorted)[e]
      ensures forall i :: 0 <= i < |r| ==> LexLe(e.timestamp, r[i].timestamp)
    {
      assert e in multiset(tail);
      var j :| 0 <= j < |tail| && tail[j] == e;
      assert sorted[|r| + j] == e;
    }
  }

  /** Entries stamped at instants `a` and `b` come out of the newest-first
      order with `b` ahead of `a` whenever `a` is not after `b`: the text
      the log stores orders the instants chronologically. */
  lemma StampedOrder(a: DateTime, b: DateTime)
    requires ValidDateTime(a) && ValidDateTime(b)
    ensures NotAfter(a, b) <==> LexLe(Format(a), Format(b))
    ensures NotAfter(a, b) && NotAfter(b, a) <==> Format(a) == Format(b)
  {
    FormatOrder(a, b);
    FormatOrder(b, a);
    if Format(a) == Format(b) {
      LexLeRefl(Format(a));
    }
    if LexLe(Format(a), Format(b)) && LexLe(Format(b), Format(a)) {
      LexLeAntisym(Format(a), Format(b));
    }
  }
}
