/**
 Reading a log newest first: filtering, paging with a sequence cursor, and the
 proof that following the cursor visits every matching entry exactly once.
 */
module LogPages {

  /** A log line: its sequence number, the length of its encoded form, and its text. */
  datatype Entry = Entry(sequence: nat, line: nat, text: string)

  ghost predicate Increasing(s: seq<Entry>) {
    forall i, j :: 0 <= i < j < |s| ==> s[i].sequence < s[j].sequence
  }

  ghost predicate Numbered(s: seq<Entry>) {
    forall i :: 0 <= i < |s| ==> s[i].sequence > 0
  }

  ghost predicate Decreasing(s: seq<Entry>) {
    forall i, j :: 0 <= i < j < |s| ==> s[i].sequence > s[j].sequence
  }

  predicate Selected(e: Entry, matches: Entry -> bool, before: nat) {
    (before == 0 || e.sequence < before) && matches(e)
  }

  /** Entries that match and lie before the cursor, newest first; a zero cursor means no cursor. */
  function Newest(log: seq<Entry>, matches: Entry -> bool, before: nat): seq<Entry> {
    if log == [] then []
    else
      var last := log[|log| - 1];
      (if Selected(last, matches, before) then [last] else []) + Newest(log[..|log| - 1], matches, before)
  }

  function Prefix(s: seq<Entry>, n: nat): seq<Entry> {
    if |s| <= n then s else s[..n]
  }

  lemma {:induction false} NewestMembers(log: seq<Entry>, matches: Entry -> bool, before: nat)
    ensures forall e :: e in Newest(log, matches, before) <==> e in log && Selected(e, matches, before)
  {
    if log != [] {
      NewestMembers(log[..|log| - 1], matches, before);
      assert log == log[..|log| - 1] + [log[|log| - 1]];
    }
  }

  lemma {:induction false} NewestDecreases(log: seq<Entry>, matches: Entry -> bool, before: nat)
    requires Increasing(log)
    ensures Decreasing(Newest(log, matches, before))
  {
    if log != [] {
      var front, last := log[..|log| - 1], log[|log| - 1];
      NewestDecreases(front, matches, before);
      NewestMembers(front, matches, before);
      var older := Newest(front, matches, before);
      forall i | 0 <= i < |older| ensures older[i].sequence < last.sequence {
        assert older[i] in front;
      }
    }
  }

  /** A returned entry stands somewhere in the log. */
  lemma {:induction false} NewestStandsInLog(log: seq<Entry>, matches: Entry -> bool, before: nat, j: nat) returns (at: nat)
    requires j < |Newest(log, matches, before)|
    ensures at < |log| && log[at] == Newest(log, matches, before)[j]
  {
    var front, last := log[..|log| - 1], log[|log| - 1];
    if Selected(last, matches, before) {
      if j == 0 {
        at := |log| - 1;
      } else {
        at := NewestStandsInLog(front, matches, before, j - 1);
      }
    } else {
      at := NewestStandsInLog(front, matches, before, j);
    }
  }

  /** A cursor above every entry selects nothing away. */
  lemma {:induction false} CursorAbove(log: seq<Entry>, matches: Entry -> bool, before: nat, cursor: nat)
    requires forall i :: 0 <= i < |log| ==> log[i].sequence < cursor
    requires before == 0 || cursor <= before
    ensures Newest(log, matches, cursor) == Newest(log, matches, before)
  {
    if log != [] {
      CursorAbove(log[..|log| - 1], matches, before, cursor);
    }
  }

  /** A cursor at or below the newest entry passes it over. */
  lemma {:induction false} CursorBelow(front: seq<Entry>, last: Entry, matches: Entry -> bool, cursor: nat)
    requires 0 < cursor <= last.sequence
    ensures Newest(front + [last], matches, cursor) == Newest(front, matches, cursor)
  {
    assert (front + [last])[..|front|] == front;
    assert [] + Newest(front, matches, cursor) == Newest(front, matches, cursor);
  }

  lemma {:induction false} NewestOfLonger(front: seq<Entry>, last: Entry, matches: Entry -> bool, before: nat)
    ensures Newest(front + [last], matches, before)
            == (if Selected(last, matches, before) then [last] else []) + Newest(front, matches, before)
  {
    assert (front + [last])[..|front|] == front;
  }

  lemma {:induction false} CutOlder(front: seq<Entry>, last: Entry, matches: Entry -> bool, before: nat, j: nat)
    requires j < |Newest(front, matches, before)|
    requires var cursor := Newest(front, matches, before)[j].sequence;
             0 < cursor < last.sequence && Newest(front, matches, cursor) == Newest(front, matches, before)[j + 1..]
    ensures var all := Newest(front + [last], matches, before);
            var k := if Selected(last, matches, before) then j + 1 else j;
            k < |all| && all[k] == Newest(front, matches, before)[j] && Newest(front + [last], matches, all[k].sequence) == all[k + 1..]
  {
    var older, all := Newest(front, matches, before), Newest(front + [last], matches, before);
    NewestOfLonger(front, last, matches, before);
    CursorBelow(front, last, matches, older[j].sequence);
    if Selected(last, matches, before) {
      assert all == [last] + older && all[j + 1] == older[j] && all[j + 2..] == older[j + 1..];
    } else {
      assert all == older;
    }
  }

  lemma {:induction false} CutFirst(front: seq<Entry>, last: Entry, matches: Entry -> bool, before: nat)
    requires Selected(last, matches, before) && last.sequence > 0
    requires forall i :: 0 <= i < |front| ==> front[i].sequence < last.sequence
    ensures Newest(front + [last], matches, last.sequence) == Newest(front + [last], matches, before)[1..]
  {
    NewestOfLonger(front, last, matches, before);
    CursorBelow(front, last, matches, last.sequence);
    CursorAbove(front, matches, before, last.sequence);
  }

  /** Moving the cursor to an entry that was returned leaves exactly the entries after it. */
  lemma {:induction false} CursorCuts(log: seq<Entry>, matches: Entry -> bool, before: nat, k: nat)
    requires Increasing(log) && Numbered(log) && k < |Newest(log, matches, before)|
    ensures Newest(log, matches, Newest(log, matches, before)[k].sequence) == Newest(log, matches, before)[k + 1..]
  {
    var front, last := log[..|log| - 1], log[|log| - 1];
    assert log == front + [last];
    NewestOfLonger(front, last, matches, before);
    if Selected(last, matches, before) && k == 0 {
      CutFirst(front, last, matches, before);
    } else {
      var j := if Selected(last, matches, before) then k - 1 else k;
      CursorCuts(front, matches, before, j);
      var at := NewestStandsInLog(front, matches, before, j);
      assert front[at] == log[at];
      CutOlder(front, last, matches, before, j);
    }
  }

  // ----- paging -------------------------------------------------------------

  datatype Page = Page(entries: seq<Entry>, hasMore: bool, nextBefore: nat)

  function EffectiveLimit(limit: int): (n: nat)
    ensures n > 0
  {
    if limit <= 0 then 100 else limit
  }

  function PageOf(log: seq<Entry>, matches: Entry -> bool, before: nat, limit: int): Page {
    var all, n := Newest(log, matches, before), EffectiveLimit(limit);
    if |all| <= n then Page(all, false, 0) else Page(all[..n], true, all[n - 1].sequence)
  }

  /** Everything a reader sees who follows `nextBefore` until there is no more. */
  ghost function Followed(log: seq<Entry>, matches: Entry -> bool, before: nat, limit: int): seq<Entry>
    requires Increasing(log) && Numbered(log)
    decreases |Newest(log, matches, before)|
  {
    var page := PageOf(log, matches, before, limit);
    if !page.hasMore then page.entries
    else
      CursorCuts(log, matches, before, EffectiveLimit(limit) - 1);
      page.entries + Followed(log, matches, page.nextBefore, limit)
  }

  /** Paging is complete and free of repetitions: together the pages are the whole filtered log, newest first. */
  lemma {:induction false} PagingIsComplete(log: seq<Entry>, matches: Entry -> bool, before: nat, limit: int)
    requires Increasing(log) && Numbered(log)
    ensures Followed(log, matches, before, limit) == Newest(log, matches, before)
    ensures Decreasing(Followed(log, matches, before, limit))
    decreases |Newest(log, matches, before)|
  {
    NewestDecreases(log, matches, before);
    var all, n := Newest(log, matches, before), EffectiveLimit(limit);
    if |all| > n {
      CursorCuts(log, matches, before, n - 1);
      PagingIsComplete(log, matches, all[n - 1].sequence, limit);
    }
  }

  /** As many entries are returned as places of the log hold a selected one. */
  lemma {:induction false} NewestCounts(log: seq<Entry>, matches: Entry -> bool, before: nat)
    ensures |Newest(log, matches, before)| == |set i | 0 <= i < |log| && Selected(log[i], matches, before)|
  {
    var now := set i | 0 <= i < |log| && Selected(log[i], matches, before);
    if log == [] {
      assert now == {};
    } else {
      var front, last := log[..|log| - 1], |log| - 1;
      NewestCounts(front, matches, before);
      var was := set i | 0 <= i < |front| && Selected(front[i], matches, before);
      if Selected(log[last], matches, before) {
        assert now == was + {last};
      } else {
        assert now == was;
      }
    }
  }

  lemma {:induction false} LeftOutIsLower(all: seq<Entry>, n: nat, e: Entry)
    requires Decreasing(all) && 0 < n <= |all| && e in all && e !in all[..n]
    ensures n < |all| && e.sequence < all[n - 1].sequence
  {
    assert all == all[..n] + all[n..];
    var i :| 0 <= i < |all[n..]| && all[n..][i] == e;
    assert all[n + i] == e;
  }

  /**
   A page holds the newest selected entries, as many as asked for (a hundred unless
   told otherwise), and says there is more exactly when some are left; those lie
   below its cursor.
   */
  lemma {:induction false} PageIs(log: seq<Entry>, matches: Entry -> bool, before: nat, limit: int)
    requires Increasing(log)
    ensures var page := PageOf(log, matches, before, limit);
            var asked := if limit <= 0 then 100 else limit;
            var found := |set i | 0 <= i < |log| && Selected(log[i], matches, before)|;
            && |page.entries| == (if found < asked then found else asked) && (page.hasMore <==> found > asked)
            && Decreasing(page.entries) && (forall e :: e in page.entries ==> e in log && Selected(e, matches, before))
            && (forall e :: e in log && Selected(e, matches, before) && e !in page.entries ==> page.hasMore && e.sequence < page.nextBefore)
            && (page.hasMore ==> page.entries[|page.entries| - 1].sequence == page.nextBefore)
  {
    var all, page := Newest(log, matches, before), PageOf(log, matches, before, limit);
    NewestCounts(log, matches, before);
    NewestMembers(log, matches, before);
    NewestDecreases(log, matches, before);
    forall e | e in log && Selected(e, matches, before) && e !in page.entries
      ensures page.hasMore && e.sequence < page.nextBefore
    {
      assert page.entries == all[..|page.entries|];
      LeftOutIsLower(all, |page.entries|, e);
    }
    forall e | e in page.entries ensures e in log && Selected(e, matches, before) {
      assert e in all;
    }
  }
}
