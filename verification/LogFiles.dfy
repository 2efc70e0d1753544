/**
 The security log on disk: an active file and numbered backups that are shifted
 on rotation, and what a restart rebuilds from them. File operations succeed;
 file `0` is the active one and a missing file reads as empty.
 */
module LogFiles {
  import opened LogPages

  type Files = map<nat, seq<Entry>>

  const LINE_LIMIT := 512 * 1024

  function Content(files: Files, k: nat): seq<Entry> {
    if k in files then files[k] else []
  }

  /** Files `k` down to the active one, oldest entry first. */
  function Disk(files: Files, k: nat): seq<Entry> {
    if k == 0 then Content(files, 0) else Content(files, k) + Disk(files, k - 1)
  }

  function TotalLines(s: seq<Entry>): nat {
    if s == [] then 0 else TotalLines(s[..|s| - 1]) + s[|s| - 1].line
  }

  /** Every file moved up by one, the oldest backup gone and the active file empty. */
  ghost predicate IsRotated(before: Files, after: Files, backups: nat) {
    forall k: nat :: Content(after, k) == Shifted(before, backups, k)
  }

  function Shifted(before: Files, backups: nat, k: nat): seq<Entry> {
    if k == 0 then [] else if k <= backups then Content(before, k - 1) else Content(before, k)
  }

  function LastN(s: seq<Entry>, n: nat): seq<Entry> {
    if |s| <= n then s else s[|s| - n..]
  }

  ghost predicate IsSuffix(a: seq<Entry>, b: seq<Entry>) {
    |a| <= |b| && b[|b| - |a|..] == a
  }

  /** What a restart reads: entries in order with the highest sequence number so far. */
  datatype Restored = Restored(entries: seq<Entry>, highest: nat)

  function RestoreOne(r: Restored, e: Entry): Restored {
    if e.line > LINE_LIMIT then r
    else
      var kept := if e.sequence == 0 || e.sequence <= r.highest then e.(sequence := r.highest + 1) else e;
      Restored(r.entries + [kept], kept.sequence)
  }

  function RestoreAll(r: Restored, lines: seq<Entry>): Restored {
    if lines == [] then r else RestoreOne(RestoreAll(r, lines[..|lines| - 1]), lines[|lines| - 1])
  }

  const Nothing := Restored([], 0)

  // ----- sequences ----------------------------------------------------------

  lemma {:induction false} SuffixTrans(a: seq<Entry>, b: seq<Entry>, c: seq<Entry>)
    requires IsSuffix(a, b) && IsSuffix(b, c)
    ensures IsSuffix(a, c)
  {
    assert c[|c| - |a|..] == c[|c| - |b|..][|b| - |a|..];
  }

  lemma {:induction false} SuffixAppend(a: seq<Entry>, b: seq<Entry>, e: Entry)
    requires IsSuffix(a, b)
    ensures IsSuffix(a + [e], b + [e])
  {
    assert (b + [e])[|b| - |a|..] == b[|b| - |a|..] + [e];
  }

  lemma {:induction false} LastNIsSuffix(s: seq<Entry>, n: nat)
    ensures IsSuffix(LastN(s, n), s) && |LastN(s, n)| == if |s| <= n then |s| else n
  {
  }

  lemma {:induction false} SuffixShape(a: seq<Entry>, b: seq<Entry>)
    requires IsSuffix(a, b) && Increasing(b) && Numbered(b)
    ensures Increasing(a) && Numbered(a)
  {
  }

  // ----- rotation -----------------------------------------------------------

  /** After a rotation the chain holds what it held without its oldest file. */
  lemma {:induction false} RotatedDisk(before: Files, after: Files, backups: nat, k: nat)
    requires IsRotated(before, after, backups) && k <= backups
    ensures Disk(after, k) == if k == 0 then [] else Disk(before, k - 1)
  {
    assert Content(after, 0) == [];
    if k > 0 {
      RotatedDisk(before, after, backups, k - 1);
      assert Content(after, k) == Shifted(before, backups, k);
      if k == 1 {
        assert Content(before, 0) + [] == Content(before, 0);
      }
    }
  }

  lemma {:induction false} DiskSuffix(files: Files, k: nat)
    ensures k > 0 ==> IsSuffix(Disk(files, k - 1), Disk(files, k))
  {
  }

  lemma {:induction false} WrittenDisk(files: Files, e: Entry, k: nat)
    ensures Disk(files[0 := Content(files, 0) + [e]], k) == Disk(files, k) + [e]
  {
    if k > 0 {
      WrittenDisk(files, e, k - 1);
    }
  }

  lemma {:induction false} ErasedDisk(files: Files, k: nat)
    requires forall i: nat :: i <= k ==> Content(files, i) == []
    ensures Disk(files, k) == []
  {
    if k > 0 {
      ErasedDisk(files, k - 1);
    }
  }

  // ----- restoring ----------------------------------------------------------

  ghost predicate WithinLimit(lines: seq<Entry>) {
    forall i :: 0 <= i < |lines| ==> lines[i].line <= LINE_LIMIT
  }

  /** Well-numbered lines within the limit come back unchanged. */
  lemma {:induction false} RestoreIsFaithful(lines: seq<Entry>)
    requires Increasing(lines) && Numbered(lines) && WithinLimit(lines)
    ensures RestoreAll(Nothing, lines).entries == lines
    ensures RestoreAll(Nothing, lines).highest == if lines == [] then 0 else lines[|lines| - 1].sequence
  {
    if lines != [] {
      var front := lines[..|lines| - 1];
      RestoreIsFaithful(front);
      assert lines == front + [lines[|lines| - 1]];
    }
  }

  /** Whatever is on disk, restored entries are strictly numbered and the highest number covers them. */
  lemma {:induction false} RestoreNumbers(lines: seq<Entry>)
    ensures var r := RestoreAll(Nothing, lines);
            && Increasing(r.entries) && Numbered(r.entries)
            && forall i :: 0 <= i < |r.entries| ==> r.entries[i].sequence <= r.highest
  {
    if lines != [] {
      RestoreNumbers(lines[..|lines| - 1]);
    }
  }

  /** The lines short enough to be read. */
  function Readable(lines: seq<Entry>): seq<Entry> {
    if lines == [] then []
    else
      var last := lines[|lines| - 1];
      Readable(lines[..|lines| - 1]) + (if last.line <= LINE_LIMIT then [last] else [])
  }

  /** The number given before place `i`. */
  function Before(entries: seq<Entry>, i: nat): nat
    requires i <= |entries|
  {
    if i == 0 then 0 else entries[i - 1].sequence
  }

  /** Entry `i` keeps its text, and its number whenever that is above the one before it. */
  ghost predicate ReadAs(entries: seq<Entry>, lines: seq<Entry>, i: nat)
    requires i < |entries| == |lines|
  {
    entries[i] == if lines[i].sequence > Before(entries, i) then lines[i] else lines[i].(sequence := Before(entries, i) + 1)
  }

  /** Whatever is on disk, the readable lines come back in their order, renumbered only where the numbers do not rise. */
  lemma {:induction false} RestoreReads(lines: seq<Entry>)
    ensures var r := RestoreAll(Nothing, lines);
            && |r.entries| == |Readable(lines)| && (forall i :: 0 <= i < |r.entries| ==> ReadAs(r.entries, Readable(lines), i))
            && r.highest == Before(r.entries, |r.entries|)
  {
    if lines != [] {
      var front, last := lines[..|lines| - 1], lines[|lines| - 1];
      RestoreReads(front);
      var was, r := RestoreAll(Nothing, front), RestoreAll(Nothing, lines);
      forall i | 0 <= i < |r.entries| ensures ReadAs(r.entries, Readable(lines), i) {
        if i < |was.entries| {
          assert ReadAs(was.entries, Readable(front), i);
        }
      }
    }
  }

  // ----- runs ---------------------------------------------------------------

  /** What one process shows and what is on disk. */
  datatype State = State(ring: seq<Entry>, next: nat, files: Files)

  datatype Op = Append(line: nat, text: string) | Clear | Restart

  datatype Limits = Limits(capacity: nat, backups: nat, fileBytes: nat)

  ghost predicate Written(before: Files, after: Files, e: Entry, lim: Limits) {
    if TotalLines(Content(before, 0)) + e.line > lim.fileBytes
    then exists mid :: IsRotated(before, mid, lim.backups) && after == mid[0 := Content(mid, 0) + [e]]
    else after == before[0 := Content(before, 0) + [e]]
  }

  ghost predicate Erased(before: Files, after: Files, backups: nat) {
    forall k: nat :: Content(after, k) == if k <= backups then [] else Content(before, k)
  }

  ghost predicate Step(s: State, op: Op, lim: Limits, after: State) {
    match op
    case Append(line, text) =>
      var e := Entry(s.next, line, text);
      && after.ring == LastN(s.ring + [e], lim.capacity) && after.next == s.next + 1
      && Written(s.files, after.files, e, lim)
    case Clear => after.ring == [] && after.next == s.next && Erased(s.files, after.files, lim.backups)
    case Restart =>
      var r := RestoreAll(Nothing, Disk(s.files, lim.backups));
      && after.ring == LastN(r.entries, lim.capacity) && after.next == r.highest + 1
      && forall k: nat :: Content(after.files, k) == Content(s.files, k)
  }

  /** The entries appended since the last clear. */
  function History(s: State, op: Op, history: seq<Entry>): seq<Entry> {
    match op
    case Append(line, text) => history + [Entry(s.next, line, text)]
    case Clear => []
    case Restart => history
  }

  /** The entries are numbered upwards, below `next`, and short enough to be read back. */
  ghost predicate WellNumbered(history: seq<Entry>, next: nat) {
    && Increasing(history) && Numbered(history) && WithinLimit(history)
    && next > 0 && (history != [] ==> history[|history| - 1].sequence == next - 1)
  }

  lemma {:induction false} NumberedOn(history: seq<Entry>, next: nat, e: Entry)
    requires WellNumbered(history, next) && e.sequence == next && e.line <= LINE_LIMIT
    ensures WellNumbered(history + [e], next + 1)
  {
  }

  ghost predicate Inv(s: State, history: seq<Entry>, lim: Limits) {
    && WellNumbered(history, s.next)
    && IsSuffix(s.ring, history) && |s.ring| <= lim.capacity
    && IsSuffix(Disk(s.files, lim.backups), history)
    && (|s.ring| == lim.capacity || |Disk(s.files, lim.backups)| <= |s.ring|)
    && (history != [] ==> Disk(s.files, lim.backups) != [])
  }

  lemma {:induction false} WrittenKeepsSuffix(before: Files, after: Files, e: Entry, lim: Limits, history: seq<Entry>)
    requires Written(before, after, e, lim) && IsSuffix(Disk(before, lim.backups), history)
    ensures IsSuffix(Disk(after, lim.backups), history + [e])
    ensures 0 < |Disk(after, lim.backups)| <= |Disk(before, lim.backups)| + 1
  {
    if TotalLines(Content(before, 0)) + e.line > lim.fileBytes {
      var mid :| IsRotated(before, mid, lim.backups) && after == mid[0 := Content(mid, 0) + [e]];
      RotatedDisk(before, mid, lim.backups, lim.backups);
      if lim.backups > 0 {
        DiskSuffix(before, lim.backups);
        SuffixTrans(Disk(mid, lim.backups), Disk(before, lim.backups), history);
      }
      WrittenDisk(mid, e, lim.backups);
      SuffixAppend(Disk(mid, lim.backups), history, e);
    } else {
      WrittenDisk(before, e, lim.backups);
      SuffixAppend(Disk(before, lim.backups), history, e);
    }
  }

  lemma {:induction false} AppendKeepsInv(s: State, op: Op, lim: Limits, after: State, history: seq<Entry>)
    requires op.Append? && op.line <= LINE_LIMIT && Inv(s, history, lim) && Step(s, op, lim, after)
    ensures Inv(after, History(s, op, history), lim)
  {
    var e := Entry(s.next, op.line, op.text);
    NumberedOn(history, s.next, e);
    WrittenKeepsSuffix(s.files, after.files, e, lim, history);
    SuffixAppend(s.ring, history, e);
    LastNIsSuffix(s.ring + [e], lim.capacity);
    SuffixTrans(after.ring, s.ring + [e], history + [e]);
  }

  lemma {:induction false} SameDisk(a: Files, b: Files, k: nat)
    requires forall i: nat :: Content(a, i) == Content(b, i)
    ensures Disk(a, k) == Disk(b, k)
  {
    if k > 0 {
      SameDisk(a, b, k - 1);
    }
  }

  /** What is on disk comes back as it was written. */
  lemma {:induction false} RestoredDisk(disk: seq<Entry>, history: seq<Entry>, next: nat)
    requires IsSuffix(disk, history) && (history != [] ==> disk != []) && WellNumbered(history, next)
    ensures RestoreAll(Nothing, disk) == Restored(disk, if history == [] then 0 else next - 1)
  {
    SuffixShape(disk, history);
    RestoreIsFaithful(disk);
    if history != [] {
      assert disk[|disk| - 1] == history[|history| - 1];
    }
  }

  /** Every number in use is below the next one. */
  lemma {:induction false} NextIsAbove(history: seq<Entry>, next: nat, i: nat)
    requires WellNumbered(history, next) && i < |history|
    ensures history[i].sequence < next
  {
    if i < |history| - 1 {
      assert history[i].sequence < history[|history| - 1].sequence;
    }
  }

  /** A restart rebuilds the ring from exactly what the disk retained and numbers on above it. */
  lemma {:induction false} RestartRebuilds(s: State, lim: Limits, after: State, history: seq<Entry>)
    requires Inv(s, history, lim) && Step(s, Restart, lim, after)
    ensures after.ring == LastN(Disk(s.files, lim.backups), lim.capacity)
    ensures |after.ring| == if |Disk(s.files, lim.backups)| <= lim.capacity then |Disk(s.files, lim.backups)| else lim.capacity
    ensures forall i :: 0 <= i < |history| ==> history[i].sequence < after.next
    ensures after.next == if history == [] then 1 else s.next
    ensures Inv(after, history, lim)
  {
    var disk := Disk(s.files, lim.backups);
    RestoredDisk(disk, history, s.next);
    SameDisk(after.files, s.files, lim.backups);
    LastNIsSuffix(disk, lim.capacity);
    SuffixTrans(after.ring, disk, history);
    forall i | 0 <= i < |history| ensures history[i].sequence < after.next {
      NextIsAbove(history, after.next, i);
    }
  }

  lemma {:induction false} ClearKeepsInv(s: State, lim: Limits, after: State, history: seq<Entry>)
    requires Inv(s, history, lim) && Step(s, Clear, lim, after)
    ensures Inv(after, [], lim)
  {
    forall i: nat | i <= lim.backups ensures Content(after.files, i) == [] {
    }
    ErasedDisk(after.files, lim.backups);
    assert WellNumbered([], after.next) && IsSuffix(after.ring, []) && IsSuffix(Disk(after.files, lim.backups), []);
  }

  ghost predicate Follows(run: seq<State>, ops: seq<Op>, histories: seq<seq<Entry>>, lim: Limits, i: nat)
    requires i < |ops| && |run| == |ops| + 1 == |histories|
  {
    Step(run[i], ops[i], lim, run[i + 1]) && histories[i + 1] == History(run[i], ops[i], histories[i])
  }

  /** A life of the log: appends, clears and restarts in any order, starting with no files. */
  ghost predicate IsRun(run: seq<State>, ops: seq<Op>, histories: seq<seq<Entry>>, lim: Limits) {
    && |run| == |ops| + 1 == |histories|
    && run[0] == State([], 1, map[]) && histories[0] == []
    && (forall i :: 0 <= i < |ops| ==> Follows(run, ops, histories, lim, i))
    && forall i :: 0 <= i < |ops| && ops[i].Append? ==> ops[i].line <= LINE_LIMIT
  }

  /** At every moment ring and rotated files are suffixes of the entries appended since the last clear. */
  lemma {:induction false} LogKeepsSuffix(run: seq<State>, ops: seq<Op>, histories: seq<seq<Entry>>, lim: Limits, i: nat)
    requires IsRun(run, ops, histories, lim) && i < |run|
    ensures Inv(run[i], histories[i], lim)
  {
    if i == 0 {
      ErasedDisk(map[], lim.backups);
    } else {
      LogKeepsSuffix(run, ops, histories, lim, i - 1);
      assert Follows(run, ops, histories, lim, i - 1);
      match ops[i - 1] {
        case Append(_, _) => AppendKeepsInv(run[i - 1], ops[i - 1], lim, run[i], histories[i - 1]);
        case Clear => ClearKeepsInv(run[i - 1], lim, run[i], histories[i - 1]);
        case Restart => RestartRebuilds(run[i - 1], lim, run[i], histories[i - 1]);
      }
    }
  }

  // ----- how much is kept ---------------------------------------------------

  /** No file is over its limit but for a single line, and one was closed only because the next line did not fit. */
  ghost predicate TidyAt(files: Files, lim: Limits, k: nat) {
    && (TotalLines(Content(files, k)) <= lim.fileBytes || |Content(files, k)| == 1)
    && (k > lim.backups ==> Content(files, k) == [])
    && (Content(files, k + 1) != [] ==>
          Content(files, k) != [] && TotalLines(Content(files, k + 1)) + Content(files, k)[0].line > lim.fileBytes)
  }

  ghost predicate Tidy(files: Files, lim: Limits) {
    forall k: nat :: TidyAt(files, lim, k)
  }

  ghost predicate InUse(files: Files, backups: nat) {
    forall k: nat :: k <= backups ==> Content(files, k) != []
  }

  lemma {:induction false} NewerInUse(files: Files, lim: Limits, k: nat)
    requires Tidy(files, lim) && Content(files, k) != []
    ensures InUse(files, k)
  {
    if k > 0 {
      assert TidyAt(files, lim, k - 1);
      NewerInUse(files, lim, k - 1);
    }
  }

  lemma {:induction false} TotalOfOne(e: Entry)
    ensures TotalLines([e]) == e.line
  {
    assert [e][..0] == [];
  }

  lemma {:induction false} TotalOfAppend(s: seq<Entry>, e: Entry)
    ensures TotalLines(s + [e]) == TotalLines(s) + e.line
  {
    assert (s + [e])[..|s|] == s;
  }

  lemma {:induction false} RotatedTidy(before: Files, after: Files, mid: Files, e: Entry, lim: Limits)
    requires Tidy(before, lim) && IsRotated(before, mid, lim.backups) && after == mid[0 := Content(mid, 0) + [e]]
    requires TotalLines(Content(before, 0)) + e.line > lim.fileBytes
    ensures Tidy(after, lim)
  {
    assert Content(mid, 0) == Shifted(before, lim.backups, 0) == [];
    assert Content(after, 0) == [e];
    TotalOfOne(e);
    forall k: nat ensures TidyAt(after, lim, k) {
      assert Content(mid, k) == Shifted(before, lim.backups, k) && Content(mid, k + 1) == Shifted(before, lim.backups, k + 1);
      assert TidyAt(before, lim, k) && TidyAt(before, lim, k + 1) && (k > 0 ==> TidyAt(before, lim, k - 1));
    }
  }

  lemma {:induction false} AppendedTidy(before: Files, e: Entry, lim: Limits)
    requires Tidy(before, lim) && TotalLines(Content(before, 0)) + e.line <= lim.fileBytes
    ensures Tidy(before[0 := Content(before, 0) + [e]], lim)
  {
    var after := before[0 := Content(before, 0) + [e]];
    TotalOfAppend(Content(before, 0), e);
    forall k: nat ensures TidyAt(after, lim, k) {
      assert TidyAt(before, lim, k) && Content(after, k + 1) == Content(before, k + 1);
    }
  }

  /** Nothing was lost, or every file is in use. */
  ghost predicate Retains(files: Files, lim: Limits, history: seq<Entry>) {
    |Disk(files, lim.backups)| < |history| ==> InUse(files, lim.backups)
  }

  lemma {:induction false} RotatedRetains(before: Files, after: Files, mid: Files, e: Entry, lim: Limits, history: seq<Entry>)
    requires Tidy(before, lim) && IsRotated(before, mid, lim.backups) && after == mid[0 := Content(mid, 0) + [e]]
    requires Retains(before, lim, history)
    ensures Retains(after, lim, history + [e])
  {
    var n := lim.backups;
    RotatedDisk(before, mid, n, n);
    WrittenDisk(mid, e, n);
    if Content(before, n) == [] {
      assert !InUse(before, n);
    } else {
      NewerInUse(before, lim, n);
      forall k: nat | k <= n ensures Content(after, k) != [] {
        assert Content(mid, k) == Shifted(before, n, k);
      }
    }
  }

  lemma {:induction false} WriteKeepsTidy(before: Files, after: Files, e: Entry, lim: Limits, history: seq<Entry>)
    requires Written(before, after, e, lim) && Tidy(before, lim) && Retains(before, lim, history)
    ensures Tidy(after, lim) && Retains(after, lim, history + [e])
  {
    if TotalLines(Content(before, 0)) + e.line > lim.fileBytes {
      var mid :| IsRotated(before, mid, lim.backups) && after == mid[0 := Content(mid, 0) + [e]];
      RotatedTidy(before, after, mid, e, lim);
      RotatedRetains(before, after, mid, e, lim, history);
    } else {
      AppendedTidy(before, e, lim);
      WrittenDisk(before, e, lim.backups);
      if InUse(before, lim.backups) {
        assert forall k: nat :: k <= lim.backups ==> (Content(after, k) == Content(before, k) || k == 0);
      }
    }
  }

  lemma {:induction false} StepKeepsTidy(s: State, op: Op, lim: Limits, after: State, history: seq<Entry>)
    requires Step(s, op, lim, after) && Tidy(s.files, lim) && Retains(s.files, lim, history)
    ensures Tidy(after.files, lim) && Retains(after.files, lim, History(s, op, history))
  {
    match op
    case Append(line, text) => WriteKeepsTidy(s.files, after.files, Entry(s.next, line, text), lim, history);
    case Clear =>
      forall k: nat ensures TidyAt(after.files, lim, k) {
        assert TidyAt(s.files, lim, k) && TidyAt(s.files, lim, k + 1);
        assert Content(after.files, k) == [] && Content(after.files, k + 1) == [];
      }
    case Restart =>
      SameDisk(after.files, s.files, lim.backups);
      forall k: nat ensures TidyAt(after.files, lim, k) {
        assert TidyAt(s.files, lim, k);
      }
  }

  /** At every moment the files are tidy, and an entry since the last clear is missing on disk only when all files are in use. */
  lemma {:induction false} FilesStayTidy(run: seq<State>, ops: seq<Op>, histories: seq<seq<Entry>>, lim: Limits, i: nat)
    requires IsRun(run, ops, histories, lim) && i < |run|
    ensures Tidy(run[i].files, lim) && Retains(run[i].files, lim, histories[i])
  {
    if i > 0 {
      FilesStayTidy(run, ops, histories, lim, i - 1);
      assert Follows(run, ops, histories, lim, i - 1);
      StepKeepsTidy(run[i - 1], ops[i - 1], lim, run[i], histories[i - 1]);
    }
  }

  lemma {:induction false} TotalOfBoth(a: seq<Entry>, b: seq<Entry>)
    ensures TotalLines(a + b) == TotalLines(a) + TotalLines(b)
  {
    if b == [] {
      assert a + b == a;
    } else {
      assert (a + b)[..|a + b| - 1] == a + b[..|b| - 1];
      TotalOfBoth(a, b[..|b| - 1]);
    }
  }

  lemma {:induction false} OneMore(k: nat, most: nat)
    ensures (k + 1) * most == k * most + most
  {
  }

  lemma {:induction false} DiskTotal(files: Files, k: nat, most: nat)
    requires forall i: nat :: i <= k ==> TotalLines(Content(files, i)) <= most
    ensures TotalLines(Disk(files, k)) <= (k + 1) * most
  {
    if k > 0 {
      DiskTotal(files, k - 1, most);
      TotalOfBoth(Content(files, k), Disk(files, k - 1));
      assert TotalLines(Content(files, k)) <= most;
      OneMore(k, most);
    }
  }

  lemma {:induction false} DiskHolds(files: Files, k: nat, i: nat, e: Entry)
    requires i <= k && e in Content(files, i)
    ensures e in Disk(files, k)
  {
    if i < k {
      DiskHolds(files, k - 1, i, e);
    }
  }

  /** The files together never outgrow their limit (or that of a single line) times their number. */
  lemma {:induction false} DiskIsBounded(run: seq<State>, ops: seq<Op>, histories: seq<seq<Entry>>, lim: Limits, i: nat)
    requires IsRun(run, ops, histories, lim) && i < |run|
    ensures TotalLines(Disk(run[i].files, lim.backups))
            <= (lim.backups + 1) * (if lim.fileBytes < LINE_LIMIT then LINE_LIMIT else lim.fileBytes)
  {
    var files, most := run[i].files, if lim.fileBytes < LINE_LIMIT then LINE_LIMIT else lim.fileBytes;
    FilesStayTidy(run, ops, histories, lim, i);
    LogKeepsSuffix(run, ops, histories, lim, i);
    forall k: nat | k <= lim.backups ensures TotalLines(Content(files, k)) <= most {
      assert TidyAt(files, lim, k);
      if |Content(files, k)| == 1 {
        var e := Content(files, k)[0];
        TotalOfOne(e);
        assert Content(files, k) == [e];
        DiskHolds(files, lim.backups, k, e);
        SuffixWithin(Disk(files, lim.backups), histories[i], e);
      }
    }
    DiskTotal(files, lim.backups, most);
  }

  lemma {:induction false} SuffixWithin(a: seq<Entry>, b: seq<Entry>, e: Entry)
    requires IsSuffix(a, b) && WithinLimit(b) && e in a
    ensures e.line <= LINE_LIMIT
  {
    var i :| 0 <= i < |a| && a[i] == e;
    assert b[|b| - |a| + i] == e;
  }

  // ----- numbers over a whole life ------------------------------------------

  /** A restart that finds nothing on disk although numbers have been given out. */
  predicate Forgets(run: seq<State>, ops: seq<Op>, histories: seq<seq<Entry>>, k: nat)
    requires k < |ops| && |run| == |ops| + 1 == |histories|
  {
    ops[k].Restart? && histories[k] == [] && run[k].next > 1
  }

  lemma {:induction false} NextStep(run: seq<State>, ops: seq<Op>, histories: seq<seq<Entry>>, lim: Limits, i: nat)
    requires IsRun(run, ops, histories, lim) && i < |ops|
    ensures run[i].next >= 1
    ensures run[i + 1].next == if ops[i].Append? then run[i].next + 1 else if Forgets(run, ops, histories, i) then 1 else run[i].next
    ensures histories[i + 1] == [] || ops[i].Append? || histories[i + 1] == histories[i]
  {
    LogKeepsSuffix(run, ops, histories, lim, i);
    assert Follows(run, ops, histories, lim, i);
    if ops[i].Restart? {
      RestartRebuilds(run[i], lim, run[i + 1], histories[i]);
    }
  }

  /** Unless some restart forgets, numbers only grow. */
  lemma {:induction false} GrowsUnlessForgotten(run: seq<State>, ops: seq<Op>, histories: seq<seq<Entry>>, lim: Limits, i: nat, j: nat)
    requires IsRun(run, ops, histories, lim) && i <= j < |ops|
    requires forall k :: i <= k < j ==> !Forgets(run, ops, histories, k)
    ensures run[i].next <= run[j].next
  {
    if i < j {
      GrowsUnlessForgotten(run, ops, histories, lim, i, j - 1);
      NextStep(run, ops, histories, lim, j - 1);
    }
  }

  lemma {:induction false} SomethingWasAppended(run: seq<State>, ops: seq<Op>, histories: seq<seq<Entry>>, lim: Limits, k: nat)
    returns (i: nat)
    requires IsRun(run, ops, histories, lim) && k < |ops| && run[k].next > 1
    ensures i < k && ops[i].Append? && run[i].next >= 1
  {
    assert k > 0;
    NextStep(run, ops, histories, lim, k - 1);
    if ops[k - 1].Append? {
      i := k - 1;
    } else {
      i := SomethingWasAppended(run, ops, histories, lim, k - 1);
    }
  }

  /** Until the next append, the count stays where the forgetful restart put it. */
  lemma {:induction false} FirstNumberAgain(run: seq<State>, ops: seq<Op>, histories: seq<seq<Entry>>, lim: Limits, k: nat, j: nat)
    returns (first: nat)
    requires IsRun(run, ops, histories, lim) && k < j < |ops| && run[k + 1].next == 1 && ops[j].Append?
    ensures k < first <= j && ops[first].Append? && run[first].next == 1
    decreases j - k
  {
    if ops[k + 1].Append? {
      first := k + 1;
    } else {
      NextStep(run, ops, histories, lim, k + 1);
      first := FirstNumberAgain(run, ops, histories, lim, k + 1, j);
    }
  }

  ghost predicate Reuses(run: seq<State>, ops: seq<Op>)
    requires |run| == |ops| + 1
  {
    exists i, j :: 0 <= i < j < |ops| && ops[i].Append? && ops[j].Append? && run[j].next <= run[i].next
  }

  ghost predicate AppendsAfterForgetting(run: seq<State>, ops: seq<Op>, histories: seq<seq<Entry>>)
    requires |run| == |ops| + 1 == |histories|
  {
    exists k, j :: 0 <= k < j < |ops| && Forgets(run, ops, histories, k) && ops[j].Append?
  }

  /**
   Over a whole life with clears and restarts, a sequence number is given out again,
   or a smaller one, exactly when something is appended after a restart that found the
   log cleared.
   */
  lemma {:induction false} NumbersReusedIff(run: seq<State>, ops: seq<Op>, histories: seq<seq<Entry>>, lim: Limits)
    requires IsRun(run, ops, histories, lim)
    ensures Reuses(run, ops) <==> AppendsAfterForgetting(run, ops, histories)
  {
    if i, j :| 0 <= i < j < |ops| && ops[i].Append? && ops[j].Append? && run[j].next <= run[i].next {
      if forall k :: i + 1 <= k < j ==> !Forgets(run, ops, histories, k) {
        GrowsUnlessForgotten(run, ops, histories, lim, i + 1, j);
        NextStep(run, ops, histories, lim, i);
      }
    }
    if k, j :| 0 <= k < j < |ops| && Forgets(run, ops, histories, k) && ops[j].Append? {
      var i := SomethingWasAppended(run, ops, histories, lim, k);
      NextStep(run, ops, histories, lim, k);
      var first := FirstNumberAgain(run, ops, histories, lim, k, j);
      assert run[first].next <= run[i].next;
    }
  }

  /** Under any limits it happens: append, clear, restart and append give out number one twice. */
  lemma {:induction false} ClearedRestartReuses(lim: Limits) returns (run: seq<State>, histories: seq<seq<Entry>>)
    ensures var ops := [Append(0, ""), Clear, Restart, Append(0, "")];
            IsRun(run, ops, histories, lim) && Reuses(run, ops) && run[0].next == run[3].next == 1
  {
    var ops := [Append(0, ""), Clear, Restart, Append(0, "")];
    var e := Entry(1, 0, "");
    var empty, one := State([], 1, map[]), State(LastN([] + [e], lim.capacity), 2, map[0 := [e]]);
    var cleared := State([], 2, map[]);
    run, histories := [empty, one, cleared, empty, one], [[], [e], [], [], [e]];
    ErasedDisk(map[], lim.backups);
    assert [] + [e] == [e] && Content(map[], 0) == [];
    assert Step(empty, ops[0], lim, one) && Step(one, ops[1], lim, cleared) && Step(cleared, ops[2], lim, empty);
    forall i | 0 <= i < |ops| ensures Follows(run, ops, histories, lim, i) {
    }
    assert ops[0].Append? && ops[3].Append? && run[3].next <= run[0].next;
  }
}
