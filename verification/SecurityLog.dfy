/**
 The security log store: a ring buffer in memory, mirrored to rotating files,
 queried by page and exported in batches while requests keep appending.
 */
module SecurityLog {
  import opened LogPages
  import opened LogFiles

  const EXPORT_BATCH := 256

  /** Position of the `i`-th retained entry. */
  function Slot(head: nat, i: nat, capacity: nat): nat {
    if head + i < capacity then head + i else head + i - capacity
  }

  lemma {:induction false} SlotIsMod(head: nat, i: nat, capacity: nat)
    requires head < capacity && i <= capacity
    ensures (head + i) % capacity == Slot(head, i, capacity) < capacity
  {
    var x := head + i;
    if x >= capacity {
      assert x == capacity * 1 + (x - capacity);
      assert x / capacity == 1;
    }
  }

  /** Keeping the newest `n` is the same before and after the older ones were dropped. */
  lemma {:induction false} LastNAgain(s: seq<Entry>, e: Entry, n: nat)
    requires n > 0
    ensures LastN(LastN(s, n) + [e], n) == LastN(s + [e], n)
  {
    if |s| > n {
      assert s[|s| - n..][1..] == s[|s| - n + 1..];
    }
  }

  lemma {:induction false} LastNMembers(s: seq<Entry>, e: Entry, n: nat)
    ensures forall x :: x in LastN(s + [e], n) ==> x in s || x == e
  {
  }

  // ----- shifting files -----------------------------------------------------

  function Renamed(files: Files, src: nat, dst: nat): Files {
    if src in files then (files - {dst} - {src})[dst := files[src]] else files
  }

  lemma {:induction false} RenamedContent(files: Files, src: nat, dst: nat, k: nat)
    requires src != dst && Content(files, dst) == []
    ensures Content(Renamed(files, src, dst), k)
            == if k == dst then Content(files, src) else if k == src then [] else Content(files, k)
  {
  }

  /** During a rotation: file `i` is the next to move, `i + 1` is free, everything above has moved. */
  function Midway(before: Files, backups: nat, i: nat, k: nat): seq<Entry> {
    if k <= i || k > backups then Content(before, k) else if k == i + 1 then [] else Content(before, k - 1)
  }

  ghost predicate IsMidway(before: Files, files: Files, backups: nat, i: nat) {
    forall k: nat :: Content(files, k) == Midway(before, backups, i, k)
  }

  lemma {:induction false} MidwayStart(before: Files, backups: nat)
    requires backups > 0
    ensures IsMidway(before, before - {backups}, backups, backups - 1)
  {
    forall k: nat ensures Content(before - {backups}, k) == Midway(before, backups, backups - 1, k) {
    }
  }

  lemma {:induction false} MidwayStep(before: Files, files: Files, backups: nat, i: nat)
    requires 1 <= i < backups && IsMidway(before, files, backups, i)
    ensures IsMidway(before, Renamed(files, i, i + 1), backups, i - 1)
  {
    assert Content(files, i + 1) == Midway(before, backups, i, i + 1) && Content(files, i) == Midway(before, backups, i, i);
    var after, j := Renamed(files, i, i + 1), i - 1;
    forall k: nat ensures Content(after, k) == Midway(before, backups, j, k) {
      RenamedContent(files, i, i + 1, k);
      assert Content(files, k) == Midway(before, backups, i, k);
    }
  }

  lemma {:induction false} MidwayEnd(before: Files, files: Files, backups: nat)
    requires backups > 0 && IsMidway(before, files, backups, 0)
    ensures IsRotated(before, Renamed(files, 0, 1)[0 := []], backups)
  {
    assert Content(files, 1) == Midway(before, backups, 0, 1) && Content(files, 0) == Midway(before, backups, 0, 0);
    var after := Renamed(files, 0, 1);
    forall k: nat ensures Content(after[0 := []], k) == Shifted(before, backups, k) {
      RenamedContent(files, 0, 1, k);
      assert Content(files, k) == Midway(before, backups, 0, k);
    }
  }

  class Store {
    const capacity: nat
    const persistent: bool
    const maxFileBytes: nat
    const maxBackups: nat
    var entries: array<Entry>
    var head: nat
    var count: nat
    var nextSeq: nat
    var dropped: nat
    var files: Files
    var fileBytes: nat
    var fileErrors: nat

    /** The retained entries, oldest first. */
    ghost var log: seq<Entry>

    /** The array holds the retained entries from `head` on, wrapping at its end. */
    ghost predicate RingValid()
      reads this, entries
    {
      && capacity > 0 && entries.Length == capacity && head < capacity && |log| == count <= capacity
      && forall i :: 0 <= i < count ==> entries[Slot(head, i, capacity)] == log[i]
    }

    ghost predicate Valid()
      reads this, entries
    {
      RingValid() && WellFormed(log, nextSeq) && fileBytes == TotalLines(Content(files, 0))
    }

    ghost function View(): State
      reads this
    {
      State(log, nextSeq, files)
    }

    ghost function Bounds(): Limits
      reads this
    {
      Limits(capacity, maxBackups, maxFileBytes)
    }

    // ----- the ring ---------------------------------------------------------

    method Push(e: Entry)
      requires RingValid()
      modifies `head, `count, `dropped, `log, entries
      ensures RingValid() && log == LastN(old(log) + [e], capacity)
      ensures dropped == old(dropped) + (if old(count) == capacity then 1 else 0)
    {
      if count < capacity {
        SlotIsMod(head, count, capacity);
        entries[(head + count) % capacity] := e;
        log, count := log + [e], count + 1;
      } else {
        Overwrite(e);
      }
    }

    /** A full ring gives the oldest entry's place to the newest. */
    method Overwrite(e: Entry)
      requires RingValid() && count == capacity
      modifies `head, `dropped, `log, entries
      ensures RingValid() && log == old(log)[1..] + [e] && dropped == old(dropped) + 1
    {
      SlotIsMod(head, 1, capacity);
      assert forall i :: 0 <= i < capacity - 1 ==> Slot(Slot(head, 1, capacity), i, capacity) == Slot(head, i + 1, capacity);
      entries[head] := e;
      head := (head + 1) % capacity;
      dropped := dropped + 1;
      log := log[1..] + [e];
    }

    // ----- files ------------------------------------------------------------

    method ReplaceRename(src: nat, dst: nat)
      modifies `files
      ensures files == Renamed(old(files), src, dst)
    {
      if src in files {
        var moved := files[src];
        files := files - {dst};
        files := (files - {src})[dst := moved];
      }
    }

    /** Shift the chain by one file, newest last, so that no backup is overwritten before it moved on. */
    method RotateLocked()
      modifies `files, `fileBytes
      ensures IsRotated(old(files), files, maxBackups) && fileBytes == 0 && Content(files, 0) == []
    {
      ghost var before := files;
      if maxBackups > 0 {
        files := files - {maxBackups};
        MidwayStart(before, maxBackups);
        var i := maxBackups - 1;
        while i >= 1
          invariant 0 <= i < maxBackups
          invariant IsMidway(before, files, maxBackups, i)
        {
          MidwayStep(before, files, maxBackups, i);
          ReplaceRename(i, i + 1);
          i := i - 1;
        }
        MidwayEnd(before, files, maxBackups);
        ReplaceRename(0, 1);
      } else {
        files := files - {0};
      }
      files := files[0 := []];
      fileBytes := 0;
      if maxBackups == 0 {
        forall k: nat ensures Content(files, k) == Shifted(before, maxBackups, k) {
        }
      }
    }

    /** Append one line, rotating first when it would exceed the file limit. */
    method WriteFileLocked(e: Entry)
      requires fileBytes == TotalLines(Content(files, 0))
      modifies `files, `fileBytes
      ensures fileBytes == TotalLines(Content(files, 0))
      ensures persistent ==> Written(old(files), files, e, Bounds())
      ensures !persistent ==> files == old(files)
    {
      if !persistent {
        return;
      }
      if fileBytes + e.line > maxFileBytes {
        RotateLocked();
      }
      var active := Content(files, 0);
      files := files[0 := active + [e]];
      fileBytes := fileBytes + e.line;
      assert (active + [e])[..|active|] == active;
    }

    // ----- operations -------------------------------------------------------

    /** A fresh process: the ring is empty and numbering starts at one. */
    constructor (capacity: int, persistent: bool, maxFileBytes: int, maxBackups: nat, files: Files)
      ensures RingValid() && log == [] && nextSeq == 1 && dropped == 0
      ensures this.capacity == (if capacity <= 0 then 1 else capacity) && fresh(entries)
      ensures this.persistent == persistent && this.maxBackups == maxBackups && this.files == files
      ensures fileBytes == TotalLines(Content(files, 0))
    {
      this.capacity := if capacity <= 0 then 1 else capacity;
      this.persistent, this.maxBackups, this.files := persistent, maxBackups, files;
      this.maxFileBytes := if maxFileBytes <= 0 then 20 * 1024 * 1024 else maxFileBytes;
      entries := new Entry[if capacity <= 0 then 1 else capacity];
      head, count, nextSeq, dropped, fileErrors, log := 0, 0, 1, 0, 0, [];
      fileBytes := TotalLines(Content(files, 0));
    }

    method Append(line: nat, text: string) returns (e: Entry)
      requires Valid()
      modifies this, entries
      ensures Valid() && entries == old(entries) && e == Entry(old(nextSeq), line, text)
      ensures log == LastN(old(log) + [e], capacity) && nextSeq == old(nextSeq) + 1
      ensures persistent ==> Step(old(View()), LogFiles.Append(line, text), Bounds(), View())
      ensures !persistent ==> files == old(files)
    {
      e := Entry(nextSeq, line, text);
      nextSeq := nextSeq + 1;
      Push(e);
      AppendKeepsForm(old(log), e, capacity, nextSeq);
      WriteFileLocked(e);
      if persistent {
        AppendIsStep(old(View()), View(), line, text, Bounds());
      }
    }

    method Clear() returns (n: nat)
      requires Valid()
      modifies `head, `count, `log, `files, `fileBytes
      ensures Valid() && entries == old(entries) && n == old(count) && log == []
      ensures nextSeq == old(nextSeq)
      ensures persistent ==> Step(old(View()), LogFiles.Clear, Bounds(), View())
    {
      n := count;
      head, count, log := 0, 0, [];
      if persistent {
        ghost var before := files;
        files := files[0 := []];
        fileBytes := 0;
        for i := 1 to maxBackups + 1
          invariant forall k: nat :: Content(files, k) == ErasedBelow(before, i, k)
          modifies `files
        {
          ghost var was := files;
          files := files - {i as nat};
          forall k: nat ensures Content(files, k) == ErasedBelow(before, i + 1, k) {
            assert Content(was, k) == ErasedBelow(before, i, k);
          }
        }
        forall k: nat ensures Content(files, k) == if k <= maxBackups then [] else Content(before, k) {
          assert Content(files, k) == ErasedBelow(before, maxBackups + 1, k);
        }
        assert Content(files, 0) == [];
      }
    }

    /** Read the files oldest first and refill the ring from them. */
    method RestorePersistentEntries()
      requires RingValid() && log == [] && nextSeq == 1 && fileBytes == TotalLines(Content(files, 0))
      modifies `head, `count, `dropped, `nextSeq, `fileErrors, `log, entries
      ensures Valid()
      ensures Step(State([], 1, files), Restart, Bounds(), View())
    {
      var highest := RestoreChain();
      if highest >= nextSeq {
        nextSeq := highest + 1;
      }
      RestoredForm(Disk(files, maxBackups), capacity);
    }

    /** Read every file, the oldest backup first. */
    method RestoreChain() returns (highest: nat)
      requires RingValid() && log == []
      modifies `head, `count, `dropped, `fileErrors, `log, entries
      ensures RingValid() && highest == RestoreAll(Nothing, Disk(files, maxBackups)).highest
      ensures log == LastN(RestoreAll(Nothing, Disk(files, maxBackups)).entries, capacity)
    {
      ghost var read: seq<Entry> := [];
      highest := 0;
      var k := maxBackups + 1;
      ReadNothing(files, maxBackups);
      while k > 0
        invariant 0 <= k <= maxBackups + 1 && RingValid() && ReadDown(files, maxBackups, k, read)
        invariant highest == RestoreAll(Nothing, read).highest
        invariant log == LastN(RestoreAll(Nothing, read).entries, capacity)
      {
        ReadOneFile(files, maxBackups, k, read);
        k := k - 1;
        highest := RestoreFile(Content(files, k), highest, read);
        read := read + Content(files, k);
      }
    }

    method RestoreFile(lines: seq<Entry>, start: nat, ghost read: seq<Entry>) returns (highest: nat)
      requires RingValid() && start == RestoreAll(Nothing, read).highest
      requires log == LastN(RestoreAll(Nothing, read).entries, capacity)
      modifies `head, `count, `dropped, `fileErrors, `log, entries
      ensures RingValid()
      ensures highest == RestoreAll(Nothing, read + lines).highest
      ensures log == LastN(RestoreAll(Nothing, read + lines).entries, capacity)
    {
      highest := start;
      assert read + lines[..0] == read;
      for i := 0 to |lines|
        invariant RingValid()
        invariant highest == RestoreAll(Nothing, read + lines[..i]).highest
        invariant log == LastN(RestoreAll(Nothing, read + lines[..i]).entries, capacity)
      {
        RestoreNext(read, lines, i);
        highest := RestoreLine(lines[i], highest, RestoreAll(Nothing, read + lines[..i]));
      }
      assert lines[..|lines|] == lines;
    }

    /** One line read back: skipped when oversized, renumbered when out of order. */
    method RestoreLine(line: Entry, start: nat, ghost r: Restored) returns (highest: nat)
      requires RingValid() && start == r.highest && log == LastN(r.entries, capacity)
      modifies `head, `count, `dropped, `fileErrors, `log, entries
      ensures RingValid() && highest == RestoreOne(r, line).highest
      ensures log == LastN(RestoreOne(r, line).entries, capacity)
    {
      highest := start;
      if line.line > LINE_LIMIT {
        fileErrors := fileErrors + 1;
        return;
      }
      var e := line;
      if e.sequence == 0 || e.sequence <= highest {
        e := e.(sequence := highest + 1);
      }
      highest := e.sequence;
      LastNAgain(r.entries, e, capacity);
      Push(e);
    }

    method At(logical: nat) returns (e: Entry)
      requires RingValid() && logical < count
      ensures e == log[logical]
    {
      SlotIsMod(head, logical, capacity);
      e := entries[(head + logical) % capacity];
    }

    /** One page of matching entries, newest first. */
    method Query(matches: Entry -> bool, before: nat, limit: int) returns (page: Page)
      requires Valid()
      ensures page == PageOf(log, matches, before, limit)
    {
      var n := if limit <= 0 then 100 else limit;
      var found: seq<Entry> := [];
      var logical := count;
      ScanStart(log, matches, before);
      while logical > 0
        invariant 0 <= logical <= count && |found| <= n
        invariant Scanned(log, matches, before, logical, found)
      {
        logical := logical - 1;
        var e := At(logical);
        ScanStep(log, matches, before, logical, found);
        if before > 0 && e.sequence >= before {
          continue;
        }
        if !matches(e) {
          continue;
        }
        if |found| < n {
          found := found + [e];
          continue;
        }
        CutPage(log, matches, before, limit, logical, found);
        return Page(found, true, found[|found| - 1].sequence);
      }
      LastPage(log, matches, before, limit, found);
      page := Page(found, false, 0);
    }

    /** A bounded page taken under the lock, cut at the sequence number frozen when the export began. */
    method ExportBatch(matches: Entry -> bool, maxSequence: nat, before: nat, limit: nat) returns (batch: seq<Entry>)
      requires Valid()
      ensures batch == Prefix(Newest(log, Frozen(matches, maxSequence), before), limit)
    {
      if limit == 0 {
        return [];
      }
      ghost var f := Frozen(matches, maxSequence);
      ghost var all := Newest(log, f, before);
      batch := [];
      var logical := count;
      assert log[..logical] == log;
      while logical > 0
        invariant 0 <= logical <= count && |batch| < limit
        invariant batch + Newest(log[..logical], f, before) == all
      {
        logical := logical - 1;
        var e := At(logical);
        ScanDown(log, f, before, logical, batch, all);
        if e.sequence > maxSequence || (before > 0 && e.sequence >= before) {
          continue;
        }
        if !matches(e) {
          continue;
        }
        batch := batch + [e];
        if |batch| == limit {
          break;
        }
      }
    }

    /** The newest sequence number retained, or zero. */
    method NewestSequence() returns (max: nat)
      requires Valid()
      ensures max == if count == 0 then 0 else log[count - 1].sequence
      ensures max < nextSeq && forall i :: 0 <= i < |log| ==> log[i].sequence <= max
    {
      max := 0;
      if count > 0 {
        SlotIsMod(head, count - 1, capacity);
        max := entries[(head + count - 1) % capacity].sequence;
      }
    }

    /**
     Export in batches. The lock is free between batches: `meanwhile[k]` is what
     other requests append before batch `k`, and `logs[k]` the log that batch saw.
     */
    method Export(matches: Entry -> bool, before: nat, limit: int, meanwhile: seq<seq<(nat, string)>>)
      returns (out: seq<Entry>, maxSequence: nat, ghost logs: seq<seq<Entry>>)
      requires Valid()
      modifies this, entries
      ensures Valid()
      ensures maxSequence == if old(count) == 0 then 0 else old(log)[old(count) - 1].sequence
      ensures Witnessed(logs, old(log), log, maxSequence)
      ensures var x := Exported(logs, Frozen(matches, maxSequence), before, ExportLimit(limit, capacity));
              out == x.out && (x.done || x.remaining == 0 || maxSequence == 0)
      ensures Quiet(meanwhile) ==> AllSame(logs, old(log))
      ensures IsExport(out, old(log), log, matches, before, limit)
      ensures Quiet(meanwhile) ==> out == Prefix(Newest(old(log), matches, before), if limit <= 0 then |old(log)| else limit)
    {
      maxSequence := NewestSequence();
      var x := Progressed([], before, ExportLimit(limit, capacity), false);
      var k := 0;
      logs := [log];
      while x.remaining > 0 && maxSequence > 0 && !x.done
        invariant Valid() && entries == old(entries) && nextSeq > maxSequence
        invariant Witnessed(logs, old(log), log, maxSequence)
        invariant x == Exported(logs, Frozen(matches, maxSequence), before, ExportLimit(limit, capacity))
        invariant Quiet(meanwhile) ==> AllSame(logs, old(log))
        decreases x.remaining, !x.done
      {
        var more := if k < |meanwhile| then meanwhile[k] else [];
        k := k + 1;
        ghost var was := log;
        x := ExportRound(matches, maxSequence, more, x);
        WitnessGrows(logs, old(log), was, log, maxSequence);
        logs := logs + [log];
      }
      out := x.out;
      ExportMeans(logs, matches, maxSequence, before, limit, capacity);
      if Quiet(meanwhile) {
        QuietMeans(logs, old(log), matches, maxSequence, before, limit, capacity);
      }
    }

    /** One round: others append while the lock is free, then one batch is taken under it. */
    method ExportRound(matches: Entry -> bool, maxSequence: nat, more: seq<(nat, string)>, x: Progressed)
      returns (y: Progressed)
      requires Valid() && nextSeq > maxSequence && x.remaining > 0 && !x.done
      modifies this, entries
      ensures Valid() && entries == old(entries) && nextSeq > maxSequence
      ensures forall e :: e in log ==> e in old(log) || e.sequence > maxSequence
      ensures more == [] ==> log == old(log)
      ensures y == TakeBatch(x, log, Frozen(matches, maxSequence))
      ensures y.remaining < x.remaining || y.done
    {
      AppendAll(more);
      var batchLimit := BatchLimit(x.remaining);
      var batch := ExportBatch(matches, maxSequence, x.cursor, batchLimit);
      if batch == [] {
        y := x.(done := true);
      } else {
        y := Progressed(x.out + batch, batch[|batch| - 1].sequence, x.remaining - |batch|, |batch| < batchLimit);
      }
    }

    /** Requests that log while the export writer is busy. */
    method AppendAll(lines: seq<(nat, string)>)
      requires Valid()
      modifies this, entries
      ensures Valid() && entries == old(entries) && nextSeq >= old(nextSeq)
      ensures forall e :: e in log ==> e in old(log) || e.sequence >= old(nextSeq)
      ensures lines == [] ==> log == old(log)
    {
      for i := 0 to |lines|
        invariant Valid() && entries == old(entries) && nextSeq >= old(nextSeq)
        invariant forall e :: e in log ==> e in old(log) || e.sequence >= old(nextSeq)
        invariant i == 0 ==> log == old(log)
      {
        ghost var was := log;
        var e := Append(lines[i].0, lines[i].1);
        LastNMembers(was, e, capacity);
      }
    }
  }

  // ----- exporting ----------------------------------------------------------

  /** The filter of an export: nothing newer than the frozen sequence number. */
  function Frozen(matches: Entry -> bool, maxSequence: nat): Entry -> bool {
    (e: Entry) => e.sequence <= maxSequence && matches(e)
  }

  function ExportLimit(limit: int, capacity: nat): nat {
    if limit <= 0 || limit > capacity then capacity else limit
  }

  /**
   What an export is: entries that were in the log at its start, matching and before the
   cursor, newest first and at most as many as asked for. Of those it leaves out only
   what was overwritten meanwhile and, when it holds as many as asked for, older ones.
   */
  ghost predicate IsExport(out: seq<Entry>, first: seq<Entry>, last: seq<Entry>, matches: Entry -> bool, before: nat, limit: int) {
    && Decreasing(out) && (limit > 0 ==> |out| <= limit)
    && (forall e :: e in out ==> e in first && Selected(e, matches, before))
    && forall e :: e in first && e in last && Selected(e, matches, before) && e !in out ==>
         limit > 0 && |out| == limit && forall x :: x in out ==> e.sequence < x.sequence
  }

  /** What an export under way has achieved: it only goes down, and skips nothing that is still retained. */
  ghost predicate Progress(out: seq<Entry>, log: seq<Entry>, f: Entry -> bool, before: nat, cursor: nat) {
    && Decreasing(out)
    && (forall e :: e in out ==> Selected(e, f, before))
    && (if out == [] then cursor == before else cursor == out[|out| - 1].sequence > 0)
    && forall e :: e in log && Selected(e, f, before) ==> e in out || Selected(e, f, cursor)
  }

  /** Nobody appends while the export runs. */
  ghost predicate Quiet(meanwhile: seq<seq<(nat, string)>>) {
    forall k :: 0 <= k < |meanwhile| ==> meanwhile[k] == []
  }

  /** The position of an export between two batches. */
  datatype Progressed = Progressed(out: seq<Entry>, cursor: nat, remaining: nat, done: bool)

  function BatchLimit(remaining: nat): nat {
    if EXPORT_BATCH < remaining then EXPORT_BATCH else remaining
  }

  /** One batch taken from one state of the log. */
  function TakeBatch(x: Progressed, log: seq<Entry>, f: Entry -> bool): Progressed {
    var batch := Prefix(Newest(log, f, x.cursor), BatchLimit(x.remaining));
    if x.done || x.remaining == 0 then x
    else if batch == [] then x.(done := true)
    else Progressed(x.out + batch, batch[|batch| - 1].sequence, x.remaining - |batch|, |batch| < BatchLimit(x.remaining))
  }

  /** The export after one batch from each state of the log but the first. */
  function Exported(logs: seq<seq<Entry>>, f: Entry -> bool, before: nat, limit: nat): Progressed
    requires logs != []
  {
    if |logs| == 1 then Progressed([], before, limit, false)
    else TakeBatch(Exported(logs[..|logs| - 1], f, before, limit), logs[|logs| - 1], f)
  }

  ghost predicate Linked(logs: seq<seq<Entry>>, maxSequence: nat, i: nat)
    requires 0 < i < |logs|
  {
    forall e :: e in logs[i] ==> e in logs[i - 1] || e.sequence > maxSequence
  }

  /** Later states of the log hold earlier entries or entries above the frozen number. */
  ghost predicate Chain(logs: seq<seq<Entry>>, maxSequence: nat) {
    && (forall i :: 0 <= i < |logs| ==> Increasing(logs[i]) && Numbered(logs[i]))
    && forall i :: 0 < i < |logs| ==> Linked(logs, maxSequence, i)
  }

  lemma {:induction false} ChainGrows(logs: seq<seq<Entry>>, log: seq<Entry>, maxSequence: nat)
    requires logs != [] && Chain(logs, maxSequence) && Increasing(log) && Numbered(log)
    requires forall e :: e in log ==> e in logs[|logs| - 1] || e.sequence > maxSequence
    ensures Chain(logs + [log], maxSequence)
  {
    var longer := logs + [log];
    forall i | 0 < i < |longer| ensures Linked(longer, maxSequence, i) {
      assert i < |logs| ==> Linked(logs, maxSequence, i);
    }
  }

  /** The states an export saw, from its start to its end. */
  ghost predicate Witnessed(logs: seq<seq<Entry>>, first: seq<Entry>, last: seq<Entry>, maxSequence: nat) {
    logs != [] && logs[0] == first && logs[|logs| - 1] == last && Chain(logs, maxSequence)
  }

  lemma {:induction false} WitnessGrows(
    logs: seq<seq<Entry>>, first: seq<Entry>, last: seq<Entry>, log: seq<Entry>, maxSequence: nat)
    requires Witnessed(logs, first, last, maxSequence) && Increasing(log) && Numbered(log)
    requires forall e :: e in log ==> e in last || e.sequence > maxSequence
    ensures Witnessed(logs + [log], first, log, maxSequence)
    ensures AllSame(logs, first) && log == last ==> AllSame(logs + [log], first)
    ensures (logs + [log])[..|logs|] == logs
  {
    ChainGrows(logs, log, maxSequence);
  }

  lemma {:induction false} ChainShrinks(logs: seq<seq<Entry>>, maxSequence: nat)
    requires |logs| > 1 && Chain(logs, maxSequence)
    ensures Chain(logs[..|logs| - 1], maxSequence) && Linked(logs, maxSequence, |logs| - 1)
  {
    var shorter := logs[..|logs| - 1];
    forall i | 0 < i < |shorter| ensures Linked(shorter, maxSequence, i) {
      assert Linked(logs, maxSequence, i);
    }
  }

  /** A non-empty batch splits what the cursor selected into itself and what the next cursor selects. */
  lemma {:induction false} BatchSplits(log: seq<Entry>, f: Entry -> bool, cursor: nat, n: nat)
    requires Increasing(log) && Numbered(log) && n > 0 && Newest(log, f, cursor) != []
    ensures var batch := Prefix(Newest(log, f, cursor), n);
            && batch != []
            && batch + Newest(log, f, batch[|batch| - 1].sequence) == Newest(log, f, cursor)
            && batch[|batch| - 1].sequence > 0
            && Decreasing(batch)
            && forall e :: e in batch ==> Selected(e, f, cursor)
  {
    var all := Newest(log, f, cursor);
    var batch := Prefix(all, n);
    CursorCuts(log, f, cursor, |batch| - 1);
    NewestDecreases(log, f, cursor);
    NewestMembers(log, f, cursor);
    assert batch == all[..|batch|] && all == all[..|batch|] + all[|batch|..];
    var at := NewestStandsInLog(log, f, cursor, |batch| - 1);
    assert log[at].sequence > 0;
    forall e | e in batch ensures Selected(e, f, cursor) {
      assert e in all;
    }
  }

  lemma {:induction false} ProgressBatch(
    out: seq<Entry>, log: seq<Entry>, f: Entry -> bool, before: nat, cursor: nat, n: nat)
    requires Increasing(log) && Numbered(log) && n > 0 && Newest(log, f, cursor) != []
    requires Progress(out, log, f, before, cursor)
    ensures var batch := Prefix(Newest(log, f, cursor), n);
            batch != [] && Progress(out + batch, log, f, before, batch[|batch| - 1].sequence)
  {
    BatchSplits(log, f, cursor, n);
    var batch := Prefix(Newest(log, f, cursor), n);
    BatchSkipsNothing(out, batch, log, f, before, cursor);
    BatchGoesDown(out, batch, f, before, cursor);
    assert (out + batch)[|out + batch| - 1] == batch[|batch| - 1];
  }

  lemma {:induction false} BatchSkipsNothing(
    out: seq<Entry>, batch: seq<Entry>, log: seq<Entry>, f: Entry -> bool, before: nat, cursor: nat)
    requires batch != [] && batch + Newest(log, f, batch[|batch| - 1].sequence) == Newest(log, f, cursor)
    requires forall e :: e in log && Selected(e, f, before) ==> e in out || Selected(e, f, cursor)
    ensures forall e :: e in log && Selected(e, f, before) ==> e in out + batch || Selected(e, f, batch[|batch| - 1].sequence)
  {
    var next := batch[|batch| - 1].sequence;
    NewestMembers(log, f, cursor);
    NewestMembers(log, f, next);
    forall e | e in log && Selected(e, f, before) ensures e in out + batch || Selected(e, f, next) {
      if e !in out {
        assert e in Newest(log, f, cursor);
      }
    }
  }

  lemma {:induction false} BatchGoesDown(out: seq<Entry>, batch: seq<Entry>, f: Entry -> bool, before: nat, cursor: nat)
    requires Decreasing(out) && Decreasing(batch)
    requires forall e :: e in out ==> Selected(e, f, before)
    requires forall e :: e in batch ==> Selected(e, f, cursor)
    requires if out == [] then cursor == before else cursor == out[|out| - 1].sequence > 0
    ensures Decreasing(out + batch) && forall e :: e in out + batch ==> Selected(e, f, before)
  {
    if out != [] {
      assert out[|out| - 1] in out && (before == 0 || cursor < before);
    }
    forall e | e in out + batch ensures Selected(e, f, before) {
      if e !in out {
        assert Selected(e, f, cursor);
      }
    }
    forall i, j | 0 <= i < j < |out + batch| ensures (out + batch)[i].sequence > (out + batch)[j].sequence {
      if i < |out| <= j {
        assert batch[j - |out|] in batch;
        assert out[i].sequence >= out[|out| - 1].sequence;
      }
    }
  }

  /** New entries lie above the frozen number, so appending disturbs nothing. */
  lemma {:induction false} ProgressAppend(
    out: seq<Entry>, log: seq<Entry>, later: seq<Entry>, matches: Entry -> bool, maxSequence: nat, before: nat, cursor: nat)
    requires Progress(out, log, Frozen(matches, maxSequence), before, cursor)
    requires forall e :: e in later ==> e in log || e.sequence > maxSequence
    ensures Progress(out, later, Frozen(matches, maxSequence), before, cursor)
  {
  }

  /** When the cursor selects nothing more, every retained entry the export should hold is in it. */
  lemma {:induction false} ProgressComplete(out: seq<Entry>, log: seq<Entry>, f: Entry -> bool, before: nat, cursor: nat)
    requires Progress(out, log, f, before, cursor) && Newest(log, f, cursor) == []
    ensures forall e :: e in log && Selected(e, f, before) ==> e in out
  {
    NewestMembers(log, f, cursor);
  }

  lemma {:induction false} TakeBatchProgresses(x: Progressed, log: seq<Entry>, f: Entry -> bool, before: nat)
    requires Increasing(log) && Numbered(log) && Progress(x.out, log, f, before, x.cursor)
    requires !x.done && x.remaining > 0
    ensures var y := TakeBatch(x, log, f);
            && Progress(y.out, log, f, before, y.cursor)
            && (y.done ==> Newest(log, f, y.cursor) == [])
            && |y.out| + y.remaining == |x.out| + x.remaining
            && y.out + Newest(log, f, y.cursor) == x.out + Newest(log, f, x.cursor)
  {
    var n := BatchLimit(x.remaining);
    if Newest(log, f, x.cursor) != [] {
      var batch := Prefix(Newest(log, f, x.cursor), n);
      BatchSplits(log, f, x.cursor, n);
      ProgressBatch(x.out, log, f, before, x.cursor, n);
      BatchMoves(x.out, batch, Newest(log, f, batch[|batch| - 1].sequence), Newest(log, f, x.cursor), n);
    }
  }

  /** Moving a batch from the rest to the output; a short batch leaves no rest. */
  lemma {:induction false} BatchMoves(out: seq<Entry>, batch: seq<Entry>, rest: seq<Entry>, all: seq<Entry>, n: nat)
    requires batch == Prefix(all, n) && batch + rest == all
    ensures (out + batch) + rest == out + all && (|batch| < n ==> rest == [])
  {
    assert (out + batch) + rest == out + (batch + rest);
  }

  /** However appends interleave: the export goes strictly down, stays below the frozen number and the filter,
      and unless it was cut by its limit it holds every such entry that is still retained at its end. */
  lemma {:induction false} ExportIsSound(
    logs: seq<seq<Entry>>, matches: Entry -> bool, maxSequence: nat, before: nat, limit: nat)
    requires logs != [] && Chain(logs, maxSequence)
    ensures var x := Exported(logs, Frozen(matches, maxSequence), before, limit);
            && |x.out| + x.remaining == limit
            && Progress(x.out, logs[|logs| - 1], Frozen(matches, maxSequence), before, x.cursor)
            && (x.done ==> forall e :: e in logs[|logs| - 1] && Selected(e, Frozen(matches, maxSequence), before) ==> e in x.out)
  {
    var f := Frozen(matches, maxSequence);
    if |logs| > 1 {
      var shorter, log := logs[..|logs| - 1], logs[|logs| - 1];
      ChainShrinks(logs, maxSequence);
      ExportIsSound(shorter, matches, maxSequence, before, limit);
      var x := Exported(shorter, f, before, limit);
      assert forall e :: e in log ==> e in shorter[|shorter| - 1] || e.sequence > maxSequence;
      ProgressAppend(x.out, shorter[|shorter| - 1], log, matches, maxSequence, before, x.cursor);
      if !x.done && x.remaining > 0 {
        TakeBatchProgresses(x, log, f, before);
        var y := TakeBatch(x, log, f);
        if y.done {
          ProgressComplete(y.out, log, f, before, y.cursor);
        }
      }
    }
  }

  ghost predicate AllSame(logs: seq<seq<Entry>>, log: seq<Entry>) {
    forall k :: 0 <= k < |logs| ==> logs[k] == log
  }

  lemma {:induction false} QuietExportConserves(
    logs: seq<seq<Entry>>, log: seq<Entry>, matches: Entry -> bool, maxSequence: nat, before: nat, limit: nat)
    requires logs != [] && Chain(logs, maxSequence) && AllSame(logs, log)
    ensures var f := Frozen(matches, maxSequence);
            var x := Exported(logs, f, before, limit);
            && x.out + Newest(log, f, x.cursor) == Newest(log, f, before)
            && (x.done ==> Newest(log, f, x.cursor) == [])
            && |x.out| + x.remaining == limit
  {
    var f := Frozen(matches, maxSequence);
    if |logs| == 1 {
      assert [] + Newest(log, f, before) == Newest(log, f, before);
    } else {
      var shorter := logs[..|logs| - 1];
      ChainShrinks(logs, maxSequence);
      QuietExportConserves(shorter, log, matches, maxSequence, before, limit);
      ExportIsSound(shorter, matches, maxSequence, before, limit);
      var x := Exported(shorter, f, before, limit);
      assert shorter[|shorter| - 1] == log && logs[|logs| - 1] == log;
      if !x.done && x.remaining > 0 {
        TakeBatchProgresses(x, log, f, before);
      }
    }
  }

  lemma {:induction false} PrefixOfWhole(out: seq<Entry>, rest: seq<Entry>, remaining: nat)
    requires rest == [] || remaining == 0
    ensures out == Prefix(out + rest, |out| + remaining)
  {
    if rest == [] {
      assert out + rest == out;
    }
  }

  /** Without appends the batches together are the filtered log cut to the limit. */
  lemma {:induction false} QuietExportIsOneShot(
    logs: seq<seq<Entry>>, log: seq<Entry>, matches: Entry -> bool, maxSequence: nat, before: nat, limit: nat)
    requires logs != [] && Chain(logs, maxSequence) && AllSame(logs, log)
    requires forall i :: 0 <= i < |log| ==> log[i].sequence <= maxSequence
    requires var x := Exported(logs, Frozen(matches, maxSequence), before, limit); x.done || x.remaining == 0 || log == []
    ensures Exported(logs, Frozen(matches, maxSequence), before, limit).out == Prefix(Newest(log, matches, before), limit)
  {
    var f := Frozen(matches, maxSequence);
    var x := Exported(logs, f, before, limit);
    FrozenIsWhole(log, matches, maxSequence, before);
    QuietExportConserves(logs, log, matches, maxSequence, before, limit);
    PrefixOfWhole(x.out, Newest(log, f, x.cursor), x.remaining);
  }

  lemma {:induction false} FrozenIsWhole(log: seq<Entry>, matches: Entry -> bool, maxSequence: nat, before: nat)
    requires forall i :: 0 <= i < |log| ==> log[i].sequence <= maxSequence
    ensures Newest(log, Frozen(matches, maxSequence), before) == Newest(log, matches, before)
  {
    if log != [] {
      FrozenIsWhole(log[..|log| - 1], matches, maxSequence, before);
    }
  }

  /** What is exported was there at the start. */
  lemma {:induction false} ExportedWasThere(logs: seq<seq<Entry>>, matches: Entry -> bool, maxSequence: nat, before: nat, limit: nat, e: Entry)
    requires logs != [] && Chain(logs, maxSequence)
    requires e in Exported(logs, Frozen(matches, maxSequence), before, limit).out
    ensures e in logs[0]
  {
    var f := Frozen(matches, maxSequence);
    if |logs| > 1 {
      var shorter, last := logs[..|logs| - 1], logs[|logs| - 1];
      ChainShrinks(logs, maxSequence);
      var x := Exported(shorter, f, before, limit);
      if e in x.out {
        ExportedWasThere(shorter, matches, maxSequence, before, limit, e);
      } else {
        NewestMembers(last, f, x.cursor);
        assert e in Newest(last, f, x.cursor);
        StillThere(logs, maxSequence, |logs| - 1, e);
      }
    }
  }

  lemma {:induction false} StillThere(logs: seq<seq<Entry>>, maxSequence: nat, k: nat, e: Entry)
    requires Chain(logs, maxSequence) && k < |logs| && e in logs[k] && e.sequence <= maxSequence
    ensures e in logs[0]
  {
    if k > 0 {
      assert Linked(logs, maxSequence, k);
      StillThere(logs, maxSequence, k - 1, e);
    }
  }

  lemma {:induction false} DistinctEntries(out: seq<Entry>) returns (all: set<Entry>)
    requires Decreasing(out)
    ensures |all| == |out| && forall e :: e in all <==> e in out
  {
    if out == [] {
      all := {};
    } else {
      var front, last := out[..|out| - 1], out[|out| - 1];
      var some := DistinctEntries(front);
      assert last !in front;
      all := some + {last};
      assert out == front + [last];
    }
  }

  lemma {:induction false} SetOfLog(log: seq<Entry>) returns (all: set<Entry>)
    ensures |all| <= |log| && forall e :: e in all <==> e in log
  {
    if log == [] {
      all := {};
    } else {
      var front, last := log[..|log| - 1], log[|log| - 1];
      var some := SetOfLog(front);
      all := some + {last};
      assert log == front + [last];
    }
  }

  /** As many different entries as the log has room for are all of them. */
  lemma {:induction false} AllExported(out: seq<Entry>, first: seq<Entry>, e: Entry)
    requires Decreasing(out) && |first| <= |out| && e in first
    requires forall x :: x in out ==> x in first
    ensures e in out
  {
    var a := DistinctEntries(out);
    var b := SetOfLog(first);
    assert a <= b;
    if e !in a {
      assert a <= b - {e} && |b - {e}| == |b| - 1;
      SmallerSet(a, b - {e});
    }
  }

  lemma {:induction false} SmallerSet(a: set<Entry>, b: set<Entry>)
    requires a <= b
    ensures |a| <= |b|
  {
    assert b == a + (b - a);
  }

  lemma {:induction false} InLogIsNumbered(log: seq<Entry>, e: Entry)
    requires Numbered(log) && e in log
    ensures e.sequence > 0
  {
  }

  /** An entry that an export leaves out although it is still there. */
  lemma {:induction false} LeftOut(
    logs: seq<seq<Entry>>, x: Progressed, f: Entry -> bool, before: nat, limit: int, capacity: nat, e: Entry)
    requires logs != [] && Progress(x.out, logs[|logs| - 1], f, before, x.cursor) && |logs[0]| <= capacity
    requires e in logs[0] && e in logs[|logs| - 1] && Selected(e, f, before) && e !in x.out
    requires |x.out| == ExportLimit(limit, capacity) && forall y :: y in x.out ==> y in logs[0]
    ensures limit > 0 && |x.out| == limit && forall y :: y in x.out ==> e.sequence < y.sequence
  {
    if limit <= 0 || limit > capacity {
      AllExported(x.out, logs[0], e);
    }
    LeftOutIsOlder(x.out, f, x.cursor, e);
  }

  lemma {:induction false} ExportMeans(
    logs: seq<seq<Entry>>, matches: Entry -> bool, maxSequence: nat, before: nat, limit: int, capacity: nat)
    requires logs != [] && Chain(logs, maxSequence) && |logs[0]| <= capacity
    requires forall e :: e in logs[0] ==> e.sequence <= maxSequence
    requires var x := Exported(logs, Frozen(matches, maxSequence), before, ExportLimit(limit, capacity));
             x.done || x.remaining == 0 || maxSequence == 0
    ensures var x := Exported(logs, Frozen(matches, maxSequence), before, ExportLimit(limit, capacity));
            IsExport(x.out, logs[0], logs[|logs| - 1], matches, before, limit)
  {
    var f, n, first, last := Frozen(matches, maxSequence), ExportLimit(limit, capacity), logs[0], logs[|logs| - 1];
    var x := Exported(logs, f, before, n);
    ExportIsSound(logs, matches, maxSequence, before, n);
    forall e | e in x.out ensures e in first && Selected(e, matches, before) {
      ExportedWasThere(logs, matches, maxSequence, before, n, e);
      assert Selected(e, f, before);
    }
    forall e | e in first && e in last && Selected(e, matches, before) && e !in x.out
      ensures limit > 0 && |x.out| == limit && forall y :: y in x.out ==> e.sequence < y.sequence
    {
      InLogIsNumbered(first, e);
      assert Selected(e, f, before);
      LeftOut(logs, x, f, before, limit, capacity, e);
    }
  }

  lemma {:induction false} LeftOutIsOlder(out: seq<Entry>, f: Entry -> bool, cursor: nat, e: Entry)
    requires Decreasing(out) && Selected(e, f, cursor) && (out != [] ==> cursor == out[|out| - 1].sequence > 0)
    ensures forall y :: y in out ==> e.sequence < y.sequence
  {
  }

  lemma {:induction false} QuietMeans(
    logs: seq<seq<Entry>>, log: seq<Entry>, matches: Entry -> bool, maxSequence: nat, before: nat, limit: int, capacity: nat)
    requires logs != [] && Chain(logs, maxSequence) && AllSame(logs, log) && |log| <= capacity
    requires forall i :: 0 <= i < |log| ==> log[i].sequence <= maxSequence
    requires var x := Exported(logs, Frozen(matches, maxSequence), before, ExportLimit(limit, capacity)); x.done || x.remaining == 0 || log == []
    ensures Exported(logs, Frozen(matches, maxSequence), before, ExportLimit(limit, capacity)).out
            == Prefix(Newest(log, matches, before), if limit <= 0 then |log| else limit)
  {
    QuietExportIsOneShot(logs, log, matches, maxSequence, before, ExportLimit(limit, capacity));
    NewestIsNoLonger(log, matches, before);
  }

  lemma {:induction false} NewestIsNoLonger(log: seq<Entry>, matches: Entry -> bool, before: nat)
    ensures |Newest(log, matches, before)| <= |log|
  {
    if log != [] {
      NewestIsNoLonger(log[..|log| - 1], matches, before);
    }
  }

  /** Scanning one entry further down: it is either passed over or the next one found. */
  lemma {:induction false} ScanDown(log: seq<Entry>, matches: Entry -> bool, before: nat, i: nat, found: seq<Entry>, all: seq<Entry>)
    requires i < |log| && found + Newest(log[..i + 1], matches, before) == all
    ensures !Selected(log[i], matches, before) ==> found + Newest(log[..i], matches, before) == all
    ensures Selected(log[i], matches, before) ==>
              (found + [log[i]]) + Newest(log[..i], matches, before) == all && |found| < |all| && all[..|found|] == found
  {
    var rest := Newest(log[..i], matches, before);
    assert log[..i + 1] == log[..i] + [log[i]];
    NewestOfLonger(log[..i], log[i], matches, before);
    if Selected(log[i], matches, before) {
      MoveOne(found, log[i], rest);
    } else {
      assert [] + rest == rest;
    }
  }

  lemma {:induction false} MoveOne(found: seq<Entry>, e: Entry, rest: seq<Entry>)
    ensures var all := found + ([e] + rest);
            (found + [e]) + rest == all && |found| < |all| && all[..|found|] == found
  {
  }

  /** From position `i` on, the matching entries are those found. */
  ghost predicate Scanned(log: seq<Entry>, matches: Entry -> bool, before: nat, i: nat, found: seq<Entry>)
    requires i <= |log|
  {
    found + Newest(log[..i], matches, before) == Newest(log, matches, before)
  }

  lemma {:induction false} ScanStart(log: seq<Entry>, matches: Entry -> bool, before: nat)
    ensures Scanned(log, matches, before, |log|, [])
  {
    assert log[..|log|] == log && [] + Newest(log, matches, before) == Newest(log, matches, before);
  }

  lemma {:induction false} ScanStep(log: seq<Entry>, matches: Entry -> bool, before: nat, i: nat, found: seq<Entry>)
    requires i < |log| && Scanned(log, matches, before, i + 1, found)
    ensures Scanned(log, matches, before, i, if Selected(log[i], matches, before) then found + [log[i]] else found)
  {
    ScanDown(log, matches, before, i, found, Newest(log, matches, before));
  }

  /** One more match than fits. */
  lemma {:induction false} CutPage(log: seq<Entry>, matches: Entry -> bool, before: nat, limit: int, i: nat, found: seq<Entry>)
    requires i < |log| && Scanned(log, matches, before, i + 1, found)
    requires Selected(log[i], matches, before) && |found| == EffectiveLimit(limit)
    ensures found != [] && PageOf(log, matches, before, limit) == Page(found, true, found[|found| - 1].sequence)
  {
    ScanDown(log, matches, before, i, found, Newest(log, matches, before));
  }

  lemma {:induction false} LastPage(log: seq<Entry>, matches: Entry -> bool, before: nat, limit: int, found: seq<Entry>)
    requires Scanned(log, matches, before, 0, found) && |found| <= EffectiveLimit(limit)
    ensures PageOf(log, matches, before, limit) == Page(found, false, 0)
  {
    assert log[..0] == [] && found + [] == found;
  }

  lemma {:induction false} AppendIsStep(before: State, after: State, line: nat, text: string, lim: Limits)
    requires var e := Entry(before.next, line, text);
             && after.ring == LastN(before.ring + [e], lim.capacity) && after.next == before.next + 1
             && Written(before.files, after.files, e, lim)
    ensures Step(before, LogFiles.Append(line, text), lim, after)
  {
  }

  // ----- facts about the operations ------------------------------------------

  function ErasedBelow(before: Files, i: nat, k: nat): seq<Entry> {
    if k < i then [] else Content(before, k)
  }

  lemma {:induction false} AppendKeepsForm(s: seq<Entry>, e: Entry, capacity: nat, next: nat)
    requires capacity > 0 && next > 0 && WellFormed(s, next - 1) && e.sequence == next - 1
    ensures WellFormed(LastN(s + [e], capacity), next)
  {
    assert WellFormed(s + [e], next);
  }

  /** What was read so far, with the files below `k` still to come. */
  ghost predicate ReadDown(files: Files, backups: nat, k: nat, read: seq<Entry>) {
    Disk(files, backups) == if k == 0 then read else read + Disk(files, k - 1)
  }

  lemma {:induction false} ReadNothing(files: Files, backups: nat)
    ensures ReadDown(files, backups, backups + 1, [])
  {
    assert [] + Disk(files, backups) == Disk(files, backups);
  }

  lemma {:induction false} ReadOneFile(files: Files, backups: nat, k: nat, read: seq<Entry>)
    requires k > 0 && ReadDown(files, backups, k, read)
    ensures ReadDown(files, backups, k - 1, read + Content(files, k - 1))
  {
    if k > 1 {
      assert read + (Content(files, k - 1) + Disk(files, k - 2)) == (read + Content(files, k - 1)) + Disk(files, k - 2);
    }
  }

  lemma {:induction false} RestoredForm(lines: seq<Entry>, capacity: nat)
    ensures var r := RestoreAll(Nothing, lines); WellFormed(LastN(r.entries, capacity), r.highest + 1)
  {
    RestoreNumbers(lines);
  }

  lemma {:induction false} RestoreNext(read: seq<Entry>, lines: seq<Entry>, i: nat)
    requires i < |lines|
    ensures RestoreAll(Nothing, read + lines[..i + 1]) == RestoreOne(RestoreAll(Nothing, read + lines[..i]), lines[i])
  {
    var longer := read + lines[..i + 1];
    assert longer[..|longer| - 1] == read + lines[..i] && longer[|longer| - 1] == lines[i];
  }

  ghost predicate WellFormed(s: seq<Entry>, next: nat) {
    && Increasing(s) && Numbered(s) && next > 0
    && forall i :: 0 <= i < |s| ==> s[i].sequence < next
  }
}
