/** NdjsonMerger.MergeFilesAsync: the traces of several processes in one file, sorted by timestamp.

    `List.Sort` may reorder equal elements, so everything is proved for any sorted permutation.  A
    process's file as a whole is seldom in timestamp order: its threads read the clock before they
    take the writer's lock, and statistics lines carry timestamp 0.  What the replay needs is the order
    within each thread, and `KeepsSelectedIff` says for any choice of lines exactly when it is kept.
    `MergedReplays` draws the conclusion: the merged file replays to the sum of the single files.  It may
    not when a thread has equal timestamps (`TieLosesCall`). */
module NdjsonMerger {
  import opened Accumulators
  import opened Trace
  import H = Hotspots

  /** A line as the parser sees it: every event names its process, and the text has more to it. */
  datatype Line = Blank | Malformed | Parsed(pid: nat, event: Event, text: string)

  function TsNs(l: Line): int
    requires l.Parsed?
  {
    if l.event.MethodStats? then 0 else l.event.tsNs
  }

  /** The parsed lines of a file, in order. */
  function Readables(lines: seq<Line>): (r: seq<Line>)
    ensures forall i :: 0 <= i < |r| ==> r[i].Parsed?
  {
    if lines == [] then []
    else
      var before, last := Readables(lines[..|lines| - 1]), lines[|lines| - 1];
      if last.Parsed? then before + [last] else before
  }

  function Skipped(lines: seq<Line>): nat {
    if lines == [] then 0
    else Skipped(lines[..|lines| - 1]) + if lines[|lines| - 1].Malformed? then 1 else 0
  }

  function Joined(files: seq<seq<Line>>): seq<Line> {
    if files == [] then [] else Joined(files[..|files| - 1]) + files[|files| - 1]
  }

  /** The reading half of the merge. */
  method ReadAll(inputFiles: seq<seq<Line>>) returns (events: seq<Line>, skippedCount: nat)
    ensures events == Readables(Joined(inputFiles)) && skippedCount == Skipped(Joined(inputFiles))
  {
    events, skippedCount := [], 0;
    ghost var seen: seq<Line> := [];
    for f := 0 to |inputFiles|
      invariant seen == Joined(inputFiles[..f])
      invariant events == Readables(seen) && skippedCount == Skipped(seen)
    {
      var file := inputFiles[f];
      ghost var before := seen;
      for i := 0 to |file|
        invariant seen == before + file[..i]
        invariant events == Readables(seen) && skippedCount == Skipped(seen)
      {
        var line := file[i];
        LineRead(seen, line);
        OneMore(before, file, i);
        if line.Malformed? {
          skippedCount := skippedCount + 1;
        } else if line.Parsed? {
          events := events + [line];
        }
        seen := seen + [line];
      }
      FileRead(inputFiles, f);
    }
    assert inputFiles[..|inputFiles|] == inputFiles;
  }

  lemma OneMore(before: seq<Line>, file: seq<Line>, i: nat)
    requires i < |file|
    ensures before + file[..i] + [file[i]] == before + file[..i + 1]
  {
  }

  lemma FileRead(files: seq<seq<Line>>, f: nat)
    requires f < |files|
    ensures Joined(files[..f + 1]) == Joined(files[..f]) + files[f]
    ensures files[f][..|files[f]|] == files[f]
  {
    assert files[..f + 1][..f] == files[..f];
  }

  lemma LineRead(lines: seq<Line>, l: Line)
    ensures Readables(lines + [l]) == if l.Parsed? then Readables(lines) + [l] else Readables(lines)
    ensures Skipped(lines + [l]) == Skipped(lines) + if l.Malformed? then 1 else 0
  {
    assert (lines + [l])[..|lines|] == lines;
  }

  /** The malformed lines, by position. */
  function MalformedAt(lines: seq<Line>): set<int> {
    set i | 0 <= i < |lines| && lines[i].Malformed?
  }

  /** `read` are the parsed lines, all of them and in order: those at the positions `at`. */
  ghost predicate ReadAt(lines: seq<Line>, read: seq<Line>, at: seq<nat>) {
    && |at| == |read|
    && (forall p, q :: 0 <= p < q < |at| ==> at[p] < at[q])
    && (forall p :: 0 <= p < |at| ==> at[p] < |lines| && lines[at[p]].Parsed? && read[p] == lines[at[p]])
    && (forall i :: 0 <= i < |lines| && lines[i].Parsed? ==> i in at)
  }

  lemma ReadAtSnoc(lines: seq<Line>, read: seq<Line>, at: seq<nat>, l: Line)
    requires ReadAt(lines, read, at)
    ensures if l.Parsed? then ReadAt(lines + [l], read + [l], at + [|lines|]) else ReadAt(lines + [l], read, at)
  {
    var all, more := lines + [l], at + [|lines|];
    forall i | 0 <= i < |all| && all[i].Parsed? ensures if l.Parsed? then i in more else i in at {
      if i < |lines| {
        assert lines[i] == all[i] && i in at;
      } else {
        assert more[|at|] == i;
      }
    }
  }

  lemma MalformedSnoc(lines: seq<Line>, l: Line)
    ensures |MalformedAt(lines + [l])| == |MalformedAt(lines)| + if l.Malformed? then 1 else 0
  {
    var all := lines + [l];
    assert all[|lines|] == l && forall i :: 0 <= i < |lines| ==> all[i] == lines[i];
    assert MalformedAt(all) == MalformedAt(lines) + if l.Malformed? then {|lines|} else {};
  }

  /** Every parsed line is read, once and in order, and every malformed one is counted. */
  lemma {:induction false} ReadsEach(lines: seq<Line>) returns (at: seq<nat>)
    ensures ReadAt(lines, Readables(lines), at)
    ensures Skipped(lines) == |MalformedAt(lines)|
  {
    if lines == [] {
      at := [];
    } else {
      var front, last := lines[..|lines| - 1], lines[|lines| - 1];
      at := ReadsEach(front);
      ReadAtSnoc(front, Readables(front), at, last);
      MalformedSnoc(front, last);
      assert lines == front + [last];
      if last.Parsed? {
        at := at + [|front|];
      }
    }
  }

  // ---- Sorting ----

  predicate Events(ls: seq<Line>) {
    forall i :: 0 <= i < |ls| ==> ls[i].Parsed?
  }

  predicate Ascending(ls: seq<Line>)
    requires Events(ls)
  {
    forall i, j :: 0 <= i < j < |ls| ==> TsNs(ls[i]) <= TsNs(ls[j])
  }

  /** Ascending, and lines with equal timestamps are equal lines. */
  predicate Rigid(ls: seq<Line>)
    requires Events(ls)
  {
    forall i, j :: 0 <= i < j < |ls| ==>
      TsNs(ls[i]) <= TsNs(ls[j]) && (TsNs(ls[i]) == TsNs(ls[j]) ==> ls[i] == ls[j])
  }

  /** What sorting by timestamp may give. */
  ghost predicate SortOf(events: seq<Line>, sorted: seq<Line>) {
    Events(sorted) && multiset(sorted) == multiset(events) && Ascending(sorted)
  }

  /** Sorted is by time: of two events the earlier line is not later, and lines without a time of their own,
      the statistics, stand before every event with a positive one. */
  lemma SortedByTime(events: seq<Line>, sorted: seq<Line>, i: nat, j: nat)
    requires SortOf(events, sorted) && i < j < |sorted|
    ensures !sorted[i].event.MethodStats? && !sorted[j].event.MethodStats? ==>
              sorted[i].event.tsNs <= sorted[j].event.tsNs
    ensures sorted[j].event.MethodStats? && !sorted[i].event.MethodStats? ==> sorted[i].event.tsNs <= 0
    ensures sorted[i].event.MethodStats? && !sorted[j].event.MethodStats? ==> 0 <= sorted[j].event.tsNs
  {
  }

  function Selected(ls: seq<Line>, sel: Line -> bool): (r: seq<Line>)
    ensures forall i :: 0 <= i < |r| ==> r[i] in ls && sel(r[i])
  {
    if ls == [] then []
    else
      var before, last := Selected(ls[..|ls| - 1], sel), ls[|ls| - 1];
      if sel(last) then before + [last] else before
  }

  lemma SelectedSnoc(ls: seq<Line>, l: Line, sel: Line -> bool)
    ensures Selected(ls + [l], sel) == if sel(l) then Selected(ls, sel) + [l] else Selected(ls, sel)
  {
    assert (ls + [l])[..|ls|] == ls;
  }

  lemma {:induction false} SelectedAppend(a: seq<Line>, b: seq<Line>, sel: Line -> bool)
    ensures Selected(a + b, sel) == Selected(a, sel) + Selected(b, sel)
  {
    if b == [] {
      assert a + b == a;
    } else {
      var front, last := b[..|b| - 1], b[|b| - 1];
      assert a + b == (a + front) + [last] && b == front + [last];
      SelectedAppend(a, front, sel);
      SelectedSnoc(a + front, last, sel);
      SelectedSnoc(front, last, sel);
    }
  }

  /** A selected line is found again after the lines selected before it. */
  lemma SelectedAt(ls: seq<Line>, p: nat, sel: Line -> bool)
    requires p < |ls| && sel(ls[p])
    ensures var k := |Selected(ls[..p], sel)|; k < |Selected(ls, sel)| && Selected(ls, sel)[k] == ls[p]
  {
    assert ls == ls[..p + 1] + ls[p + 1..] && ls[..p + 1] == ls[..p] + [ls[p]];
    SelectedSnoc(ls[..p], ls[p], sel);
    SelectedAppend(ls[..p + 1], ls[p + 1..], sel);
  }

  lemma {:induction false} SelectedCounts(ls: seq<Line>, sel: Line -> bool)
    ensures forall l :: multiset(Selected(ls, sel))[l] == if sel(l) then multiset(ls)[l] else 0
  {
    if ls != [] {
      var front, last := ls[..|ls| - 1], ls[|ls| - 1];
      assert ls == front + [last];
      SelectedCounts(front, sel);
    }
  }

  lemma SelectedSame(a: seq<Line>, b: seq<Line>, sel: Line -> bool)
    requires multiset(a) == multiset(b)
    ensures multiset(Selected(a, sel)) == multiset(Selected(b, sel))
  {
    SelectedCounts(a, sel);
    SelectedCounts(b, sel);
  }

  lemma {:induction false} SelectedAscending(ls: seq<Line>, sel: Line -> bool)
    requires Events(ls) && Ascending(ls)
    ensures Events(Selected(ls, sel)) && Ascending(Selected(ls, sel))
  {
    if ls != [] {
      SelectedAscending(ls[..|ls| - 1], sel);
    }
  }

  /** A rigid sequence is the only ascending arrangement of its elements. */
  lemma {:induction false} OneArrangement(a: seq<Line>, b: seq<Line>)
    requires Events(a) && Events(b) && multiset(a) == multiset(b) && Rigid(a) && Ascending(b)
    ensures a == b
  {
    assert |a| == |multiset(a)| == |multiset(b)| == |b|;
    if a != [] {
      SameLast(a, b);
      FrontInOrder(a);
      FrontInOrder(b);
      WithoutLast(a);
      WithoutLast(b);
      OneArrangement(a[..|a| - 1], b[..|b| - 1]);
    }
  }

  lemma WithoutLast(ls: seq<Line>)
    requires ls != []
    ensures ls == ls[..|ls| - 1] + [ls[|ls| - 1]]
    ensures multiset(ls[..|ls| - 1]) == multiset(ls) - multiset{ls[|ls| - 1]}
  {
    var front, last := ls[..|ls| - 1], ls[|ls| - 1];
    assert ls == front + [last];
  }

  lemma FrontInOrder(ls: seq<Line>)
    requires Events(ls) && ls != []
    ensures Events(ls[..|ls| - 1])
    ensures Ascending(ls) ==> Ascending(ls[..|ls| - 1])
    ensures Rigid(ls) ==> Rigid(ls[..|ls| - 1])
  {
    var front := ls[..|ls| - 1];
    assert forall i :: 0 <= i < |front| ==> front[i] == ls[i];
  }

  lemma SameLast(a: seq<Line>, b: seq<Line>)
    requires Events(a) && Events(b) && multiset(a) == multiset(b) && Rigid(a) && Ascending(b)
    requires a != [] && |a| == |b|
    ensures a[|a| - 1] == b[|b| - 1]
  {
    var x, y := a[|a| - 1], b[|b| - 1];
    assert x in multiset(b) && y in multiset(a);
    var i :| 0 <= i < |b| && b[i] == x;
    var j :| 0 <= j < |a| && a[j] == y;
  }

  // ---- Exactly when an order is kept ----

  /** Some sort there is: each line goes behind those that are not later. */
  lemma {:induction false} SomeSort(events: seq<Line>) returns (sorted: seq<Line>)
    requires Events(events)
    ensures SortOf(events, sorted)
  {
    if events == [] {
      sorted := [];
    } else {
      var front, last := events[..|events| - 1], events[|events| - 1];
      var before := SomeSort(front);
      var k := Place(before, last);
      sorted := before[..k] + [last] + before[k..];
      Inserted(before, k, last);
      assert events == front + [last];
    }
  }

  lemma Inserted(ls: seq<Line>, k: nat, l: Line)
    requires Events(ls) && Ascending(ls) && l.Parsed? && k <= |ls|
    requires forall i :: 0 <= i < k ==> TsNs(ls[i]) <= TsNs(l)
    requires forall i :: k <= i < |ls| ==> TsNs(l) <= TsNs(ls[i])
    ensures var after := ls[..k] + [l] + ls[k..];
            multiset(after) == multiset(ls) + multiset{l} && Events(after) && Ascending(after)
  {
    var after := ls[..k] + [l] + ls[k..];
    InsertedOrder(ls, k, l, after);
    TakenOut(after, k);
    assert after[..k] + after[k + 1..] == ls;
  }

  lemma InsertedOrder(ls: seq<Line>, k: nat, l: Line, after: seq<Line>)
    requires Events(ls) && Ascending(ls) && l.Parsed? && k <= |ls|
    requires forall i :: 0 <= i < k ==> TsNs(ls[i]) <= TsNs(l)
    requires forall i :: k <= i < |ls| ==> TsNs(l) <= TsNs(ls[i])
    requires after == ls[..k] + [l] + ls[k..]
    ensures Events(after) && Ascending(after)
  {
    forall i | 0 <= i < |after|
      ensures after[i] == if i < k then ls[i] else if i == k then l else ls[i - 1]
    {
    }
  }

  lemma TakenOut(ls: seq<Line>, j: nat)
    requires j < |ls|
    ensures multiset(ls[..j] + ls[j + 1..]) == multiset(ls) - multiset{ls[j]}
    ensures multiset(ls) == multiset(ls[..j] + ls[j + 1..]) + multiset{ls[j]}
  {
    assert ls == ls[..j] + [ls[j]] + ls[j + 1..];
  }

  lemma {:induction false} Place(ls: seq<Line>, l: Line) returns (k: nat)
    requires Events(ls) && Ascending(ls) && l.Parsed?
    ensures k <= |ls|
    ensures forall i :: 0 <= i < k ==> TsNs(ls[i]) <= TsNs(l)
    ensures forall i :: k <= i < |ls| ==> TsNs(l) <= TsNs(ls[i])
  {
    if ls == [] || TsNs(ls[|ls| - 1]) <= TsNs(l) {
      k := |ls|;
    } else {
      k := Place(ls[..|ls| - 1], l);
      assert forall i :: 0 <= i < |ls| - 1 ==> ls[..|ls| - 1][i] == ls[i];
    }
  }

  /** Two lines of equal timestamp trade places: still a sort, and the selection tells them apart. */
  lemma Swapped(events: seq<Line>, sorted: seq<Line>, p: nat, q: nat, sel: Line -> bool)
    requires SortOf(events, sorted) && p < q < |sorted| && TsNs(sorted[p]) == TsNs(sorted[q])
    requires sel(sorted[p]) && sel(sorted[q]) && sorted[p] != sorted[q]
    ensures var swapped := sorted[p := sorted[q]][q := sorted[p]];
            SortOf(events, swapped) && Selected(swapped, sel) != Selected(sorted, sel)
  {
    var swapped := sorted[p := sorted[q]][q := sorted[p]];
    SwappedSort(sorted, p, q);
    assert swapped[..p] == sorted[..p];
    SelectedAt(sorted, p, sel);
    SelectedAt(swapped, p, sel);
  }

  lemma SwappedSort(sorted: seq<Line>, p: nat, q: nat)
    requires Events(sorted) && Ascending(sorted) && p < q < |sorted| && TsNs(sorted[p]) == TsNs(sorted[q])
    ensures SortOf(sorted, sorted[p := sorted[q]][q := sorted[p]])
  {
    var swapped := sorted[p := sorted[q]][q := sorted[p]];
    assert forall i :: 0 <= i < |sorted| ==> swapped[i].Parsed? && TsNs(swapped[i]) == TsNs(sorted[i]);
  }

  lemma KeepsSelected(events: seq<Line>, sorted: seq<Line>, sel: Line -> bool)
    requires Events(events) && SortOf(events, sorted)
    requires Events(Selected(events, sel)) && Rigid(Selected(events, sel))
    ensures Selected(sorted, sel) == Selected(events, sel)
  {
    SelectedSame(events, sorted, sel);
    SelectedAscending(sorted, sel);
    OneArrangement(Selected(events, sel), Selected(sorted, sel));
  }

  /** Two selected lines that tie and differ trade places. */
  lemma TieLoses(events: seq<Line>, sorted: seq<Line>, x: Line, y: Line, sel: Line -> bool)
    returns (swapped: seq<Line>)
    requires SortOf(events, sorted) && x in sorted && y in sorted && sel(x) && sel(y)
    requires x != y && TsNs(x) == TsNs(y)
    ensures SortOf(events, swapped) && Selected(swapped, sel) != Selected(sorted, sel)
  {
    var p :| 0 <= p < |sorted| && sorted[p] == x;
    var q :| 0 <= q < |sorted| && sorted[q] == y;
    var first, second := if p < q then p else q, if p < q then q else p;
    Swapped(events, sorted, first, second, sel);
    swapped := sorted[first := sorted[second]][second := sorted[first]];
  }

  lemma AscendingNotRigid(ls: seq<Line>) returns (i: nat, j: nat)
    requires Events(ls) && Ascending(ls) && !Rigid(ls)
    ensures i < j < |ls| && TsNs(ls[i]) == TsNs(ls[j]) && ls[i] != ls[j]
  {
    i, j :| 0 <= i < j < |ls| && !(TsNs(ls[i]) <= TsNs(ls[j]) && (TsNs(ls[i]) == TsNs(ls[j]) ==> ls[i] == ls[j]));
  }

  /** A selection that is not rigid is lost in some sort. */
  lemma SomeSortLoses(events: seq<Line>, sel: Line -> bool) returns (sorted: seq<Line>)
    requires Events(events) && Events(Selected(events, sel)) && !Rigid(Selected(events, sel))
    ensures SortOf(events, sorted) && Selected(sorted, sel) != Selected(events, sel)
  {
    sorted := SomeSort(events);
    var chosen := Selected(sorted, sel);
    if chosen == Selected(events, sel) {
      SelectedAscending(sorted, sel);
      var i, j := AscendingNotRigid(chosen);
      sorted := TieLoses(events, sorted, chosen[i], chosen[j], sel);
    }
  }

  /** Whatever lines are picked: every sort keeps their order if and only if they are in timestamp order
      and those with equal timestamps are equal. */
  lemma KeepsSelectedIff(events: seq<Line>, sel: Line -> bool)
    requires Events(events)
    ensures Events(Selected(events, sel))
    ensures Rigid(Selected(events, sel))
       <==> (forall sorted :: SortOf(events, sorted) ==> Selected(sorted, sel) == Selected(events, sel))
  {
    if Rigid(Selected(events, sel)) {
      forall sorted | SortOf(events, sorted) ensures Selected(sorted, sel) == Selected(events, sel) {
        KeepsSelected(events, sorted, sel);
      }
    } else {
      var sorted := SomeSortLoses(events, sel);
    }
  }

  /** Two lines the writer accepted in the order `first`, `second` come out the other way round if the
      clock was read in the other order, and may if it was read at the same instant. */
  lemma MayCross(first: Line, second: Line, sel: Line -> bool)
    requires first.Parsed? && second.Parsed? && first != second && TsNs(second) <= TsNs(first)
    requires sel(first) && sel(second)
    ensures SortOf([first, second], [second, first])
    ensures Selected([second, first], sel) != Selected([first, second], sel)
  {
    assert [first, second] == [first] + [second] && [second, first] == [second] + [first];
    SelectedAt([first, second], 0, sel);
    SelectedAt([second, first], 0, sel);
    assert [first, second][..0] == [second, first][..0] == [];
  }

  // ---- Processes and threads ----

  function OfThread(pid: nat, tid: ThreadId): Line -> bool {
    (l: Line) => l.Parsed? && l.pid == pid && OnThread(l.event, tid)
  }

  /** File `k` holds the events of process `pid`, and no other file does. */
  predicate OwnFile(files: seq<seq<Line>>, k: nat, pid: nat) {
    forall f, i :: 0 <= f < |files| && 0 <= i < |files[f]| && files[f][i].Parsed? ==>
      (files[f][i].pid == pid <==> f == k)
  }

  lemma {:induction false} ReadablesAppend(a: seq<Line>, b: seq<Line>)
    ensures Readables(a + b) == Readables(a) + Readables(b)
  {
    if b == [] {
      assert a + b == a;
    } else {
      var front, last := b[..|b| - 1], b[|b| - 1];
      assert a + b == (a + front) + [last] && b == front + [last];
      ReadablesAppend(a, front);
      LineRead(a + front, last);
      LineRead(front, last);
    }
  }

  lemma {:induction false} NoneSelected(lines: seq<Line>, sel: Line -> bool)
    requires forall i :: 0 <= i < |lines| && lines[i].Parsed? ==> !sel(lines[i])
    ensures Selected(Readables(lines), sel) == []
  {
    if lines != [] {
      var front, last := lines[..|lines| - 1], lines[|lines| - 1];
      assert lines == front + [last];
      NoneSelected(front, sel);
      LineRead(front, last);
      SelectedSnoc(Readables(front), last, sel);
    }
  }

  lemma JoinedSnoc(files: seq<seq<Line>>, last: seq<Line>)
    ensures Readables(Joined(files + [last])) == Readables(Joined(files)) + Readables(last)
  {
    assert (files + [last])[..|files|] == files;
    ReadablesAppend(Joined(files), last);
  }

  lemma JoinedSelected(files: seq<seq<Line>>, last: seq<Line>, sel: Line -> bool)
    ensures Selected(Readables(Joined(files + [last])), sel)
         == Selected(Readables(Joined(files)), sel) + Selected(Readables(last), sel)
  {
    JoinedSnoc(files, last);
    SelectedAppend(Readables(Joined(files)), Readables(last), sel);
  }

  /** Lines that only one file can hold are read from that file. */
  lemma {:induction false} ReadOwnFile(files: seq<seq<Line>>, k: nat, pid: nat, sel: Line -> bool)
    requires OwnFile(files, k, pid) && forall l :: sel(l) ==> l.Parsed? && l.pid == pid
    ensures Selected(Readables(Joined(files)), sel) == if k < |files| then Selected(Readables(files[k]), sel) else []
  {
    if files != [] {
      var front, last := files[..|files| - 1], files[|files| - 1];
      assert files == front + [last];
      ReadOwnFile(front, k, pid, sel);
      JoinedSelected(front, last, sel);
      if k != |front| {
        NoneSelected(last, sel);
      }
    }
  }

  /** Merging the files of several processes and picking lines of one of them gives what picking from its
      file gives, in every sort, if and only if the file has them in a rigid order. */
  lemma MergedAndPickedIff(files: seq<seq<Line>>, k: nat, pid: nat, sel: Line -> bool)
    requires k < |files| && OwnFile(files, k, pid) && forall l :: sel(l) ==> l.Parsed? && l.pid == pid
    ensures Events(Selected(Readables(files[k]), sel))
    ensures Rigid(Selected(Readables(files[k]), sel))
       <==> (forall sorted :: SortOf(Readables(Joined(files)), sorted) ==>
               Selected(sorted, sel) == Selected(Readables(files[k]), sel))
  {
    ReadOwnFile(files, k, pid, sel);
    KeepsSelectedIff(Readables(Joined(files)), sel);
  }

  /** In particular each thread of each process. */
  lemma KeepsThreadIff(files: seq<seq<Line>>, k: nat, pid: nat, tid: ThreadId)
    requires k < |files| && OwnFile(files, k, pid)
    ensures Events(Selected(Readables(files[k]), OfThread(pid, tid)))
    ensures Rigid(Selected(Readables(files[k]), OfThread(pid, tid)))
       <==> (forall sorted :: SortOf(Readables(Joined(files)), sorted) ==>
               Selected(sorted, OfThread(pid, tid)) == Selected(Readables(files[k]), OfThread(pid, tid)))
  {
    MergedAndPickedIff(files, k, pid, OfThread(pid, tid));
  }

  // ---- The merged file replayed ----

  function EventsOf(ls: seq<Line>): seq<Event>
    requires Events(ls)
  {
    seq(|ls|, i requires 0 <= i < |ls| => ls[i].event)
  }

  /** The enters and leaves of a thread; the analysers tell threads apart by their id alone. */
  function OfTid(tid: ThreadId): Line -> bool {
    (l: Line) => l.Parsed? && CallEvent(l.event) && l.event.tid == tid
  }

  predicate Alike(a: seq<Event>, b: seq<Event>, key: string) {
    H.Stack([], a) == H.Stack([], b) && H.Tally([], a, key) == H.Tally([], b, key)
  }

  lemma AlikeWith(a: seq<Event>, b: seq<Event>, e: Event, key: string)
    requires Alike(a, b, key)
    ensures Alike(a + [e], b + [e], key)
    ensures e.Other? ==> Alike(a + [e], b, key)
  {
    H.StackSnoc([], a, e);
    H.StackSnoc([], b, e);
    H.TallySnoc([], a, e, key);
    H.TallySnoc([], b, e, key);
    MergeZero(H.Tally([], a, key));
  }

  lemma EventsSnoc(ls: seq<Line>, l: Line)
    requires Events(ls) && l.Parsed?
    ensures EventsOf(ls + [l]) == EventsOf(ls) + [l.event]
  {
  }

  lemma ReplayOfLast(front: seq<Line>, last: Line, tid: ThreadId, key: string)
    requires Events(front) && last.Parsed? && Events(Selected(front, OfTid(tid)))
    requires Alike(ThreadTrace(EventsOf(front), tid), EventsOf(Selected(front, OfTid(tid))), key)
    ensures Events(Selected(front + [last], OfTid(tid)))
    ensures Alike(ThreadTrace(EventsOf(front + [last]), tid), EventsOf(Selected(front + [last], OfTid(tid))), key)
  {
    var own, calls := ThreadTrace(EventsOf(front), tid), Selected(front, OfTid(tid));
    EventsSnoc(front, last);
    ThreadTraceSnoc(EventsOf(front), last.event, tid);
    SelectedSnoc(front, last, OfTid(tid));
    if OfTid(tid)(last) {
      EventsSnoc(calls, last);
      AlikeWith(own, EventsOf(calls), last.event, key);
    } else if OnThread(last.event, tid) {
      AlikeWith(own, EventsOf(calls), last.event, key);
    }
  }

  /** They are all that a replay of the thread sees. */
  lemma {:induction false} ReplayOfCalls(ls: seq<Line>, tid: ThreadId, key: string)
    requires Events(ls)
    ensures Events(Selected(ls, OfTid(tid)))
    ensures Alike(ThreadTrace(EventsOf(ls), tid), EventsOf(Selected(ls, OfTid(tid))), key)
  {
    if ls != [] {
      assert ls == ls[..|ls| - 1] + [ls[|ls| - 1]];
      ReplayOfCalls(ls[..|ls| - 1], tid, key);
      ReplayOfLast(ls[..|ls| - 1], ls[|ls| - 1], tid, key);
    }
  }

  /** The statistics lines of a file add up the same in any order. */
  lemma {:induction false} LinesInAnyOrder(a: seq<Line>, b: seq<Line>, key: string)
    requires Events(a) && Events(b) && multiset(a) == multiset(b)
    ensures H.ByLines(EventsOf(a), key) == H.ByLines(EventsOf(b), key)
    decreases |a|
  {
    assert |a| == |multiset(a)| == |multiset(b)| == |b|;
    if a != [] {
      var front, x := a[..|a| - 1], a[|a| - 1];
      assert x in multiset(b);
      var j :| 0 <= j < |b| && b[j] == x;
      var rest := b[..j] + b[j + 1..];
      WithoutLast(a);
      TakenOut(b, j);
      LinesTakenOut(a, |a| - 1, key);
      assert front == a[..|a| - 1] + a[|a|..];
      LinesTakenOut(b, j, key);
      assert multiset(front) == multiset(rest);
      LinesInAnyOrder(front, rest, key);
    }
  }

  lemma LinesTakenOut(ls: seq<Line>, j: nat, key: string)
    requires Events(ls) && j < |ls|
    ensures Events(ls[..j] + ls[j + 1..])
    ensures H.ByLines(EventsOf(ls), key)
         == Merge(H.ByLines(EventsOf(ls[..j] + ls[j + 1..]), key), H.ByLines([ls[j].event], key))
  {
    var before, after, x := EventsOf(ls[..j]), EventsOf(ls[j + 1..]), [ls[j].event];
    assert EventsOf(ls) == before + x + after && EventsOf(ls[..j] + ls[j + 1..]) == before + after;
    H.ByLinesAppend(before, x, key);
    H.ByLinesAppend(before + x, after, key);
    H.ByLinesAppend(before, after, key);
    H.AddLast(H.ByLines(before, key), H.ByLines(x, key), H.ByLines(after, key));
  }

  /** Every thread's enters and leaves keep their order when sorted. */
  ghost predicate ThreadsRigid(events: seq<Line>) {
    forall t :: Events(Selected(events, OfTid(t))) && Rigid(Selected(events, OfTid(t)))
  }

  /** Sorting changes nothing the hotspots analyser sees. */
  lemma SortedReplays(events: seq<Line>, sorted: seq<Line>, key: string)
    requires Events(events) && SortOf(events, sorted) && ThreadsRigid(events)
    ensures Get(H.Replayed(EventsOf(sorted)).stats, key) == Get(H.Replayed(EventsOf(events)).stats, key)
  {
    var a, b := EventsOf(events), EventsOf(sorted);
    var tids := H.Tids(a) + H.Tids(b);
    forall t | t in tids ensures H.ByThread(b, tids, key)[t] == H.ByThread(a, tids, key)[t] {
      KeepsSelected(events, sorted, OfTid(t));
      ReplayOfCalls(events, t, key);
      ReplayOfCalls(sorted, t, key);
    }
    H.ReplaysThreadsApart(a, tids, key);
    H.ReplaysThreadsApart(b, tids, key);
    SumKeysSame(H.ByThread(a, tids, key), H.ByThread(b, tids, key), tids);
    LinesInAnyOrder(events, sorted, key);
  }

  /** No thread id makes calls in two processes. */
  predicate OwnThreads(files: seq<seq<Line>>) {
    forall f, g, i, j :: 0 <= f < |files| && 0 <= g < |files| && 0 <= i < |files[f]| && 0 <= j < |files[g]| ==>
      var a, b := files[f][i], files[g][j];
      a.Parsed? && b.Parsed? && CallEvent(a.event) && CallEvent(b.event) && a.event.tid == b.event.tid ==> f == g
  }

  function EachReplayed(files: seq<seq<Line>>, key: string): Accum {
    if files == [] then ZERO
    else
      Merge(EachReplayed(files[..|files| - 1], key),
            Get(H.Replayed(EventsOf(Readables(files[|files| - 1]))).stats, key))
  }

  lemma {:induction false} InSomeFile(files: seq<seq<Line>>, i: nat) returns (f: nat, j: nat)
    requires i < |Joined(files)|
    ensures f < |files| && j < |files[f]| && files[f][j] == Joined(files)[i]
  {
    var front := files[..|files| - 1];
    if i < |Joined(front)| {
      f, j := InSomeFile(front, i);
    } else {
      f, j := |front|, i - |Joined(front)|;
    }
  }

  /** If the last file has lines of a thread, no file before it has. */
  lemma ThreadNotBefore(front: seq<seq<Line>>, last: seq<Line>, tid: ThreadId)
    requires OwnThreads(front + [last]) && Selected(Readables(last), OfTid(tid)) != []
    ensures Selected(Readables(Joined(front)), OfTid(tid)) == []
  {
    if forall i :: 0 <= i < |last| && last[i].Parsed? ==> !OfTid(tid)(last[i]) {
      NoneSelected(last, OfTid(tid));
    }
    var i :| 0 <= i < |last| && last[i].Parsed? && OfTid(tid)(last[i]);
    var files := front + [last];
    assert files[|front|][i] == last[i];
    forall p | 0 <= p < |Joined(front)| && Joined(front)[p].Parsed? ensures !OfTid(tid)(Joined(front)[p]) {
      var f, j := InSomeFile(front, p);
      assert files[f][j] == Joined(front)[p];
    }
    NoneSelected(Joined(front), OfTid(tid));
  }

  lemma NothingBeside(ls: seq<Line>)
    ensures ls + [] == ls && [] + ls == ls
  {
  }

  /** What is selected from `files` is what is selected from file `f`, or nothing if there is no such file. */
  predicate AllFrom(files: seq<seq<Line>>, sel: Line -> bool, f: nat) {
    Selected(Readables(Joined(files)), sel) == if f < |files| then Selected(Readables(files[f]), sel) else []
  }

  lemma KeepsFile(front: seq<seq<Line>>, last: seq<Line>, sel: Line -> bool, f: nat)
    requires AllFrom(front, sel, f) && f < |front| && Selected(Readables(last), sel) == []
    ensures AllFrom(front + [last], sel, f)
  {
    assert (front + [last])[f] == front[f];
    JoinedSelected(front, last, sel);
    NothingBeside(Selected(Readables(Joined(front)), sel));
  }

  lemma TakesFile(front: seq<seq<Line>>, last: seq<Line>, sel: Line -> bool)
    requires Selected(Readables(Joined(front)), sel) == []
    ensures AllFrom(front + [last], sel, |front|)
  {
    assert (front + [last])[|front|] == last;
    JoinedSelected(front, last, sel);
    NothingBeside(Selected(Readables(last), sel));
  }

  /** A thread's lines all come from one file. */
  lemma {:induction false} ReadOneThread(files: seq<seq<Line>>, tid: ThreadId) returns (f: nat)
    requires OwnThreads(files)
    ensures AllFrom(files, OfTid(tid), f)
  {
    if files == [] {
      f := 0;
    } else {
      var front, last := files[..|files| - 1], files[|files| - 1];
      assert files == front + [last];
      FrontOwnThreads(front, last);
      f := ReadOneThread(front, tid);
      if f < |front| && Selected(Readables(last), OfTid(tid)) == [] {
        KeepsFile(front, last, OfTid(tid), f);
      } else {
        if Selected(Readables(last), OfTid(tid)) != [] {
          ThreadNotBefore(front, last, tid);
        }
        TakesFile(front, last, OfTid(tid));
        f := |front|;
      }
    }
  }

  lemma FrontOwnThreads(front: seq<seq<Line>>, last: seq<Line>)
    requires OwnThreads(front + [last])
    ensures OwnThreads(front)
  {
    var files := front + [last];
    assert forall f :: 0 <= f < |front| ==> front[f] == files[f];
  }

  /** No thread that calls in the last file calls in one before it. */
  lemma CallersApart(front: seq<seq<Line>>, last: seq<Line>)
    requires OwnThreads(front + [last])
    ensures forall t :: !H.Calls(EventsOf(Readables(Joined(front))), t) || !H.Calls(EventsOf(Readables(last)), t)
  {
    forall t ensures !H.Calls(EventsOf(Readables(Joined(front))), t) || !H.Calls(EventsOf(Readables(last)), t) {
      CallsSelected(Readables(last), t);
      CallsSelected(Readables(Joined(front)), t);
      if Selected(Readables(last), OfTid(t)) != [] {
        ThreadNotBefore(front, last, t);
      }
    }
  }

  lemma {:induction false} CallsSelected(ls: seq<Line>, tid: ThreadId)
    requires Events(ls)
    ensures H.Calls(EventsOf(ls), tid) <==> Selected(ls, OfTid(tid)) != []
  {
    if ls != [] {
      var front, last := ls[..|ls| - 1], ls[|ls| - 1];
      CallsSelected(front, tid);
      assert forall i :: 0 <= i < |front| ==> EventsOf(front)[i] == EventsOf(ls)[i];
      assert EventsOf(ls)[|front|] == last.event;
    }
  }

  lemma {:induction false} JoinedReplays(files: seq<seq<Line>>, key: string)
    requires OwnThreads(files)
    ensures Get(H.Replayed(EventsOf(Readables(Joined(files)))).stats, key) == EachReplayed(files, key)
  {
    if files != [] {
      var front, last := files[..|files| - 1], files[|files| - 1];
      assert files == front + [last];
      FrontOwnThreads(front, last);
      JoinedReplays(front, key);
      JoinedEvents(front, last);
      CallersApart(front, last);
      H.ReplaysTogether(EventsOf(Readables(Joined(front))), EventsOf(Readables(last)), key);
    }
  }

  lemma JoinedEvents(files: seq<seq<Line>>, last: seq<Line>)
    ensures EventsOf(Readables(Joined(files + [last])))
         == EventsOf(Readables(Joined(files))) + EventsOf(Readables(last))
  {
    JoinedSnoc(files, last);
  }

  /** The enters and leaves of each thread have strictly increasing timestamps (or are the same line again). */
  predicate TimesIncrease(file: seq<Line>) {
    forall i, j :: 0 <= i < j < |file| && file[i].Parsed? && file[j].Parsed? ==>
      var a, b := file[i].event, file[j].event;
      CallEvent(a) && CallEvent(b) && a.tid == b.tid ==>
        a.tsNs < b.tsNs || (a.tsNs == b.tsNs && file[i] == file[j])
  }

  lemma {:induction false} IncreasingRigid(file: seq<Line>, tid: ThreadId)
    requires TimesIncrease(file)
    ensures Rigid(Selected(Readables(file), OfTid(tid)))
  {
    if file != [] {
      var front, last := file[..|file| - 1], file[|file| - 1];
      var before := Selected(Readables(front), OfTid(tid));
      IncreasingRigid(front, tid);
      if last.Parsed? && OfTid(tid)(last) {
        SelectedSnoc(Readables(front), last, OfTid(tid));
        forall i | 0 <= i < |before|
          ensures TsNs(before[i]) <= TsNs(last) && (TsNs(before[i]) == TsNs(last) ==> before[i] == last)
        {
          var k := ReadFrom(front, before[i]);
          assert file[k] == front[k] && file[|file| - 1] == last;
        }
      } else if last.Parsed? {
        SelectedSnoc(Readables(front), last, OfTid(tid));
      }
    }
  }

  lemma {:induction false} ReadFrom(file: seq<Line>, l: Line) returns (k: nat)
    requires l in Readables(file)
    ensures k < |file| && file[k] == l
  {
    var front := file[..|file| - 1];
    if l in Readables(front) {
      k := ReadFrom(front, l);
    } else {
      k := |file| - 1;
    }
  }

  /** Replaying the merged file gives every method the merge of what replaying the single files gives:
      for processes that share no thread id and threads whose timestamps strictly increase, whatever
      the order of a file's threads and statistics lines among each other. */
  lemma MergedReplays(files: seq<seq<Line>>, sorted: seq<Line>, key: string)
    requires OwnThreads(files) && SortOf(Readables(Joined(files)), sorted)
    requires forall f :: 0 <= f < |files| ==> TimesIncrease(files[f])
    ensures Get(H.Replayed(EventsOf(sorted)).stats, key) == EachReplayed(files, key)
  {
    var events := Readables(Joined(files));
    forall t ensures Events(Selected(events, OfTid(t))) && Rigid(Selected(events, OfTid(t))) {
      var f := ReadOneThread(files, t);
      if f < |files| {
        IncreasingRigid(files[f], t);
      }
    }
    SortedReplays(events, sorted, key);
    JoinedReplays(files, key);
  }

  lemma ReplayedPair(a: Event, b: Event)
    ensures H.Replayed([a, b]) == H.Step(H.Step(H.NEW, a), b)
  {
    assert [a, b][..1] == [a] && [a][..0] == [];
    assert H.From(H.NEW, [a]) == H.Step(H.NEW, a);
  }

  /** A thread with a tie may lose calls: the lines of a call that took no time are also sorted with the leave
      first, and the replay then drops the leave, as nothing is on the stack. */
  lemma TieLosesCall(enter: Line, leave: Line)
    requires enter.Parsed? && leave.Parsed? && enter.event.Enter? && leave.event.Leave?
    requires enter.event.tsNs == leave.event.tsNs && enter.event.tid == leave.event.tid
    requires enter.event.name == leave.event.name
    ensures SortOf([enter, leave], [leave, enter])
    ensures var key := BuildMethodKey(leave.event.name);
            && Get(H.Replayed(EventsOf([enter, leave])).stats, key).callCount == 1
            && Get(H.Replayed(EventsOf([leave, enter])).stats, key) == ZERO
  {
    ReplayedPair(enter.event, leave.event);
    ReplayedPair(leave.event, enter.event);
    assert EventsOf([enter, leave]) == [enter.event, leave.event];
    assert EventsOf([leave, enter]) == [leave.event, enter.event];
  }
}
