/**
 Reading a ninja log (tools/report_build_time_ninja.py, `ReadTargets`), stated on the fields
 of its lines.
 */
module NinjaLines {
  import opened Wrappers
  import opened NinjaTarget
  import opened NinjaLog

  // ---------------------------------------------------------------------------------
  // What the targets are, line by line.

  /** Line `i` is a record that is not forgotten. */
  ghost predicate IsKept(lines: seq<Line>, from: nat, i: int) {
    from <= i < |lines| && lines[i].Record?
  }

  ghost predicate SameTimes(a: Line, b: Line)
    requires a.Record? && b.Record?
  {
    a.start == b.start && a.end == b.end
  }

  /** The records from `from` on show no sign of more than one build. */
  ghost predicate OneBuildFrom(lines: seq<Line>, from: nat) {
    forall i, j :: i < j && IsKept(lines, from, i) && IsKept(lines, from, j) ==>
      lines[i].end <= lines[j].end && (lines[i].hash == lines[j].hash ==> SameTimes(lines[i], lines[j]))
  }

  /** The record at `from` cannot belong to the build of some record before it. */
  ghost predicate Restarts(lines: seq<Line>, from: nat) {
    && from < |lines| && lines[from].Record?
    && exists i :: 0 <= i < from && lines[i].Record? &&
         (lines[i].end > lines[from].end || (lines[i].hash == lines[from].hash && !SameTimes(lines[i], lines[from])))
  }

  /** `from` is where the reader's memory begins: at the first line, or at the record where a build starts. */
  ghost predicate RemembersFrom(lines: seq<Line>, from: nat, showAll: bool) {
    && from <= |lines|
    && (showAll ==> from == 0)
    && (!showAll ==> OneBuildFrom(lines, from) && (from > 0 ==> Restarts(lines, from)))
  }

  ghost predicate Ascending(s: seq<nat>) {
    forall i, j :: 0 <= i < j < |s| ==> s[i] < s[j]
  }

  /** `ix` are the kept lines with the hash, in order. */
  ghost predicate LinesOf(lines: seq<Line>, from: nat, h: string, ix: seq<nat>) {
    && Ascending(ix) && ix != []
    && forall i :: i in ix <==> IsKept(lines, from, i) && lines[i].hash == h
  }

  /** A target has the times of the first of its lines, in seconds, and lists the names of all of them. */
  ghost predicate TargetFits(lines: seq<Line>, from: nat, h: string, ix: seq<nat>,
                             start: real, end: real, names: seq<string>)
  {
    && LinesOf(lines, from, h, ix) && |names| == |ix|
    && (forall k :: 0 <= k < |ix| ==> IsKept(lines, from, ix[k]) && names[k] == lines[ix[k]].name)
    && start * 1000.0 == lines[ix[0]].start as real
    && end * 1000.0 == lines[ix[0]].end as real
  }

  /** One target for each hash of a kept line, in order of first appearance. */
  ghost predicate Filed(lines: seq<Line>, from: nat, hashes: seq<string>, where: seq<seq<nat>>) {
    && Distinct(hashes) && |where| == |hashes|
    && (forall i :: IsKept(lines, from, i) ==> lines[i].hash in hashes)
    && (forall k :: 0 <= k < |hashes| ==> LinesOf(lines, from, hashes[k], where[k]))
    && (forall k, l :: 0 <= k < l < |where| ==> where[k][0] < where[l][0])
  }

  // ---------------------------------------------------------------------------------
  // Entries and the lines they come from.

  /** An entry holds the fields of a line, with the times in seconds. */
  ghost predicate ComesFrom(e: Entry, line: Line) {
    && line.Record? && e.name == line.name && e.hash == line.hash
    && e.start * 1000.0 == line.start as real && e.end * 1000.0 == line.end as real
  }

  /** The entries come from the lines at `at`, which are all the records from `from` on. */
  ghost predicate Mirrors(lines: seq<Line>, from: nat, es: seq<Entry>, at: seq<nat>) {
    && |es| == |at| && Ascending(at)
    && (forall j :: 0 <= j < |at| ==> IsKept(lines, from, at[j]) && ComesFrom(es[j], lines[at[j]]))
    && (forall i :: IsKept(lines, from, i) ==> i in at)
  }

  /** The positions of the records. */
  ghost function At(lines: seq<Line>): seq<nat> {
    if lines == [] then []
    else
      var n := |lines| - 1;
      At(lines[..n]) + if lines[n].Record? then [n] else []
  }

  lemma EntryComesFrom(line: Line)
    requires line.Record?
    ensures ComesFrom(EntryOf(line), line)
  {
  }

  lemma MirrorsMore(lines: seq<Line>, before: seq<Line>, line: Line, es: seq<Entry>, at: seq<nat>)
    requires lines == before + [line] && Mirrors(before, 0, es, at)
    ensures !line.Record? ==> Mirrors(lines, 0, es, at)
    ensures forall e :: ComesFrom(e, line) ==> Mirrors(lines, 0, es + [e], at + [|before|])
  {
    assert forall j :: 0 <= j < |at| ==> IsKept(before, 0, at[j]);
    forall i | IsKept(lines, 0, i) && i < |before| ensures i in at { assert IsKept(before, 0, i); }
    assert forall j :: 0 <= j < |at| ==> lines[at[j]] == before[at[j]];
  }

  lemma {:induction false} EntriesMirror(lines: seq<Line>)
    ensures Mirrors(lines, 0, Entries(lines), At(lines))
  {
    if lines != [] {
      var before, line := lines[..|lines| - 1], lines[|lines| - 1];
      EntriesMirror(before);
      MirrorsMore(lines, before, line, Entries(before), At(before));
      if line.Record? { EntryComesFrom(line); }
    }
  }

  /** Where the memory begins, for entries that are remembered from position `r` on. */
  ghost function FromLine(lines: seq<Line>, at: seq<nat>, r: nat): nat {
    if r == 0 then 0 else if r < |at| then at[r] else |lines|
  }

  lemma TailMirrors(lines: seq<Line>, es: seq<Entry>, at: seq<nat>, r: nat)
    requires Mirrors(lines, 0, es, at) && r <= |es|
    ensures Mirrors(lines, FromLine(lines, at, r), es[r..], at[r..])
  {
    var from := FromLine(lines, at, r);
    forall i | IsKept(lines, from, i) ensures i in at[r..] {
      assert IsKept(lines, 0, i);
      var j :| 0 <= j < |at| && at[j] == i;
      assert j >= r;
      assert at[r..][j - r] == i;
    }
  }

  // ---------------------------------------------------------------------------------
  // Where the memory begins.

  ghost predicate Conflicts(e: Entry, later: Entry) {
    e.end > later.end || (e.hash == later.hash && !(e.start == later.start && e.end == later.end))
  }

  lemma BoundaryConflicts(es: seq<Entry>, init: seq<Entry>, n: nat, r: nat) returns (i: nat)
    requires |es| == n + 1 && init == es[..n] && r <= n && OneBuild(init[r..]) && !OneBuild(es[r..])
    ensures i < n && Conflicts(es[i], es[n])
  {
    assert es[r..] == init[r..] + [es[n]];
    var k := ConflictWithLast(init[r..], es[n]);
    assert init[r..][k] == es[r + k];
    i := r + k;
  }

  lemma {:induction false} BuildStartConflicts(es: seq<Entry>, r: nat) returns (i: nat)
    requires r == LastBuild(es) > 0
    ensures i < r < |es| && Conflicts(es[i], es[r])
    decreases |es|
  {
    var n := |es| - 1;
    var init := es[..n];
    var before := LastBuild(init);
    LastBuildStep(es, init, n, before, es[before..]);
    LastBuildIsOneBuild(init);
    if r == before {
      i := BuildStartConflicts(init, r);
    } else {
      i := BoundaryConflicts(es, init, n, before);
    }
  }

  lemma NoConflict(es: seq<Entry>, e: Entry)
    requires OneBuild(es) && forall k :: 0 <= k < |es| ==> !Conflicts(es[k], e)
    ensures OneBuild(es + [e])
  {
  }

  lemma ConflictWithLast(es: seq<Entry>, e: Entry) returns (i: nat)
    requires OneBuild(es) && !OneBuild(es + [e])
    ensures i < |es| && Conflicts(es[i], e)
  {
    assert !forall k :: 0 <= k < |es| ==> !Conflicts(es[k], e) by {
      if forall k :: 0 <= k < |es| ==> !Conflicts(es[k], e) { NoConflict(es, e); }
    }
    i :| 0 <= i < |es| && Conflicts(es[i], e);
  }

  lemma ConflictOfLines(e: Entry, later: Entry, a: Line, b: Line)
    requires ComesFrom(e, a) && ComesFrom(later, b)
    ensures Conflicts(e, later) <==> a.end > b.end || (a.hash == b.hash && !SameTimes(a, b))
  {
  }

  lemma OneBuildOfLines(lines: seq<Line>, from: nat, es: seq<Entry>, at: seq<nat>)
    requires Mirrors(lines, from, es, at) && OneBuild(es)
    ensures OneBuildFrom(lines, from)
  {
    forall i, j | i < j && IsKept(lines, from, i) && IsKept(lines, from, j)
      ensures lines[i].end <= lines[j].end
      ensures lines[i].hash == lines[j].hash ==> SameTimes(lines[i], lines[j])
    {
      var a :| 0 <= a < |at| && at[a] == i;
      var b :| 0 <= b < |at| && at[b] == j;
      assert a < b;
      ConflictOfLines(es[a], es[b], lines[i], lines[j]);
    }
  }

  lemma MemoryBegins(lines: seq<Line>, es: seq<Entry>, at: seq<nat>, showAll: bool, r: nat, from: nat)
    requires Mirrors(lines, 0, es, at) && r == Remembered(es, showAll) && from == FromLine(lines, at, r)
    ensures RemembersFrom(lines, from, showAll)
  {
    if !showAll {
      LastBuildIsOneBuild(es);
      TailMirrors(lines, es, at, r);
      OneBuildOfLines(lines, from, es[r..], at[r..]);
      if r > 0 {
        var i := BuildStartConflicts(es, r);
        ConflictOfLines(es[i], es[r], lines[at[i]], lines[at[r]]);
      }
    }
  }

  // ---------------------------------------------------------------------------------
  // The lines of a hash.

  ghost function Where(es: seq<Entry>, at: seq<nat>, h: string): seq<nat>
    requires |es| == |at|
  {
    if es == [] then []
    else
      var n := |es| - 1;
      Where(es[..n], at[..n], h) + if es[n].hash == h then [at[n]] else []
  }

  lemma {:induction false} WhereLength(es: seq<Entry>, at: seq<nat>, h: string)
    requires |es| == |at|
    ensures |Where(es, at, h)| == |NamesOf(es, h)|
  {
    if es != [] { WhereLength(es[..|es| - 1], at[..|at| - 1], h); }
  }

  lemma {:induction false} WhereName(es: seq<Entry>, at: seq<nat>, h: string, k: nat) returns (j: nat)
    requires |es| == |at| && k < |Where(es, at, h)| == |NamesOf(es, h)|
    ensures j < |es| && es[j].hash == h && at[j] == Where(es, at, h)[k] && es[j].name == NamesOf(es, h)[k]
  {
    var n := |es| - 1;
    WhereLength(es[..n], at[..n], h);
    if k < |Where(es[..n], at[..n], h)| { j := WhereName(es[..n], at[..n], h, k); } else { j := n; }
  }

  lemma {:induction false} WhereHas(es: seq<Entry>, at: seq<nat>, h: string, j: nat)
    requires |es| == |at| && j < |es| && es[j].hash == h
    ensures at[j] in Where(es, at, h)
  {
    var n := |es| - 1;
    if j < n { WhereHas(es[..n], at[..n], h, j); }
  }

  lemma {:induction false} WhereAscends(es: seq<Entry>, at: seq<nat>, h: string)
    requires |es| == |at| && Ascending(at)
    ensures Ascending(Where(es, at, h))
    ensures forall w :: w in Where(es, at, h) ==> w in at
  {
    if es != [] {
      var n := |es| - 1;
      WhereAscends(es[..n], at[..n], h);
      var w := Where(es[..n], at[..n], h);
      forall i | 0 <= i < |w| ensures w[i] < at[n] {
        assert w[i] in w;
        var q :| 0 <= q < n && at[..n][q] == w[i];
        assert at[q] < at[n];
      }
    }
  }

  lemma {:induction false} WhereNone(es: seq<Entry>, at: seq<nat>, h: string)
    requires |es| == |at| && h !in Hashes(es)
    ensures Where(es, at, h) == []
  {
    if es != [] { WhereNone(es[..|es| - 1], at[..|at| - 1], h); }
  }

  lemma {:induction false} WhereBegins(es: seq<Entry>, at: seq<nat>, h: string) returns (j: nat)
    requires |es| == |at| && h in Hashes(es)
    ensures Where(es, at, h) != [] && j < |es| && at[j] == Where(es, at, h)[0] && es[j] == FirstOf(es, h)
  {
    var n := |es| - 1;
    if h in Hashes(es[..n]) {
      j := WhereBegins(es[..n], at[..n], h);
    } else {
      WhereNone(es[..n], at[..n], h);
      j := n;
    }
  }

  lemma NewHashIsLast(es: seq<Entry>, at: seq<nat>, n: nat, h: string, l: string)
    requires |es| == |at| == n + 1 && Ascending(at) && es[n].hash == l != h
    requires h in Hashes(es[..n]) && l !in Hashes(es[..n])
    ensures Where(es, at, h) != [] && Where(es, at, l) == [at[n]] && Where(es, at, h)[0] < at[n]
  {
    var j := WhereBegins(es[..n], at[..n], h);
    WhereNone(es[..n], at[..n], l);
    assert at[j] < at[n];
  }

  lemma {:induction false} FirstsAscend(es: seq<Entry>, at: seq<nat>, k: nat, l: nat)
    requires |es| == |at| && Ascending(at) && k < l < |Hashes(es)|
    ensures Where(es, at, Hashes(es)[k]) != [] && Where(es, at, Hashes(es)[l]) != []
    ensures Where(es, at, Hashes(es)[k])[0] < Where(es, at, Hashes(es)[l])[0]
  {
    var n, hs := |es| - 1, Hashes(es);
    if l < |Hashes(es[..n])| {
      FirstsAscend(es[..n], at[..n], k, l);
    } else {
      NewHashIsLast(es, at, n, hs[k], hs[l]);
    }
  }

  lemma WhereIsLinesOf(lines: seq<Line>, from: nat, es: seq<Entry>, at: seq<nat>, h: string)
    requires Mirrors(lines, from, es, at) && h in Hashes(es)
    ensures LinesOf(lines, from, h, Where(es, at, h))
  {
    var ix := Where(es, at, h);
    WhereLength(es, at, h);
    WhereAscends(es, at, h);
    var first := WhereBegins(es, at, h);
    forall i ensures i in ix <==> IsKept(lines, from, i) && lines[i].hash == h {
      if i in ix {
        var k :| 0 <= k < |ix| && ix[k] == i;
        var j := WhereName(es, at, h, k);
      }
      if IsKept(lines, from, i) && lines[i].hash == h {
        var j :| 0 <= j < |at| && at[j] == i;
        WhereHas(es, at, h, j);
      }
    }
  }

  lemma GroupIsLines(lines: seq<Line>, from: nat, es: seq<Entry>, at: seq<nat>, g: Group, h: string)
    requires Mirrors(lines, from, es, at) && GroupFits(es, g, h)
    ensures TargetFits(lines, from, h, Where(es, at, h), g.start, g.end, g.names)
  {
    var ix := Where(es, at, h);
    WhereIsLinesOf(lines, from, es, at, h);
    WhereLength(es, at, h);
    var first := WhereBegins(es, at, h);
    forall k | 0 <= k < |ix| ensures IsKept(lines, from, ix[k]) && g.names[k] == lines[ix[k]].name {
      var j := WhereName(es, at, h, k);
    }
  }

  ghost function AllWhere(es: seq<Entry>, at: seq<nat>, hs: seq<string>): seq<seq<nat>>
    requires |es| == |at|
  {
    seq(|hs|, k requires 0 <= k < |hs| => Where(es, at, hs[k]))
  }

  lemma GroupsAreFiled(lines: seq<Line>, from: nat, es: seq<Entry>, at: seq<nat>, hs: seq<string>)
    requires Mirrors(lines, from, es, at) && hs == Hashes(es)
    ensures Filed(lines, from, hs, AllWhere(es, at, hs))
  {
    HashesAreDistinct(es);
    forall i | IsKept(lines, from, i) ensures lines[i].hash in hs {
      var j :| 0 <= j < |at| && at[j] == i;
      HashIsListed(es, j);
    }
    forall k | 0 <= k < |hs| ensures LinesOf(lines, from, hs[k], AllWhere(es, at, hs)[k]) {
      WhereIsLinesOf(lines, from, es, at, hs[k]);
    }
    forall k, l | 0 <= k < l < |hs| ensures AllWhere(es, at, hs)[k][0] < AllWhere(es, at, hs)[l][0] {
      FirstsAscend(es, at, k, l);
    }
  }

  // ---------------------------------------------------------------------------------
  // The reader.

  /** Reads all targets: one for each hash of the records that are not forgotten, with the times of its first
      record, in seconds, and the names of all of its records. */
  method ReadTargets(header: string, lines: seq<Line>, showAll: bool)
    returns (r: Result<seq<Target>, Error>, ghost from: nat, ghost hashes: seq<string>, ghost where: seq<seq<nat>>)
    ensures r == Failure(AssertionError) <==> header != HEADER
    ensures r == Failure(ValueError) <==> header == HEADER && NotIntegral in lines
    ensures r.Success? ==>
              && Distinct(r.value) && (forall k :: 0 <= k < |r.value| ==> fresh(r.value[k]))
              && RemembersFrom(lines, from, showAll) && Filed(lines, from, hashes, where) && |r.value| == |hashes|
              && forall k :: 0 <= k < |r.value| ==>
                   TargetFits(lines, from, hashes[k], where[k], r.value[k].start, r.value[k].end, r.value[k].targets)
  {
    from, hashes, where := 0, [], [];
    if header != HEADER { return Failure(AssertionError), from, hashes, where; }
    var ok, keys, targets;
    ghost var gs, lastSeen;
    ok, keys, targets, gs, lastSeen := ReadLines(lines, showAll);
    if !ok { return Failure(ValueError), from, hashes, where; }
    assert lines[..|lines|] == lines;
    r := Success(targets);
    ghost var es, at := Entries(lines), At(lines);
    ghost var first := Remembered(es, showAll);
    EntriesMirror(lines);
    from, hashes := FromLine(lines, at, first), Hashes(es[first..]);
    where := AllWhere(es[first..], at[first..], hashes);
    MemoryBegins(lines, es, at, showAll, first, from);
    TailMirrors(lines, es, at, first);
    GroupsAreFiled(lines, from, es[first..], at[first..], hashes);
    forall k | 0 <= k < |targets|
      ensures TargetFits(lines, from, hashes[k], where[k], targets[k].start, targets[k].end, targets[k].targets)
    {
      GroupIsLines(lines, from, es[first..], at[first..], gs[k], hashes[k]);
    }
  }
}
