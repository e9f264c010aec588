/**
 Reading a ninja log (tools/report_build_time_ninja.py, `ReadTargets`): lines of one
 command are grouped, and what came before a new build is thrown away.
 */
module NinjaLog {
  import opened Wrappers
  import opened NinjaTarget

  const HEADER := "# ninja log v5\n"

  /** A log line after splitting: five fields with integral times, five fields without, or another number. */
  datatype Line = Record(start: int, end: int, name: string, hash: string) | NotIntegral | Malformed

  datatype Error = AssertionError | ValueError

  datatype Entry = Entry(start: real, end: real, name: string, hash: string)

  /** A target as a value, with the command hash it is filed under. */
  datatype Group = Group(hash: string, start: real, end: real, names: seq<string>)

  function EntryOf(line: Line): Entry
    requires line.Record?
  {
    Entry(line.start as real / 1000.0, line.end as real / 1000.0, line.name, line.hash)
  }

  /** The entries that the log holds; lines with a wrong number of fields are skipped. */
  ghost function Entries(lines: seq<Line>): seq<Entry> {
    if lines == [] then []
    else
      var line, before := lines[|lines| - 1], Entries(lines[..|lines| - 1]);
      if line.Record? then before + [EntryOf(line)] else before
  }

  // ---------------------------------------------------------------------------------
  // Grouping, as a function of a stretch of the log.

  /** The command hashes in order of first appearance. */
  ghost function Hashes(es: seq<Entry>): seq<string> {
    if es == [] then []
    else
      var hs, h := Hashes(es[..|es| - 1]), es[|es| - 1].hash;
      if h in hs then hs else hs + [h]
  }

  ghost function NamesOf(es: seq<Entry>, h: string): seq<string> {
    if es == [] then []
    else
      var ns, e := NamesOf(es[..|es| - 1], h), es[|es| - 1];
      if e.hash == h then ns + [e.name] else ns
  }

  /** The first entry with hash `h`. */
  ghost function FirstOf(es: seq<Entry>, h: string): Entry
    requires h in Hashes(es)
  {
    if h in Hashes(es[..|es| - 1]) then FirstOf(es[..|es| - 1], h) else es[|es| - 1]
  }

  ghost predicate GroupFits(es: seq<Entry>, g: Group, h: string) {
    && h in Hashes(es)
    && g == Group(h, FirstOf(es, h).start, FirstOf(es, h).end, NamesOf(es, h))
  }

  /** The groups are the hashes in order of first appearance, each with the times of its first entry
      and with exactly its own names. */
  ghost predicate Groups(es: seq<Entry>, gs: seq<Group>) {
    && |gs| == |Hashes(es)|
    && forall i :: 0 <= i < |gs| ==> GroupFits(es, gs[i], Hashes(es)[i])
  }

  // ---------------------------------------------------------------------------------
  // Build boundaries.

  /** A stretch of the log that shows no sign of more than one build. */
  ghost predicate OneBuild(es: seq<Entry>) {
    && (forall i, j :: 0 <= i < j < |es| ==> es[i].end <= es[j].end)
    && (forall i, j :: 0 <= i < j < |es| && es[i].hash == es[j].hash ==>
          es[i].start == es[j].start && es[i].end == es[j].end)
  }

  /** Where the last build starts: the stretch restarts at an entry that cannot belong to it. */
  ghost function LastBuild(es: seq<Entry>): (r: nat)
    ensures r <= |es|
    ensures es != [] ==> r < |es|
  {
    if es == [] then 0
    else
      var r := LastBuild(es[..|es| - 1]);
      if OneBuild(es[r..]) then r else |es| - 1
  }

  lemma {:induction false} LastBuildIsOneBuild(es: seq<Entry>)
    ensures OneBuild(es[LastBuild(es)..])
  {
  }

  lemma LastBuildStep(es: seq<Entry>, init: seq<Entry>, n: nat, r: nat, tail: seq<Entry>)
    requires |es| == n + 1 && init == es[..n] && r == LastBuild(init) && tail == es[r..]
    ensures LastBuild(es) == if OneBuild(tail) then r else n
  {
  }

  lemma {:induction false} HashesAreDistinct(es: seq<Entry>)
    ensures Distinct(Hashes(es))
  {
    if es != [] { HashesAreDistinct(es[..|es| - 1]); }
  }

  lemma {:induction false} HashIsListed(es: seq<Entry>, i: nat)
    requires i < |es|
    ensures es[i].hash in Hashes(es)
  {
    var n := |es| - 1;
    if i < n { HashIsListed(es[..n], i); }
  }

  lemma {:induction false} ListedIsHash(es: seq<Entry>, h: string) returns (i: nat)
    requires h in Hashes(es)
    ensures i < |es| && es[i].hash == h
  {
    var n := |es| - 1;
    if h in Hashes(es[..n]) { i := ListedIsHash(es[..n], h); } else { i := n; }
  }

  lemma HashesOf(es: seq<Entry>)
    ensures Distinct(Hashes(es))
    ensures forall i :: 0 <= i < |es| ==> es[i].hash in Hashes(es)
    ensures forall h :: h in Hashes(es) ==> exists i :: 0 <= i < |es| && es[i].hash == h
  {
    HashesAreDistinct(es);
    forall i | 0 <= i < |es| ensures es[i].hash in Hashes(es) { HashIsListed(es, i); }
    forall h | h in Hashes(es) ensures exists i :: 0 <= i < |es| && es[i].hash == h {
      var i := ListedIsHash(es, h);
    }
  }

  lemma {:induction false} FirstOfIsFirst(es: seq<Entry>, h: string) returns (k: nat)
    requires h in Hashes(es)
    ensures k < |es| && es[k] == FirstOf(es, h) && es[k].hash == h
    ensures forall i :: 0 <= i < k ==> es[i].hash != h
  {
    var init := es[..|es| - 1];
    if h in Hashes(init) {
      k := FirstOfIsFirst(init, h);
    } else {
      k := |es| - 1;
      HashesOf(init);
      assert forall i :: 0 <= i < k ==> es[i] == init[i];
    }
  }

  lemma NoNames(es: seq<Entry>, h: string)
    requires h !in Hashes(es)
    ensures NamesOf(es, h) == []
  {
    if es != [] { NoNames(es[..|es| - 1], h); }
  }

  // ---------------------------------------------------------------------------------
  // Adding an entry.

  ghost function Single(e: Entry): Group {
    Group(e.hash, e.start, e.end, [e.name])
  }

  lemma Restart(e: Entry)
    ensures Groups([e], [Single(e)])
  {
    assert [e][..0] == [];
    assert Hashes([e]) == [e.hash];
    assert NamesOf([e], e.hash) == [e.name];
  }

  lemma AddToGroup(es: seq<Entry>, gs: seq<Group>, e: Entry, i: nat)
    requires Groups(es, gs) && i < |gs| && gs[i].hash == e.hash
    ensures Groups(es + [e], gs[i := gs[i].(names := gs[i].names + [e.name])])
  {
    var es', gs' := es + [e], gs[i := gs[i].(names := gs[i].names + [e.name])];
    assert es'[..|es|] == es;
    HashesOf(es);
    forall k | 0 <= k < |gs'| ensures GroupFits(es', gs'[k], Hashes(es')[k]) {
      assert GroupFits(es, gs[k], Hashes(es)[k]);
      if k != i { assert Hashes(es)[k] != e.hash; }
    }
  }

  lemma AddNewGroup(es: seq<Entry>, gs: seq<Group>, e: Entry)
    requires Groups(es, gs) && e.hash !in Hashes(es)
    ensures Groups(es + [e], gs + [Single(e)])
  {
    var es', gs' := es + [e], gs + [Single(e)];
    assert es'[..|es|] == es;
    NoNames(es, e.hash);
    forall k | 0 <= k < |gs'| ensures GroupFits(es', gs'[k], Hashes(es')[k]) {
      if k < |gs| { assert GroupFits(es, gs[k], Hashes(es)[k]); }
    }
  }

  lemma SameBuildSameTimes(es: seq<Entry>, gs: seq<Group>, e: Entry, i: nat)
    requires OneBuild(es + [e]) && Groups(es, gs) && i < |gs| && gs[i].hash == e.hash
    ensures gs[i].start == e.start && gs[i].end == e.end
  {
    var es' := es + [e];
    assert GroupFits(es, gs[i], Hashes(es)[i]);
    var k := FirstOfIsFirst(es, e.hash);
    assert es'[k] == es[k] && es'[|es|] == e;
  }

  lemma SameTimesSameBuild(es: seq<Entry>, gs: seq<Group>, e: Entry, k: nat)
    requires OneBuild(es) && Groups(es, gs) && k < |es| && es[k].hash == e.hash
    requires forall i :: 0 <= i < |gs| && gs[i].hash == e.hash ==> gs[i].start == e.start && gs[i].end == e.end
    ensures es[k].start == e.start && es[k].end == e.end
  {
    HashIsListed(es, k);
    var i :| 0 <= i < |Hashes(es)| && Hashes(es)[i] == e.hash;
    assert GroupFits(es, gs[i], Hashes(es)[i]);
    var f := FirstOfIsFirst(es, e.hash);
    assert es[f].start == es[k].start && es[f].end == es[k].end;
  }

  lemma OneBuildSnoc(es: seq<Entry>, e: Entry)
    requires es != [] && OneBuild(es) && e.end >= es[|es| - 1].end
    requires forall k :: 0 <= k < |es| && es[k].hash == e.hash ==> es[k].start == e.start && es[k].end == e.end
    ensures OneBuild(es + [e])
  {
    assert forall i :: 0 <= i < |es| - 1 ==> es[i].end <= es[|es| - 1].end;
  }

  /** The two checks of the reader detect exactly the entries that do not belong to the build so far. */
  lemma BoundaryTest(es: seq<Entry>, gs: seq<Group>, e: Entry)
    requires es != [] && OneBuild(es) && Groups(es, gs)
    ensures OneBuild(es + [e]) <==>
            && e.end >= es[|es| - 1].end
            && forall i :: 0 <= i < |gs| && gs[i].hash == e.hash ==> gs[i].start == e.start && gs[i].end == e.end
  {
    if OneBuild(es + [e]) {
      assert (es + [e])[|es| - 1].end <= (es + [e])[|es|].end;
      forall i | 0 <= i < |gs| && gs[i].hash == e.hash ensures gs[i].start == e.start && gs[i].end == e.end {
        SameBuildSameTimes(es, gs, e, i);
      }
    } else if
      && e.end >= es[|es| - 1].end
      && forall i :: 0 <= i < |gs| && gs[i].hash == e.hash ==> gs[i].start == e.start && gs[i].end == e.end
    {
      forall k | 0 <= k < |es| && es[k].hash == e.hash ensures es[k].start == e.start && es[k].end == e.end {
        SameTimesSameBuild(es, gs, e, k);
      }
      OneBuildSnoc(es, e);
    }
  }

  // ---------------------------------------------------------------------------------
  // Every entry of the build is in exactly one group.

  ghost function CountNames(es: seq<Entry>, hs: seq<string>): nat {
    if hs == [] then 0 else CountNames(es, hs[..|hs| - 1]) + |NamesOf(es, hs[|hs| - 1])|
  }

  lemma {:induction false} CountOneMore(es: seq<Entry>, e: Entry, hs: seq<string>)
    requires Distinct(hs)
    ensures CountNames(es + [e], hs) == CountNames(es, hs) + if e.hash in hs then 1 else 0
  {
    if hs != [] {
      var init, last := hs[..|hs| - 1], hs[|hs| - 1];
      CountOneMore(es, e, init);
      assert hs == init + [last];
      assert (es + [e])[..|es|] == es;
    }
  }

  lemma {:induction false} CountAll(es: seq<Entry>, hs: seq<string>)
    requires Distinct(hs) && forall i :: 0 <= i < |es| ==> es[i].hash in hs
    ensures CountNames(es, hs) == |es|
  {
    if es == [] {
      CountNone(hs);
    } else {
      var init := es[..|es| - 1];
      assert es == init + [es[|es| - 1]];
      CountAll(init, hs);
      CountOneMore(init, es[|es| - 1], hs);
    }
  }

  lemma {:induction false} CountNone(hs: seq<string>)
    ensures CountNames([], hs) == 0
  {
    if hs != [] { CountNone(hs[..|hs| - 1]); }
  }

  ghost function TotalNames(gs: seq<Group>): nat {
    if gs == [] then 0 else TotalNames(gs[..|gs| - 1]) + |gs[|gs| - 1].names|
  }

  lemma {:induction false} TotalIsCount(es: seq<Entry>, gs: seq<Group>, hs: seq<string>)
    requires |gs| == |hs| && forall i :: 0 <= i < |gs| ==> gs[i].names == NamesOf(es, hs[i])
    ensures TotalNames(gs) == CountNames(es, hs)
  {
    if gs != [] { TotalIsCount(es, gs[..|gs| - 1], hs[..|hs| - 1]); }
  }

  /** The groups hold as many names as there are entries: each entry is listed exactly once. */
  lemma GroupsHoldEachEntryOnce(es: seq<Entry>, gs: seq<Group>)
    requires Groups(es, gs)
    ensures TotalNames(gs) == |es|
  {
    HashesOf(es);
    assert forall i :: 0 <= i < |gs| ==> GroupFits(es, gs[i], Hashes(es)[i]);
    TotalIsCount(es, gs, Hashes(es));
    CountAll(es, Hashes(es));
  }

  // ---------------------------------------------------------------------------------
  // The reader.

  /** The first entry that the reader still remembers after reading `es`. */
  ghost function Remembered(es: seq<Entry>, showAll: bool): (r: nat)
    ensures r <= |es|
  {
    if showAll then 0 else LastBuild(es)
  }

  function Find(keys: seq<string>, h: string): (r: Option<nat>)
    ensures r.Some? ==> r.value < |keys| && keys[r.value] == h
    ensures r.None? ==> h !in keys
  {
    if keys == [] then None
    else if keys[|keys| - 1] == h then Some(|keys| - 1)
    else Find(keys[..|keys| - 1], h)
  }

  ghost function Keys(gs: seq<Group>): seq<string> {
    seq(|gs|, i requires 0 <= i < |gs| => gs[i].hash)
  }

  /** What reading the entry `e` does to the dictionary. */
  ghost function Step(gs: seq<Group>, e: Entry, lastEnd: real, showAll: bool): seq<Group> {
    var kept := if !showAll && e.end < lastEnd then [] else gs;
    match Find(Keys(kept), e.hash)
    case None => kept + [Single(e)]
    case Some(i) =>
      if !showAll && (kept[i].start != e.start || kept[i].end != e.end) then [Single(e)]
      else kept[i := kept[i].(names := kept[i].names + [e.name])]
  }

  lemma KeysAreHashes(gs: seq<Group>, es: seq<Entry>)
    requires Groups(es, gs)
    ensures Keys(gs) == Hashes(es)
  {
    forall i | 0 <= i < |gs| ensures Keys(gs)[i] == Hashes(es)[i] {
      assert GroupFits(es, gs[i], Hashes(es)[i]);
    }
  }

  /** Without a boundary, the entry joins the groups. */
  lemma StepJoins(seg: seq<Entry>, gs: seq<Group>, e: Entry, lastEnd: real, showAll: bool)
    requires Groups(seg, gs)
    requires showAll || (e.end >= lastEnd && forall i :: 0 <= i < |gs| && gs[i].hash == e.hash ==>
                                               gs[i].start == e.start && gs[i].end == e.end)
    ensures Groups(seg + [e], Step(gs, e, lastEnd, showAll))
  {
    KeysAreHashes(gs, seg);
    match Find(Keys(gs), e.hash)
    case None => AddNewGroup(seg, gs, e);
    case Some(i) =>
      assert gs[i].hash == e.hash;
      AddToGroup(seg, gs, e, i);
  }

  lemma {:induction false} FindIs(keys: seq<string>, h: string, i: nat)
    requires Distinct(keys) && i < |keys| && keys[i] == h
    ensures Find(keys, h) == Some(i)
  {
    var r := Find(keys, h);
    assert r.Some?;
  }

  lemma StepAtChangedGroup(gs: seq<Group>, e: Entry, lastEnd: real, i: nat)
    requires e.end >= lastEnd && i < |gs| && Find(Keys(gs), e.hash) == Some(i)
    requires !(gs[i].start == e.start && gs[i].end == e.end)
    ensures Step(gs, e, lastEnd, false) == [Single(e)]
  {
  }

  /** At a boundary, everything before the entry is forgotten. */
  lemma StepRestarts(seg: seq<Entry>, gs: seq<Group>, e: Entry, lastEnd: real)
    requires Groups(seg, gs)
    requires e.end < lastEnd || exists i :: 0 <= i < |gs| && gs[i].hash == e.hash &&
                                              !(gs[i].start == e.start && gs[i].end == e.end)
    ensures Groups([e], Step(gs, e, lastEnd, false))
  {
    Restart(e);
    if e.end < lastEnd {
      assert Step(gs, e, lastEnd, false) == [Single(e)];
    } else {
      var i :| 0 <= i < |gs| && gs[i].hash == e.hash && !(gs[i].start == e.start && gs[i].end == e.end);
      KeysAreHashes(gs, seg);
      HashesAreDistinct(seg);
      FindIs(Keys(gs), e.hash, i);
      StepAtChangedGroup(gs, e, lastEnd, i);
    }
  }

  lemma StepInBuild(seg: seq<Entry>, gs: seq<Group>, e: Entry, lastEnd: real)
    requires seg != [] && OneBuild(seg) && Groups(seg, gs) && lastEnd == seg[|seg| - 1].end
    ensures Groups(if OneBuild(seg + [e]) then seg + [e] else [e], Step(gs, e, lastEnd, false))
  {
    BoundaryTest(seg, gs, e);
    if OneBuild(seg + [e]) { StepJoins(seg, gs, e, lastEnd, false); } else { StepRestarts(seg, gs, e, lastEnd); }
  }

  lemma Appended(es: seq<Entry>, e: Entry, r: nat)
    requires r <= |es|
    ensures (es + [e])[..|es|] == es && (es + [e])[r..] == es[r..] + [e] && (es + [e])[|es|..] == [e]
  {
  }

  lemma RememberedStep(es: seq<Entry>, e: Entry, r: nat, seg: seq<Entry>, es': seq<Entry>)
    requires es != [] && r == LastBuild(es) && seg == es[r..] && es' == es + [e]
    ensures es'[LastBuild(es')..] == if OneBuild(seg + [e]) then seg + [e] else [e]
  {
    Appended(es, e, r);
    LastBuildStep(es', es, |es|, r, seg + [e]);
  }

  lemma StepInLastBuild(es: seq<Entry>, gs: seq<Group>, e: Entry, lastEnd: real, r: nat, es': seq<Entry>)
    requires es != [] && r == LastBuild(es) && Groups(es[r..], gs) && lastEnd == es[|es| - 1].end && es' == es + [e]
    ensures Groups(es'[LastBuild(es')..], Step(gs, e, lastEnd, false))
  {
    RememberedStep(es, e, r, es[r..], es');
    LastBuildIsOneBuild(es);
    StepInBuild(es[r..], gs, e, lastEnd);
  }

  lemma FirstEntry(gs: seq<Group>, e: Entry, lastEnd: real, es': seq<Entry>)
    requires gs == [] && es' == [e]
    ensures es'[LastBuild(es')..] == [e] && Groups([e], Step(gs, e, lastEnd, false))
  {
    Restart(e);
  }

  lemma StepGroups(es: seq<Entry>, gs: seq<Group>, e: Entry, lastEnd: real, showAll: bool)
    requires Groups(es[Remembered(es, showAll)..], gs)
    requires lastEnd == if es == [] then 0.0 else es[|es| - 1].end
    ensures Groups((es + [e])[Remembered(es + [e], showAll)..], Step(gs, e, lastEnd, showAll))
  {
    if showAll {
      assert es[0..] == es && (es + [e])[0..] == es + [e];
      StepJoins(es, gs, e, lastEnd, showAll);
    } else if es == [] {
      assert es + [e] == [e];
      FirstEntry(gs, e, lastEnd, [e]);
    } else {
      StepInLastBuild(es, gs, e, lastEnd, LastBuild(es), es + [e]);
    }
  }

  // ---------------------------------------------------------------------------------
  // The reader on the heap.

  ghost predicate Matches(keys: seq<string>, targets: seq<Target>, gs: seq<Group>)
    reads targets
  {
    && |targets| == |gs| && keys == Keys(gs)
    && forall i :: 0 <= i < |gs| ==>
         && gs[i].start == targets[i].start
         && gs[i].end == targets[i].end
         && gs[i].names == targets[i].targets
  }

  /** Reads one entry into the dictionary, which is a list of keys and a list of targets in insertion order. */
  method ReadEntry(keys: seq<string>, targets: seq<Target>, e: Entry, lastEnd: real, showAll: bool, ghost gs: seq<Group>)
    returns (keys': seq<string>, targets': seq<Target>)
    requires Distinct(targets) && Matches(keys, targets, gs)
    modifies targets
    ensures Distinct(targets') && Matches(keys', targets', Step(gs, e, lastEnd, showAll))
    ensures forall k :: 0 <= k < |targets'| ==> targets'[k] in targets || fresh(targets'[k])
  {
    keys', targets' := keys, targets;
    if !showAll && e.end < lastEnd {
      keys', targets' := [], [];
    }
    ghost var kept := if !showAll && e.end < lastEnd then [] else gs;
    assert keys' == Keys(kept);
    var found := Find(keys', e.hash);
    if found.Some? && !showAll
       && (targets'[found.value].start != e.start || targets'[found.value].end != e.end) {
      keys', targets' := [], [];
      found := None;
    }
    if found.None? {
      var target := new Target(e.start, e.end);
      target.targets := [e.name];
      keys', targets' := keys' + [e.hash], targets' + [target];
    } else {
      var target := targets'[found.value];
      target.targets := target.targets + [e.name];
    }
  }

  /** What the reader knows of the entries so far. */
  ghost predicate Reads(es: seq<Entry>, gs: seq<Group>, lastEnd: real, showAll: bool) {
    && lastEnd == (if es == [] then 0.0 else es[|es| - 1].end)
    && Groups(es[Remembered(es, showAll)..], gs)
  }

  lemma ReadsRecord(lines: seq<Line>, i: nat, es: seq<Entry>, gs: seq<Group>, lastEnd: real, showAll: bool)
    requires i < |lines| && lines[i].Record? && es == Entries(lines[..i]) && Reads(es, gs, lastEnd, showAll)
    ensures var e := EntryOf(lines[i]);
            && Entries(lines[..i + 1]) == es + [e]
            && Reads(es + [e], Step(gs, e, lastEnd, showAll), e.end, showAll)
  {
    assert lines[..i + 1][..i] == lines[..i];
    StepGroups(es, gs, EntryOf(lines[i]), lastEnd, showAll);
  }

  lemma ReadsOther(lines: seq<Line>, i: nat)
    requires i < |lines| && !lines[i].Record?
    ensures Entries(lines[..i + 1]) == Entries(lines[..i])
  {
    assert lines[..i + 1][..i] == lines[..i];
  }

  /** The dictionary holds what the reader knows of the first `i` lines. */
  ghost predicate ReadUpTo(lines: seq<Line>, i: nat, keys: seq<string>, targets: seq<Target>, gs: seq<Group>,
                           lastEnd: real, showAll: bool)
    requires i <= |lines|
    reads targets
  {
    && Distinct(targets) && Matches(keys, targets, gs)
    && Reads(Entries(lines[..i]), gs, lastEnd, showAll)
  }

  /** The body of the loop; the value error of a field that is no integer ends the loop. */
  method ReadLine(lines: seq<Line>, i: nat, ghost next: nat, keys: seq<string>, targets: seq<Target>, lastEnd: real,
                  showAll: bool, ghost gs: seq<Group>)
    returns (ok: bool, keys': seq<string>, targets': seq<Target>, lastEnd': real, ghost gs': seq<Group>)
    requires i < next == i + 1 <= |lines| && ReadUpTo(lines, i, keys, targets, gs, lastEnd, showAll)
    modifies targets
    ensures ok <==> lines[i] != NotIntegral
    ensures ok ==> ReadUpTo(lines, next, keys', targets', gs', lastEnd', showAll)
    ensures forall k :: 0 <= k < |targets'| ==> targets'[k] in targets || fresh(targets'[k])
  {
    ok, keys', targets', lastEnd', gs' := true, keys, targets, lastEnd, gs;
    match lines[i]
    case Malformed =>
      ReadsOther(lines, i);
    case NotIntegral =>
      ok := false;
    case Record(_, _, _, _) =>
      ReadsRecord(lines, i, Entries(lines[..i]), gs, lastEnd, showAll);
      var e := EntryOf(lines[i]);
      keys', targets' := ReadEntry(keys, targets, e, lastEnd, showAll, gs);
      gs', lastEnd' := Step(gs, e, lastEnd, showAll), e.end;
  }

  /** The loop over the lines after the header. */
  method ReadLines(lines: seq<Line>, showAll: bool)
    returns (ok: bool, keys: seq<string>, targets: seq<Target>, ghost gs: seq<Group>, ghost lastSeen: real)
    ensures ok <==> NotIntegral !in lines
    ensures ok ==> ReadUpTo(lines, |lines|, keys, targets, gs, lastSeen, showAll)
    ensures forall k :: 0 <= k < |targets| ==> fresh(targets[k])
  {
    ok, keys, targets, gs := true, [], [], [];
    var lastEnd, i := 0.0, 0;
    lastSeen := lastEnd;
    while i < |lines|
      invariant 0 <= i <= |lines| && lastSeen == lastEnd
      invariant forall k :: 0 <= k < i ==> lines[k] != NotIntegral
      invariant forall k :: 0 <= k < |targets| ==> fresh(targets[k])
      invariant ReadUpTo(lines, i, keys, targets, gs, lastEnd, showAll)
    {
      var next := i + 1;
      ok, keys, targets, lastEnd, gs := ReadLine(lines, i, next, keys, targets, lastEnd, showAll, gs);
      lastSeen := lastEnd;
      if !ok { return; }
      i := next;
    }
    assert i == |lines|;
    ok := true;
  }
}
