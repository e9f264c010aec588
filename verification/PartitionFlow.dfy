/**
 The data flow behind partition signatures, seen as sequences of name sets, one per
 position.  Position `n` (after all `n` partitions) uses the graph outputs.
 */
module PartitionFlow {
  import opened PartitionSignature

  datatype Flow = Flow(
    realName: map<Name, Name>,
    tracked: set<Name>,
    uses: seq<set<Name>>,
    outs: seq<set<Name>>,
    freed: seq<set<Name>>,
    returned: seq<set<Name>>,
    unmet: seq<set<Name>>)
  {
    function Real(x: Name): Name {
      PartitionSignature.Real(realName, x)
    }

    ghost predicate Shaped() {
      |outs| == |freed| == |returned| && |uses| == |unmet| == |outs| + 1
    }

    /** The equation that the backward pass solves. */
    ghost predicate Solved()
      requires Shaped()
    {
      && unmet[|outs|] == uses[|outs|]
      && (forall i, k :: 0 <= i < |outs| && k == i + 1 ==> unmet[i] == uses[i] + (unmet[k] - returned[i]))
    }

    /** Some definition before position `j` makes the name `x` (or it is there from the start). */
    ghost predicate Defined(init: set<Name>, x: Name, j: nat)
      requires Shaped() && j <= |outs|
    {
      x in init || exists k :: 0 <= k < j && x in outs[k]
    }

    /** Some definition before position `j` makes the buffer `c`, under whatever name. */
    ghost predicate Made(init: set<Name>, c: Name, j: nat)
      requires Shaped() && j <= |outs|
    {
      c in init || exists k, o :: 0 <= k < j && o in outs[k] && Real(o) == c
    }

    /** A buffer named in `last_usage` is not used later and is not a graph output. */
    ghost predicate FreedForGood()
      requires Shaped()
    {
      forall i, j, n, x :: 0 <= i < j <= |outs| && n in freed[i] && x in uses[j] ==> Real(n) != Real(x)
    }

    /** Every buffer that exists at position `i` and is still needed there is alive. */
    ghost predicate KeepsNeeded(init: set<Name>, alive: set<Name>, i: nat)
      requires Shaped() && i <= |outs|
    {
      forall j, x :: i <= j <= |outs| && x in uses[j] && x in tracked && Made(init, Real(x), i) ==> Real(x) in alive
    }

    ghost predicate ReturnsWhatIsUnmet()
      requires Shaped()
    {
      && (forall i, k, z :: 0 <= i < |outs| && k == i + 1 && z in outs[i] && z in unmet[k] ==> Real(z) in returned[i])
      && (forall i, y :: 0 <= i < |outs| && y in returned[i] ==> y in uses[i] || MadeAt(i, y))
    }

    /** Position `i` frees the buffer `c`, under whatever name. */
    ghost predicate FreedAt(i: nat, c: Name)
      requires i < |freed|
    {
      exists n :: n in freed[i] && Real(n) == c
    }

    /** From `alive` to `alive'`, position `i` drops only what it frees, and adds what it returns. */
    ghost predicate Carries(alive: set<Name>, alive': set<Name>, i: nat)
      requires Shaped() && i < |outs|
    {
      && (forall c :: c in alive ==> c in alive' || FreedAt(i, c))
      && (forall c :: c in returned[i] && c in tracked ==> c in alive')
    }

    /** Position `i` makes the buffer `c`, under whatever name. */
    ghost predicate MadeAt(i: nat, c: Name)
      requires i < |outs|
    {
      exists z :: z in outs[i] && Real(z) == c
    }

    /** A mutation happens where its real buffer is made or used. */
    ghost predicate InPlace()
      requires Shaped()
    {
      forall i, o :: 0 <= i < |outs| && o in outs[i] && Real(o) != o && Real(o) in tracked ==>
                       Real(o) in outs[i] || Real(o) in uses[i]
    }

    ghost predicate Sound(init: set<Name>)
      requires Shaped()
    {
      // renaming
      && (forall x :: Real(x) !in realName)
      && (forall x :: x in init ==> x !in realName)
      && (forall x :: x in tracked ==> Real(x) in tracked)
      && (forall x :: x in realName && Real(x) in tracked ==> x in tracked)
      // reads follow producers
      && (forall j, x :: 0 <= j <= |outs| && x in uses[j] && x in tracked ==> Defined(init, x, j))
      // mutations are in place
      && InPlace()
      // one producer per name
      && (forall i, j, x :: 0 <= i < j < |outs| && x in outs[i] ==> x !in outs[j])
    }
  }

  lemma SolvedAt(f: Flow, i: nat, next: nat)
    requires f.Shaped() && f.Solved() && i + 1 == next <= |f.outs|
    ensures f.unmet[i] == f.uses[i] + (f.unmet[next] - f.returned[i])
  {
  }

  lemma {:induction false} StaysUnmet(f: Flow, x: Name, i: nat, j: nat)
    requires f.Shaped() && f.Solved() && i <= j <= |f.outs| && x in f.uses[j]
    requires forall m :: i <= m < j ==> x !in f.returned[m]
    ensures x in f.unmet[i]
    decreases j - i
  {
    if i == j {
      if j < |f.outs| { SolvedAt(f, j, j + 1); }
    } else {
      StaysUnmet(f, x, i + 1, j);
      SolvedAt(f, i, i + 1);
    }
  }

  lemma {:induction false} UnmetIsUsed(f: Flow, x: Name, i: nat) returns (j: nat)
    requires f.Shaped() && f.Solved() && i <= |f.outs| && x in f.unmet[i]
    ensures i <= j <= |f.outs| && x in f.uses[j]
    ensures forall m :: i <= m < j ==> x !in f.returned[m]
    decreases |f.outs| - i
  {
    if x in f.uses[i] { return i; }
    SolvedAt(f, i, i + 1);
    j := UnmetIsUsed(f, x, i + 1);
  }

  /** The first position from `i` on that uses the buffer `c`, and the name it uses. */
  lemma {:induction false} FirstUse(f: Flow, c: Name, i: nat, j: nat, x: Name) returns (k: nat, y: Name)
    requires f.Shaped() && i <= j <= |f.outs| && x in f.uses[j] && f.Real(x) == c
    ensures i <= k <= j && y in f.uses[k] && f.Real(y) == c
    ensures forall m, z :: i <= m < k && z in f.uses[m] ==> f.Real(z) != c
    decreases j - i
  {
    if z :| z in f.uses[i] && f.Real(z) == c { return i, z; }
    k, y := FirstUse(f, c, i + 1, j, x);
  }

  /** The only position that makes a buffer defines its real name. */
  lemma MakerDefinesRealName(f: Flow, init: set<Name>, c: Name, i: nat, o: Name)
    requires f.Shaped() && f.Sound(init) && c in f.tracked
    requires i < |f.outs| && o in f.outs[i] && f.Real(o) == c && !f.Made(init, c, i)
    ensures c in f.outs[i]
  {
    assert f.Real(c) == c;
  }

  /** A buffer made by partition `i` and used later is among what partition `i` returns. */
  lemma NewBufferIsReturned(f: Flow, init: set<Name>, c: Name, i: nat, o: Name, j: nat, x: Name)
    requires f.Shaped() && f.Solved() && f.ReturnsWhatIsUnmet() && f.Sound(init) && c in f.tracked
    requires i < j <= |f.outs| && x in f.uses[j] && f.Real(x) == c
    requires o in f.outs[i] && f.Real(o) == c && !f.Made(init, c, i)
    ensures c in f.returned[i]
  {
    MakerDefinesRealName(f, init, c, i, o);
    var k, y := FirstUse(f, c, i + 1, j, x);
    assert c !in f.realName && f.Real(c) == c;
    assert y in f.outs[i] by { FirstUseIsDefinedHere(f, init, c, i, k, y); }
    forall m | i + 1 <= m < k ensures y !in f.returned[m] {
      NotReturnedAgain(f, init, c, i, m, k, y);
    }
    StaysUnmet(f, y, i + 1, k);
  }

  /** Between its definition at `i` and its first use at `k` a buffer is not returned under the name `y`. */
  lemma NotReturnedAgain(f: Flow, init: set<Name>, c: Name, i: nat, m: nat, k: nat, y: Name)
    requires f.Shaped() && f.ReturnsWhatIsUnmet() && f.Sound(init) && c in f.tracked && c !in f.realName
    requires i < m < k <= |f.outs| && f.Real(y) == c && c in f.outs[i] && y in f.outs[i]
    requires forall n, z :: i + 1 <= n < k && z in f.uses[n] ==> f.Real(z) != c
    ensures y !in f.returned[m]
  {
    assert c !in f.outs[m];
  }

  lemma FirstUseIsDefinedHere(f: Flow, init: set<Name>, c: Name, i: nat, k: nat, y: Name)
    requires f.Shaped() && f.Sound(init) && c in f.tracked && c !in f.realName
    requires i < k <= |f.outs| && y in f.uses[k] && f.Real(y) == c
    requires forall m, z :: i + 1 <= m < k && z in f.uses[m] ==> f.Real(z) != c
    requires c in f.outs[i] && !f.Made(init, c, i)
    ensures y in f.outs[i]
  {
    assert y in f.tracked && f.Real(c) == c;
    assert f.Defined(init, y, k);
    assert y !in init;
    var d :| 0 <= d < k && y in f.outs[d];
    assert d >= i;
  }

  /** One partition of a run keeps alive what is needed later. */
  lemma PartitionKeepsNeeded(f: Flow, init: set<Name>, alive: set<Name>, alive': set<Name>, i: nat, next: nat)
    requires f.Shaped() && f.Solved() && f.ReturnsWhatIsUnmet() && f.Sound(init) && f.FreedForGood()
    requires i < next == i + 1 <= |f.outs| && f.KeepsNeeded(init, alive, i)
    requires f.Carries(alive, alive', i)
    ensures f.KeepsNeeded(init, alive', next)
  {
    forall j, x | next <= j <= |f.outs| && x in f.uses[j] && x in f.tracked && f.Made(init, f.Real(x), next)
      ensures f.Real(x) in alive'
    {
      var c := f.Real(x);
      if !f.Made(init, c, i) {
        var k, o :| 0 <= k < next && o in f.outs[k] && f.Real(o) == c;
        assert k == i;
        NewBufferIsReturned(f, init, c, i, o, j, x);
      }
    }
  }

  /** What a position uses is alive when the position is reached. */
  lemma UsesAreAlive(f: Flow, init: set<Name>, alive: set<Name>, i: nat, x: Name)
    requires f.Shaped() && f.Sound(init) && i <= |f.outs| && f.KeepsNeeded(init, alive, i)
    requires x in f.uses[i] && x in f.tracked
    ensures f.Real(x) in alive
  {
    assert f.Defined(init, x, i);
    assert f.Made(init, f.Real(x), i);
  }

  /** Some position from `i` on uses `x` before any partition redefines it. */
  ghost predicate LiveIn(f: Flow, x: Name, i: nat)
    requires f.Shaped() && i <= |f.outs|
  {
    exists j :: i <= j <= |f.outs| && x in f.uses[j] && forall m :: i <= m < j ==> x !in f.outs[m]
  }

  /** What is returned without being used is made. */
  lemma ReturnedIsMadeOrUsed(f: Flow, x: Name, m: nat)
    requires f.Shaped() && f.ReturnsWhatIsUnmet() && f.InPlace() && m < |f.outs|
    requires x in f.tracked && x !in f.realName && x in f.returned[m]
    ensures x in f.outs[m] || x in f.uses[m]
  {
    if x !in f.uses[m] {
      var z :| z in f.outs[m] && f.Real(z) == x;
    }
  }

  lemma UnmetIsReturned(f: Flow, x: Name, m: nat, next: nat)
    requires f.Shaped() && f.ReturnsWhatIsUnmet() && m + 1 == next <= |f.outs|
    requires x !in f.realName && x in f.outs[m] && x in f.unmet[next]
    ensures x in f.returned[m]
  {
    assert f.Real(x) == x;
  }

  /** For the name of a real buffer, the unmet set is the live-in set. */
  lemma UnmetIsLive(f: Flow, x: Name, i: nat)
    requires f.Shaped() && f.Solved() && f.ReturnsWhatIsUnmet() && f.InPlace() && i <= |f.outs|
    requires x in f.tracked && x !in f.realName
    ensures x in f.unmet[i] <==> LiveIn(f, x, i)
  {
    if x in f.unmet[i] {
      var j := UnmetIsUsed(f, x, i);
      forall m | i <= m < j ensures x !in f.outs[m] {
        StaysUnmet(f, x, m + 1, j);
        if x in f.outs[m] { UnmetIsReturned(f, x, m, m + 1); }
      }
    }
    if LiveIn(f, x, i) {
      var j :| i <= j <= |f.outs| && x in f.uses[j] && forall m :: i <= m < j ==> x !in f.outs[m];
      var k := FirstNamed(f, x, i, j);
      forall m | i <= m < k ensures x !in f.returned[m] {
        if x in f.returned[m] { ReturnedIsMadeOrUsed(f, x, m); }
      }
      StaysUnmet(f, x, i, k);
    }
  }

  /** The first position from `i` on that uses the name `x`. */
  lemma {:induction false} FirstNamed(f: Flow, x: Name, i: nat, j: nat) returns (k: nat)
    requires f.Shaped() && i <= j <= |f.outs| && x in f.uses[j]
    ensures i <= k <= j && x in f.uses[k] && forall m :: i <= m < k ==> x !in f.uses[m]
    decreases j - i
  {
    if x in f.uses[i] { return i; }
    k := FirstNamed(f, x, i + 1, j);
  }
}
