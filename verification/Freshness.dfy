/** How fresh the published snapshot is. Leaders are ordered by their election. The published
    snapshot is that of the latest-elected leader among those that have published, except
    after a publication that was overtaken: its leader had cleared the flight, and a leader
    elected after that has published first. */
module Freshness {
  import opened Wire
  import opened MetadataCache

  /** Step `k` elects `who` as the leader of a new call. */
  ghost predicate Elects(run: Interleaving, k: nat, who: nat)
    requires |run.states| == |run.events| + 1
  {
    k < |run.events| && run.events[k] == Enter(who) && run.states[k].flight == None
  }

  /** Step `j` publishes the snapshot that the fetch of `who` returned. */
  ghost predicate Publishes(run: Interleaving, j: nat, who: nat)
    requires |run.states| == |run.events| + 1
  {
    && j < |run.events| && run.events[j] == Publish(who)
    && who in run.states[j].fetched && Succeeded(run.states[j].fetched[who])
  }

  ghost predicate PublishesAny(run: Interleaving, j: nat)
    requires |run.states| == |run.events| + 1
  {
    exists who :: Publishes(run, j, who)
  }

  /** `later` was elected after `who`. */
  ghost predicate ElectedAfter(run: Interleaving, later: nat, who: nat)
    requires |run.states| == |run.events| + 1
  {
    exists k: nat, l: nat :: k < l && Elects(run, k, who) && Elects(run, l, later)
  }

  /** The last publication before step `n` is that of `who` at step `j`. */
  ghost predicate LastBefore(run: Interleaving, n: nat, j: nat, who: nat)
    requires |run.states| == |run.events| + 1
  {
    j < n && Publishes(run, j, who) && forall i: nat :: j < i < n ==> !PublishesAny(run, i)
  }

  /** Nobody elected after the leader behind the published snapshot has published so far. */
  ghost predicate Newest(run: Interleaving, n: nat)
    requires |run.states| == |run.events| + 1
  {
    forall j: nat, who: nat, i: nat, other: nat ::
      LastBefore(run, n, j, who) && i < n && Publishes(run, i, other) ==> !ElectedAfter(run, other, who)
  }

  /** Steps `i`, `k`, `j`, in this order: `who` clears the flight, `other` is elected, `other`
      publishes. */
  ghost predicate Passes(run: Interleaving, i: nat, k: nat, j: nat, other: nat, who: nat)
    requires |run.states| == |run.events| + 1
  {
    i < k < j < |run.events| && run.events[i] == ClearFlight(who) && Elects(run, k, other) && Publishes(run, j, other)
  }

  /** Before step `n`, a leader elected after `who` cleared the flight has published. */
  ghost predicate Overtaken(run: Interleaving, n: nat, who: nat)
    requires |run.states| == |run.events| + 1
  {
    exists i: nat, k: nat, j: nat, other: nat :: j < n && Passes(run, i, k, j, other, who)
  }

  // ------------------------------------------------- elections and flights

  lemma FlightMoves(run: Interleaving, n: nat)
    requires IsRun(run) && n < |run.events|
    ensures var s, s', e := run.states[n], run.states[n + 1], run.events[n];
            || s'.flight == s.flight
            || (Elects(run, n, e.who) && s'.flight == Some(e.who))
            || (e.ClearFlight? && s.flight == Some(e.who) && s'.flight == None)
  {
    AlwaysInv(run, n);
    assert Moves(run, n);
    var s, e := run.states[n], run.events[n];
    if e.who in s.phase { assert ThreadOk(s, e.who); }
  }

  /** Whoever leads the call in flight has been elected. */
  lemma {:induction false} FlightElected(run: Interleaving, n: nat, who: nat) returns (k: nat)
    requires IsRun(run) && n <= |run.events| && run.states[n].flight == Some(who)
    ensures k < n && Elects(run, k, who)
  {
    FlightMoves(run, n - 1);
    if run.states[n - 1].flight == Some(who) {
      k := FlightElected(run, n - 1, who);
    } else {
      k := n - 1;
    }
  }

  /** A flight that is over was cleared by its leader. */
  lemma {:induction false} FlightCleared(run: Interleaving, m: nat, n: nat, who: nat) returns (i: nat)
    requires IsRun(run) && m <= n <= |run.events|
    requires run.states[m].flight == Some(who) && run.states[n].flight != Some(who)
    ensures m <= i < n && run.events[i] == ClearFlight(who)
  {
    FlightMoves(run, n - 1);
    if run.states[n - 1].flight == Some(who) {
      i := n - 1;
    } else {
      i := FlightCleared(run, m, n - 1, who);
    }
  }

  /** Whoever has entered does not enter again. */
  lemma {:induction false} EntersOnce(run: Interleaving, k: nat, n: nat, who: nat)
    requires IsRun(run) && k < n <= |run.events| && run.events[k] == Enter(who)
    ensures who in run.states[n].phase
  {
    assert Moves(run, n - 1);
    if k < n - 1 { EntersOnce(run, k, n - 1, who); }
  }

  lemma ElectedOnce(run: Interleaving, k: nat, l: nat, who: nat)
    requires IsRun(run) && Elects(run, k, who) && Elects(run, l, who)
    ensures k == l
  {
    assert Moves(run, k) && Moves(run, l);
    if k < l { EntersOnce(run, k, l, who); }
    if l < k { EntersOnce(run, l, k, who); }
  }

  /** `other`, elected at step `k`, was elected after `who` if and only if `who` had cleared
      the flight by then. */
  lemma ElectedAfterIff(run: Interleaving, k: nat, other: nat, who: nat)
    requires IsRun(run) && Elects(run, k, other)
    ensures ElectedAfter(run, other, who) <==> exists i: nat :: i < k && run.events[i] == ClearFlight(who)
  {
    if ElectedAfter(run, other, who) {
      var a: nat, b: nat :| a < b && Elects(run, a, who) && Elects(run, b, other);
      ElectedOnce(run, b, k, other);
      assert Moves(run, a);
      var i := FlightCleared(run, a + 1, k, who);
    }
    if i: nat :| i < k && run.events[i] == ClearFlight(who) {
      assert Moves(run, i);
      AlwaysInv(run, i);
      assert ThreadOk(run.states[i], who);
      var a := FlightElected(run, i, who);
      assert Elects(run, a, who) && Elects(run, k, other);
    }
  }

  /** Whoever publishes has been elected. */
  lemma {:induction false} PublisherElected(run: Interleaving, n: nat, who: nat) returns (k: nat)
    requires IsRun(run) && n <= |run.events| && who in run.states[n].calls
    ensures k < n && Elects(run, k, who)
  {
    assert Moves(run, n - 1);
    AlwaysInv(run, n - 1);
    if who in run.states[n - 1].calls {
      k := PublisherElected(run, n - 1, who);
    } else {
      k := n - 1;
    }
  }

  /** A leader that has published before step `n` was elected after `who` if and only if it
      has overtaken `who`. */
  lemma PassesIff(run: Interleaving, j: nat, other: nat, who: nat)
    requires IsRun(run) && Publishes(run, j, other)
    ensures ElectedAfter(run, other, who) <==> exists i: nat, k: nat :: Passes(run, i, k, j, other, who)
  {
    AlwaysInv(run, j);
    var k := PublisherElected(run, j, other);
    ElectedAfterIff(run, k, other, who);
    if ElectedAfter(run, other, who) {
      var i: nat :| i < k && run.events[i] == ClearFlight(who);
      assert Passes(run, i, k, j, other, who);
    }
    if i: nat, l: nat :| Passes(run, i, l, j, other, who) { ElectedOnce(run, k, l, other); }
  }

  // --------------------------------------------------- what is published

  lemma {:induction false} Republished(run: Interleaving, j: nat, n: nat, who: nat)
    requires IsRun(run) && n <= |run.events| && LastBefore(run, n, j, who)
    ensures run.states[n].published == run.states[j].fetched[who].snap
  {
    assert Moves(run, n - 1);
    if j < n - 1 {
      assert LastBefore(run, n - 1, j, who);
      Republished(run, j, n - 1, who);
      QuietKeeps(run, n - 1);
    }
  }

  lemma QuietKeeps(run: Interleaving, n: nat)
    requires IsRun(run) && n < |run.events| && !PublishesAny(run, n)
    ensures run.states[n + 1].published == run.states[n].published
  {
    assert Moves(run, n);
    if run.events[n].Publish? { assert !Publishes(run, n, run.events[n].who); }
  }

  lemma {:induction false} NothingPublished(run: Interleaving, n: nat)
    requires IsRun(run) && n <= |run.events| && forall i: nat :: i < n ==> !PublishesAny(run, i)
    ensures run.states[n].published == None
  {
    if n > 0 {
      NothingPublished(run, n - 1);
      QuietKeeps(run, n - 1);
    }
  }

  /** In every state of every run, what is published is the result of the last successful
      fetch to be stored, and nothing if there was none: failed and empty fetches leave no
      trace. */
  lemma PublishedIsLast(run: Interleaving, n: nat)
    requires IsRun(run) && n <= |run.events|
    ensures (forall i: nat :: i < n ==> !PublishesAny(run, i)) ==> run.states[n].published == None
    ensures forall j: nat, who: nat :: LastBefore(run, n, j, who) ==>
              run.states[n].published == run.states[j].fetched[who].snap
  {
    if forall i: nat :: i < n ==> !PublishesAny(run, i) { NothingPublished(run, n); }
    forall j: nat, who: nat | LastBefore(run, n, j, who)
      ensures run.states[n].published == run.states[j].fetched[who].snap
    {
      Republished(run, j, n, who);
    }
  }

  // ------------------------------------------------------------- freshness

  lemma LastIsStep(run: Interleaving, n: nat, j: nat, who: nat, w: nat)
    requires IsRun(run) && Publishes(run, n, who) && LastBefore(run, n + 1, j, w)
    ensures j == n && w == who
  {
    assert PublishesAny(run, n);
  }

  /** A publication leaves the newest result published if and only if it was not overtaken. */
  lemma StaleIff(run: Interleaving, n: nat, who: nat)
    requires IsRun(run) && Publishes(run, n, who)
    ensures Newest(run, n + 1) <==> !Overtaken(run, n, who)
  {
    assert LastBefore(run, n + 1, n, who);
    if Overtaken(run, n, who) {
      var i: nat, k: nat, j: nat, other: nat :| j < n && Passes(run, i, k, j, other, who);
      PassesIff(run, j, other, who);
    } else {
      var next := n + 1;
      forall j: nat, w: nat, i: nat, other: nat | LastBefore(run, next, j, w) && i < next && Publishes(run, i, other)
        ensures !ElectedAfter(run, other, w)
      {
        LastIsStep(run, n, j, who, w);
        NotOvertaking(run, n, who, i, other);
      }
    }
  }

  lemma NotOvertaking(run: Interleaving, n: nat, who: nat, i: nat, other: nat)
    requires IsRun(run) && Publishes(run, n, who) && !Overtaken(run, n, who) && i <= n && Publishes(run, i, other)
    ensures !ElectedAfter(run, other, who)
  {
    if ElectedAfter(run, other, who) {
      if i == n {
        var a: nat, b: nat :| a < b && Elects(run, a, who) && Elects(run, b, other);
        ElectedOnce(run, a, b, who);
      } else {
        PassesIff(run, i, other, who);
      }
      assert false;
    }
  }

  /** A step that publishes nothing changes nothing. */
  lemma QuietNewest(run: Interleaving, n: nat)
    requires IsRun(run) && n < |run.events| && !PublishesAny(run, n) && Newest(run, n)
    ensures Newest(run, n + 1)
  {
    var next := n + 1;
    forall j: nat, who: nat, i: nat, other: nat | LastBefore(run, next, j, who) && i < next && Publishes(run, i, other)
      ensures !ElectedAfter(run, other, who)
    {
      assert i != n && j != n;
      assert LastBefore(run, n, j, who);
    }
  }

  /** The published snapshot is that of the latest-elected leader to have published, in all
      states up to `n`, if and only if no publication before `n` was overtaken. */
  lemma {:induction false} AlwaysNewestIff(run: Interleaving, n: nat)
    requires IsRun(run) && n <= |run.events|
    ensures (forall i: nat :: i <= n ==> Newest(run, i)) <==>
            (forall i: nat, who: nat :: i < n && Publishes(run, i, who) ==> !Overtaken(run, i, who))
  {
    if n > 0 {
      AlwaysNewestIff(run, n - 1);
      if PublishesAny(run, n - 1) {
        var who :| Publishes(run, n - 1, who);
        StaleIff(run, n - 1, who);
      } else if Newest(run, n - 1) {
        QuietNewest(run, n - 1);
      }
    }
  }

  /** The publication at step `n` takes the place of a result of a leader elected later. */
  ghost predicate ReplacesNewer(run: Interleaving, n: nat, who: nat)
    requires |run.states| == |run.events| + 1
  {
    exists j: nat, w: nat :: LastBefore(run, n, j, w) && ElectedAfter(run, w, who)
  }

  /** A publication replaces a newer result if and only if the last one before it came from a
      leader that overtook it; while the newest result is published, any overtaking shows. */
  lemma ReplacesNewerIff(run: Interleaving, n: nat, who: nat)
    requires IsRun(run) && Publishes(run, n, who)
    ensures ReplacesNewer(run, n, who) <==>
            exists i: nat, k: nat, j: nat, w: nat :: LastBefore(run, n, j, w) && Passes(run, i, k, j, w, who)
    ensures Newest(run, n) ==> (ReplacesNewer(run, n, who) <==> Overtaken(run, n, who))
  {
    if ReplacesNewer(run, n, who) {
      var j: nat, w: nat :| LastBefore(run, n, j, w) && ElectedAfter(run, w, who);
      PassesIff(run, j, w, who);
    }
    if i: nat, k: nat, j: nat, w: nat :| LastBefore(run, n, j, w) && Passes(run, i, k, j, w, who) {
      PassesIff(run, j, w, who);
    }
    if Newest(run, n) && Overtaken(run, n, who) {
      var i: nat, k: nat, j: nat, other: nat :| j < n && Passes(run, i, k, j, other, who);
      PassesIff(run, j, other, who);
      var last, w := LastPublication(run, n, j, other);
      AfterTransitive(run, other, w, who, j, last);
    }
  }

  lemma {:induction false} LastPublication(run: Interleaving, n: nat, j: nat, other: nat) returns (last: nat, w: nat)
    requires IsRun(run) && n <= |run.events| && j < n && Publishes(run, j, other)
    ensures LastBefore(run, n, last, w)
  {
    if PublishesAny(run, n - 1) {
      last := n - 1;
      w :| Publishes(run, last, w);
    } else {
      last, w := LastPublication(run, n - 1, j, other);
    }
  }

  /** If `other` was elected after `who` and not after `w`, then `w` was elected after `who`. */
  lemma AfterTransitive(run: Interleaving, other: nat, w: nat, who: nat, j: nat, last: nat)
    requires IsRun(run) && Publishes(run, j, other) && Publishes(run, last, w)
    requires ElectedAfter(run, other, who) && !ElectedAfter(run, other, w)
    ensures ElectedAfter(run, w, who)
  {
    AlwaysInv(run, last);
    var k := PublisherElected(run, last, w);
    var a: nat, b: nat :| a < b && Elects(run, a, who) && Elects(run, b, other);
    assert b <= k;
    assert Elects(run, k, w);
  }
}
