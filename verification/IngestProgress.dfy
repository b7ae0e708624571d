/**
 Who waits for whom in concurrent ingest. Only an open batch makes others wait, so one open batch
 at a time never gets stuck. Batches insert in the order of their items, which is the caller's, so
 two of them with keys in opposite orders can come to wait for each other, and then one has to fail.
 */
module IngestProgress {
  import opened Options
  import opened Ingest
  import opened IngestProtocol
  import opened Sums

  predicate Unfinished(s: State, c: CallId) {
    c in s.calls && (s.calls[c].phase.Running? || s.calls[c].phase.Reading? || s.calls[c].phase.Settled?)
  }

  /** A call under way takes its next step without failing. */
  predicate Proceeds(a: Action) {
    !a.Invoke? && !a.Fail?
  }

  ghost predicate CanProceed(s: State) {
    exists a :: Proceeds(a) && Enabled(s, a)
  }

  /** The call is about to insert a draft whose key is in a row that another open batch has inserted. */
  ghost predicate Blocked(s: State, c: CallId) {
    && c in s.calls && s.calls[c].phase.Running? && Done(s.calls[c]) < |s.calls[c].drafts|
    && exists b :: BlockedBy(s, c, s.calls[c].drafts[Done(s.calls[c])], b)
  }

  predicate BlockedBy(s: State, c: CallId, d: Draft, b: CallId) {
    && b in s.calls && b != c && s.calls[b].batch && s.calls[b].phase.Running?
    && exists id | id in s.heap :: s.heap[id].owner == b && SameKey(s.heap[id].draft, d)
  }

  lemma WaitsMeansBlocked(s: State, c: CallId, d: Draft)
    requires Inv(s)
    ensures Waits(s, c, d) <==> exists b :: BlockedBy(s, c, d, b)
  {
    if Waits(s, c, d) {
      var id :| id in s.heap && Holds(s, id, d) && s.heap[id].owner != c && Live(s, id) && !Visible(s, id);
      assert TupleOk(s, id) && CallOk(s, s.heap[id].owner);
      assert BlockedBy(s, c, d, s.heap[id].owner);
    }
    if b :| BlockedBy(s, c, d, b) {
      var id :| id in s.heap && s.heap[id].owner == b && SameKey(s.heap[id].draft, d);
      assert Holds(s, id, d) && Live(s, id) && !Visible(s, id);
    }
  }

  lemma CallMoves(run: Run, i: nat, c: CallId)
    requires Valid(run) && i < |run.states| && Unfinished(run.states[i], c) && !Blocked(run.states[i], c)
    ensures CanProceed(run.states[i])
  {
    InvAlways(run, i);
    var s := run.states[i];
    var call := s.calls[c];
    assert CallOk(s, c);
    if call.phase.Settled? {
      assert Enabled(s, if call.told < |call.made| then Tell(c) else Return(c));
    } else if call.phase.Reading? {
      var id := ReadFindsItsRow(run, i, c);
      assert Enabled(s, Read(c, id));
    } else if Done(call) == |call.drafts| {
      assert Enabled(s, Commit(c));
    } else {
      WaitsMeansBlocked(s, c, call.drafts[Done(call)]);
      assert Enabled(s, Insert(c, Unused(s.heap.Keys)));
    }
  }

  /** Ingest is stuck exactly when every unfinished call is blocked by an open batch. */
  lemma StuckExactlyWhenAllAreBlocked(run: Run, i: nat)
    requires Valid(run) && i < |run.states|
    ensures !CanProceed(run.states[i]) <==> forall c | Unfinished(run.states[i], c) :: Blocked(run.states[i], c)
  {
    InvAlways(run, i);
    var s := run.states[i];
    if c :| Unfinished(s, c) && !Blocked(s, c) {
      CallMoves(run, i, c);
    } else if a :| Proceeds(a) && Enabled(s, a) {
      assert Unfinished(s, a.c) && Blocked(s, a.c);
      WaitsMeansBlocked(s, a.c, s.calls[a.c].drafts[Done(s.calls[a.c])]);
    }
  }

  /** While at most one batch is open, some unfinished call can take its next step. */
  lemma OneBatchNeverSticks(run: Run, i: nat, c: CallId)
    requires Valid(run) && i < |run.states| && Unfinished(run.states[i], c)
    requires forall b, d | b in run.states[i].calls && d in run.states[i].calls
                           && run.states[i].calls[b].batch && run.states[i].calls[b].phase.Running?
                           && run.states[i].calls[d].batch && run.states[i].calls[d].phase.Running? :: b == d
    ensures CanProceed(run.states[i])
  {
    var s := run.states[i];
    if Blocked(s, c) {
      var b :| BlockedBy(s, c, s.calls[c].drafts[Done(s.calls[c])], b);
      CallMoves(run, i, b);
    } else {
      CallMoves(run, i, c);
    }
  }

  // ---------------------------------------------------------------- two batches

  lemma Move(run: Run, s: State, a: Action, s': State) returns (longer: Run)
    requires Valid(run) && run.states[|run.actions|] == s && Enabled(s, a) && s' == Apply(s, a)
    ensures Valid(longer) && longer.states[|longer.actions|] == s'
  {
    longer := Run(run.states + [s'], run.actions + [a]);
    forall i | 0 <= i < |longer.actions|
      ensures Enabled(longer.states[i], longer.actions[i])
      ensures longer.states[i + 1] == Apply(longer.states[i], longer.actions[i])
    {
    }
  }

  function Batch(drafts: seq<Draft>, made: seq<int>): Call {
    Call(true, drafts, Running, made, 0, None, 0)
  }

  /** Each of two batches has inserted its first item, which is the second of the other. */
  function Crossed(d: Draft, e: Draft): State {
    State(map[1 := Tuple(d, 1, 0), 2 := Tuple(e, 2, 0)], map[1 := Batch([d, e], [1]), 2 := Batch([e, d], [2])], [])
  }

  lemma CrossedIsReached(d: Draft, e: Draft) returns (run: Run)
    requires d.key.Some? && e.key.Some? && !SameKey(d, e)
    ensures Valid(run) && run.states[|run.actions|] == Crossed(d, e)
  {
    var s1 := State(map[], map[1 := Batch([d, e], [])], []);
    var s2 := State(map[], map[1 := Batch([d, e], []), 2 := Batch([e, d], [])], []);
    var s3 := State(map[1 := Tuple(d, 1, 0)], map[1 := Batch([d, e], [1]), 2 := Batch([e, d], [])], []);
    run := Run([EMPTY], []);
    run := Move(run, EMPTY, Invoke(1, true, [d, e]), s1);
    run := Move(run, s1, Invoke(2, true, [e, d]), s2);
    assert [] + [1] == [1] && s2.calls[1 := Batch([d, e], [1])] == s3.calls;
    run := Move(run, s2, Insert(1, 1), s3);
    assert [] + [2] == [2] && s3.calls[2 := Batch([e, d], [2])] == Crossed(d, e).calls;
    assert s3.heap[2 := Tuple(e, 2, 0)] == Crossed(d, e).heap;
    run := Move(run, s3, Insert(2, 2), Crossed(d, e));
  }

  /** Any two keyed drafts, sent by two batches in opposite orders, can leave both waiting for each other. */
  lemma OppositeBatchesCanStick(d: Draft, e: Draft)
    requires d.key.Some? && e.key.Some? && !SameKey(d, e)
    ensures exists run :: Valid(run) && run.states[|run.actions|] == Crossed(d, e)
    ensures Unfinished(Crossed(d, e), 1) && Unfinished(Crossed(d, e), 2) && !CanProceed(Crossed(d, e))
  {
    var run := CrossedIsReached(d, e);
    var s := Crossed(d, e);
    assert BlockedBy(s, 1, e, 2) by { assert s.heap[2].owner == 2; }
    assert BlockedBy(s, 2, d, 1) by { assert s.heap[1].owner == 1; }
    StuckExactlyWhenAllAreBlocked(run, |run.actions|);
  }
}
