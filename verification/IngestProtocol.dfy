/**
 Concurrent ingest. The events table is a heap of tuples, each marked with the call whose
 transaction inserted it; a tuple is visible once that transaction has committed and dead once it
 has rolled back, so a commit shows all of a batch at once. An insert that meets a tuple of the
 same user and key waits while the tuple's transaction is open, does nothing if it is live, and
 goes ahead otherwise. A single insert commits as it is made; reading the row that stood in its
 way is a second statement. A call may fail before any of its steps, also after its commit.
 */
module IngestProtocol {
  import opened Options
  import opened Ingest

  type CallId = int

  datatype Tuple = Tuple(draft: Draft, owner: CallId, nth: nat)

  datatype Phase = Running | Reading | Settled | Returned | Aborted | CutOff

  /** `made` and `duplicates` are what the call will report; `told` counts the rows it has published. */
  datatype Call =
    Call(batch: bool, drafts: seq<Draft>, phase: Phase, made: seq<int>, duplicates: nat, found: Option<int>, told: nat)

  datatype State = State(heap: map<int, Tuple>, calls: map<CallId, Call>, published: seq<int>)

  datatype Action =
    | Invoke(c: CallId, batch: bool, drafts: seq<Draft>)
    | Insert(c: CallId, id: int)
    | Read(c: CallId, id: int)
    | Commit(c: CallId)
    | Tell(c: CallId)
    | Return(c: CallId)
    | Fail(c: CallId)

  function Done(call: Call): nat { |call.made| + call.duplicates }

  predicate Decided(p: Phase) { p.Settled? || p.Returned? || p.CutOff? }

  predicate Visible(s: State, id: int) {
    id in s.heap && s.heap[id].owner in s.calls && Decided(s.calls[s.heap[id].owner].phase)
  }

  /** Committed or still open: what the unique index minds. */
  predicate Live(s: State, id: int) {
    id in s.heap && s.heap[id].owner in s.calls && !s.calls[s.heap[id].owner].phase.Aborted?
  }

  predicate Holds(s: State, id: int, d: Draft) {
    id in s.heap && SameKey(s.heap[id].draft, d)
  }

  predicate Waits(s: State, c: CallId, d: Draft) {
    exists id | id in s.heap :: Holds(s, id, d) && s.heap[id].owner != c && Live(s, id) && !Visible(s, id)
  }

  predicate Conflicts(s: State, d: Draft) {
    exists id | id in s.heap :: Holds(s, id, d) && Live(s, id)
  }

  predicate Enabled(s: State, a: Action) {
    match a
    case Invoke(c, batch, drafts) => c !in s.calls && (batch || |drafts| == 1)
    case Insert(c, id) =>
      && c in s.calls && s.calls[c].phase.Running? && Done(s.calls[c]) < |s.calls[c].drafts|
      && id !in s.heap && !Waits(s, c, s.calls[c].drafts[Done(s.calls[c])])
    case Read(c, id) =>
      && c in s.calls && s.calls[c].phase.Reading? && s.calls[c].drafts != []
      && Holds(s, id, s.calls[c].drafts[0]) && Visible(s, id)
    case Commit(c) =>
      c in s.calls && s.calls[c].batch && s.calls[c].phase.Running? && Done(s.calls[c]) == |s.calls[c].drafts|
    case Tell(c) => c in s.calls && s.calls[c].phase.Settled? && s.calls[c].told < |s.calls[c].made|
    case Return(c) => c in s.calls && s.calls[c].phase.Settled? && s.calls[c].told == |s.calls[c].made|
    case Fail(c) =>
      c in s.calls && (s.calls[c].phase.Running? || s.calls[c].phase.Reading? || s.calls[c].phase.Settled?)
  }

  function Apply(s: State, a: Action): State
    requires Enabled(s, a)
  {
    match a
    case Invoke(c, batch, drafts) => s.(calls := s.calls[c := Call(batch, drafts, Running, [], 0, None, 0)])
    case Insert(c, id) =>
      var call := s.calls[c];
      var d := call.drafts[Done(call)];
      if Conflicts(s, d)
      then s.(calls := s.calls[c := call.(duplicates := call.duplicates + 1,
                                          phase := if call.batch then Running else Reading)])
      else s.(heap := s.heap[id := Tuple(d, c, Done(call))],
              calls := s.calls[c := call.(made := call.made + [id], phase := if call.batch then Running else Settled)])
    case Read(c, id) => s.(calls := s.calls[c := s.calls[c].(found := Some(id), phase := Settled)])
    case Commit(c) => s.(calls := s.calls[c := s.calls[c].(phase := Settled)])
    case Tell(c) =>
      var call := s.calls[c];
      s.(calls := s.calls[c := call.(told := call.told + 1)], published := s.published + [call.made[call.told]])
    case Return(c) => s.(calls := s.calls[c := s.calls[c].(phase := Returned)])
    case Fail(c) =>
      s.(calls := s.calls[c := s.calls[c].(phase := if s.calls[c].phase.Settled? then CutOff else Aborted)])
  }

  // ---------------------------------------------------------------- the invariant

  ghost predicate TupleOk(s: State, id: int)
    requires id in s.heap
  {
    var t := s.heap[id];
    t.owner in s.calls && id in s.calls[t.owner].made
  }

  /** The rows of a call are its drafts, in order, and carry its mark. */
  ghost predicate MadeOk(s: State, c: CallId, call: Call) {
    && (forall id | id in call.made ::
          && id in s.heap && s.heap[id].owner == c
          && s.heap[id].nth < Done(call) && s.heap[id].nth < |call.drafts|
          && s.heap[id].draft == call.drafts[s.heap[id].nth])
    && Ordered(s.heap, call.made)
  }

  /** The rows stand in the order of their drafts. */
  ghost predicate Ordered(heap: map<int, Tuple>, made: seq<int>) {
    && (forall k | 0 <= k < |made| :: made[k] in heap)
    && (forall k, l | 0 <= k < l < |made| :: heap[made[k]].nth < heap[made[l]].nth)
  }

  /** The draft is in the table: inserted by this call, or its key was there already. */
  ghost predicate Covered(s: State, c: CallId, i: nat)
    requires c in s.calls && i < |s.calls[c].drafts|
  {
    exists id :: Covers(s, c, i, s.calls[c].drafts[i], id)
  }

  predicate Covers(s: State, c: CallId, i: nat, d: Draft, id: int) {
    && id in s.heap
    && ((s.heap[id].owner == c && s.heap[id].nth == i)
        || (Holds(s, id, d) && (s.heap[id].owner == c || Visible(s, id))))
  }

  predicate PhaseOk(call: Call) {
    && call.told <= |call.made| && Done(call) <= |call.drafts|
    && (Decided(call.phase) || call.told == 0)
    && (call.phase.Returned? ==> call.told == |call.made|)
    && if call.batch
         then !call.phase.Reading? && call.found.None? && (Decided(call.phase) ==> Done(call) == |call.drafts|)
       else |call.drafts| == 1 && match call.phase
         case Running => Done(call) == 0 && call.found.None?
         case Reading => call.made == [] && call.duplicates == 1 && call.found.None?
         case Aborted => call.made == [] && call.found.None?
         case _ => Done(call) == 1 && (call.made == [] <==> call.found.Some?)
  }

  ghost predicate CallOk(s: State, c: CallId)
    requires c in s.calls
  {
    var call := s.calls[c];
    && PhaseOk(call) && MadeOk(s, c, call)
    && (forall i | 0 <= i < Done(call) :: Covered(s, c, i))
    && (call.found.Some? ==> !call.batch && Holds(s, call.found.value, call.drafts[0]) && Visible(s, call.found.value))
  }

  ghost predicate KeysUnique(s: State) {
    forall i, j | i in s.heap && j in s.heap && Live(s, i) && Live(s, j)
    && SameKey(s.heap[i].draft, s.heap[j].draft) :: i == j
  }

  /** Published so far: of every call the rows it has told of, none twice. */
  ghost predicate PublishedOk(s: State) {
    && (forall i | 0 <= i < |s.published| :: Told(s, s.published[i]))
    && (forall id | id in s.heap && Told(s, id) :: id in s.published)
    && (forall i, j | 0 <= i < j < |s.published| :: s.published[i] != s.published[j])
  }

  predicate Told(s: State, id: int) {
    && id in s.heap && s.heap[id].owner in s.calls
    && var call := s.calls[s.heap[id].owner];
    && call.told <= |call.made| && id in call.made[..call.told]
  }

  ghost predicate Inv(s: State) {
    && (forall id | id in s.heap :: TupleOk(s, id))
    && (forall c | c in s.calls :: CallOk(s, c))
    && KeysUnique(s)
    && PublishedOk(s)
  }

  // ---------------------------------------------------------------- every step keeps it

  /** A tuple never changes, and once visible it stays visible. */
  lemma TupleStays(s: State, a: Action, id: int)
    requires Enabled(s, a) && id in s.heap
    ensures id in Apply(s, a).heap && Apply(s, a).heap[id] == s.heap[id]
    ensures Visible(s, id) ==> Visible(Apply(s, a), id)
  {
  }

  lemma CoveredStays(s: State, s': State, a: Action, c: CallId, i: nat)
    requires Enabled(s, a) && s' == Apply(s, a)
    requires c in s.calls && c in s'.calls && i < |s.calls[c].drafts| && s'.calls[c].drafts == s.calls[c].drafts
    requires Covered(s, c, i)
    ensures Covered(s', c, i)
  {
    var d := s.calls[c].drafts[i];
    var id :| Covers(s, c, i, d, id);
    TupleStays(s, a, id);
    assert Covers(s', c, i, d, id);
  }

  lemma TuplesStep(s: State, a: Action)
    requires Inv(s) && Enabled(s, a)
    ensures forall id | id in Apply(s, a).heap :: TupleOk(Apply(s, a), id)
  {
    forall id | id in Apply(s, a).heap
      ensures TupleOk(Apply(s, a), id)
    {
      if id in s.heap { assert TupleOk(s, id); }
    }
  }

  lemma OrderedStays(heap: map<int, Tuple>, id: int, t: Tuple, made: seq<int>)
    requires Ordered(heap, made) && id !in heap
    requires forall m | m in made :: heap[m].nth < t.nth
    ensures Ordered(heap[id := t], made) && Ordered(heap[id := t], made + [id])
  {
    assert forall k | 0 <= k < |made| :: made[k] in made && made[k] != id;
  }

  lemma MadeStays(s: State, s': State, a: Action, c: CallId)
    requires Enabled(s, a) && s' == Apply(s, a) && c in s.calls && c in s'.calls
    requires MadeOk(s, c, s.calls[c]) && s'.calls[c].made == s.calls[c].made
    ensures MadeOk(s', c, s'.calls[c])
  {
    var made := s.calls[c].made;
    forall id | id in made
      ensures id in s'.heap && s'.heap[id] == s.heap[id]
    {
    }
    assert forall k | 0 <= k < |made| :: made[k] in made;
  }

  lemma MadeStep(s: State, a: Action, c: CallId)
    requires Inv(s) && Enabled(s, a) && c in Apply(s, a).calls
    ensures MadeOk(Apply(s, a), c, Apply(s, a).calls[c])
  {
    var s' := Apply(s, a);
    if c in s.calls {
      assert CallOk(s, c);
      if s'.calls[c].made == s.calls[c].made {
        MadeStays(s, s', a, c);
      } else {
        OrderedStays(s.heap, a.id, s'.heap[a.id], s.calls[c].made);
      }
    }
  }

  lemma PhaseStep(s: State, s': State, a: Action, c: CallId)
    requires Enabled(s, a) && s' == Apply(s, a) && c in s'.calls && (c in s.calls ==> PhaseOk(s.calls[c]))
    ensures PhaseOk(s'.calls[c])
  {
  }

  lemma CoverStep(s: State, a: Action, c: CallId, i: nat)
    requires Inv(s) && Enabled(s, a) && c in Apply(s, a).calls
    requires i < Done(Apply(s, a).calls[c]) && i < |Apply(s, a).calls[c].drafts|
    ensures Covered(Apply(s, a), c, i)
  {
    var s' := Apply(s, a);
    if c in s.calls && i < Done(s.calls[c]) {
      assert CallOk(s, c);
      CoveredStays(s, s', a, c, i);
    } else {
      InsertCovers(s, s', a);
    }
  }

  /** What is inserted next is covered, by the new row or by the one that was in its way. */
  lemma InsertCovers(s: State, s': State, a: Action)
    requires Enabled(s, a) && a.Insert? && s' == Apply(s, a)
    ensures a.c in s'.calls && s'.calls[a.c].drafts == s.calls[a.c].drafts && Covered(s', a.c, Done(s.calls[a.c]))
  {
    var i := Done(s.calls[a.c]);
    var d := s.calls[a.c].drafts[i];
    if Conflicts(s, d) {
      var id :| id in s.heap && Holds(s, id, d) && Live(s, id);
      assert Covers(s', a.c, i, d, id);
    } else {
      assert Covers(s', a.c, i, d, a.id);
    }
  }

  lemma FoundStep(s: State, a: Action, c: CallId)
    requires Inv(s) && Enabled(s, a) && c in Apply(s, a).calls && Apply(s, a).calls[c].found.Some?
    ensures var s' := Apply(s, a); var call := s'.calls[c];
            !call.batch && |call.drafts| == 1 && Holds(s', call.found.value, call.drafts[0])
            && Visible(s', call.found.value)
  {
    var id := Apply(s, a).calls[c].found.value;
    assert CallOk(s, c);
    FoundBefore(s, a, c);
    TupleStays(s, a, id);
  }

  /** A row that is found was there before the step that finds it. */
  lemma FoundBefore(s: State, a: Action, c: CallId)
    requires Enabled(s, a) && c in s.calls && PhaseOk(s.calls[c]) && c in Apply(s, a).calls
             && Apply(s, a).calls[c].found.Some?
    requires s.calls[c].found.Some? ==>
               !s.calls[c].batch && Holds(s, s.calls[c].found.value, s.calls[c].drafts[0])
               && Visible(s, s.calls[c].found.value)
    ensures var call := s.calls[c];
            && !call.batch && |call.drafts| == 1 && Apply(s, a).calls[c].drafts == call.drafts
            && !Apply(s, a).calls[c].batch
            && Holds(s, Apply(s, a).calls[c].found.value, call.drafts[0])
            && Visible(s, Apply(s, a).calls[c].found.value)
  {
  }

  lemma CallsStep(s: State, a: Action)
    requires Inv(s) && Enabled(s, a)
    ensures forall c | c in Apply(s, a).calls :: CallOk(Apply(s, a), c)
  {
    var s' := Apply(s, a);
    forall c | c in s'.calls
      ensures CallOk(s', c)
    {
      if c in s.calls { assert CallOk(s, c); }
      PhaseStep(s, s', a, c);
      MadeStep(s, a, c);
      forall i | 0 <= i < Done(s'.calls[c])
        ensures Covered(s', c, i)
      {
        CoverStep(s, a, c, i);
      }
      if s'.calls[c].found.Some? { FoundStep(s, a, c); }
    }
  }

  lemma NewKeyIsNew(s: State, d: Draft)
    requires !Conflicts(s, d)
    ensures forall i | i in s.heap && Live(s, i) :: !SameKey(s.heap[i].draft, d) && !SameKey(d, s.heap[i].draft)
  {
    forall i | i in s.heap && Live(s, i)
      ensures !Holds(s, i, d)
    {
    }
  }

  lemma KeysStep(s: State, a: Action)
    requires Inv(s) && Enabled(s, a)
    ensures KeysUnique(Apply(s, a))
  {
    var s' := Apply(s, a);
    if a.Insert? && a.id in s'.heap { NewKeyIsNew(s, s'.heap[a.id].draft); }
    forall i, j | i in s'.heap && j in s'.heap && Live(s', i) && Live(s', j)
                  && SameKey(s'.heap[i].draft, s'.heap[j].draft)
      ensures i == j
    {
      if i in s.heap { assert TupleOk(s, i) && Live(s, i); }
      if j in s.heap { assert TupleOk(s, j) && Live(s, j); }
    }
  }

  lemma QuietPublished(s: State, a: Action)
    requires Inv(s) && Enabled(s, a) && !a.Tell?
    ensures PublishedOk(Apply(s, a))
  {
    var s' := Apply(s, a);
    assert s'.published == s.published;
    forall id
      ensures Told(s, id) <==> Told(s', id)
    {
      if id in s.heap { assert TupleOk(s, id); }
      if a.c in s.calls { assert CallOk(s, a.c); }
      ToldStays(s, s', a, id);
    }
  }

  lemma ToldStays(s: State, s': State, a: Action, id: int)
    requires Enabled(s, a) && s' == Apply(s, a) && !a.Tell? && (id in s.heap ==> TupleOk(s, id))
    requires a.c in s.calls ==> PhaseOk(s.calls[a.c])
    ensures Told(s, id) <==> Told(s', id)
  {
  }

  lemma NotAmongEarlier(heap: map<int, Tuple>, made: seq<int>, k: nat)
    requires Ordered(heap, made) && k < |made|
    ensures made[k] !in made[..k]
  {
  }

  lemma PublishedTakes(s: State, s': State, next: int)
    requires PublishedOk(s) && s'.published == s.published + [next] && s'.heap == s.heap && next in s.heap
    requires !Told(s, next) && forall id :: Told(s', id) <==> Told(s, id) || id == next
    ensures PublishedOk(s')
  {
  }

  lemma TellPublished(s: State, a: Action)
    requires Inv(s) && Enabled(s, a) && a.Tell?
    ensures PublishedOk(Apply(s, a))
  {
    var s' := Apply(s, a);
    var call, call' := s.calls[a.c], s'.calls[a.c];
    var next := call.made[call.told];
    assert CallOk(s, a.c);
    assert call'.made[..call'.told] == call.made[..call.told] + [next];
    assert next in call.made;
    NotAmongEarlier(s.heap, call.made, call.told);
    forall id
      ensures Told(s', id) <==> Told(s, id) || id == next
    {
    }
    assert !Told(s, next);
    PublishedTakes(s, s', next);
  }

  lemma InvStep(s: State, a: Action)
    requires Inv(s) && Enabled(s, a)
    ensures Inv(Apply(s, a))
  {
    TuplesStep(s, a);
    CallsStep(s, a);
    KeysStep(s, a);
    if a.Tell? { TellPublished(s, a); } else { QuietPublished(s, a); }
  }

  // ---------------------------------------------------------------- runs

  datatype Run = Run(states: seq<State>, actions: seq<Action>)

  const EMPTY := State(map[], map[], [])

  /** A run of ingest calls from the empty table. */
  ghost predicate Valid(run: Run) {
    && |run.states| == |run.actions| + 1 && run.states[0] == EMPTY
    && forall i | 0 <= i < |run.actions| ::
         Enabled(run.states[i], run.actions[i]) && run.states[i + 1] == Apply(run.states[i], run.actions[i])
  }

  lemma {:induction false} InvAlways(run: Run, i: nat)
    requires Valid(run) && i < |run.states|
    ensures Inv(run.states[i])
  {
    if i > 0 {
      InvAlways(run, i - 1);
      InvStep(run.states[i - 1], run.actions[i - 1]);
    }
  }

  /** At most one row per user and key, in every reachable state. */
  lemma OneRowPerKey(run: Run, i: nat, x: int, y: int)
    requires Valid(run) && i < |run.states|
    requires var s := run.states[i]; Visible(s, x) && Visible(s, y) && SameKey(s.heap[x].draft, s.heap[y].draft)
    ensures x == y
  {
    InvAlways(run, i);
  }

  /** A row that is visible stays visible and never changes. */
  lemma {:induction false} RowsStay(run: Run, i: nat, j: nat, id: int)
    requires Valid(run) && i <= j < |run.states| && Visible(run.states[i], id)
    ensures Visible(run.states[j], id) && run.states[j].heap[id] == run.states[i].heap[id]
    decreases j - i
  {
    if i < j {
      RowStaysAt(run, i, id);
      RowsStay(run, i + 1, j, id);
    }
  }

  lemma RowStaysAt(run: Run, i: nat, id: int)
    requires Valid(run) && i + 1 < |run.states| && Visible(run.states[i], id)
    ensures Visible(run.states[i + 1], id) && run.states[i + 1].heap[id] == run.states[i].heap[id]
  {
    TupleStays(run.states[i], run.actions[i], id);
  }

  // ---------------------------------------------------------------- single events

  /** What a finished `Record` answers: the row, and whether this call created it. */
  function Answer(call: Call): (r: (int, bool))
    requires !call.batch && call.phase.Returned? && PhaseOk(call)
  {
    if call.made != [] then (call.made[0], true) else (call.found.value, false)
  }

  predicate Answered(s: State, c: CallId) {
    c in s.calls && !s.calls[c].batch && s.calls[c].phase.Returned? && PhaseOk(s.calls[c])
  }

  /** The answer is a visible row of the caller's own user and key; it is the caller's draft if it was created. */
  lemma RecordReturnsItsRow(run: Run, i: nat, c: CallId)
    requires Valid(run) && i < |run.states| && Answered(run.states[i], c)
    ensures var s := run.states[i]; var (id, created) := Answer(s.calls[c]); var d := s.calls[c].drafts[0];
            && Visible(s, id) && s.heap[id].draft.user == d.user && s.heap[id].draft.key == d.key
            && (created ==> s.heap[id].draft == d && s.heap[id].owner == c)
            && (!created ==> d.key.Some? && s.heap[id].owner != c)
            && (id in s.published || s.heap[id].owner != c)
  {
    InvAlways(run, i);
    var s := run.states[i];
    assert CallOk(s, c);
    var (id, created) := Answer(s.calls[c]);
    if created {
      assert id in s.calls[c].made && s.calls[c].made[..1] == s.calls[c].made;
      assert Told(s, id);
    } else {
      assert TupleOk(s, id);
    }
  }

  /**
   Calls of one user with one key, at whatever moments of a run they have returned, all answer the
   same row, and at most one of them says that it created it.
   */
  lemma RecordsAgree(run: Run, i: nat, c: CallId, j: nat, d: CallId)
    requires Valid(run) && i <= j < |run.states| && Answered(run.states[i], c) && Answered(run.states[j], d)
    requires SameKey(run.states[i].calls[c].drafts[0], run.states[j].calls[d].drafts[0])
    ensures Answer(run.states[i].calls[c]).0 == Answer(run.states[j].calls[d]).0
    ensures Answer(run.states[i].calls[c]).1 && Answer(run.states[j].calls[d]).1 ==> c == d
  {
    RecordReturnsItsRow(run, i, c);
    RecordReturnsItsRow(run, j, d);
    var id := Answer(run.states[i].calls[c]).0;
    RowsStay(run, i, j, id);
    OneRowPerKey(run, j, id, Answer(run.states[j].calls[d]).0);
  }

  /** An insert that did nothing always finds, on the next read, the one row that stood in its way. */
  lemma ReadFindsItsRow(run: Run, i: nat, c: CallId) returns (id: int)
    requires Valid(run) && i < |run.states| && c in run.states[i].calls && run.states[i].calls[c].phase.Reading?
    ensures Enabled(run.states[i], Read(c, id))
    ensures forall other | Enabled(run.states[i], Read(c, other)) :: other == id
  {
    InvAlways(run, i);
    var s := run.states[i];
    assert CallOk(s, c) && Covered(s, c, 0);
    id :| Covers(s, c, 0, s.calls[c].drafts[0], id);
    assert TupleOk(s, id);
  }

  // ---------------------------------------------------------------- who made a row

  /**
   Every visible row was made by exactly one call, whose transaction committed. That call reports
   it as created, and has published it once, unless it was cut off between its commit and its
   return; no other call ever reports it.
   */
  lemma EveryRowHasOneMaker(run: Run, i: nat, id: int)
    requires Valid(run) && i < |run.states| && Visible(run.states[i], id)
    ensures var s := run.states[i]; var maker := s.heap[id].owner;
            && maker in s.calls && Decided(s.calls[maker].phase) && id in s.calls[maker].made
            && (forall c | c in s.calls && id in s.calls[c].made :: c == maker)
            && ((exists c | c in s.calls :: s.calls[c].phase.Returned? && id in s.calls[c].made)
                <==> s.calls[maker].phase.Returned?)
            && (s.calls[maker].phase.Returned? ==> id in s.published)
  {
    InvAlways(run, i);
    var s := run.states[i];
    var maker := s.heap[id].owner;
    assert TupleOk(s, id);
    forall c | c in s.calls && id in s.calls[c].made
      ensures c == maker
    {
      assert CallOk(s, c);
    }
    assert CallOk(s, maker);
    if s.calls[maker].phase.Returned? {
      assert s.calls[maker].made[..s.calls[maker].told] == s.calls[maker].made;
      assert Told(s, id);
    }
  }

  /** Nothing is published twice, and nothing is published that is not in the table. */
  lemma PublishedOnce(run: Run, i: nat, k: nat, l: nat)
    requires Valid(run) && i < |run.states| && k < l < |run.states[i].published|
    ensures run.states[i].published[k] != run.states[i].published[l]
    ensures Visible(run.states[i], run.states[i].published[k]) && Visible(run.states[i], run.states[i].published[l])
  {
    InvAlways(run, i);
    var s := run.states[i];
    assert Told(s, s.published[k]) && Told(s, s.published[l]);
    assert CallOk(s, s.heap[s.published[k]].owner) && CallOk(s, s.heap[s.published[l]].owner);
  }

  // ---------------------------------------------------------------- batches

  /** The rows that a call has put into the table, as everyone else sees it. */
  ghost function RowsOf(s: State, c: CallId): set<int> {
    set id | id in s.heap && s.heap[id].owner == c && Visible(s, id)
  }

  /**
   A batch is stored as a whole or not at all: before its commit, and for good when it fails, the
   table holds none of its rows; from the commit on it holds exactly the reported ones, which are
   its drafts in order without the duplicates.
   */
  lemma BatchIsAllOrNothing(run: Run, i: nat, c: CallId)
    requires Valid(run) && i < |run.states| && c in run.states[i].calls && run.states[i].calls[c].batch
    ensures var s := run.states[i]; var call := s.calls[c];
            if Decided(call.phase) then
              && RowsOf(s, c) == (set id | id in call.made)
              && |call.made| + call.duplicates == |call.drafts|
              && (forall k | 0 <= k < |call.made| ::
                    call.made[k] in s.heap && s.heap[call.made[k]].nth < |call.drafts|
                    && s.heap[call.made[k]].draft == call.drafts[s.heap[call.made[k]].nth])
              && (forall k, l | 0 <= k < l < |call.made| :: s.heap[call.made[k]].nth < s.heap[call.made[l]].nth)
            else RowsOf(s, c) == {}
  {
    InvAlways(run, i);
    var s := run.states[i];
    assert CallOk(s, c);
    if Decided(s.calls[c].phase) {
      forall id
        ensures id in RowsOf(s, c) <==> id in s.calls[c].made
      {
        if id in s.heap { assert TupleOk(s, id); }
      }
      assert forall k | 0 <= k < |s.calls[c].made| :: s.calls[c].made[k] in s.calls[c].made;
    }
  }

  /** After a batch has returned, the table has a row for each of its drafts: its own, or an earlier one of that key. */
  lemma BatchCoversItsDrafts(run: Run, i: nat, c: CallId, n: nat) returns (id: int)
    requires Valid(run) && i < |run.states| && c in run.states[i].calls
    requires var call := run.states[i].calls[c]; call.batch && Decided(call.phase) && n < |call.drafts|
    ensures var s := run.states[i];
            && Visible(s, id)
            && ((s.heap[id].owner == c && s.heap[id].nth == n && s.heap[id].draft == s.calls[c].drafts[n])
                || SameKey(s.heap[id].draft, s.calls[c].drafts[n]))
  {
    InvAlways(run, i);
    var s := run.states[i];
    assert CallOk(s, c) && Covered(s, c, n);
    id :| Covers(s, c, n, s.calls[c].drafts[n], id);
    assert TupleOk(s, id);
  }

  /** Without an open batch no insert ever waits. */
  lemma OnlyBatchesBlock(run: Run, i: nat, c: CallId, d: Draft)
    requires Valid(run) && i < |run.states|
    requires forall b | b in run.states[i].calls && run.states[i].calls[b].batch ::
               !run.states[i].calls[b].phase.Running?
    ensures !Waits(run.states[i], c, d)
  {
    InvAlways(run, i);
    var s := run.states[i];
    forall id | id in s.heap && Live(s, id)
      ensures Visible(s, id)
    {
      assert TupleOk(s, id) && CallOk(s, s.heap[id].owner);
    }
  }
}
