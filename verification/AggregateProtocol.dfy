/**
 Aggregations of windows running side by side with each other and with ingest.

 Events are only ever appended, in commit order. An aggregation tries the advisory lock of its
 window and gives up if another transaction holds it; the lock key hashes the window start
 formatted to whole seconds, so different windows may collide. A call is for the window its
 instant falls in. Its statement sees the events
 committed before it, and its rows appear, and its lock is released, when it commits.
 */
module AggregateProtocol {
  import opened Options
  import opened Sums
  import opened Windows
  import opened Aggregation
  import opened Stats

  type CallId = int

  datatype Config = Config(size: int, hash: int -> int)

  datatype Outcome = Touched(users: nat) | BucketLocked | Failed

  datatype Call =
    | Begun(start: int)
    | Holding(start: int)
    | Computed(start: int, seen: nat, rolled: seq<UserRow>)
    | Returned(outcome: Outcome)

  /** `asOf` is history: how many events the last committed aggregation of each window had seen. */
  datatype State = State(events: seq<Event>, buckets: Buckets, asOf: map<int, nat>, calls: map<CallId, Call>)

  datatype Action =
    | Ingest(added: seq<Event>)
    | Invoke(p: CallId, at: int)
    | TryLock(p: CallId)
    | Execute(p: CallId)
    | Commit(p: CallId, reported: bool)
    | Abort(p: CallId)

  function Key(c: Config, start: int): int {
    c.hash(BucketStart(start, SECOND))
  }

  function HeldKey(c: Config, call: Call): Option<int> {
    match call
    case Holding(start) => Some(Key(c, start))
    case Computed(start, _, _) => Some(Key(c, start))
    case _ => None
  }

  ghost predicate KeyFree(c: Config, s: State, start: int) {
    forall q | q in s.calls :: HeldKey(c, s.calls[q]) != Some(Key(c, start))
  }

  ghost predicate Enabled(c: Config, s: State, a: Action) {
    match a
    case Ingest(_) => true
    case Invoke(p, _) => p !in s.calls && c.size > 0
    case TryLock(p) => p in s.calls && s.calls[p].Begun?
    case Execute(p) => p in s.calls && s.calls[p].Holding?
    case Commit(p, _) => p in s.calls && s.calls[p].Computed?
    case Abort(p) => p in s.calls && !s.calls[p].Returned?
  }

  function Window(c: Config, events: seq<Event>, start: int): seq<Event> {
    Between(events, start, start + c.size)
  }

  ghost function Apply(c: Config, s: State, a: Action): State
    requires Enabled(c, s, a)
  {
    match a
    case Ingest(added) => s.(events := s.events + added)
    case Invoke(p, at) => s.(calls := s.calls[p := Begun(BucketStart(at, c.size))])
    case TryLock(p) =>
      var start := s.calls[p].start;
      s.(calls := s.calls[p := if KeyFree(c, s, start) then Holding(start) else Returned(BucketLocked)])
    case Execute(p) =>
      var start := s.calls[p].start;
      s.(calls := s.calls[p := Computed(start, |s.events|, Rolled(PerType(Window(c, s.events, start))))])
    case Commit(p, reported) =>
      var call := s.calls[p];
      State(s.events, Upsert(s.buckets, call.start, call.rolled), s.asOf[call.start := call.seen],
            s.calls[p := Returned(if reported then Touched(|call.rolled|) else Failed)])
    case Abort(p) => s.(calls := s.calls[p := Returned(Failed)])
  }

  // ---------------------------------------------------------------- the invariant

  /** The stored row of one key is the direct fold of what the last aggregation of its window had seen. */
  ghost predicate RowOk(c: Config, s: State, key: (UserId, int)) {
    if key.1 in s.asOf && s.asOf[key.1] <= |s.events|
    then var window := Window(c, s.events[..s.asOf[key.1]], key.1);
         && (key in s.buckets <==> key.0 in Users(window))
         && (key in s.buckets ==> s.buckets[key] == Direct(window, key.0))
    else key !in s.buckets
  }

  ghost predicate CallOk(c: Config, s: State, call: Call) {
    call.Computed? ==>
      && call.seen <= |s.events|
      && call.rolled == Rolled(PerType(Window(c, s.events[..call.seen], call.start)))
  }

  /** What the holder of a window's lock overwrites is no newer than what it has seen or will see. */
  ghost predicate NotAhead(s: State, call: Call) {
    call.Computed? && call.start in s.asOf ==> s.asOf[call.start] <= call.seen
  }

  ghost predicate Inv(c: Config, s: State) {
    && (forall start | start in s.asOf :: s.asOf[start] <= |s.events|)
    && (forall key :: RowOk(c, s, key))
    && (forall p | p in s.calls :: CallOk(c, s, s.calls[p]) && NotAhead(s, s.calls[p]))
    && (forall p, q | p in s.calls && q in s.calls && p != q && HeldKey(c, s.calls[p]).Some? ::
          HeldKey(c, s.calls[p]) != HeldKey(c, s.calls[q]))
  }

  lemma IngestStep(c: Config, s: State, a: Action)
    requires Inv(c, s) && a.Ingest?
    ensures Inv(c, Apply(c, s, a))
  {
    var s' := Apply(c, s, a);
    forall n | 0 <= n <= |s.events|
      ensures s'.events[..n] == s.events[..n]
    {
    }
    forall key
      ensures RowOk(c, s', key)
    {
      assert RowOk(c, s, key);
    }
  }

  lemma QuietStep(c: Config, s: State, a: Action)
    requires Inv(c, s) && Enabled(c, s, a) && !a.Ingest? && !a.Commit?
    ensures Inv(c, Apply(c, s, a))
  {
    var s' := Apply(c, s, a);
    forall key
      ensures RowOk(c, s', key)
    {
      assert RowOk(c, s, key);
    }
    assert s.events[..|s.events|] == s.events;
  }

  lemma CommitStep(c: Config, s: State, a: Action)
    requires Inv(c, s) && Enabled(c, s, a) && a.Commit?
    ensures Inv(c, Apply(c, s, a))
  {
    var s' := Apply(c, s, a);
    var call := s.calls[a.p];
    forall key
      ensures RowOk(c, s', key)
    {
      CommitRow(c, s, a, key);
    }
    forall q | q in s'.calls
      ensures CallOk(c, s', s'.calls[q]) && NotAhead(s', s'.calls[q])
    {
      if q != a.p {
        assert CallOk(c, s, s.calls[q]);
        if s.calls[q].Computed? { assert HeldKey(c, s.calls[q]) != HeldKey(c, call); }
      }
    }
  }

  lemma CommitRow(c: Config, s: State, a: Action, key: (UserId, int))
    requires Inv(c, s) && Enabled(c, s, a) && a.Commit?
    ensures RowOk(c, Apply(c, s, a), key)
  {
    var call := s.calls[a.p];
    assert RowOk(c, s, key) && CallOk(c, s, call) && NotAhead(s, call);
    AggregateRow(s.events[..call.seen], s.buckets, call.start, call.start + c.size, key);
    if key.1 == call.start && key in s.buckets {
      assert key == (key.0, call.start);
      StaysUser(c, s, call, key.0);
    }
  }

  /** A user who had a row before the commit has events in what the commit saw, so the row is overwritten. */
  lemma StaysUser(c: Config, s: State, call: Call, user: UserId)
    requires Inv(c, s) && call.Computed? && CallOk(c, s, call) && NotAhead(s, call)
    requires (user, call.start) in s.buckets
    ensures user in Users(Window(c, s.events[..call.seen], call.start))
  {
    assert RowOk(c, s, (user, call.start));
    var n, seen := s.asOf[call.start], s.events[..call.seen];
    assert s.events[..n] == seen[..n];
    BetweenExtends(seen, n, call.start, call.start + c.size);
    UsersExtend(Window(c, s.events[..n], call.start), Window(c, seen, call.start), user);
  }

  lemma UsersExtend(window: seq<Event>, more: seq<Event>, user: UserId)
    requires window <= more && user in Users(window)
    ensures user in Users(more)
  {
    var e :| e in window && e.user == user;
    assert e in more;
  }

  lemma InvStep(c: Config, s: State, a: Action)
    requires Inv(c, s) && Enabled(c, s, a)
    ensures Inv(c, Apply(c, s, a))
  {
    if a.Ingest? { IngestStep(c, s, a); } else if a.Commit? { CommitStep(c, s, a); } else { QuietStep(c, s, a); }
  }

  // ---------------------------------------------------------------- runs

  datatype Run = Run(states: seq<State>, actions: seq<Action>)

  ghost predicate Valid(c: Config, run: Run) {
    && |run.states| == |run.actions| + 1 && run.states[0] == State([], map[], map[], map[])
    && forall i {:trigger run.actions[i]} | 0 <= i < |run.actions| ::
         Enabled(c, run.states[i], run.actions[i]) && run.states[i + 1] == Apply(c, run.states[i], run.actions[i])
  }

  lemma {:induction false} InvAlways(c: Config, run: Run, i: nat)
    requires Valid(c, run) && i < |run.states|
    ensures Inv(c, run.states[i])
  {
    if i > 0 {
      InvAlways(c, run, i - 1);
      InvStep(c, run.states[i - 1], run.actions[i - 1]);
    }
  }

  /** In every reachable state the stored rows are sound: what the statistics queries rely on. */
  lemma RowsAlwaysSound(c: Config, run: Run, i: nat)
    requires Valid(c, run) && i < |run.states|
    ensures RowsSound(run.states[i].buckets)
  {
    InvAlways(c, run, i);
    SoundIn(c, run.states[i]);
  }

  lemma SoundIn(c: Config, s: State)
    requires Inv(c, s)
    ensures RowsSound(s.buckets)
  {
    forall key | key in s.buckets
      ensures s.buckets[key].types != map[]
              && s.buckets[key].count == Sum(s.buckets[key].types.Keys, CountIn(s.buckets[key]))
    {
      assert RowOk(c, s, key);
      DirectIsSound(Window(c, s.events[..s.asOf[key.1]], key.1), key.0);
    }
  }

  // ---------------------------------------------------------------- counts only grow

  /** `b'` counts at least what `b` counts, and spans at least its times. */
  ghost predicate AtLeast(b: Bucket, b': Bucket) {
    && b.count <= b'.count && b'.first <= b.first && b.last <= b'.last
    && forall t | t in b.types :: t in b'.types && b.types[t] <= b'.types[t]
  }

  lemma {:induction false} CountsExtend(window: seq<Event>, more: seq<Event>, user: UserId, kind: string)
    requires window <= more
    ensures CountOf(window, user, kind) <= CountOf(more, user, kind) && Total(window, user) <= Total(more, user)
  {
    if |window| < |more| {
      CountsExtend(window, more[..|more| - 1], user, kind);
    } else {
      assert window == more;
    }
  }

  lemma {:induction false} BetweenExtends(events: seq<Event>, n: nat, start: int, end: int)
    requires n <= |events|
    ensures Between(events[..n], start, end) <= Between(events, start, end)
  {
    if n < |events| {
      var k := |events| - 1;
      BetweenExtends(events[..k], n, start, end);
      assert events[..k][..n] == events[..n];
    } else {
      assert events[..n] == events;
    }
  }

  lemma DirectExtends(window: seq<Event>, more: seq<Event>, user: UserId)
    requires window <= more && user in Users(window)
    ensures user in Users(more) && AtLeast(Direct(window, user), Direct(more, user))
  {
    var e :| e in window && e.user == user;
    assert e in more;
    forall t | t in Kinds(window, user)
      ensures t in Kinds(more, user) && CountOf(window, user, t) <= CountOf(more, user, t)
    {
      var x :| x in window && x.user == user && x.kind == t;
      assert x in more;
      CountsExtend(window, more, user, t);
    }
    CountsExtend(window, more, user, e.kind);
    forall t | t in Times(window, user)
      ensures t in Times(more, user)
    {
      var x :| x in window && x.user == user && x.at == t;
      assert x in more;
    }
  }

  lemma SeenGrows(c: Config, s: State, a: Action, start: int)
    requires Inv(c, s) && Enabled(c, s, a) && start in s.asOf
    ensures var s' := Apply(c, s, a);
            s.events <= s'.events && start in s'.asOf && s.asOf[start] <= s'.asOf[start]
  {
    if a.Commit? { assert NotAhead(s, s.calls[a.p]); }
  }

  lemma {:induction false} SeenGrowsAlong(c: Config, run: Run, i: nat, j: nat, start: int)
    requires Valid(c, run) && i <= j < |run.states| && start in run.states[i].asOf
    ensures var s, s' := run.states[i], run.states[j];
            s.events <= s'.events && start in s'.asOf && s.asOf[start] <= s'.asOf[start]
    decreases j
  {
    if i < j {
      SeenGrowsAlong(c, run, i, j - 1, start);
      SeenGrowsAt(c, run, j - 1, start);
    }
  }

  lemma SeenGrowsAt(c: Config, run: Run, i: nat, start: int)
    requires Valid(c, run) && i + 1 < |run.states| && start in run.states[i].asOf
    ensures var s, s' := run.states[i], run.states[i + 1];
            s.events <= s'.events && start in s'.asOf && s.asOf[start] <= s'.asOf[start]
  {
    InvAlways(c, run, i);
    SeenGrows(c, run.states[i], run.actions[i], start);
  }

  /**
   No interleaving of aggregations, failures and ingest ever takes a stored row away, lowers its
   count or any of its type counts, or narrows its time bounds.
   */
  lemma CountsNeverDecrease(c: Config, run: Run, i: nat, j: nat, key: (UserId, int))
    requires Valid(c, run) && i <= j < |run.states| && key in run.states[i].buckets
    ensures key in run.states[j].buckets && AtLeast(run.states[i].buckets[key], run.states[j].buckets[key])
  {
    InvAlways(c, run, i);
    InvAlways(c, run, j);
    var s, s' := run.states[i], run.states[j];
    assert RowOk(c, s, key) && RowOk(c, s', key);
    SeenGrowsAlong(c, run, i, j, key.1);
    RowExtends(c, s, s', key);
  }

  lemma RowExtends(c: Config, s: State, s': State, key: (UserId, int))
    requires RowOk(c, s, key) && RowOk(c, s', key) && key in s.buckets && s.events <= s'.events
    requires key.1 in s.asOf && key.1 in s'.asOf && s.asOf[key.1] <= s'.asOf[key.1] <= |s'.events|
             && s.asOf[key.1] <= |s.events|
    ensures key in s'.buckets && AtLeast(s.buckets[key], s'.buckets[key])
  {
    var n, n' := s.asOf[key.1], s'.asOf[key.1];
    assert s'.events[..n'][..n] == s.events[..n];
    BetweenExtends(s'.events[..n'], n, key.1, key.1 + c.size);
    DirectExtends(Window(c, s.events[..n], key.1), Window(c, s'.events[..n'], key.1), key.0);
  }

  /** Another transaction holds the key of the window that `p` is about to try. */
  ghost predicate Held(c: Config, s: State, p: CallId) {
    && p in s.calls && s.calls[p].Begun?
    && exists q :: q in s.calls && q != p && HeldKey(c, s.calls[q]) == Some(Key(c, s.calls[p].start))
  }

  ghost predicate Lost(s: State, p: CallId) {
    p in s.calls && s.calls[p] == Returned(BucketLocked)
  }

  lemma LosesOrKeeps(c: Config, s: State, s': State, a: Action, p: CallId)
    requires Enabled(c, s, a) && s' == Apply(c, s, a) && Lost(s', p)
    ensures Lost(s, p) || (a == TryLock(p) && Held(c, s, p))
  {
  }

  /**
   A call that came back because its window was locked met another transaction that held the
   window's key at that moment, and in the whole run it never changed a row.
   */
  lemma {:induction false} LosersChangeNothing(c: Config, run: Run, j: nat, p: CallId) returns (i: nat)
    requires Valid(c, run) && j < |run.states| && Lost(run.states[j], p)
    ensures i < j && run.actions[i] == TryLock(p) && Held(c, run.states[i], p)
    ensures forall k | 0 <= k < j && !run.actions[k].Ingest? && run.actions[k].p == p ::
              run.states[k + 1].buckets == run.states[k].buckets && run.states[k + 1].asOf == run.states[k].asOf
    decreases j
  {
    var a := run.actions[j - 1];
    LosesOrKeeps(c, run.states[j - 1], run.states[j], a, p);
    if a == TryLock(p) && Held(c, run.states[j - 1], p) {
      i := j - 1;
    } else {
      i := LosersChangeNothing(c, run, j - 1, p);
    }
    forall k | 0 <= k < j && !run.actions[k].Ingest? && run.actions[k].p == p
      ensures run.states[k + 1].buckets == run.states[k].buckets && run.states[k + 1].asOf == run.states[k].asOf
    {
      assert run.states[k + 1] == Apply(c, run.states[k], run.actions[k]);
      if run.actions[k].Commit? { ReturnedForGood(c, run, k + 1, j, p); }
    }
  }

  lemma {:induction false} ReturnedForGood(c: Config, run: Run, i: nat, j: nat, p: CallId)
    requires Valid(c, run) && i <= j < |run.states| && p in run.states[i].calls && run.states[i].calls[p].Returned?
    ensures p in run.states[j].calls && run.states[j].calls[p] == run.states[i].calls[p]
    decreases j
  {
    if i < j {
      ReturnedForGood(c, run, i, j - 1, p);
      ReturnedAt(c, run, j - 1, p);
    }
  }

  lemma ReturnedAt(c: Config, run: Run, i: nat, p: CallId)
    requires Valid(c, run) && i + 1 < |run.states| && p in run.states[i].calls && run.states[i].calls[p].Returned?
    ensures p in run.states[i + 1].calls && run.states[i + 1].calls[p] == run.states[i].calls[p]
  {
    assert run.states[i + 1] == Apply(c, run.states[i], run.actions[i]);
  }

  // ---------------------------------------------------------------- what the answers say

  /** A call that tries a window whose key another transaction holds comes back for good; else it holds the key. */
  lemma TryingAnswers(c: Config, run: Run, i: nat, j: nat, p: CallId)
    requires Valid(c, run) && i < j < |run.states| && run.actions[i] == TryLock(p)
    ensures Held(c, run.states[i], p) ==> Lost(run.states[j], p)
    ensures !Held(c, run.states[i], p) ==> run.states[i + 1].calls[p] == Holding(run.states[i].calls[p].start)
  {
    assert run.states[i + 1] == Apply(c, run.states[i], run.actions[i]);
    if Held(c, run.states[i], p) { ReturnedForGood(c, run, i + 1, j, p); }
  }

  ghost predicate Did(run: Run, j: nat, a: Action) {
    exists k: nat :: k < j && k < |run.actions| && run.actions[k] == a
  }

  /** The call was asked for a time in the window. */
  ghost predicate Asked(c: Config, run: Run, j: nat, p: CallId, start: int)
    requires c.size > 0
  {
    exists at :: Did(run, j, Invoke(p, at)) && Aligned(start, c.size) && start <= at < start + c.size
  }

  ghost predicate ExecutesAt(c: Config, run: Run, k: nat, p: CallId, start: int, users: nat)
  {
    && k < |run.actions| && k < |run.states| && run.actions[k] == Execute(p)
    && users == |Users(Window(c, run.states[k].events, start))|
  }

  /** The statement of the call saw events of so many users in the window. */
  ghost predicate Saw(c: Config, run: Run, j: nat, p: CallId, start: int, users: nat) {
    exists k: nat :: k < j && ExecutesAt(c, run, k, p, start, users)
  }

  ghost predicate Justified(c: Config, run: Run, j: nat, p: CallId, outcome: Outcome)
    requires c.size > 0
  {
    match outcome
    case Touched(users) =>
      Did(run, j, Commit(p, true)) && exists start :: Asked(c, run, j, p, start) && Saw(c, run, j, p, start, users)
    case BucketLocked => Did(run, j, TryLock(p))
    case Failed => Did(run, j, Abort(p)) || Did(run, j, Commit(p, false))
  }

  ghost predicate Story(c: Config, run: Run, j: nat, p: CallId)
    requires c.size > 0 && j < |run.states| && p in run.states[j].calls
  {
    match run.states[j].calls[p]
    case Begun(start) => Asked(c, run, j, p, start)
    case Holding(start) => Asked(c, run, j, p, start)
    case Computed(start, _, rolled) => Asked(c, run, j, p, start) && Saw(c, run, j, p, start, |rolled|)
    case Returned(outcome) => Justified(c, run, j, p, outcome)
  }

  lemma HistoryGrows(c: Config, run: Run, j: nat)
    requires c.size > 0 && j < |run.actions|
    ensures Did(run, j + 1, run.actions[j])
    ensures forall a | Did(run, j, a) :: Did(run, j + 1, a)
    ensures forall p, start, users | Saw(c, run, j, p, start, users) :: Saw(c, run, j + 1, p, start, users)
  {
  }

  lemma AskedStays(c: Config, run: Run, j: nat, p: CallId, start: int)
    requires c.size > 0 && j < |run.actions| && Asked(c, run, j, p, start)
    ensures Asked(c, run, j + 1, p, start)
  {
    HistoryGrows(c, run, j);
    var at :| Did(run, j, Invoke(p, at)) && Aligned(start, c.size) && start <= at < start + c.size;
    assert Did(run, j + 1, Invoke(p, at));
  }

  lemma JustifiedStays(c: Config, run: Run, j: nat, p: CallId, outcome: Outcome)
    requires c.size > 0 && j < |run.actions| && Justified(c, run, j, p, outcome)
    ensures Justified(c, run, j + 1, p, outcome)
  {
    HistoryGrows(c, run, j);
    if outcome.Touched? {
      var start :| Asked(c, run, j, p, start) && Saw(c, run, j, p, start, outcome.users);
      AskedStays(c, run, j, p, start);
    }
  }

  lemma OtherStory(c: Config, run: Run, j: nat, p: CallId)
    requires c.size > 0 && j + 1 < |run.states| && j < |run.actions|
    requires p in run.states[j].calls && Story(c, run, j, p)
    requires p in run.states[j + 1].calls && run.states[j + 1].calls[p] == run.states[j].calls[p]
    ensures Story(c, run, j + 1, p)
  {
    HistoryGrows(c, run, j);
    var call := run.states[j].calls[p];
    if call.Returned? { JustifiedStays(c, run, j, p, call.outcome); } else { AskedStays(c, run, j, p, call.start); }
  }

  lemma MoverStory(c: Config, run: Run, j: nat, p: CallId)
    requires c.size > 0 && j + 1 < |run.states| && j < |run.actions| && Enabled(c, run.states[j], run.actions[j])
    requires run.states[j + 1] == Apply(c, run.states[j], run.actions[j])
    requires !run.actions[j].Ingest? && run.actions[j].p == p && (p in run.states[j].calls ==> Story(c, run, j, p))
    ensures p in run.states[j + 1].calls && Story(c, run, j + 1, p)
  {
    HistoryGrows(c, run, j);
    var s, a := run.states[j], run.actions[j];
    if a.Invoke? {
      assert Did(run, j + 1, Invoke(p, a.at));
    } else {
      AskedStays(c, run, j, p, s.calls[p].start);
      if a.Execute? {
        RowsAffected(Window(c, s.events, s.calls[p].start));
        assert ExecutesAt(c, run, j, p, s.calls[p].start, |run.states[j + 1].calls[p].rolled|);
      }
    }
  }

  lemma {:induction false} StoriesAreTrue(c: Config, run: Run, j: nat, p: CallId)
    requires c.size > 0 && Valid(c, run) && j < |run.states| && p in run.states[j].calls
    ensures Story(c, run, j, p)
  {
    if j > 0 {
      var i := j - 1;
      assert run.states[i + 1] == Apply(c, run.states[i], run.actions[i]);
      if p in run.states[i].calls { StoriesAreTrue(c, run, i, p); }
      if !run.actions[i].Ingest? && run.actions[i].p == p { MoverStory(c, run, i, p); }
      else { OtherStory(c, run, i, p); }
    }
  }

  /**
   A call that says how many users it touched has committed, for the window of the time it was asked
   for, and the number is that of the users with events in the window when its statement ran. Only a
   call that broke off, or whose commit went unreported, says that it failed.
   */
  lemma AnswersHaveReasons(c: Config, run: Run, j: nat, p: CallId)
    requires c.size > 0 && Valid(c, run) && j < |run.states|
    requires p in run.states[j].calls && run.states[j].calls[p].Returned?
    ensures Justified(c, run, j, p, run.states[j].calls[p].outcome)
  {
    StoriesAreTrue(c, run, j, p);
  }

  lemma BrokenFails(c: Config, run: Run, i: nat, j: nat, p: CallId)
    requires Valid(c, run) && i < j < |run.states| && (run.actions[i] == Abort(p) || run.actions[i] == Commit(p, false))
    ensures p in run.states[j].calls && run.states[j].calls[p] == Returned(Failed)
  {
    assert run.states[i + 1] == Apply(c, run.states[i], run.actions[i]);
    ReturnedForGood(c, run, i + 1, j, p);
  }

  // ---------------------------------------------------------------- when rows are up to date

  ghost predicate LateFor(c: Config, s: State, user: UserId, start: int, k: int)
    requires 0 <= k < |s.events|
  {
    s.events[k].user == user && start <= s.events[k].at < start + c.size
  }

  /**
   The stored row of a user and window agrees with the raw events exactly when no event of that
   user and window was committed after the last aggregation of the window read its events.
   */
  lemma RowsAreAsOfTheLastAggregation(c: Config, run: Run, i: nat, user: UserId, start: int)
    requires Valid(c, run) && i < |run.states| && start in run.states[i].asOf
    ensures var s := run.states[i];
            && s.asOf[start] <= |s.events|
            && (InSync(s.buckets, s.events, user, start, c.size) <==>
                  forall k | s.asOf[start] <= k < |s.events| :: !LateFor(c, s, user, start, k))
  {
    InvAlways(c, run, i);
    var s := run.states[i];
    var n := s.asOf[start];
    assert RowOk(c, s, (user, start));
    if k :| n <= k < |s.events| && LateFor(c, s, user, start, k) {
      LateMeansStale(c, s, user, start, k);
    } else {
      NotLateMeansInSync(c, s, user, start);
    }
  }

  lemma LateMeansStale(c: Config, s: State, user: UserId, start: int, k: int)
    requires RowOk(c, s, (user, start)) && start in s.asOf && s.asOf[start] <= k < |s.events|
             && LateFor(c, s, user, start, k)
    ensures !InSync(s.buckets, s.events, user, start, c.size)
  {
    LateEventCounts(c, s.events, s.asOf[start], k, user, start);
    InBetween(s.events, start, start + c.size, s.events[k]);
    assert user in Users(Window(c, s.events, start));
    if InSync(s.buckets, s.events, user, start, c.size) {
      InSyncCount(c, s, user, start);
      RowCount(c, s, user, start);
    }
  }

  lemma InSyncCount(c: Config, s: State, user: UserId, start: int)
    requires InSync(s.buckets, s.events, user, start, c.size) && user in Users(Window(c, s.events, start))
    ensures (user, start) in s.buckets && s.buckets[(user, start)].count == Total(Window(c, s.events, start), user)
  {
  }

  lemma RowCount(c: Config, s: State, user: UserId, start: int)
    requires RowOk(c, s, (user, start)) && start in s.asOf && s.asOf[start] <= |s.events| && (user, start) in s.buckets
    ensures s.buckets[(user, start)].count == Total(Window(c, s.events[..s.asOf[start]], start), user)
  {
  }

  lemma NotLateMeansInSync(c: Config, s: State, user: UserId, start: int)
    requires RowOk(c, s, (user, start)) && start in s.asOf && s.asOf[start] <= |s.events|
    requires forall k | s.asOf[start] <= k < |s.events| :: !LateFor(c, s, user, start, k)
    ensures InSync(s.buckets, s.events, user, start, c.size)
  {
    var n := s.asOf[start];
    forall k | n <= k < |s.events|
      ensures !(s.events[k].user == user && start <= s.events[k].at < start + c.size)
    {
      assert !LateFor(c, s, user, start, k);
    }
    NoLateSameRow(c, s.events, n, user, start);
  }

  lemma NoLateSameRow(c: Config, events: seq<Event>, n: nat, user: UserId, start: int)
    requires n <= |events|
    requires forall k | n <= k < |events| :: !(events[k].user == user && start <= events[k].at < start + c.size)
    ensures var seen, now := Window(c, events[..n], start), Window(c, events, start);
            && (user in Users(seen) <==> user in Users(now))
            && (user in Users(seen) ==> Direct(seen, user) == Direct(now, user))
  {
    NoLateEvents(c, events, n, user, start);
    NoLateCounts(c, events, n, user, start, "");
    forall t
      ensures CountOf(Window(c, events[..n], start), user, t) == CountOf(Window(c, events, start), user, t)
    {
      NoLateCounts(c, events, n, user, start, t);
    }
    SameEventsSameRow(Window(c, events[..n], start), Window(c, events, start), user);
  }

  /** The row of a user depends on the events of that user alone. */
  lemma SameEventsSameRow(window: seq<Event>, more: seq<Event>, user: UserId)
    requires forall e: Event | e.user == user :: e in window <==> e in more
    requires Total(window, user) == Total(more, user) && forall t :: CountOf(window, user, t) == CountOf(more, user, t)
    ensures user in Users(window) <==> user in Users(more)
    ensures user in Users(window) ==> Direct(window, user) == Direct(more, user)
  {
    if e :| e in window && e.user == user { assert e in more; }
    if e :| e in more && e.user == user { assert e in window; }
    assert Kinds(window, user) == Kinds(more, user);
    assert Times(window, user) == Times(more, user);
  }

  lemma LateEventCounts(c: Config, events: seq<Event>, n: nat, k: nat, user: UserId, start: int)
    requires n <= k < |events| && events[k].user == user && start <= events[k].at < start + c.size
    ensures Total(Window(c, events[..n], start), user) < Total(Window(c, events, start), user)
  {
    var p := InSpan(OfUser(user), start, start + c.size);
    WindowCounts(events[..n], start, start + c.size, user, "");
    WindowCounts(events, start, start + c.size, user, "");
    assert p(events[k]);
    CountsLate(events, n, k, p);
  }

  lemma NoLateCounts(c: Config, events: seq<Event>, n: nat, user: UserId, start: int, kind: string)
    requires n <= |events|
    requires forall k | n <= k < |events| :: !(events[k].user == user && start <= events[k].at < start + c.size)
    ensures var seen, now := Window(c, events[..n], start), Window(c, events, start);
            Total(seen, user) == Total(now, user) && CountOf(seen, user, kind) == CountOf(now, user, kind)
  {
    WindowCounts(events[..n], start, start + c.size, user, kind);
    WindowCounts(events, start, start + c.size, user, kind);
    CountExtends(events, n, InSpan(OfUser(user), start, start + c.size));
    CountExtends(events, n, InSpan(OfKind(user, kind), start, start + c.size));
  }

  lemma NoLateEvents(c: Config, events: seq<Event>, n: nat, user: UserId, start: int)
    requires n <= |events|
    requires forall k | n <= k < |events| :: !(events[k].user == user && start <= events[k].at < start + c.size)
    ensures forall e: Event | e.user == user :: e in Window(c, events[..n], start) <==> e in Window(c, events, start)
  {
    assert events == events[..n] + events[n..];
    forall e: Event | e.user == user
      ensures e in Window(c, events[..n], start) <==> e in Window(c, events, start)
    {
      InBetween(events[..n], start, start + c.size, e);
      InBetween(events, start, start + c.size, e);
    }
  }

  // ---------------------------------------------------------------- the statistics of a run

  function StartOf(call: Call): Option<int> {
    if call.Returned? then None else Some(call.start)
  }

  /** Only windows are ever aggregated. */
  ghost predicate StartsAligned(c: Config, s: State)
    requires c.size > 0
  {
    && (forall start | start in s.asOf :: Aligned(start, c.size))
    && (forall p | p in s.calls && StartOf(s.calls[p]).Some? :: Aligned(StartOf(s.calls[p]).value, c.size))
  }

  lemma StartsStep(c: Config, s: State, a: Action)
    requires c.size > 0 && StartsAligned(c, s) && Enabled(c, s, a)
    ensures StartsAligned(c, Apply(c, s, a))
  {
  }

  lemma {:induction false} StartsAlwaysAligned(c: Config, run: Run, i: nat)
    requires c.size > 0 && Valid(c, run) && i < |run.states|
    ensures StartsAligned(c, run.states[i])
  {
    if i > 0 {
      StartsAlwaysAligned(c, run, i - 1);
      StartsStep(c, run.states[i - 1], run.actions[i - 1]);
    }
  }

  /** The window was aggregated, and no event of the user has come into it since that read its events. */
  ghost predicate UpToDate(c: Config, s: State, user: UserId, start: int) {
    && start in s.asOf && s.asOf[start] <= |s.events|
    && forall k | s.asOf[start] <= k < |s.events| :: !LateFor(c, s, user, start, k)
  }

  lemma UpToDateIsInSync(c: Config, s: State, user: UserId, windows: set<int>)
    requires Inv(c, s) && forall b | b in windows :: UpToDate(c, s, user, b)
    ensures AllInSync(s.buckets, s.events, user, windows, c.size)
  {
    forall b | b in windows
      ensures InSync(s.buckets, s.events, user, b, c.size)
    {
      assert RowOk(c, s, (user, b));
      NotLateMeansInSync(c, s, user, b);
    }
  }

  /**
   In every run: when windows divide the day, a whole UTC day whose windows were all aggregated
   after the user's last event in them came in reads as a direct count of its raw events.
   */
  lemma DayOfARunIsRaw(c: Config, run: Run, i: nat, user: UserId, from: int, to: int, day: int)
    requires Valid(c, run) && i < |run.states| && c.size > 0 && DAY % c.size == 0
    requires Aligned(day, DAY) && from <= day && day + DAY <= to
    requires forall b | b in DayWindows(day, c.size) :: UpToDate(c, run.states[i], user, b)
    ensures var s := run.states[i];
            var days, raw := Daily(s.buckets, user, from, to), Between(s.events, day, day + DAY);
            (day in days <==> user in Users(raw)) && (day in days ==> CountsRaw(days[day], raw, user))
  {
    InvAlways(c, run, i);
    StartsAlwaysAligned(c, run, i);
    DayIsRaw(c, run.states[i], user, from, to, day);
  }

  lemma DayIsRaw(c: Config, s: State, user: UserId, from: int, to: int, day: int)
    requires c.size > 0 && Inv(c, s) && StartsAligned(c, s) && DAY % c.size == 0
    requires Aligned(day, DAY) && from <= day && day + DAY <= to
    requires forall b | b in DayWindows(day, c.size) :: UpToDate(c, s, user, b)
    ensures var days, raw := Daily(s.buckets, user, from, to), Between(s.events, day, day + DAY);
            (day in days <==> user in Users(raw)) && (day in days ==> CountsRaw(days[day], raw, user))
  {
    SoundIn(c, s);
    RowsAreAligned(c, s, user);
    UpToDateIsInSync(c, s, user, DayWindows(day, c.size));
    DailyEqualsRaw(s.buckets, s.events, user, from, to, c.size, day);
  }

  lemma RowsAreAligned(c: Config, s: State, user: UserId)
    requires c.size > 0 && Inv(c, s) && StartsAligned(c, s)
    ensures RowsAligned(s.buckets, user, c.size)
  {
    forall key | key in s.buckets && key.0 == user
      ensures Aligned(key.1, c.size)
    {
      assert RowOk(c, s, key);
    }
  }
}
