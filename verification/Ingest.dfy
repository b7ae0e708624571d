/** Event ingest: what a request becomes, and what a single insert and a batch do to the table. */
module Ingest {
  import opened Options

  // ---------------------------------------------------------------- requests

  datatype Draft = Draft(user: int, kind: string, payload: string, at: int, key: Option<string>)

  datatype Input = Input(kind: string, payload: string, at: Option<int>, key: string)

  datatype Problem =
    | EmptyBatch | BatchTooLarge | InvalidEventType | InvalidEventPayload | EventTimeOutOfRange
    | InvalidIdempotencyKey | DuplicateIdempotencyKey

  datatype Result<T> = Ok(value: T) | Err(problem: Problem)

  /** Trimming, lowering and json parsing of byte strings. */
  datatype Texts = Texts(trim: string -> string, lower: string -> string, parses: string -> bool)

  const MAX_EVENT_TYPE_LEN := 64
  const MAX_PAYLOAD_BYTES := 8 * 1024
  const MAX_KEY_LEN := 128
  const MAX_BATCH_EVENTS := 100
  const MAX_CLOCK_SKEW := 300_000_000_000
  const MAX_EVENT_AGE := 90 * 86_400_000_000_000

  predicate SameKey(d: Draft, e: Draft) {
    d.key.Some? && d.key == e.key && d.user == e.user
  }

  function NormalizePayload(t: Texts, payload: string): Result<string> {
    var trimmed := t.trim(payload);
    if trimmed == "" || trimmed == "null" then Ok("{}")
    else if |trimmed| > MAX_PAYLOAD_BYTES || !t.parses(trimmed) then Err(InvalidEventPayload)
    else Ok(trimmed)
  }

  function Normalize(t: Texts, user: int, input: Input, now: int): Result<Draft> {
    var kind := t.lower(t.trim(input.kind));
    var at := if input.at.Some? then input.at.value else now;
    var key := t.trim(input.key);
    if kind == "" || |kind| > MAX_EVENT_TYPE_LEN then Err(InvalidEventType)
    else
      match NormalizePayload(t, input.payload)
      case Err(problem) => Err(problem)
      case Ok(payload) =>
        if at > now + MAX_CLOCK_SKEW || at < now - MAX_EVENT_AGE then Err(EventTimeOutOfRange)
        else if |key| > MAX_KEY_LEN then Err(InvalidIdempotencyKey)
        else Ok(Draft(user, kind, payload, at, if key == "" then None else Some(key)))
  }

  /** Trimming and lowering settle their results, and the empty object is json. */
  ghost predicate Settles(t: Texts) {
    && (forall s :: t.trim(t.trim(s)) == t.trim(s))
    && (forall s :: t.trim(t.lower(t.trim(s))) == t.lower(t.trim(s)))
    && (forall s :: t.lower(t.lower(s)) == t.lower(s))
    && t.trim("{}") == "{}" && t.parses("{}") && t.trim("") == ""
  }

  /** The request that repeats a stored draft word for word. */
  function Again(d: Draft): Input {
    Input(d.kind, d.payload, Some(d.at), if d.key.Some? then d.key.value else "")
  }

  /** Sending back what was accepted gives the same draft: normal forms are fixed points. */
  lemma NormalFormsAreFixed(t: Texts, user: int, input: Input, now: int)
    requires Settles(t) && Normalize(t, user, input, now).Ok?
    ensures Normalize(t, user, Again(Normalize(t, user, input, now).value), now) == Normalize(t, user, input, now)
  {
    var d := Normalize(t, user, input, now).value;
    assert t.lower(t.trim(d.kind)) == d.kind;
    assert NormalizePayload(t, d.payload) == Ok(d.payload);
  }

  /** The checks of the events table: a type of 1 to 64 characters, and a payload that is a json object. */
  predicate MeetsTableChecks(t: Texts, d: Draft) {
    d.kind != "" && |d.kind| <= 64 && t.parses(d.payload)
  }

  /**
   An accepted draft never fails a check of the table; its time is near the clock, and its key is
   a trimmed, non-empty text, so that keys which differ in surrounding blanks only are one key.
   */
  lemma AcceptedDraftsFit(t: Texts, user: int, input: Input, now: int, other: Input)
    requires Settles(t) && Normalize(t, user, input, now).Ok?
    ensures var d := Normalize(t, user, input, now).value;
            && MeetsTableChecks(t, d) && |d.payload| <= MAX_PAYLOAD_BYTES
            && now - MAX_EVENT_AGE <= d.at <= now + MAX_CLOCK_SKEW && (input.at.Some? ==> d.at == input.at.value)
            && (d.key.Some? ==> 0 < |d.key.value| <= MAX_KEY_LEN && t.trim(d.key.value) == d.key.value)
            && (Normalize(t, user, other, now).Ok? ==>
                  (SameKey(d, Normalize(t, user, other, now).value)
                   <==> t.trim(input.key) != "" && t.trim(other.key) == t.trim(input.key)))
  {
    var d := Normalize(t, user, input, now).value;
    assert NormalizePayload(t, input.payload) == Ok(d.payload);
  }

  /** The draft holds the request: trimmed, lowered, its time and an empty payload filled in. */
  ghost predicate HoldsRequest(t: Texts, user: int, input: Input, now: int, d: Draft) {
    && d.user == user && d.kind == t.lower(t.trim(input.kind))
    && d.at == (if input.at.Some? then input.at.value else now)
    && d.payload == (if t.trim(input.payload) in {"", "null"} then "{}" else t.trim(input.payload))
    && d.key == (if t.trim(input.key) == "" then None else Some(t.trim(input.key)))
  }

  predicate TypeOk(t: Texts, input: Input) {
    0 < |t.lower(t.trim(input.kind))| <= 64
  }

  predicate PayloadOk(t: Texts, input: Input) {
    var payload := t.trim(input.payload);
    payload == "" || payload == "null" || (|payload| <= 8192 && t.parses(payload))
  }

  /** At most five minutes ahead of the clock and ninety days behind it. */
  predicate TimeOk(input: Input, now: int) {
    input.at.Some? ==> now - 7_776_000_000_000_000 <= input.at.value <= now + 300_000_000_000
  }

  predicate KeyOk(t: Texts, input: Input) {
    |t.trim(input.key)| <= 128
  }

  /**
   A request is accepted exactly when its type, payload, time and key are each within bounds, and
   the draft then holds the request; otherwise the first of them, in this order, is reported.
   */
  lemma AcceptedExactlyWhen(t: Texts, user: int, input: Input, now: int)
    ensures var r := Normalize(t, user, input, now);
            && (r.Ok? <==> TypeOk(t, input) && PayloadOk(t, input) && TimeOk(input, now) && KeyOk(t, input))
            && (r.Ok? ==> HoldsRequest(t, user, input, now, r.value))
            && (r.Err? ==> r.problem == if !TypeOk(t, input) then InvalidEventType
                                        else if !PayloadOk(t, input) then InvalidEventPayload
                                        else if !TimeOk(input, now) then EventTimeOutOfRange
                                        else InvalidIdempotencyKey)
  {
  }

  // ---------------------------------------------------------------- the table

  type Rows = map<int, Draft>

  datatype Entry = Entry(id: int, draft: Draft)

  predicate Taken(rows: Rows, d: Draft) {
    exists id | id in rows :: SameKey(rows[id], d)
  }

  ghost predicate OneRowPerKey(rows: Rows) {
    forall i, j | i in rows && j in rows && SameKey(rows[i], rows[j]) :: i == j
  }

  /** The unique index holds, and the identity column is past every id in use. */
  ghost predicate Table(rows: Rows, next: int) {
    OneRowPerKey(rows) && forall id | id in rows :: id < next
  }

  /** The insert does nothing on a conflict; it takes a value of the identity column either way. */
  function Put(rows: Rows, d: Draft, id: int): Rows {
    if Taken(rows, d) then rows else rows[id := d]
  }

  function PutAll(rows: Rows, drafts: seq<Draft>, next: int): Rows {
    if drafts == [] then rows
    else
      var n := |drafts| - 1;
      Put(PutAll(rows, drafts[..n], next), drafts[n], next + n)
  }

  function CreatedBy(rows: Rows, drafts: seq<Draft>, next: int): seq<Entry> {
    if drafts == [] then []
    else
      var n := |drafts| - 1;
      CreatedBy(rows, drafts[..n], next)
      + if Taken(PutAll(rows, drafts[..n], next), drafts[n]) then [] else [Entry(next + n, drafts[n])]
  }

  lemma PutKeepsTable(rows: Rows, d: Draft, id: int)
    requires Table(rows, id)
    ensures Table(Put(rows, d, id), id + 1)
  {
  }

  lemma {:induction false} BatchKeepsTable(rows: Rows, drafts: seq<Draft>, next: int)
    requires Table(rows, next)
    ensures Table(PutAll(rows, drafts, next), next + |drafts|)
  {
    if drafts != [] {
      var n := |drafts| - 1;
      BatchKeepsTable(rows, drafts[..n], next);
      PutKeepsTable(PutAll(rows, drafts[..n], next), drafts[n], next + n);
    }
  }

  /** `after` is `rows` and, with ids from `first` on, what is reported as created. */
  ghost predicate Adds(rows: Rows, after: Rows, created: seq<Entry>, first: int) {
    && (forall id | id in rows :: id in after && after[id] == rows[id])
    && (forall e | e in created :: e.id >= first && e.id in after && after[e.id] == e.draft)
    && (forall id | id in after :: id in rows || Entry(id, after[id]) in created)
  }

  lemma PutAdds(rows: Rows, before: Rows, created: seq<Entry>, first: int, d: Draft, id: int)
    requires Adds(rows, before, created, first) && first <= id && id !in before
    ensures Adds(rows, Put(before, d, id), created + if Taken(before, d) then [] else [Entry(id, d)], first)
  {
  }

  lemma NextIsFree(rows: Rows, drafts: seq<Draft>, next: int)
    requires Table(rows, next)
    ensures next + |drafts| !in PutAll(rows, drafts, next)
  {
    BatchKeepsTable(rows, drafts, next);
  }

  lemma {:induction false} BatchAdds(rows: Rows, drafts: seq<Draft>, next: int)
    requires Table(rows, next)
    ensures Adds(rows, PutAll(rows, drafts, next), CreatedBy(rows, drafts, next), next)
  {
    if drafts != [] {
      var n := |drafts| - 1;
      var before, created := PutAll(rows, drafts[..n], next), CreatedBy(rows, drafts[..n], next);
      BatchAdds(rows, drafts[..n], next);
      NextIsFree(rows, drafts[..n], next);
      PutAdds(rows, before, created, next, drafts[n], next + n);
      assert PutAll(rows, drafts, next) == Put(before, drafts[n], next + n);
      assert CreatedBy(rows, drafts, next)
          == created + if Taken(before, drafts[n]) then [] else [Entry(next + n, drafts[n])];
    }
  }

  /** A batch changes no row that was there, adds exactly the rows it reports, and keeps one row per key. */
  lemma BatchAddsWhatItReports(rows: Rows, drafts: seq<Draft>, next: int)
    requires Table(rows, next)
    ensures var after := PutAll(rows, drafts, next); var created := CreatedBy(rows, drafts, next);
            && Table(after, next + |drafts|)
            && (forall id | id in rows :: id in after && after[id] == rows[id])
            && (forall e | e in created :: e.id >= next && e.id in after && after[e.id] == e.draft)
            && (forall id | id in after :: id in rows || Entry(id, after[id]) in created)
  {
    BatchKeepsTable(rows, drafts, next);
    BatchAdds(rows, drafts, next);
  }

  lemma {:induction false} TakenStays(rows: Rows, drafts: seq<Draft>, next: int, d: Draft)
    requires Table(rows, next) && Taken(rows, d)
    ensures Taken(PutAll(rows, drafts, next), d)
  {
    BatchAddsWhatItReports(rows, drafts, next);
    var id :| id in rows && SameKey(rows[id], d);
    assert SameKey(PutAll(rows, drafts, next)[id], d);
  }

  /** What a batch takes is the table's keys before it and its own. */
  lemma {:induction false} TakenAfter(rows: Rows, drafts: seq<Draft>, next: int, d: Draft)
    requires Table(rows, next)
    ensures Taken(PutAll(rows, drafts, next), d)
            <==> Taken(rows, d) || exists n | 0 <= n < |drafts| :: SameKey(drafts[n], d)
  {
    if drafts != [] {
      var n := |drafts| - 1;
      var before := PutAll(rows, drafts[..n], next);
      TakenAfter(rows, drafts[..n], next, d);
      BatchKeepsTable(rows, drafts[..n], next);
      TakenAfterOne(before, drafts[n], next + n, d);
      AmongTheFirst(drafts, n, d);
    }
  }

  lemma AmongTheFirst(drafts: seq<Draft>, n: nat, d: Draft)
    requires n + 1 == |drafts|
    ensures (exists k | 0 <= k < |drafts| :: SameKey(drafts[k], d))
        <==> (exists k | 0 <= k < n :: SameKey(drafts[..n][k], d)) || SameKey(drafts[n], d)
  {
    if k :| 0 <= k < n && SameKey(drafts[k], d) { assert SameKey(drafts[..n][k], d); }
  }

  lemma TakenAfterOne(rows: Rows, put: Draft, id: int, d: Draft)
    requires Table(rows, id)
    ensures Taken(Put(rows, put, id), d) <==> Taken(rows, d) || SameKey(put, d)
  {
    var after := Put(rows, put, id);
    if Taken(rows, d) {
      var i :| i in rows && SameKey(rows[i], d);
      assert i in after && SameKey(after[i], d);
    }
    if SameKey(put, d) {
      if Taken(rows, put) {
        var i :| i in rows && SameKey(rows[i], put);
        assert i in after && SameKey(after[i], d);
      } else {
        assert id in after && SameKey(after[id], d);
      }
    }
  }

  ghost predicate DistinctKeys(drafts: seq<Draft>) {
    forall i, j | 0 <= i < j < |drafts| :: !SameKey(drafts[i], drafts[j])
  }

  /** The drafts whose key the table did not hold before the batch, with the ids they get. */
  function NewOnes(rows: Rows, drafts: seq<Draft>, next: int): seq<Entry> {
    if drafts == [] then []
    else
      var n := |drafts| - 1;
      NewOnes(rows, drafts[..n], next) + if Taken(rows, drafts[n]) then [] else [Entry(next + n, drafts[n])]
  }

  /** With distinct keys in the batch, a duplicate is exactly a draft whose key was stored before the batch. */
  lemma {:induction false} CreatedAreTheNewOnes(rows: Rows, drafts: seq<Draft>, next: int)
    requires Table(rows, next) && DistinctKeys(drafts)
    ensures CreatedBy(rows, drafts, next) == NewOnes(rows, drafts, next)
  {
    if drafts != [] {
      var n := |drafts| - 1;
      CreatedAreTheNewOnes(rows, drafts[..n], next);
      TakenAfter(rows, drafts[..n], next, drafts[n]);
    }
  }

  /** Sending a batch of keyed events again, whatever happened in between, creates nothing. */
  lemma BatchAgainCreatesNothing(rows: Rows, drafts: seq<Draft>, next: int, between: seq<Draft>, later: int)
    requires Table(rows, next) && forall n | 0 <= n < |drafts| :: drafts[n].key.Some?
    ensures var after := PutAll(PutAll(rows, drafts, next), between, next + |drafts|);
            PutAll(after, drafts, later) == after && CreatedBy(after, drafts, later) == []
  {
    var stored := PutAll(rows, drafts, next);
    BatchAddsWhatItReports(rows, drafts, next);
    forall n | 0 <= n < |drafts|
      ensures Taken(PutAll(stored, between, next + |drafts|), drafts[n])
    {
      TakenAfter(rows, drafts, next, drafts[n]);
      TakenStays(stored, between, next + |drafts|, drafts[n]);
    }
    AllTakenAddsNothing(PutAll(stored, between, next + |drafts|), drafts, later);
  }

  lemma {:induction false} AllTakenAddsNothing(rows: Rows, drafts: seq<Draft>, next: int)
    requires forall n | 0 <= n < |drafts| :: Taken(rows, drafts[n])
    ensures PutAll(rows, drafts, next) == rows && CreatedBy(rows, drafts, next) == []
  {
    if drafts != [] { AllTakenAddsNothing(rows, drafts[..|drafts| - 1], next); }
  }

  // ---------------------------------------------------------------- the repository

  datatype Lookup = Found(entry: Entry, created: bool) | Failed

  datatype Stored = Stored(created: seq<Entry>, duplicates: nat) | Unavailable

  /** `broken` is the number of the statement at which the database reports an error, if it does. */
  class EventRepository {
    var rows: Rows
    var next: int

    ghost predicate Valid()
      reads this
    {
      Table(rows, next)
    }

    constructor ()
      ensures Valid() && rows == map[]
    {
      rows := map[];
      next := 1;
    }

    method Insert(d: Draft) returns (created: Option<Entry>)
      requires Valid()
      modifies this
      ensures Valid() && rows == Put(old(rows), d, old(next)) && next == old(next) + 1
      ensures created == if Taken(old(rows), d) then None else Some(Entry(old(next), d))
    {
      PutKeepsTable(rows, d, next);
      if Taken(rows, d) {
        created := None;
      } else {
        rows := rows[next := d];
        created := Some(Entry(next, d));
      }
      next := next + 1;
    }

    /** The row of the draft's key, ours or the one that was there; a broken read leaves the table alone. */
    method Create(d: Draft, broken: Option<nat>) returns (r: Lookup)
      requires Valid()
      modifies this
      ensures Valid()
      ensures r.Failed? <==> broken == Some(0) || (broken == Some(1) && Taken(old(rows), d))
      ensures r.Failed? ==> rows == old(rows)
      ensures r.Found? ==>
                && rows == Put(old(rows), d, old(next))
                && r.entry.id in rows && rows[r.entry.id] == r.entry.draft
                && (r.created <==> !Taken(old(rows), d))
                && if r.created then r.entry == Entry(old(next), d)
                     else SameKey(r.entry.draft, d) && r.entry.id in old(rows)
    {
      if broken == Some(0) {
        return Failed;
      }
      var created := Insert(d);
      if created.Some? {
        return Found(created.value, true);
      }
      if broken == Some(1) {
        return Failed;
      }
      var id :| id in rows && SameKey(rows[id], d);
      return Found(Entry(id, rows[id]), false);
    }

    /** One transaction: it works on its own copy of the table, and an error leaves the table as it was. */
    method CreateBatch(events: seq<Draft>, broken: Option<nat>) returns (r: Stored)
      requires Valid()
      modifies this
      ensures Valid()
      ensures r.Unavailable? <==> events != [] && broken.Some? && broken.value <= |events|
      ensures r.Unavailable? ==> rows == old(rows)
      ensures r.Stored? ==>
                && rows == PutAll(old(rows), events, old(next))
                && r.created == CreatedBy(old(rows), events, old(next))
                && |r.created| + r.duplicates == |events|
    {
      if |events| == 0 {
        return Stored([], 0);
      }
      var tx := rows;
      var stored: seq<Entry>, duplicates := [], 0;
      var first := next;
      for i := 0 to |events|
        invariant rows == old(rows) && first == old(next) && next == first + i && Table(rows, next)
        invariant tx == PutAll(old(rows), events[..i], first) && stored == CreatedBy(old(rows), events[..i], first)
        invariant |stored| + duplicates == i
        invariant broken.Some? ==> i <= broken.value
      {
        if broken == Some(i) {
          return Unavailable;
        }
        assert events[..i + 1][..i] == events[..i];
        if Taken(tx, events[i]) {
          duplicates := duplicates + 1;
        } else {
          tx := tx[next := events[i]];
          stored := stored + [Entry(next, events[i])];
        }
        next := next + 1;
      }
      if broken == Some(|events|) {
        return Unavailable;
      }
      assert events[..|events|] == events;
      BatchAddsWhatItReports(rows, events, first);
      rows := tx;
      return Stored(stored, duplicates);
    }
  }

  // ---------------------------------------------------------------- the service

  datatype Recorded = Recorded(entry: Entry, created: bool) | Refused(problem: Problem) | StoreFailed

  datatype BatchRecorded =
    | BatchRecorded(created: seq<Entry>, duplicates: nat)
    | BatchRefused(at: Option<nat>, problem: Problem)
    | BatchFailed

  datatype Prepared = Ready(drafts: seq<Draft>) | Rejected(at: nat, problem: Problem)

  /**
   The drafts of a batch, or the first item that is no draft or repeats a key; item `i` reads the clock at
   `clock(i)`.
   */
  function Prepare(t: Texts, user: int, inputs: seq<Input>, clock: nat -> int): Prepared {
    if inputs == [] then Ready([])
    else
      var n := |inputs| - 1;
      match Prepare(t, user, inputs[..n], clock)
      case Rejected(at, problem) => Rejected(at, problem)
      case Ready(drafts) =>
        match Normalize(t, user, inputs[n], clock(n))
        case Err(problem) => Rejected(n, problem)
        case Ok(d) =>
          if exists e | e in drafts :: SameKey(e, d) then Rejected(n, DuplicateIdempotencyKey) else Ready(drafts + [d])
  }

  /** Every item is a draft of its own, and no key stands in the batch twice. */
  ghost predicate Good(t: Texts, user: int, inputs: seq<Input>, clock: nat -> int, drafts: seq<Draft>) {
    && |drafts| == |inputs|
    && (forall i | 0 <= i < |inputs| :: Normalize(t, user, inputs[i], clock(i)) == Ok(drafts[i]))
    && DistinctKeys(drafts)
  }

  lemma {:induction false} ReadyIsGood(t: Texts, user: int, inputs: seq<Input>, clock: nat -> int)
    requires Prepare(t, user, inputs, clock).Ready?
    ensures Good(t, user, inputs, clock, Prepare(t, user, inputs, clock).drafts)
  {
    if inputs != [] {
      var n := |inputs| - 1;
      var before := Prepare(t, user, inputs[..n], clock).drafts;
      ReadyIsGood(t, user, inputs[..n], clock);
      GoodTakes(t, user, inputs, clock, before, Normalize(t, user, inputs[n], clock(n)).value);
    }
  }

  lemma GoodTakes(t: Texts, user: int, inputs: seq<Input>, clock: nat -> int, before: seq<Draft>, d: Draft)
    requires inputs != [] && Good(t, user, inputs[..|inputs| - 1], clock, before)
    requires Normalize(t, user, inputs[|inputs| - 1], clock(|inputs| - 1)) == Ok(d)
    requires forall e | e in before :: !SameKey(e, d)
    ensures Good(t, user, inputs, clock, before + [d])
  {
    var n := |inputs| - 1;
    assert forall i | 0 <= i < n :: before[i] in before;
    forall i | 0 <= i < n
      ensures Normalize(t, user, inputs[i], clock(i)) == Ok(before[i])
    {
      assert inputs[..n][i] == inputs[i];
    }
  }

  lemma {:induction false} GoodIsReady(t: Texts, user: int, inputs: seq<Input>, clock: nat -> int, drafts: seq<Draft>)
    requires Good(t, user, inputs, clock, drafts)
    ensures Prepare(t, user, inputs, clock) == Ready(drafts)
  {
    if inputs != [] {
      var n := |inputs| - 1;
      GoodPrefix(t, user, inputs, clock, drafts);
      GoodIsReady(t, user, inputs[..n], clock, drafts[..n]);
      assert drafts == drafts[..n] + [drafts[n]];
    }
  }

  lemma GoodPrefix(t: Texts, user: int, inputs: seq<Input>, clock: nat -> int, drafts: seq<Draft>)
    requires Good(t, user, inputs, clock, drafts) && inputs != []
    ensures var n := |inputs| - 1;
            && Good(t, user, inputs[..n], clock, drafts[..n])
            && Normalize(t, user, inputs[n], clock(n)) == Ok(drafts[n])
            && !(exists e | e in drafts[..n] :: SameKey(e, drafts[n]))
  {
  }

  /** A batch is accepted exactly when all of it is good; otherwise the items before the reported one are. */
  lemma {:induction false} PrepareAcceptsTheGood(t: Texts, user: int, inputs: seq<Input>, clock: nat -> int)
    ensures var p := Prepare(t, user, inputs, clock);
            && (p.Ready? <==> exists drafts :: Good(t, user, inputs, clock, drafts))
            && (p.Ready? ==> Good(t, user, inputs, clock, p.drafts))
            && (p.Rejected? ==>
                  && p.at < |inputs| && Prepare(t, user, inputs[..p.at], clock).Ready?
                  && Prepare(t, user, inputs[..p.at + 1], clock) == p)
  {
    var p := Prepare(t, user, inputs, clock);
    if p.Ready? {
      ReadyIsGood(t, user, inputs, clock);
    } else {
      RejectedIsFirst(t, user, inputs, clock);
      forall drafts
        ensures !Good(t, user, inputs, clock, drafts)
      {
        if Good(t, user, inputs, clock, drafts) { GoodIsReady(t, user, inputs, clock, drafts); }
      }
    }
  }

  lemma {:induction false} RejectedIsFirst(t: Texts, user: int, inputs: seq<Input>, clock: nat -> int)
    requires Prepare(t, user, inputs, clock).Rejected?
    ensures var p := Prepare(t, user, inputs, clock);
            && p.at < |inputs| && Prepare(t, user, inputs[..p.at], clock).Ready?
            && Prepare(t, user, inputs[..p.at + 1], clock) == p
  {
    var n := |inputs| - 1;
    var before := Prepare(t, user, inputs[..n], clock);
    if before.Rejected? {
      RejectedIsFirst(t, user, inputs[..n], clock);
      assert inputs[..n][..before.at] == inputs[..before.at] && inputs[..n][..before.at + 1] == inputs[..before.at + 1];
    } else {
      assert inputs[..n + 1] == inputs;
    }
  }

  lemma {:induction false} RejectionStays(t: Texts, user: int, inputs: seq<Input>, clock: nat -> int, k: nat)
    requires k <= |inputs|
    ensures Prepare(t, user, inputs[..k], clock).Rejected? ==>
              Prepare(t, user, inputs, clock) == Prepare(t, user, inputs[..k], clock)
  {
    if k == |inputs| {
      assert inputs[..k] == inputs;
    } else {
      assert inputs[..|inputs| - 1][..k] == inputs[..k];
      RejectionStays(t, user, inputs[..|inputs| - 1], clock, k);
    }
  }

  lemma PrepareTakes(t: Texts, user: int, inputs: seq<Input>, clock: nat -> int, i: nat, drafts: seq<Draft>)
    requires i < |inputs| && Prepare(t, user, inputs[..i], clock) == Ready(drafts)
             && forall e | e in drafts :: e.user == user
    ensures Prepare(t, user, inputs[..i + 1], clock)
         == match Normalize(t, user, inputs[i], clock(i))
            case Err(problem) => Rejected(i, problem)
            case Ok(d) =>
              if d.key.Some? && KeyAmong(drafts, user, d.key.value) then Rejected(i, DuplicateIdempotencyKey)
              else Ready(drafts + [d])
  {
    assert inputs[..i + 1][..i] == inputs[..i];
  }

  ghost predicate KeyAmong(drafts: seq<Draft>, user: int, key: string) {
    exists e | e in drafts :: e.user == user && e.key == Some(key)
  }

  lemma KeyAmongTakes(drafts: seq<Draft>, d: Draft, user: int)
    requires d.user == user
    ensures forall k :: KeyAmong(drafts + [d], user, k) <==> KeyAmong(drafts, user, k) || d.key == Some(k)
  {
    forall k
      ensures KeyAmong(drafts + [d], user, k) <==> KeyAmong(drafts, user, k) || d.key == Some(k)
    {
      if KeyAmong(drafts, user, k) {
        var e :| e in drafts && e.user == user && e.key == Some(k);
        assert e in drafts + [d];
      }
      assert d in drafts + [d];
    }
  }

  class Service {
    const events: EventRepository
    const texts: Texts
    var published: seq<Entry>
    var ingested: nat
    var repeated: nat

    constructor (events: EventRepository, texts: Texts)
      ensures this.events == events && this.texts == texts && published == [] && ingested == 0 && repeated == 0
    {
      this.events, this.texts := events, texts;
      published, ingested, repeated := [], 0, 0;
    }

    /** A refused or failed event changes nothing; only a created one is published. */
    method Record(user: int, input: Input, now: int, broken: Option<nat>) returns (r: Recorded)
      requires events.Valid()
      modifies this, events
      ensures events.Valid()
      ensures r.Refused? <==> Normalize(texts, user, input, now).Err?
      ensures r.Refused? ==> r.problem == Normalize(texts, user, input, now).problem
      ensures r.StoreFailed? ==> broken.Some?
      ensures r.Recorded? ==>
                var d := Normalize(texts, user, input, now).value;
                && HoldsRequest(texts, user, input, now, d)
                && events.rows == Put(old(events.rows), d, old(events.next))
                && r.entry.id in events.rows && events.rows[r.entry.id] == r.entry.draft
                && (r.created <==> !Taken(old(events.rows), d))
                && if r.created then r.entry == Entry(old(events.next), d)
                   else SameKey(r.entry.draft, d) && r.entry.id in old(events.rows)
      ensures !r.Recorded? ==> events.rows == old(events.rows)
      ensures published == old(published) + if r.Recorded? && r.created then [r.entry] else []
      ensures ingested + repeated == old(ingested + repeated) + if r.Recorded? then 1 else 0
      ensures ingested - old(ingested) == |published| - |old(published)|
    {
      var event := Normalize(texts, user, input, now);
      if event.Err? {
        return Refused(event.problem);
      }
      var stored := events.Create(event.value, broken);
      if stored.Failed? {
        return StoreFailed;
      }
      if stored.created {
        ingested := ingested + 1;
        published := published + [stored.entry];
      } else {
        repeated := repeated + 1;
      }
      return Recorded(stored.entry, stored.created);
    }

    /** The first loop of a batch: every item becomes a draft, the set of keys catches a repetition. */
    method Check(user: int, inputs: seq<Input>, clock: nat -> int) returns (p: Prepared)
      ensures p == Prepare(texts, user, inputs, clock)
    {
      var drafts: seq<Draft>, keys: set<string> := [], {};
      for i := 0 to |inputs|
        invariant Prepare(texts, user, inputs[..i], clock) == Ready(drafts)
        invariant forall e | e in drafts :: e.user == user
        invariant forall k :: k in keys <==> KeyAmong(drafts, user, k)
      {
        PrepareTakes(texts, user, inputs, clock, i, drafts);
        RejectionStays(texts, user, inputs, clock, i + 1);
        var event := Normalize(texts, user, inputs[i], clock(i));
        if event.Err? {
          return Rejected(i, event.problem);
        }
        if event.value.key.Some? {
          if event.value.key.value in keys {
            return Rejected(i, DuplicateIdempotencyKey);
          }
          keys := keys + {event.value.key.value};
        }
        KeyAmongTakes(drafts, event.value, user);
        drafts := drafts + [event.value];
      }
      assert inputs[..|inputs|] == inputs;
      return Ready(drafts);
    }

    /** The last loops of a batch: created rows are counted and published, duplicates counted. */
    method Report(created: seq<Entry>, duplicates: nat)
      modifies this
      ensures published == old(published) + created
      ensures ingested == old(ingested) + |created| && repeated == old(repeated) + duplicates
    {
      for i := 0 to |created|
        invariant published == old(published) + created[..i] && ingested == old(ingested) + i
                  && repeated == old(repeated)
      {
        assert created[..i + 1] == created[..i] + [created[i]];
        ingested := ingested + 1;
        published := published + [created[i]];
      }
      assert created[..|created|] == created;
      for i := 0 to duplicates
        invariant published == old(published) + created && ingested == old(ingested) + |created|
        invariant repeated == old(repeated) + i
      {
        repeated := repeated + 1;
      }
    }

    /** All or nothing: what is created is stored, counted and published, the rest was there before. */
    method RecordBatch(user: int, inputs: seq<Input>, clock: nat -> int, broken: Option<nat>) returns (r: BatchRecorded)
      requires events.Valid()
      modifies this, events
      ensures events.Valid()
      ensures r.BatchRefused?
              <==> inputs == [] || |inputs| > 100 || Prepare(texts, user, inputs, clock).Rejected?
      ensures inputs == [] ==> r == BatchRefused(None, EmptyBatch)
      ensures |inputs| > 100 ==> r == BatchRefused(None, BatchTooLarge)
      ensures 0 < |inputs| <= 100 && r.BatchRefused? ==>
                var p := Prepare(texts, user, inputs, clock); r == BatchRefused(Some(p.at), p.problem)
      ensures r.BatchFailed? ==> broken.Some?
      ensures r.BatchRecorded? ==>
                var drafts := Prepare(texts, user, inputs, clock).drafts;
                && events.rows == PutAll(old(events.rows), drafts, old(events.next))
                && r.created == NewOnes(old(events.rows), drafts, old(events.next))
                && |r.created| + r.duplicates == |inputs|
                && published == old(published) + r.created
                && ingested == old(ingested) + |r.created| && repeated == old(repeated) + r.duplicates
      ensures !r.BatchRecorded? ==>
                events.rows == old(events.rows) && published == old(published)
                && ingested == old(ingested) && repeated == old(repeated)
    {
      if |inputs| == 0 {
        return BatchRefused(None, EmptyBatch);
      }
      if |inputs| > MAX_BATCH_EVENTS {
        return BatchRefused(None, BatchTooLarge);
      }
      var checked := Check(user, inputs, clock);
      if checked.Rejected? {
        return BatchRefused(Some(checked.at), checked.problem);
      }
      var drafts := checked.drafts;
      PrepareAcceptsTheGood(texts, user, inputs, clock);
      CreatedAreTheNewOnes(events.rows, drafts, events.next);
      var stored := events.CreateBatch(drafts, broken);
      if stored.Unavailable? {
        return BatchFailed;
      }
      Report(stored.created, stored.duplicates);
      return BatchRecorded(stored.created, stored.duplicates);
    }

    /** A keyed event that is sent again, even after its time was filled in anew, answers the first row. */
    method RecordTwice(user: int, input: Input, now: int, later: int) returns (first: Recorded, second: Recorded)
      requires events.Valid() && texts.trim(input.key) != ""
      requires Normalize(texts, user, input, now).Ok? && Normalize(texts, user, input, later).Ok?
      modifies this, events
      ensures events.Valid() && first.Recorded? && second.Recorded?
      ensures second.entry == first.entry && !second.created
      ensures published == old(published) + if first.created then [first.entry] else []
      ensures |events.rows| == |old(events.rows)| + if first.created then 1 else 0
    {
      first := Record(user, input, now, None);
      assert first.entry.id in events.rows && SameKey(first.entry.draft, Normalize(texts, user, input, later).value);
      second := Record(user, input, later, None);
    }
  }
}
