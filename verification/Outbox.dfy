/** Publishing the outbox (server/src/ops/kafka.rs): pollers take a lock, read the table and
    publish and delete one row after the other, each delete in a transaction of its own.  A
    poller may fail at any step, and rows are inserted meanwhile. */
module Outbox {
  import opened Sequences
  import opened Values

  type PollId = nat

  datatype Row = Row(id: string, seqNo: nat, topic: string, key: string, value: string)

  datatype Event = Event(poll: PollId, row: Row)

  /** Working: the rows still to do, and whether the first of them is published. */
  datatype Phase = Waiting | Holding | Working(rest: seq<Row>, sent: bool) | Finished | Dead

  /** `table` holds the committed rows, `log` what the broker has received.  `inserted` and
      `lost` are history: all rows ever committed, and the ids of the rows whose poller died
      after publishing and before the delete was committed. */
  datatype State = State(
    table: seq<Row>,
    log: seq<Event>,
    lock: set<PollId>,
    polls: map<PollId, Phase>,
    inserted: seq<Row>,
    lost: seq<string>)

  predicate BySeqNo(a: Row, b: Row) { a.seqNo < b.seqNo }

  predicate HasId(rows: seq<Row>, id: string) { exists r :: r in rows && r.id == id }

  function OtherId(id: string): Row -> bool { (r: Row) => r.id != id }

  // ---------- the steps ----------

  const INITIAL := State([], [], {}, map[], [], [])

  datatype Step =
    | Insert(row: Row)
    | Start(poll: PollId)
    | Acquire(poll: PollId)
    | Snapshot(poll: PollId)
    | Publish(poll: PollId)
    | DeleteRow(poll: PollId)
    | Finish(poll: PollId)
    | Die(poll: PollId)

  predicate IsWorking(s: State, p: PollId) {
    p in s.polls && s.polls[p].Working?
  }

  predicate Enabled(s: State, step: Step) {
    match step
    case Insert(row) => !HasId(s.inserted, row.id)
    case Start(p) => p !in s.polls
    case Acquire(p) => p in s.polls && s.polls[p].Waiting? && s.lock == {}
    case Snapshot(p) => p in s.polls && s.polls[p].Holding?
    case Publish(p) => IsWorking(s, p) && s.polls[p].rest != [] && !s.polls[p].sent
    case DeleteRow(p) => IsWorking(s, p) && s.polls[p].rest != [] && s.polls[p].sent
    case Finish(p) => IsWorking(s, p) && s.polls[p].rest == []
    case Die(p) => p in s.polls && !s.polls[p].Finished? && !s.polls[p].Dead?
  }

  function Effect(s: State, step: Step): State
    requires Enabled(s, step)
  {
    match step
    case Insert(row) => s.(table := s.table + [row], inserted := s.inserted + [row])
    case Start(p) => s.(polls := s.polls[p := Waiting])
    case Acquire(p) => s.(polls := s.polls[p := Holding], lock := {p})
    case Snapshot(p) => s.(polls := s.polls[p := Working(Sort(BySeqNo, s.table), false)])
    case Publish(p) =>
      s.(log := s.log + [Event(p, s.polls[p].rest[0])], polls := s.polls[p := Working(s.polls[p].rest, true)])
    case DeleteRow(p) =>
      s.(table := Filter(OtherId(s.polls[p].rest[0].id), s.table),
         polls := s.polls[p := Working(s.polls[p].rest[1..], false)])
    case Finish(p) => s.(polls := s.polls[p := Finished], lock := s.lock - {p})
    case Die(p) =>
      s.(polls := s.polls[p := Dead], lock := s.lock - {p},
         lost := if s.polls[p].Working? && s.polls[p].sent && s.polls[p].rest != []
                 then s.lost + [s.polls[p].rest[0].id] else s.lost)
  }

  ghost predicate Next(s: State, s': State) {
    exists step :: Enabled(s, step) && s' == Effect(s, step)
  }

  /** The states a run goes through. */
  ghost predicate IsRun(run: seq<State>) {
    && run != [] && run[0] == INITIAL
    && forall i :: 0 <= i < |run| - 1 ==> Next(run[i], run[i + 1])
  }

  // ---------- what is counted ----------

  function Count(log: seq<Event>, id: string): nat {
    if log == [] then 0 else Count(log[..|log| - 1], id) + (if log[|log| - 1].row.id == id then 1 else 0)
  }

  function CountIds(ids: seq<string>, id: string): nat {
    if ids == [] then 0 else CountIds(ids[..|ids| - 1], id) + (if ids[|ids| - 1] == id then 1 else 0)
  }

  lemma CountMore(log: seq<Event>, e: Event, id: string)
    ensures Count(log + [e], id) == Count(log, id) + (if e.row.id == id then 1 else 0)
  {
    assert (log + [e])[..|log|] == log;
  }

  lemma CountMoreIds(ids: seq<string>, x: string, id: string)
    ensures CountIds(ids + [x], id) == CountIds(ids, id) + (if x == id then 1 else 0)
  {
    assert (ids + [x])[..|ids|] == ids;
  }

  /** Whether a poller is between publishing the row and deleting it. */
  predicate InFlight(s: State, id: string) {
    exists p :: p in s.polls && Sending(s.polls[p], id)
  }

  predicate Sending(phase: Phase, id: string) {
    phase.Working? && phase.sent && phase.rest != [] && phase.rest[0].id == id
  }

  // ---------- the invariant ----------

  ghost predicate DistinctIds(rows: seq<Row>) {
    forall i, j :: 0 <= i < j < |rows| ==> rows[i].id != rows[j].id
  }

  predicate Active(phase: Phase) { phase.Holding? || phase.Working? }

  /** The lock is held by the one poller that is active. */
  ghost predicate LockInv(s: State) {
    && (forall p :: p in s.lock <==> p in s.polls && Active(s.polls[p]))
    && forall p, q :: p in s.lock && q in s.lock ==> p == q
  }

  ghost predicate TableInv(s: State) {
    && DistinctIds(s.inserted) && DistinctIds(s.table)
    && (forall r | r in s.table :: r in s.inserted)
    && (forall e | e in s.log :: e.row in s.inserted)
    && forall id | id in s.lost :: HasId(s.inserted, id)
  }

  /** A poller's rows are still in the table, in order of seqNo. */
  ghost predicate WorkInv(s: State) {
    forall p | IsWorking(s, p) ::
      var rest := s.polls[p].rest;
      DistinctIds(rest) && Sorted(BySeqNo, rest) && (forall r | r in rest :: r in s.table) &&
        (s.polls[p].sent ==> rest != [])
  }

  /** Every publish of a row is accounted for: by its delete, by a poller about to delete it,
      or by one that died in between. */
  ghost predicate Accounted(s: State, r: Row) {
    Count(s.log, r.id) ==
      CountIds(s.lost, r.id) + (if r in s.table then 0 else 1) + (if InFlight(s, r.id) then 1 else 0)
  }

  ghost predicate CountInv(s: State) {
    forall r | r in s.inserted :: Accounted(s, r)
  }

  /** A poller publishes in order of seqNo: nothing it has published comes after what it still
      has to do. */
  ghost predicate OrderInv(s: State) {
    && (forall i, j :: 0 <= i < j < |s.log| && s.log[i].poll == s.log[j].poll ==>
                       s.log[i].row.seqNo <= s.log[j].row.seqNo)
    && (forall e | e in s.log :: e.poll in s.polls && !s.polls[e.poll].Waiting? && !s.polls[e.poll].Holding?)
    && (forall e, r | e in s.log && IsWorking(s, e.poll) && r in s.polls[e.poll].rest :: e.row.seqNo <= r.seqNo)
  }

  ghost predicate Inv(s: State) {
    LockInv(s) && TableInv(s) && WorkInv(s) && CountInv(s) && OrderInv(s)
  }

  lemma BySeqNoIsWeakOrder()
    ensures WeakOrder(BySeqNo)
  {}

  lemma {:induction false} InsertKeepsDistinct(x: Row, s: seq<Row>)
    requires DistinctIds(s) && forall r | r in s :: r.id != x.id
    ensures DistinctIds(Sequences.Insert(BySeqNo, x, s))
  {
    var r := Sequences.Insert(BySeqNo, x, s);
    if s != [] && BySeqNo(s[0], x) {
      InsertKeepsDistinct(x, s[1..]);
      forall i, j | 0 <= i < j < |r| ensures r[i].id != r[j].id {
        if i == 0 {
          assert r[j] in Sequences.Insert(BySeqNo, x, s[1..]);
          if r[j] in s[1..] {
            var k :| 0 <= k < |s[1..]| && s[1..][k] == r[j];
            assert s[k + 1] == r[j];
          }
        }
      }
    }
  }

  lemma {:induction false} SortKeepsDistinct(s: seq<Row>)
    requires DistinctIds(s)
    ensures DistinctIds(Sort(BySeqNo, s))
  {
    if s != [] {
      SortKeepsDistinct(s[1..]);
      forall r | r in s[1..] ensures r.id != s[0].id {
        var k :| 0 <= k < |s[1..]| && s[1..][k] == r;
        assert s[k + 1] == r;
      }
      InsertKeepsDistinct(s[0], Sort(BySeqNo, s[1..]));
    }
  }

  lemma {:induction false} FilterKeepsDistinct(p: Row -> bool, s: seq<Row>)
    requires DistinctIds(s)
    ensures DistinctIds(Filter(p, s))
  {
    var r := Filter(p, s);
    forall i, j | 0 <= i < j < |r| ensures r[i].id != r[j].id {
      var a, b := FilterKeepsOrder(p, s, i, j);
    }
  }

  lemma SameIdSameRow(rows: seq<Row>, a: Row, b: Row)
    requires DistinctIds(rows) && a in rows && b in rows && a.id == b.id
    ensures a == b
  {
    var i :| 0 <= i < |rows| && rows[i] == a;
    var j :| 0 <= j < |rows| && rows[j] == b;
  }

  // ---------- every step keeps the invariant ----------

  lemma StepKeepsLock(s: State, step: Step)
    requires Inv(s) && Enabled(s, step)
    ensures LockInv(Effect(s, step))
  {}

  lemma StepKeepsTable(s: State, step: Step)
    requires Inv(s) && Enabled(s, step)
    ensures TableInv(Effect(s, step))
  {
    match step
    case Insert(row) =>
      assert forall r | r in s.inserted :: r.id != row.id;
    case Publish(p) =>
      assert s.polls[p].rest[0] in s.table;
    case DeleteRow(p) =>
      FilterKeepsDistinct(OtherId(s.polls[p].rest[0].id), s.table);
    case Die(p) =>
      assert IsWorking(s, p) && s.polls[p].rest != [] ==> s.polls[p].rest[0] in s.table;
    case _ =>
  }

  lemma StepKeepsWork(s: State, step: Step)
    requires Inv(s) && Enabled(s, step)
    ensures WorkInv(Effect(s, step))
  {
    match step
    case Snapshot(p) =>
      BySeqNoIsWeakOrder();
      SortSorted(BySeqNo, s.table);
      SortKeepsDistinct(s.table);
    case DeleteRow(p) =>
      var rest, s' := s.polls[p].rest, Effect(s, step);
      assert p in s.lock;
      forall r | r in rest[1..] ensures r in s'.table {
        var k :| 0 <= k < |rest[1..]| && rest[1..][k] == r;
        assert rest[k + 1] == r;
      }
    case _ =>
  }

  lemma StepKeepsCount(s: State, step: Step)
    requires Inv(s) && Enabled(s, step)
    ensures CountInv(Effect(s, step))
  {
    forall r | r in Effect(s, step).inserted ensures Accounted(Effect(s, step), r) {
      StepAccounts(s, step, r);
    }
  }

  lemma StepAccounts(s: State, step: Step, r: Row)
    requires Inv(s) && Enabled(s, step) && r in Effect(s, step).inserted
    ensures Accounted(Effect(s, step), r)
  {
    match step
    case Insert(row) => InsertAccounts(s, row, r);
    case Publish(p) => PublishAccounts(s, p, r);
    case DeleteRow(p) => DeleteAccounts(s, p, r);
    case Die(p) => DieAccounts(s, p, r);
    case _ => QuietAccounts(s, step, r);
  }

  lemma QuietAccounts(s: State, step: Step, r: Row)
    requires Inv(s) && Enabled(s, step) && r in s.inserted
    requires step.Start? || step.Acquire? || step.Snapshot? || step.Finish?
    ensures Accounted(Effect(s, step), r)
  {
    var s' := Effect(s, step);
    assert Accounted(s, r);
    assert forall p :: p in s.polls && p != step.poll ==> s'.polls[p] == s.polls[p];
    assert step.poll in s.polls ==> !Sending(s.polls[step.poll], r.id);
    assert InFlight(s', r.id) <==> InFlight(s, r.id);
  }

  lemma {:induction false} NeverPublished(log: seq<Event>, id: string)
    requires forall e | e in log :: e.row.id != id
    ensures Count(log, id) == 0
  {
    if log != [] {
      NeverPublished(log[..|log| - 1], id);
    }
  }

  lemma {:induction false} NeverLost(ids: seq<string>, id: string)
    requires id !in ids
    ensures CountIds(ids, id) == 0
  {
    if ids != [] {
      NeverLost(ids[..|ids| - 1], id);
    }
  }

  lemma InsertAccounts(s: State, row: Row, r: Row)
    requires Inv(s) && Enabled(s, Step.Insert(row)) && r in s.inserted + [row]
    ensures Accounted(Effect(s, Step.Insert(row)), r)
  {
    var s' := Effect(s, Step.Insert(row));
    if r in s.inserted {
      assert Accounted(s, r);
      assert r.id != row.id;
    } else {
      NeverPublished(s.log, row.id);
      NeverLost(s.lost, row.id);
      assert forall p :: p in s.polls ==> !Sending(s.polls[p], row.id) by {
        forall p | IsWorking(s, p) && s.polls[p].rest != [] ensures s.polls[p].rest[0].id != row.id {
          assert s.polls[p].rest[0] in s.table;
        }
      }
      assert row in s'.table;
    }
  }

  /** Only one poller works, so only its row can be in flight. */
  lemma SoleWorker(s: State, p: PollId, id: string)
    requires LockInv(s) && IsWorking(s, p)
    ensures InFlight(s, id) <==> Sending(s.polls[p], id)
  {
    assert p in s.lock;
    assert forall q | q in s.polls && Sending(s.polls[q], id) :: q in s.lock;
  }

  lemma PublishAccounts(s: State, p: PollId, r: Row)
    requires Inv(s) && Enabled(s, Publish(p)) && r in s.inserted
    ensures Accounted(Effect(s, Publish(p)), r)
  {
    var s', e := Effect(s, Publish(p)), Event(p, s.polls[p].rest[0]);
    assert Accounted(s, r);
    StepKeepsLock(s, Publish(p));
    SoleWorker(s, p, r.id);
    SoleWorker(s', p, r.id);
    CountMore(s.log, e, r.id);
  }

  lemma DeleteAccounts(s: State, p: PollId, r: Row)
    requires Inv(s) && Enabled(s, DeleteRow(p)) && r in s.inserted
    ensures Accounted(Effect(s, DeleteRow(p)), r)
  {
    var s', row := Effect(s, DeleteRow(p)), s.polls[p].rest[0];
    assert Accounted(s, r);
    StepKeepsLock(s, DeleteRow(p));
    SoleWorker(s, p, r.id);
    SoleWorker(s', p, r.id);
    assert row in s.polls[p].rest && row in s.table;
    if r.id == row.id {
      SameIdSameRow(s.inserted, r, row);
    }
  }

  lemma DieAccounts(s: State, p: PollId, r: Row)
    requires Inv(s) && Enabled(s, Die(p)) && r in s.inserted
    ensures Accounted(Effect(s, Die(p)), r)
  {
    var s' := Effect(s, Die(p));
    assert Accounted(s, r);
    if IsWorking(s, p) {
      SoleWorker(s, p, r.id);
      assert !InFlight(s', r.id) by {
        assert forall q | q in s.polls && s.polls[q].Working? :: q in s.lock && p in s.lock;
      }
      if s.polls[p].sent {
        CountMoreIds(s.lost, s.polls[p].rest[0].id, r.id);
      }
    } else {
      assert forall q :: q in s.polls && q != p ==> s'.polls[q] == s.polls[q];
      assert InFlight(s', r.id) <==> InFlight(s, r.id);
    }
  }

  lemma StepKeepsOrder(s: State, step: Step)
    requires Inv(s) && Enabled(s, step)
    ensures OrderInv(Effect(s, step))
  {
    match step
    case Publish(p) => PublishKeepsOrder(s, p);
    case DeleteRow(p) => DeleteKeepsOrder(s, p);
    case _ => OthersKeepOrder(s, step);
  }

  lemma DeleteKeepsOrder(s: State, p: PollId)
    requires Inv(s) && Enabled(s, DeleteRow(p))
    ensures OrderInv(Effect(s, DeleteRow(p)))
  {
    assert forall r | r in s.polls[p].rest[1..] :: r in s.polls[p].rest;
  }

  lemma OthersKeepOrder(s: State, step: Step)
    requires OrderInv(s) && Enabled(s, step) && !step.Publish? && !step.DeleteRow?
    ensures OrderInv(Effect(s, step))
  {}

  lemma PublishKeepsOrder(s: State, p: PollId)
    requires Inv(s) && Enabled(s, Publish(p))
    ensures OrderInv(Effect(s, Publish(p)))
  {
    var s', rest := Effect(s, Publish(p)), s.polls[p].rest;
    assert rest[0] in rest;
    forall r | r in rest ensures rest[0].seqNo <= r.seqNo {
      var k :| 0 <= k < |rest| && rest[k] == r;
      assert k > 0 ==> !BySeqNo(rest[k], rest[0]);
    }
    forall i, j | 0 <= i < j < |s'.log| && s'.log[i].poll == s'.log[j].poll
      ensures s'.log[i].row.seqNo <= s'.log[j].row.seqNo
    {
      if j == |s.log| {
        assert s.log[i] in s.log;
      }
    }
  }

  lemma StepKeepsInv(s: State, step: Step)
    requires Inv(s) && Enabled(s, step)
    ensures Inv(Effect(s, step))
  {
    StepKeepsLock(s, step);
    StepKeepsTable(s, step);
    StepKeepsWork(s, step);
    StepKeepsCount(s, step);
    StepKeepsOrder(s, step);
  }

  // ---------- safety of every run ----------

  /** What the outbox promises: a committed row is in the table or has been published; it is
      published at most once more often than its pollers died after publishing it; each poll
      publishes in order of seqNo. */
  ghost predicate Safe(s: State) {
    && (forall r | r in s.inserted :: r in s.table || Count(s.log, r.id) > 0)
    && (forall r | r in s.inserted :: Count(s.log, r.id) <= 1 + CountIds(s.lost, r.id))
    && (forall e | e in s.log :: e.row in s.inserted)
    && forall i, j :: 0 <= i < j < |s.log| && s.log[i].poll == s.log[j].poll ==>
                      s.log[i].row.seqNo <= s.log[j].row.seqNo
  }

  lemma InvIsSafe(s: State)
    requires Inv(s)
    ensures Safe(s)
  {
    forall r | r in s.inserted
      ensures r in s.table || Count(s.log, r.id) > 0
      ensures Count(s.log, r.id) <= 1 + CountIds(s.lost, r.id)
    {
      assert Accounted(s, r);
      if InFlight(s, r.id) {
        var p :| p in s.polls && Sending(s.polls[p], r.id);
        assert s.polls[p].rest[0] in s.polls[p].rest;
        SameIdSameRow(s.inserted, r, s.polls[p].rest[0]);
      }
    }
  }

  /** Every state of every run is safe, whatever the order of inserts, polls and failures. */
  lemma {:induction false} RunsAreSafe(run: seq<State>)
    requires IsRun(run)
    ensures Inv(run[|run| - 1]) && Safe(run[|run| - 1])
    decreases |run|
  {
    if |run| > 1 {
      var before := run[..|run| - 1];
      forall i | 0 <= i < |before| - 1 ensures Next(before[i], before[i + 1]) {
        assert Next(run[i], run[i + 1]);
      }
      RunsAreSafe(before);
      assert Next(run[|run| - 2], run[|run| - 1]);
      var step :| Enabled(run[|run| - 2], step) && run[|run| - 1] == Effect(run[|run| - 2], step);
      StepKeepsInv(run[|run| - 2], step);
    }
    InvIsSafe(run[|run| - 1]);
  }

  // ---------- the poller ----------

  /** Taking steps one after the other, as long as they are enabled. */
  ghost function Follow(s: State, steps: seq<Step>): Option<State>
    decreases |steps|
  {
    if steps == [] then Some(s)
    else match Follow(s, steps[..|steps| - 1])
      case None => None
      case Some(t) => if Enabled(t, steps[|steps| - 1]) then Some(Effect(t, steps[|steps| - 1])) else None
  }

  lemma {:induction false} FollowingIsSafe(steps: seq<Step>)
    requires Follow(INITIAL, steps).Some?
    ensures Inv(Follow(INITIAL, steps).value) && Safe(Follow(INITIAL, steps).value)
    decreases |steps|
  {
    if steps != [] {
      var before := steps[..|steps| - 1];
      FollowingIsSafe(before);
      StepKeepsInv(Follow(INITIAL, before).value, steps[|steps| - 1]);
    }
    InvIsSafe(Follow(INITIAL, steps).value);
  }

  predicate ByPoll(step: Step, p: PollId) { !step.Insert? && step.poll == p }

  /** `p` alone has taken steps since. */
  ghost predicate Extends(before: seq<Step>, after: seq<Step>, p: PollId) {
    before <= after && forall k :: |before| <= k < |after| ==> ByPoll(after[k], p)
  }

  /** How a call to the database or the broker ends; a failed one may have had its effect. */
  datatype Outcome = Works | FailsBefore | FailsAfter

  function EventOf(p: PollId): Row -> Event { (r: Row) => Event(p, r) }

  /** The table and the broker, with the protocol state that `history` leads to. */
  class OutboxService {
    var table: seq<Row>
    var log: seq<Event>
    ghost var state: State
    ghost var history: seq<Step>

    ghost predicate Valid()
      reads this
    {
      state.table == table && state.log == log && Follow(INITIAL, history) == Some(state)
    }

    constructor ()
      ensures Valid() && history == []
    {
      table, log := [], [];
      state, history := INITIAL, [];
    }

    ghost method Do(p: PollId, step: Step)
      requires Follow(INITIAL, history) == Some(state) && Enabled(state, step) && ByPoll(step, p)
      modifies `state, `history
      ensures Follow(INITIAL, history) == Some(state) && state == Effect(old(state), step)
      ensures Extends(old(history), history, p)
    {
      assert (history + [step])[..|history|] == history;
      state, history := Effect(state, step), history + [step];
    }

    /** The next row of a poll: publish it, then delete it in a transaction of its own. */
    method PublishRow(p: PollId, row: Row, publishing: Outcome, deleting: Outcome) returns (ok: bool)
      requires Valid() && IsWorking(state, p) && !state.polls[p].sent && state.polls[p].rest != [] &&
               state.polls[p].rest[0] == row
      modifies this
      ensures Valid() && Extends(old(history), history, p) && state.inserted == old(state.inserted)
      ensures ok <==> publishing.Works? && deleting.Works?
      ensures ok ==> log == old(log) + [Event(p, row)] && table == Filter(OtherId(row.id), old(table))
      ensures !ok ==> log == old(log) || log == old(log) + [Event(p, row)]
      ensures p in state.polls
      ensures ok ==> state.polls[p] == Working(old(state.polls[p].rest[1..]), false) && state.lock == old(state.lock)
      ensures !ok ==> state.polls[p] == Dead && state.lock == old(state.lock) - {p}
    {
      if publishing.FailsBefore? {
        Do(p, Die(p));
        return false;
      }
      log := log + [Event(p, row)];
      Do(p, Publish(p));
      if publishing.FailsAfter? || deleting.FailsBefore? {
        Do(p, Die(p));
        return false;
      }
      table := Filter(OtherId(row.id), table);
      Do(p, DeleteRow(p));
      ok := deleting.Works?;
      if !ok {
        Do(p, Die(p));
      }
    }

    /** Taking the lock and reading the table. */
    method ReadRows(p: PollId, reading: Outcome) returns (rows: seq<Row>, ok: bool)
      requires Valid() && p !in state.polls && state.lock == {}
      modifies `state, `history
      ensures Valid() && Extends(old(history), history, p) && state.inserted == old(state.inserted)
      ensures rows == Sort(BySeqNo, table) && (ok <==> reading.Works?)
      ensures ok ==> p in state.polls && state.polls[p] == Working(rows, false) && state.lock == {p}
      ensures !ok ==> state.lock == {}
    {
      Do(p, Start(p));
      Do(p, Acquire(p));
      rows := Sort(BySeqNo, table);
      ok := reading.Works?;
      if ok {
        Do(p, Snapshot(p));
      } else {
        Do(p, Die(p));
      }
    }

    /** The loop over the rows that were read. */
    method PublishRows(p: PollId, rows: seq<Row>, outcome: nat -> Outcome) returns (ok: bool)
      requires Valid() && IsWorking(state, p) && state.polls[p] == Working(rows, false) && state.lock == {p}
      requires forall r | r in table :: r in rows
      modifies this
      ensures Valid() && Extends(old(history), history, p) && state.inserted == old(state.inserted)
      ensures ok ==> log == old(log) + Map(EventOf(p), rows) && table == []
      ensures ok ==> p in state.polls && state.polls[p] == Working([], false) && state.lock == {p}
      ensures !ok ==> old(log) <= log <= old(log) + Map(EventOf(p), rows) && state.lock == {}
      ensures (forall n :: outcome(n).Works?) ==> ok
    {
      ghost var events := Map(EventOf(p), rows);
      for i := 0 to |rows|
        invariant Valid() && Extends(old(history), history, p)
        invariant state.inserted == old(state.inserted) && state.lock == {p}
        invariant IsWorking(state, p) && state.polls[p] == Working(rows[i..], false)
        invariant log == old(log) + events[..i]
        invariant forall r | r in table :: r in rows[i..]
      {
        var row := rows[i];
        LogGrows(old(log), events, i);
        OthersRemain(table, rows, i);
        var done := PublishRow(p, row, outcome(2 * i + 1), outcome(2 * i + 2));
        if !done {
          return false;
        }
      }
      assert events[..|rows|] == events;
      NonEmptyHasMember(table);
      return true;
    }

    /** One poll that gets the lock; `outcome` says how its n-th call ends.  It takes steps of
        the protocol only.  When it succeeds it has published all rows in order of seqNo and
        emptied the table; when it fails it has published the rows up to some point. */
    method Poll(p: PollId, outcome: nat -> Outcome) returns (ok: bool)
      requires Valid() && p !in state.polls && state.lock == {}
      modifies this
      ensures Valid() && Extends(old(history), history, p)
      ensures state.lock == {} && state.inserted == old(state.inserted)
      ensures old(log) <= log <= old(log) + Map(EventOf(p), Sort(BySeqNo, old(table)))
      ensures ok ==> log == old(log) + Map(EventOf(p), Sort(BySeqNo, old(table))) && table == []
      ensures (forall n :: outcome(n).Works?) ==> ok
    {
      var rows: seq<Row>;
      rows, ok := ReadRows(p, outcome(0));
      if !ok {
        return;
      }
      ok := PublishRows(p, rows, outcome);
      if !ok {
        return;
      }
      ok := outcome(2 * |rows| + 1).Works?;
      if ok {
        Do(p, Finish(p));
      } else {
        Do(p, Die(p));
      }
    }
  }

  lemma OthersRemain(table: seq<Row>, rows: seq<Row>, i: nat)
    requires i < |rows| && forall r | r in table :: r in rows[i..]
    ensures rows[i..][1..] == rows[i + 1..]
    ensures forall r | r in Filter(OtherId(rows[i].id), table) :: r in rows[i + 1..]
  {
    assert forall r | r in rows[i..] :: r == rows[i] || r in rows[i + 1..];
  }

  lemma NonEmptyHasMember(rows: seq<Row>)
    ensures rows == [] || exists r :: r in rows
  {
    if rows != [] {
      assert rows[0] in rows;
    }
  }

  lemma LogGrows(log: seq<Event>, events: seq<Event>, i: nat)
    requires i < |events|
    ensures log <= log + events[..i] <= log + events
    ensures log + events[..i] + [events[i]] == log + events[..i + 1] <= log + events
  {
    assert events == events[..i] + [events[i]] + events[i + 1..];
    assert events[..i + 1] == events[..i] + [events[i]];
    assert log + events == log + events[..i] + [events[i]] + events[i + 1..];
  }
}
