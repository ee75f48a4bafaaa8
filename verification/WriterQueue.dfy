/**
 Group commit (db/db_impl.cc, DBImpl::Write and BuildBatchGroup): writers queue up, the one
 at the front logs and applies a whole group, and releases the group's members.

 Each step below is what one thread does without letting go of the mutex, or one action
 of the leader while it has let go of it. Appending and syncing may fail at any time.
 */
module WriterQueue {
  import opened InternalKeys
  import opened Engine

  type Id = nat

  /** No batch stands for the null batch that only asks for a memtable switch. */
  datatype Request = Request(batch: Option<WriteBatch>, sync: bool)

  datatype WriteBatch = WriteBatch(ops: seq<Operation>, byteSize: nat)

  // ---------------------------------------------------------------- choosing the group

  function Ops(requests: seq<Request>): seq<Operation> {
    if requests == [] then []
    else
      var r := requests[|requests| - 1];
      Ops(requests[..|requests| - 1]) + if r.batch.Some? then r.batch.value.ops else []
  }

  function Size(requests: seq<Request>): nat {
    if requests == [] then 0
    else
      var r := requests[|requests| - 1];
      Size(requests[..|requests| - 1]) + if r.batch.Some? then r.batch.value.byteSize else 0
  }

  /** A small first write is not slowed down by a large group. */
  function MaxSize(first: nat): nat {
    if first <= 131072 then first + 131072 else 1048576
  }

  predicate Joins(requests: seq<Request>, i: nat)
    requires i < |requests| && requests[0].batch.Some?
  {
    && (requests[i].sync ==> requests[0].sync)
    && (requests[i].batch.Some? ==> Size(requests[..i + 1]) <= MaxSize(requests[0].batch.value.byteSize))
  }

  /** The group is the longest prefix of the queue whose members all join the first. */
  ghost predicate IsGroup(requests: seq<Request>, n: nat) {
    && 1 <= n <= |requests| && requests[0].batch.Some?
    && (forall i :: 1 <= i < n ==> Joins(requests, i))
    && (n < |requests| ==> !Joins(requests, n))
  }

  method BuildBatchGroup(requests: seq<Request>) returns (n: nat, ops: seq<Operation>)
    requires |requests| > 0 && requests[0].batch.Some?
    ensures IsGroup(requests, n) && ops == Ops(requests[..n])
    ensures forall i :: 0 <= i < n && requests[i].sync ==> requests[0].sync
    ensures n < |requests| ==>
              || (requests[n].sync && !requests[0].sync)
              || (requests[n].batch.Some?
                  && Size(requests[..n + 1]) > var first := requests[0].batch.value.byteSize;
                                               if first <= 0x2_0000 then first + 0x2_0000 else 0x10_0000)
  {
    var size := requests[0].batch.value.byteSize;
    var maxSize := 1048576;
    if size <= 131072 {
      maxSize := size + 131072;
    }
    ops := requests[0].batch.value.ops;
    assert requests[..1][..0] == [];
    n := 1;
    while n < |requests|
      invariant 1 <= n <= |requests|
      invariant size == Size(requests[..n]) && ops == Ops(requests[..n])
      invariant forall i :: 1 <= i < n ==> Joins(requests, i)
      invariant forall i :: 0 <= i < n && requests[i].sync ==> requests[0].sync
    {
      var w := requests[n];
      assert requests[..n + 1][..n] == requests[..n];
      if w.sync && !requests[0].sync {
        break;
      }
      if w.batch.Some? {
        size := size + w.batch.value.byteSize;
        if size > maxSize {
          break;
        }
        ops := ops + w.batch.value.ops;
      }
      n := n + 1;
    }
  }

  // ---------------------------------------------------------------- the protocol

  /** The leader's own view of the group it is committing. */
  datatype Group = Group(count: nat, last: nat, ops: seq<Operation>) {
    function Rec(): Record {
      Record(last + 1, ops)
    }
  }

  datatype Phase =
    | Waiting
    | Logging(g: Group)
    | Logged(g: Group)
    | Synced(g: Group)
    | Applied(g: Group)
    | Failed(g: Group, logged: bool, syncError: bool)
    | Done(ok: bool)            // released by its leader, not awake yet
    | Returned(ok: bool)

  datatype Record = Record(first: nat, ops: seq<Operation>)

  datatype Stamp = Stamp(op: Operation, sn: nat)

  /** A group that has been released; a writer that got no room, or had no batch, is a group of its own. */
  datatype Past = Past(ids: seq<Id>, record: Record, logged: bool, applied: bool, ok: bool, syncError: bool)

  datatype State = State(
    requests: map<Id, Request>,
    phases: map<Id, Phase>,
    queue: seq<Id>,
    arrivals: seq<Id>,          // history only
    lastSequence: nat,
    log: seq<Record>,
    synced: nat,                // how many log records are known to be on disk
    mem: seq<Stamp>,
    bgError: bool,
    past: seq<Past>)            // history only: no step looks at it

  const START := State(map[], map[], [], [], 0, [], 0, [], false, [])

  function Stamps(r: Record): seq<Stamp> {
    seq(|r.ops|, i requires 0 <= i < |r.ops| => Stamp(r.ops[i], r.first + i))
  }

  ghost predicate Known(s: State) {
    && s.phases.Keys == s.requests.Keys
    && (forall i :: 0 <= i < |s.queue| ==> s.queue[i] in s.requests)
  }

  ghost function Queued(s: State): seq<Request>
    requires Known(s)
  {
    seq(|s.queue|, i requires 0 <= i < |s.queue| => s.requests[s.queue[i]])
  }

  /** w holds the front of the queue and is in phase p. */
  ghost predicate Leads(s: State, w: Id, p: Phase) {
    |s.queue| > 0 && s.queue[0] == w && w in s.phases && s.phases[w] == p
  }

  datatype Step =
    | Enqueue(w: Id, request: Request)
    | Wake(w: Id)
    | NoRoom(w: Id)
    | NoBatch(w: Id)
    | Build(w: Id, count: nat)
    | Append(w: Id)
    | AppendFails(w: Id, written: bool)
    | Sync(w: Id)
    | SyncFails(w: Id)
    | Apply(w: Id)
    | Finish(w: Id)

  /** The front writer leaves alone. */
  function Leave(s: State, w: Id, ok: bool): State
    requires |s.queue| > 0
  {
    s.(phases := s.phases[w := Returned(ok)], queue := s.queue[1..],
       past := s.past + [Past([w], Record(s.lastSequence + 1, []), false, false, ok, false)])
  }

  /** Members of the group other than the leader are marked done; the leader returns. */
  function Released(phases: map<Id, Phase>, group: seq<Id>, w: Id, ok: bool): map<Id, Phase> {
    map x | x in phases :: if x == w then Returned(ok) else if x in group then Done(ok) else phases[x]
  }

  function FinishGroup(s: State, w: Id, g: Group, logged: bool, applied: bool, syncError: bool): State
    requires g.count <= |s.queue|
  {
    s.(phases := Released(s.phases, s.queue[..g.count], w, applied),
       queue := s.queue[g.count..],
       lastSequence := g.last + |g.ops|,
       bgError := s.bgError || syncError,
       past := s.past + [Past(s.queue[..g.count], g.Rec(), logged, applied, applied, syncError)])
  }

  ghost predicate Next(s: State, step: Step, t: State)
    requires Known(s)
  {
    match step
    case Enqueue(w, request) =>
      w !in s.requests
      && t == Enqueued(s, w, request)
    case Wake(w) =>
      w in s.phases && s.phases[w].Done? && t == s.(phases := s.phases[w := Returned(s.phases[w].ok)])
    case NoRoom(w) =>
      Leads(s, w, Waiting) && t == Leave(s, w, false)
    case NoBatch(w) =>
      Leads(s, w, Waiting) && !s.bgError && s.requests[w].batch.None? && t == Leave(s, w, true)
    case Build(w, count) =>
      Leads(s, w, Waiting) && !s.bgError && IsGroup(Queued(s), count)
      && t == s.(phases := s.phases[w := Logging(Group(count, s.lastSequence, Ops(Queued(s)[..count])))])
    case Append(w) =>
      w in s.phases && s.phases[w].Logging?
      && var g := s.phases[w].g;
         t == s.(phases := s.phases[w := Logged(g)], log := s.log + [g.Rec()])
    case AppendFails(w, written) =>
      w in s.phases && s.phases[w].Logging?
      && var g := s.phases[w].g;
         t == s.(phases := s.phases[w := Failed(g, written, false)],
                 log := if written then s.log + [g.Rec()] else s.log)
    case Sync(w) =>
      w in s.phases && s.phases[w].Logged? && s.requests[w].sync
      && t == s.(phases := s.phases[w := Synced(s.phases[w].g)], synced := |s.log|)
    case SyncFails(w) =>
      w in s.phases && s.phases[w].Logged? && s.requests[w].sync
      && t == s.(phases := s.phases[w := Failed(s.phases[w].g, true, true)])
    case Apply(w) =>
      w in s.phases && (s.phases[w].Synced? || (s.phases[w].Logged? && !s.requests[w].sync))
      && var g := s.phases[w].g;
         t == s.(phases := s.phases[w := Applied(g)], mem := s.mem + Stamps(g.Rec()))
    case Finish(w) =>
      w in s.phases && (s.phases[w].Applied? || s.phases[w].Failed?)
      && var p := s.phases[w];
         p.g.count <= |s.queue|
         && t == FinishGroup(s, w, p.g, p.Applied? || p.logged, p.Applied?, p.Failed? && p.syncError)
  }

  // ---------------------------------------------------------------- what every run keeps

  function Members(past: seq<Past>): seq<Id> {
    if past == [] then [] else Members(past[..|past| - 1]) + past[|past| - 1].ids
  }

  function LogOf(past: seq<Past>): seq<Record> {
    if past == [] then []
    else
      var p := past[|past| - 1];
      LogOf(past[..|past| - 1]) + if p.logged then [p.record] else []
  }

  function MemOf(past: seq<Past>): seq<Stamp> {
    if past == [] then []
    else
      var p := past[|past| - 1];
      MemOf(past[..|past| - 1]) + if p.applied then Stamps(p.record) else []
  }

  /** Every group starts where the one before it ended, whether or not that one succeeded. */
  function NextFirst(past: seq<Past>): nat {
    if past == [] then 1 else past[|past| - 1].record.first + |past[|past| - 1].record.ops|
  }

  predicate InFlight(p: Phase) {
    p.Logging? || p.Logged? || p.Synced? || p.Applied? || p.Failed?
  }

  ghost predicate Distinct(ids: seq<Id>) {
    forall i, j :: 0 <= i < j < |ids| ==> ids[i] != ids[j]
  }

  /** Only the front of the queue is ever busy, and the writers that left the queue have been answered. */
  ghost predicate QueueInv(s: State) {
    && Known(s)
    && Distinct(s.arrivals) && s.arrivals == Members(s.past) + s.queue
    && (forall w :: w in s.requests <==> w in s.arrivals)
    && (forall i :: 0 <= i < |s.queue| ==> s.phases[s.queue[i]].Waiting? || (i == 0 && InFlight(s.phases[s.queue[i]])))
    && (forall w :: w in s.phases && w !in s.queue ==> s.phases[w].Done? || s.phases[w].Returned?)
  }

  ghost function RequestsOf(s: State, ids: seq<Id>): seq<Request>
    requires forall i :: 0 <= i < |ids| ==> ids[i] in s.requests
  {
    seq(|ids|, i requires 0 <= i < |ids| => s.requests[ids[i]])
  }

  /** The group consists of these writers' batches, and only a sync leader has sync members. */
  ghost predicate GroupOf(s: State, ids: seq<Id>, ops: seq<Operation>) {
    && |ids| > 0 && (forall i :: 0 <= i < |ids| ==> ids[i] in s.requests)
    && s.requests[ids[0]].batch.Some?
    && ops == Ops(RequestsOf(s, ids))
    && (forall i :: 0 <= i < |ids| && s.requests[ids[i]].sync ==> s.requests[ids[0]].sync)
  }

  ghost predicate LeaderInv(s: State)
    requires Known(s)
  {
    |s.queue| > 0 && InFlight(s.phases[s.queue[0]]) ==>
      var p := s.phases[s.queue[0]];
      && p.g.count <= |s.queue| && GroupOf(s, s.queue[..p.g.count], p.g.ops) && p.g.last == s.lastSequence
      && (p.Synced? || (p.Applied? && s.requests[s.queue[0]].sync) ==> s.synced == |s.log|)
      && !s.bgError
  }

  predicate Answered(p: Phase, ok: bool) {
    p == Done(ok) || p == Returned(ok)
  }

  ghost predicate GoodPast(s: State, past: seq<Past>, i: nat)
    requires Known(s) && i < |past|
  {
    var p := past[i];
    && |p.ids| > 0 && (forall k :: 0 <= k < |p.ids| ==>
                         p.ids[k] in s.requests && Answered(s.phases[p.ids[k]], p.ok))
    && p.record.first == NextFirst(past[..i])
    && (p.applied ==> p.logged) && (p.logged ==> GroupOf(s, p.ids, p.record.ops))
    && (p.ok ==> !p.syncError && (p.applied || (|p.ids| == 1 && s.requests[p.ids[0]].batch.None?)))
    && (p.applied && s.requests[p.ids[0]].sync ==> |LogOf(past[..i + 1])| <= s.synced)
    && (p.syncError ==> s.bgError && forall j :: i < j < |past| ==> !past[j].ok)
  }

  ghost predicate PastInv(s: State)
    requires Known(s)
  {
    && s.lastSequence + 1 == NextFirst(s.past)
    && forall i :: 0 <= i < |s.past| ==> GoodPast(s, s.past, i)
  }

  function FlightLog(p: Phase): seq<Record> {
    if p.Logged? || p.Synced? || p.Applied? || (p.Failed? && p.logged) then [p.g.Rec()] else []
  }

  function FlightMem(p: Phase): seq<Stamp> {
    if p.Applied? then Stamps(p.g.Rec()) else []
  }

  /** Log and memtable hold the groups released so far, in order, and the leader's. */
  ghost predicate StoreInv(s: State)
    requires Known(s)
  {
    && s.synced <= |s.log|
    && s.log == LogOf(s.past) + (if s.queue == [] then [] else FlightLog(s.phases[s.queue[0]]))
    && s.mem == MemOf(s.past) + (if s.queue == [] then [] else FlightMem(s.phases[s.queue[0]]))
  }

  ghost predicate Inv(s: State) {
    QueueInv(s) && LeaderInv(s) && PastInv(s) && StoreInv(s)
  }

  // ---------------------------------------------------------------- each step keeps it

  lemma {:induction false} InMembers(past: seq<Past>, i: nat, k: nat)
    requires i < |past| && k < |past[i].ids|
    ensures past[i].ids[k] in Members(past)
  {
    if i < |past| - 1 {
      InMembers(past[..|past| - 1], i, k);
    }
  }

  lemma NotQueued(s: State, w: Id)
    requires QueueInv(s) && w in Members(s.past)
    ensures w !in s.queue && w in s.requests
  {
    var m := |Members(s.past)|;
    var i :| 0 <= i < m && Members(s.past)[i] == w;
    assert s.arrivals[i] == w;
    forall j | 0 <= j < |s.queue|
      ensures s.queue[j] != w
    {
      assert s.arrivals[m + j] == s.queue[j];
    }
  }

  /** Nothing is taken back from the requests. */
  ghost predicate RequestsStay(s: State, t: State) {
    Known(t) && forall w :: w in s.requests ==> w in t.requests && t.requests[w] == s.requests[w]
  }

  lemma GroupStays(s: State, t: State, ids: seq<Id>, ops: seq<Operation>)
    requires GroupOf(s, ids, ops) && RequestsStay(s, t)
    ensures GroupOf(t, ids, ops)
  {
    assert RequestsOf(t, ids) == RequestsOf(s, ids);
  }

  /** Steps of writers still in the queue, or waking up, do not touch what is past. */
  lemma PastStays(s: State, t: State)
    requires Known(s) && QueueInv(s) && PastInv(s) && RequestsStay(s, t)
    requires t.past == s.past && t.lastSequence == s.lastSequence && s.synced <= t.synced && t.bgError == s.bgError
    requires forall w, ok :: w in s.requests && w !in s.queue && Answered(s.phases[w], ok) ==> Answered(t.phases[w], ok)
    ensures PastInv(t)
  {
    hide QueueInv, LogOf, Members, GroupOf;
    forall i | 0 <= i < |t.past|
      ensures GoodPast(t, t.past, i)
    {
      assert GoodPast(s, s.past, i);
      var p := s.past[i];
      forall k | 0 <= k < |p.ids|
        ensures p.ids[k] in t.requests && Answered(t.phases[p.ids[k]], p.ok)
      {
        InMembers(s.past, i, k);
        NotQueued(s, p.ids[k]);
      }
      if p.logged {
        GroupStays(s, t, p.ids, p.record.ops);
      }
    }
  }

  /** A busy writer is at the front, so nobody else is busy. */
  lemma BusyIsFront(s: State, w: Id)
    requires QueueInv(s) && w in s.phases && InFlight(s.phases[w])
    ensures |s.queue| > 0 && s.queue[0] == w
  {
    var i :| 0 <= i < |s.queue| && s.queue[i] == w;
  }

  lemma FrontStep(s: State, w: Id, p: Phase, t: State)
    requires QueueInv(s) && PastInv(s) && |s.queue| > 0 && s.queue[0] == w && w in s.phases
    requires InFlight(p) && s.synced <= t.synced
    requires t == s.(phases := s.phases[w := p], log := t.log, mem := t.mem, synced := t.synced)
    ensures QueueInv(t) && PastInv(t)
  {
    hide Members, PastInv;
    assert t.phases.Keys == s.phases.Keys;
    QueueDistinct(s);
    PastStays(s, t);
  }

  /** The leader goes on with its group. */
  lemma LeaderMoves(s: State, w: Id, p: Phase, t: State)
    requires Inv(s) && w in s.phases && InFlight(s.phases[w]) && InFlight(p) && p.g == s.phases[w].g
    requires t == s.(phases := s.phases[w := p], log := t.log, mem := t.mem, synced := t.synced)
    requires s.synced <= t.synced <= |t.log|
    requires p.Synced? || (p.Applied? && w in s.requests && s.requests[w].sync) ==> t.synced == |t.log|
    requires t.log == LogOf(s.past) + FlightLog(p) && t.mem == MemOf(s.past) + FlightMem(p)
    ensures Inv(t)
  {
    hide PastInv, Members, LogOf, MemOf, FlightLog, FlightMem, GroupOf;
    BusyIsFront(s, w);
    FrontStep(s, w, p, t);
    hide QueueInv;
    GroupStays(s, t, s.queue[..p.g.count], p.g.ops);
  }

  lemma AppendStep(s: State, w: Id, p: Phase, t: State)
    requires Inv(s) && w in s.phases && s.phases[w].Logging?
    requires p == Logged(s.phases[w].g) || (p.Failed? && p.g == s.phases[w].g)
    requires t == s.(phases := s.phases[w := p], log := s.log + FlightLog(p))
    ensures Inv(t)
  {
    hide Inv, Stamps, LogOf, MemOf;
    LeaderFacts(s, w);
    LeaderMoves(s, w, p, t);
  }

  lemma SyncStep(s: State, w: Id, p: Phase, t: State)
    requires Inv(s) && w in s.phases && s.phases[w].Logged?
    requires p == Synced(s.phases[w].g) || p == Failed(s.phases[w].g, true, true)
    requires t == s.(phases := s.phases[w := p], synced := if p.Synced? then |s.log| else s.synced)
    ensures Inv(t)
  {
    hide Inv, Stamps, LogOf, MemOf;
    LeaderFacts(s, w);
    LeaderMoves(s, w, p, t);
  }

  lemma ApplyStep(s: State, w: Id, t: State)
    requires Inv(s) && w in s.phases && w in s.requests
    requires s.phases[w].Synced? || (s.phases[w].Logged? && !s.requests[w].sync)
    requires t == s.(phases := s.phases[w := Applied(s.phases[w].g)], mem := s.mem + Stamps(s.phases[w].g.Rec()))
    ensures Inv(t)
  {
    hide Inv, Stamps, LogOf, MemOf;
    LeaderFacts(s, w);
    LeaderMoves(s, w, Applied(s.phases[w].g), t);
  }

  lemma LeaderFacts(s: State, w: Id)
    requires Inv(s) && w in s.phases && InFlight(s.phases[w])
    ensures s.log == LogOf(s.past) + FlightLog(s.phases[w]) && s.mem == MemOf(s.past) + FlightMem(s.phases[w])
    ensures s.synced <= |s.log| && w in s.requests
    ensures s.phases[w].Synced? ==> s.synced == |s.log|
  {
    hide PastInv, LogOf, MemOf, Stamps, GroupOf, Members;
    BusyIsFront(s, w);
  }

  lemma BuiltGroup(s: State, n: nat)
    requires Known(s) && IsGroup(Queued(s), n)
    ensures GroupOf(s, s.queue[..n], Ops(Queued(s)[..n]))
  {
    hide Ops, Size;
    var ids := s.queue[..n];
    assert RequestsOf(s, ids) == Queued(s)[..n];
    forall i | 0 <= i < n && s.requests[ids[i]].sync
      ensures s.requests[ids[0]].sync
    {
      assert i > 0 ==> Joins(Queued(s), i);
    }
  }

  lemma BuildStep(s: State, step: Step, t: State)
    requires Inv(s) && step.Build? && Next(s, step, t)
    ensures Inv(t)
  {
    hide PastInv, Members, LogOf, MemOf, Stamps, Ops, GroupOf;
    var w, n := step.w, step.count;
    BuiltGroup(s, n);
    FrontStep(s, w, t.phases[w], t);
    GroupStays(s, t, s.queue[..n], Ops(Queued(s)[..n]));
  }

  function Enqueued(s: State, w: Id, request: Request): State {
    s.(requests := s.requests[w := request], phases := s.phases[w := Waiting], queue := s.queue + [w],
       arrivals := s.arrivals + [w])
  }

  lemma EnqueueKeepsQueue(s: State, w: Id, request: Request)
    requires QueueInv(s) && w !in s.requests
    ensures QueueInv(Enqueued(s, w, request)) && w !in s.queue && RequestsStay(s, Enqueued(s, w, request))
  {
    hide Members, Distinct;
    var t := Enqueued(s, w, request);
    assert w !in s.arrivals && w !in s.queue;
    DistinctGrows(s.arrivals, w);
    assert t.arrivals == Members(t.past) + t.queue;
    forall x
      ensures x in t.requests <==> x in t.arrivals
    {
      assert x in t.requests <==> x in s.requests || x == w;
    }
    forall i | 0 <= i < |t.queue|
      ensures t.phases[t.queue[i]].Waiting? || (i == 0 && InFlight(t.phases[t.queue[i]]))
    {
      assert t.queue[i] == if i < |s.queue| then s.queue[i] else w;
    }
  }

  lemma DistinctGrows(ids: seq<Id>, id: Id)
    requires Distinct(ids) && id !in ids
    ensures Distinct(ids + [id])
  {
  }

  /** Nothing is at stake for leader, log and memtable when the front of the queue stays as it is. */
  lemma FrontStays(s: State, t: State)
    requires Known(s) && Known(t) && LeaderInv(s) && StoreInv(s) && RequestsStay(s, t)
    requires s.queue <= t.queue && (s.queue == [] && t.queue != [] ==> t.phases[t.queue[0]].Waiting?)
    requires s.queue != [] ==> t.phases[s.queue[0]] == s.phases[s.queue[0]]
    requires t.past == s.past && t.log == s.log && t.mem == s.mem && t.synced == s.synced
    requires t.lastSequence == s.lastSequence && t.bgError == s.bgError
    ensures LeaderInv(t) && StoreInv(t)
  {
    hide LogOf, MemOf, Stamps, GroupOf;
    if |s.queue| > 0 && InFlight(s.phases[s.queue[0]]) {
      var g := s.phases[s.queue[0]].g;
      assert t.queue[..g.count] == s.queue[..g.count];
      GroupStays(s, t, s.queue[..g.count], g.ops);
    }
  }

  lemma EnqueueStep(s: State, w: Id, request: Request)
    requires Inv(s) && w !in s.requests
    ensures Inv(Enqueued(s, w, request))
  {
    hide PastInv, LeaderInv, StoreInv, Members, Distinct;
    var t := Enqueued(s, w, request);
    EnqueueKeepsQueue(s, w, request);
    PastStays(s, t);
    FrontStays(s, t);
  }

  lemma WakeStep(s: State, step: Step, t: State)
    requires Inv(s) && step.Wake? && Next(s, step, t)
    ensures Inv(t)
  {
    hide PastInv, LeaderInv, StoreInv, Members;
    assert step.w !in s.queue;
    PastStays(s, t);
    FrontStays(s, t);
  }

  /** A group leaves the queue: what was past stays as it is, and the group joins it. */
  lemma PastExtends(s: State, t: State, p: Past)
    requires Known(s) && QueueInv(s) && PastInv(s) && RequestsStay(s, t)
    requires t.past == s.past + [p] && s.synced <= t.synced
    requires s.bgError ==> t.bgError && !p.ok
    requires forall w, ok :: w in s.requests && w !in s.queue && Answered(s.phases[w], ok) ==> Answered(t.phases[w], ok)
    requires GoodPast(t, t.past, |s.past|)
    requires t.lastSequence + 1 == p.record.first + |p.record.ops|
    ensures PastInv(t)
  {
    hide QueueInv, LogOf, Members, GroupOf, NextFirst;
    forall i | 0 <= i < |s.past|
      ensures GoodPast(t, t.past, i)
    {
      assert GoodPast(s, s.past, i);
      var q := s.past[i];
      assert t.past[..i] == s.past[..i] && t.past[..i + 1] == s.past[..i + 1];
      forall k | 0 <= k < |q.ids|
        ensures q.ids[k] in t.requests && Answered(t.phases[q.ids[k]], q.ok)
      {
        InMembers(s.past, i, k);
        NotQueued(s, q.ids[k]);
      }
      if q.logged {
        GroupStays(s, t, q.ids, q.record.ops);
      }
    }
    assert NextFirst(t.past) == p.record.first + |p.record.ops| by {
      NextFirstOf(s.past, p);
    }
  }

  lemma NextFirstOf(past: seq<Past>, p: Past)
    ensures NextFirst(past + [p]) == p.record.first + |p.record.ops|
    ensures Members(past + [p]) == Members(past) + p.ids
    ensures LogOf(past + [p]) == LogOf(past) + if p.logged then [p.record] else []
    ensures MemOf(past + [p]) == MemOf(past) + if p.applied then Stamps(p.record) else []
  {
    assert (past + [p])[..|past|] == past;
  }

  lemma QueueDistinct(s: State)
    requires QueueInv(s)
    ensures Distinct(s.queue)
  {
    hide Members;
    var m := |Members(s.past)|;
    forall i, j | 0 <= i < j < |s.queue|
      ensures s.queue[i] != s.queue[j]
    {
      assert s.arrivals[m + i] == s.queue[i] && s.arrivals[m + j] == s.queue[j];
    }
  }

  lemma Regroup(a: seq<Id>, b: seq<Id>, n: nat)
    requires n <= |b|
    ensures a + b == (a + b[..n]) + b[n..]
  {
    assert b == b[..n] + b[n..];
  }

  lemma TailWaits(s: State, n: nat)
    requires QueueInv(s) && 1 <= n <= |s.queue|
    ensures forall w :: w in s.queue ==> w in s.queue[..n] || w in s.queue[n..]
    ensures forall i :: n <= i < |s.queue| ==> s.queue[i] !in s.queue[..n] && s.phases[s.queue[i]].Waiting?
  {
    hide Members;
    QueueDistinct(s);
    assert s.queue == s.queue[..n] + s.queue[n..];
    assert forall w :: w in s.queue ==> w in s.queue[..n] || w in s.queue[n..];
  }

  // ---------------------------------------------------------------- a group leaving the queue

  ghost predicate QueueMovesOn(s: State, p: Past, t: State) {
    && 1 <= |p.ids| <= |s.queue| && p.ids == s.queue[..|p.ids|] && t.queue == s.queue[|p.ids|..]
    && t.arrivals == s.arrivals && t.requests == s.requests && t.phases.Keys == s.phases.Keys
    && (forall w :: w in s.phases && w !in p.ids ==> t.phases[w] == s.phases[w])
    && (forall w :: w in p.ids ==> w in t.phases && Answered(t.phases[w], p.ok))
    && t.past == s.past + [p]
  }

  /** p is a fit group to join the past of s. */
  ghost predicate GoodGroup(s: State, p: Past) {
    && |p.ids| > 0 && p.ids[0] in s.requests
    && p.record.first == s.lastSequence + 1
    && (p.applied ==> p.logged) && (p.logged ==> GroupOf(s, p.ids, p.record.ops))
    && (p.ok ==> !p.syncError && !s.bgError && (p.applied || (|p.ids| == 1 && s.requests[p.ids[0]].batch.None?)))
    && (p.applied && s.requests[p.ids[0]].sync ==> |LogOf(s.past)| + 1 <= s.synced)
  }

  ghost predicate StoreMovesOn(s: State, p: Past, t: State)
    requires Known(s) && |s.queue| > 0
  {
    && t.log == s.log && t.mem == s.mem && t.synced == s.synced
    && FlightLog(s.phases[s.queue[0]]) == (if p.logged then [p.record] else [])
    && FlightMem(s.phases[s.queue[0]]) == (if p.applied then Stamps(p.record) else [])
  }

  lemma GroupLeavesQueue(s: State, p: Past, t: State)
    requires QueueInv(s) && QueueMovesOn(s, p, t)
    ensures QueueInv(t) && (|t.queue| > 0 ==> t.phases[t.queue[0]].Waiting?)
  {
    hide LogOf, MemOf, Members, NextFirst, Stamps, Distinct;
    NextFirstOf(s.past, p);
    Regroup(Members(s.past), s.queue, |p.ids|);
    TailStillWaits(s, p, t);
    TailWaits(s, |p.ids|);
  }

  lemma TailStillWaits(s: State, p: Past, t: State)
    requires QueueInv(s) && QueueMovesOn(s, p, t)
    ensures forall i :: 0 <= i < |t.queue| ==> t.queue[i] in t.requests && t.phases[t.queue[i]].Waiting?
  {
    hide Members, Distinct;
    var n := |p.ids|;
    TailWaits(s, n);
    forall i | 0 <= i < |t.queue|
      ensures t.queue[i] in t.requests && t.phases[t.queue[i]].Waiting?
    {
      assert t.queue[i] == s.queue[n + i] && s.queue[n + i] !in p.ids;
    }
  }

  lemma GroupIsGoodPast(s: State, p: Past, t: State)
    requires Known(s) && Known(t) && GoodGroup(s, p) && QueueMovesOn(s, p, t)
    requires s.lastSequence + 1 == NextFirst(s.past) && t.synced == s.synced && (p.syncError ==> t.bgError)
    ensures GoodPast(t, t.past, |s.past|)
  {
    NextFirstOf(s.past, p);
    hide LogOf, MemOf, Members, NextFirst, Stamps, GroupOf;
    var n := |s.past|;
    assert t.past[..n] == s.past && t.past[..n + 1] == t.past;
    if p.logged {
      GroupStays(s, t, p.ids, p.record.ops);
    }
    forall k | 0 <= k < |p.ids|
      ensures p.ids[k] in t.requests && Answered(t.phases[p.ids[k]], p.ok)
    {
      assert p.ids[k] in p.ids;
    }
  }

  lemma GroupJoinsPast(s: State, p: Past, t: State)
    requires Known(s) && Known(t) && QueueInv(s) && PastInv(s) && GoodGroup(s, p) && QueueMovesOn(s, p, t)
    requires t.synced == s.synced && t.bgError == (s.bgError || p.syncError)
    requires t.lastSequence == s.lastSequence + |p.record.ops|
    ensures PastInv(t)
  {
    GroupIsGoodPast(s, p, t);
    forall w, ok | w in s.requests && w !in s.queue && Answered(s.phases[w], ok)
      ensures Answered(t.phases[w], ok)
    {
      assert w !in p.ids;
    }
    hide QueueInv, GoodPast, GroupOf, LogOf, Members, NextFirst;
    PastExtends(s, t, p);
  }

  lemma GroupStaysStored(s: State, p: Past, t: State)
    requires Known(s) && Known(t) && StoreInv(s) && |s.queue| > 0 && StoreMovesOn(s, p, t) && t.past == s.past + [p]
    requires |t.queue| > 0 ==> t.phases[t.queue[0]].Waiting?
    ensures StoreInv(t)
  {
    NextFirstOf(s.past, p);
    hide LogOf, MemOf, Stamps, Members, NextFirst;
    assert s.log + [] == s.log && s.mem + [] == s.mem;
  }

  lemma GroupLeaves(s: State, p: Past, t: State)
    requires Inv(s) && GoodGroup(s, p) && QueueMovesOn(s, p, t) && StoreMovesOn(s, p, t)
    requires t.bgError == (s.bgError || p.syncError) && t.lastSequence == s.lastSequence + |p.record.ops|
    ensures Inv(t)
  {
    hide GoodGroup, QueueMovesOn, StoreMovesOn, PastInv, StoreInv, LeaderInv;
    GroupLeavesQueue(s, p, t);
    GroupFacts(s, p, t);
    GroupJoinsPast(s, p, t);
    GroupStaysStored(s, p, t);
    FrontWaits(t);
  }

  lemma GroupFacts(s: State, p: Past, t: State)
    requires Known(s) && QueueMovesOn(s, p, t) && StoreMovesOn(s, p, t)
    ensures t.past == s.past + [p] && |s.queue| > 0 && t.synced == s.synced
  {
  }

  lemma FrontWaits(t: State)
    requires QueueInv(t) && PastInv(t) && StoreInv(t)
    requires |t.queue| > 0 ==> t.phases[t.queue[0]].Waiting?
    ensures Inv(t)
  {
    hide PastInv, StoreInv, GroupOf;
  }

  lemma LeaveStep(s: State, w: Id, ok: bool)
    requires Inv(s) && Leads(s, w, Waiting)
    requires ok ==> !s.bgError && s.requests[w].batch.None?
    ensures Inv(Leave(s, w, ok))
  {
    var p := Past([w], Record(s.lastSequence + 1, []), false, false, ok, false);
    assert s.queue[..1] == [w];
    LeaveMovesOn(s, w, ok, p);
    hide QueueMovesOn, StoreMovesOn, QueueInv, PastInv, StoreInv, LeaderInv, LogOf;
    GroupLeaves(s, p, Leave(s, w, ok));
  }

  lemma LeaveMovesOn(s: State, w: Id, ok: bool, p: Past)
    requires Known(s) && Leads(s, w, Waiting) && p == Past([w], Record(s.lastSequence + 1, []), false, false, ok, false)
    ensures QueueMovesOn(s, p, Leave(s, w, ok)) && StoreMovesOn(s, p, Leave(s, w, ok))
  {
    hide Stamps;
    assert s.queue[..1] == [w];
  }

  /** The group the leader leaves behind when it finishes. */
  function Finished(s: State, w: Id): Past
    requires w in s.phases && InFlight(s.phases[w]) && s.phases[w].g.count <= |s.queue|
  {
    var p := s.phases[w];
    Past(s.queue[..p.g.count], p.g.Rec(), p.Applied? || (p.Failed? && p.logged), p.Applied?, p.Applied?,
         p.Failed? && p.syncError)
  }

  lemma GroupNonEmpty(s: State, ids: seq<Id>, ops: seq<Operation>)
    requires GroupOf(s, ids, ops)
    ensures |ids| > 0 && ids[0] in s.requests
  {
  }

  lemma FinishedIsGood(s: State, w: Id)
    requires Inv(s) && |s.queue| > 0 && s.queue[0] == w && w in s.phases
    requires s.phases[w].Applied? || s.phases[w].Failed?
    ensures s.phases[w].g.count <= |s.queue| && GoodGroup(s, Finished(s, w))
    ensures s.phases[w].g.last == s.lastSequence
  {
    hide PastInv, QueueInv, LogOf, MemOf, Stamps, GroupOf;
    var p := Finished(s, w);
    GroupNonEmpty(s, p.ids, p.record.ops);
    assert p.ids[0] == w;
  }

  lemma FinishStep(s: State, w: Id, t: State)
    requires Inv(s) && Next(s, Finish(w), t)
    ensures Inv(t)
  {
    hide Inv, QueueInv, Next, GoodGroup, FinishGroup;
    InvQueue(s);
    FinishIs(s, w, t);
    BusyIsFront(s, w);
    FinishedIsGood(s, w);
    var p := Finished(s, w);
    GoodNonEmpty(s, p);
    FinishMovesOn(s, w, p, t);
    FinishCounts(s, w, p, t);
    GroupLeaves(s, p, t);
  }

  lemma InvQueue(s: State)
    requires Inv(s)
    ensures Known(s) && QueueInv(s)
  {
  }

  lemma GoodNonEmpty(s: State, p: Past)
    requires GoodGroup(s, p)
    ensures |p.ids| > 0 && p.ids[0] in s.requests
  {
  }

  lemma FinishIs(s: State, w: Id, t: State)
    requires Known(s) && Next(s, Finish(w), t)
    ensures w in s.phases && (s.phases[w].Applied? || s.phases[w].Failed?) && s.phases[w].g.count <= |s.queue|
    ensures var p := Finished(s, w); t == FinishGroup(s, w, s.phases[w].g, p.logged, p.applied, p.syncError)
  {
    hide FinishGroup;
  }

  lemma FinishCounts(s: State, w: Id, p: Past, t: State)
    requires w in s.phases && InFlight(s.phases[w]) && s.phases[w].g.count <= |s.queue| && p == Finished(s, w)
    requires s.phases[w].g.last == s.lastSequence
    requires t == FinishGroup(s, w, s.phases[w].g, p.logged, p.applied, p.syncError)
    ensures t.bgError == (s.bgError || p.syncError) && t.lastSequence == s.lastSequence + |p.record.ops|
  {
    hide Released;
  }

  lemma FinishMovesOn(s: State, w: Id, p: Past, t: State)
    requires Known(s) && |s.queue| > 0 && s.queue[0] == w && (s.phases[w].Applied? || s.phases[w].Failed?)
    requires s.phases[w].g.count <= |s.queue| && p == Finished(s, w) && |p.ids| > 0 && p.ids[0] in s.requests
    requires t == FinishGroup(s, w, s.phases[w].g, p.logged, p.applied, p.syncError)
    ensures QueueMovesOn(s, p, t) && StoreMovesOn(s, p, t)
  {
    hide Stamps;
    assert p.ids[0] == w;
  }

  lemma StepKeepsInv(s: State, step: Step, t: State)
    requires Inv(s) && Next(s, step, t)
    ensures Inv(t)
  {
    hide Inv;
    match step
    case Enqueue(w, request) => EnqueueStep(s, w, request);
    case Wake(w) => WakeStep(s, step, t);
    case NoRoom(w) => LeaveStep(s, w, false);
    case NoBatch(w) => LeaveStep(s, w, true);
    case Build(w, count) => BuildStep(s, step, t);
    case Finish(w) => FinishStep(s, w, t);
    case Append(w) => AppendStep(s, w, t.phases[w], t);
    case AppendFails(w, written) =>
      assert s.log + [] == s.log;
      AppendStep(s, w, t.phases[w], t);
    case Sync(w) => SyncStep(s, w, t.phases[w], t);
    case SyncFails(w) => SyncStep(s, w, t.phases[w], t);
    case Apply(w) =>
      LeaderFacts(s, w);
      ApplyStep(s, w, t);
  }

  // ---------------------------------------------------------------- what a released writer can rely on

  ghost predicate IsRun(states: seq<State>, steps: seq<Step>) {
    && |states| == |steps| + 1 && states[0] == START
    && forall i :: 0 <= i < |steps| ==> Known(states[i]) && Next(states[i], steps[i], states[i + 1])
  }

  lemma StartIsGood()
    ensures Inv(START)
  {
  }

  lemma {:induction false} RunKeepsInv(states: seq<State>, steps: seq<Step>, i: nat)
    requires IsRun(states, steps) && i < |states|
    ensures Inv(states[i])
  {
    hide Inv, Next;
    if i == 0 {
      StartIsGood();
    } else {
      RunKeepsInv(states, steps, i - 1);
      StepKeepsInv(states[i - 1], steps[i - 1], states[i]);
    }
  }

  /** No two leaders: whoever is logging or applying is at the front of the queue, so it is alone. */
  lemma OneLeader(states: seq<State>, steps: seq<Step>, i: nat, v: Id, w: Id)
    requires IsRun(states, steps) && i < |states|
    requires v in states[i].phases && w in states[i].phases
    requires InFlight(states[i].phases[v]) && InFlight(states[i].phases[w])
    ensures v == w
  {
    RunKeepsInv(states, steps, i);
    BusyIsFront(states[i], v);
    BusyIsFront(states[i], w);
  }

  lemma {:induction false} MembersHave(past: seq<Past>, w: Id) returns (i: nat, k: nat)
    requires w in Members(past)
    ensures i < |past| && k < |past[i].ids| && past[i].ids[k] == w
  {
    var n := |past| - 1;
    if w in past[n].ids {
      i := n;
      k :| 0 <= k < |past[n].ids| && past[n].ids[k] == w;
    } else {
      i, k := MembersHave(past[..n], w);
    }
  }

  lemma {:induction false} LogPrefix(past: seq<Past>, i: nat)
    requires i <= |past|
    ensures LogOf(past[..i]) <= LogOf(past) && MemOf(past[..i]) <= MemOf(past)
  {
    if i < |past| {
      var n := |past| - 1;
      LogPrefix(past[..n], i);
      assert past[..n][..i] == past[..i];
    } else {
      assert past[..i] == past;
    }
  }

  /** Group i is one record of the log, made of its batches in queue order and numbered on from the group before;
      all of it has been applied; and if w asked for a sync, the record is on disk. */
  ghost predicate Committed(s: State, i: nat, w: Id)
    requires i < |s.past| && w in s.requests
  {
    var p := s.past[i];
    var at := |LogOf(s.past[..i])|;
    && GroupOf(s, p.ids, p.record.ops) && p.record.first == NextFirst(s.past[..i])
    && at < |s.log| && s.log[at] == p.record
    && MemOf(s.past[..i]) + Stamps(p.record) <= s.mem
    && (s.requests[w].sync ==> at < s.synced)
  }

  /** Released exactly once, after its group was logged and applied, as part of one record that is made of the
      group's batches in queue order; and if it asked for a sync, that record is on disk. */
  lemma OkMeansCommitted(states: seq<State>, steps: seq<Step>, m: nat, w: Id)
    requires IsRun(states, steps) && m < |states|
    requires w in states[m].phases && Answered(states[m].phases[w], true)
    requires w in states[m].requests && states[m].requests[w].batch.Some?
    ensures var s := states[m];
            exists i, k ::
              && 0 <= i < |s.past| && 0 <= k < |s.past[i].ids| && s.past[i].ids[k] == w
              && Committed(s, i, w)
  {
    RunKeepsInv(states, steps, m);
    hide IsRun;
    CommittedIn(states[m], w);
  }

  lemma CommittedIn(s: State, w: Id)
    requires Inv(s) && w in s.phases && Answered(s.phases[w], true)
    requires w in s.requests && s.requests[w].batch.Some?
    ensures exists i, k ::
              && 0 <= i < |s.past| && 0 <= k < |s.past[i].ids| && s.past[i].ids[k] == w
              && Committed(s, i, w)
  {
    hide LeaderInv, StoreInv, PastInv, Committed;
    assert w in Members(s.past);
    var i, k := MembersHave(s.past, w);
    hide QueueInv;
    CommittedAt(s, i, k);
  }

  lemma CommittedAt(s: State, i: nat, k: nat)
    requires Known(s) && PastInv(s) && StoreInv(s) && i < |s.past| && k < |s.past[i].ids|
    requires var w := s.past[i].ids[k];
             w in s.requests && Answered(s.phases[w], true) && s.requests[w].batch.Some?
    ensures Committed(s, i, s.past[i].ids[k])
  {
    hide LogOf, MemOf, Stamps, NextFirst, GroupOf;
    var p := s.past[i];
    assert GoodPast(s, s.past, i);
    assert s.past[..i + 1] == s.past[..i] + [p];
    NextFirstOf(s.past[..i], p);
    LogPrefix(s.past, i + 1);
    SyncMember(s, p.ids, p.record.ops, k);
  }

  lemma SyncMember(s: State, ids: seq<Id>, ops: seq<Operation>, k: nat)
    requires GroupOf(s, ids, ops) && k < |ids|
    ensures ids[k] in s.requests && ids[0] in s.requests && (s.requests[ids[k]].sync ==> s.requests[ids[0]].sync)
  {
  }

  lemma {:induction false} MemberPlace(past: seq<Past>, i: nat, k: nat) returns (at: nat)
    requires i < |past| && k < |past[i].ids|
    ensures at < |Members(past)| && Members(past)[at] == past[i].ids[k]
    ensures at == |Members(past[..i])| + k
  {
    var n := |past| - 1;
    if i < n {
      at := MemberPlace(past[..n], i, k);
      assert past[..n][..i] == past[..i];
    } else {
      at := |Members(past[..n])| + k;
    }
  }

  lemma {:induction false} MembersGrow(past: seq<Past>, i: nat, j: nat)
    requires i < j <= |past|
    ensures |Members(past[..i])| + |past[i].ids| <= |Members(past[..j])|
    decreases j - i
  {
    assert past[..j] == past[..j - 1] + [past[j - 1]];
    NextFirstOf(past[..j - 1], past[j - 1]);
    if i < j - 1 {
      MembersGrow(past, i, j - 1);
    }
  }

  /** A writer is in one group only, and there only once; groups are answered in the order of arrival. */
  lemma AnsweredOnceInOrder(states: seq<State>, steps: seq<Step>, m: nat, i: nat, k: nat, j: nat, l: nat)
    requires IsRun(states, steps) && m < |states|
    requires i < |states[m].past| && k < |states[m].past[i].ids| && j < |states[m].past| && l < |states[m].past[j].ids|
    ensures states[m].past[i].ids[k] == states[m].past[j].ids[l] ==> i == j && k == l
    ensures Members(states[m].past) <= states[m].arrivals
  {
    RunKeepsInv(states, steps, m);
    hide IsRun;
    var past := states[m].past;
    var a := MemberPlace(past, i, k);
    var b := MemberPlace(past, j, l);
    hide Members;
    if i < j {
      MembersGrow(past, i, j);
    } else if j < i {
      MembersGrow(past, j, i);
    }
    assert states[m].arrivals[a] == past[i].ids[k] && states[m].arrivals[b] == past[j].ids[l];
  }

  /** The groups' numbers never overlap: the memtable receives ever higher ones. */
  lemma {:induction false} NumbersRise(past: seq<Past>, bound: nat)
    requires forall i :: 0 <= i < |past| ==> past[i].record.first == NextFirst(past[..i])
    requires bound == NextFirst(past)
    ensures forall k :: 0 <= k < |MemOf(past)| ==> MemOf(past)[k].sn < bound
    ensures forall k, l :: 0 <= k < l < |MemOf(past)| ==> MemOf(past)[k].sn < MemOf(past)[l].sn
  {
    if past != [] {
      var n := |past| - 1;
      assert forall i :: 0 <= i < n ==> past[..n][..i] == past[..i];
      NumbersRise(past[..n], NextFirst(past[..n]));
    }
  }

  lemma MemtableNumbersRise(states: seq<State>, steps: seq<Step>, m: nat)
    requires IsRun(states, steps) && m < |states|
    ensures forall k, l :: 0 <= k < l < |states[m].mem| ==> states[m].mem[k].sn < states[m].mem[l].sn
  {
    RunKeepsInv(states, steps, m);
    hide IsRun;
    var s := states[m];
    forall i | 0 <= i < |s.past|
      ensures s.past[i].record.first == NextFirst(s.past[..i])
    {
      assert GoodPast(s, s.past, i);
    }
    NumbersRise(s.past, NextFirst(s.past));
  }

  /** After a sync has failed no writer is answered with success any more. */
  lemma SyncErrorIsFinal(states: seq<State>, steps: seq<Step>, m: nat, i: nat, j: nat)
    requires IsRun(states, steps) && m < |states|
    requires i < j < |states[m].past| && states[m].past[i].syncError
    ensures !states[m].past[j].ok
  {
    RunKeepsInv(states, steps, m);
    assert GoodPast(states[m], states[m].past, i);
  }
}
