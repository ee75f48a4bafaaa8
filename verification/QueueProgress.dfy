/**
 That group commit answers everybody (db/db_impl.cc, DBImpl::Write): as long as a writer has
 not returned some thread can go on, and without new writers there are only so many steps.
 */
module QueueProgress {
  import opened InternalKeys
  import opened WriterQueue

  // ---------------------------------------------------------------- somebody can go on

  predicate HasReturned(s: State, w: Id)
    requires w in s.phases
  {
    s.phases[w].Returned?
  }

  /** Some step other than the arrival of a writer is possible. */
  ghost predicate CanGoOn(s: State)
    requires Known(s)
  {
    exists step: Step, t: State :: !step.Enqueue? && Next(s, step, t)
  }

  lemma GoesOn(s: State, step: Step, t: State)
    requires Known(s) && !step.Enqueue? && Next(s, step, t)
    ensures CanGoOn(s)
  {
  }

  /** As many of the requests as join the first. */
  lemma GroupExists(requests: seq<Request>) returns (n: nat)
    requires |requests| > 0 && requests[0].batch.Some?
    ensures IsGroup(requests, n)
  {
    hide Joins;
    n := 1;
    while n < |requests| && Joins(requests, n)
      invariant 1 <= n <= |requests| && forall i :: 1 <= i < n ==> Joins(requests, i)
    {
      n := n + 1;
    }
  }

  lemma FrontGoesOn(s: State)
    requires Known(s) && LeaderInv(s) && s.queue != [] && (s.phases[s.queue[0]].Waiting? || InFlight(s.phases[s.queue[0]]))
    ensures CanGoOn(s)
  {
    var w := s.queue[0];
    var p := s.phases[w];
    match p
    case Waiting =>
      if s.bgError {
        GoesOn(s, NoRoom(w), Leave(s, w, false));
      } else if s.requests[w].batch.None? {
        GoesOn(s, NoBatch(w), Leave(s, w, true));
      } else {
        var n := GroupExists(Queued(s));
        GoesOn(s, Build(w, n), s.(phases := s.phases[w := Logging(Group(n, s.lastSequence, Ops(Queued(s)[..n])))]));
      }
    case Logging(g) => GoesOn(s, Append(w), s.(phases := s.phases[w := Logged(g)], log := s.log + [g.Rec()]));
    case Logged(g) =>
      if s.requests[w].sync {
        GoesOn(s, Sync(w), s.(phases := s.phases[w := Synced(g)], synced := |s.log|));
      } else {
        GoesOn(s, Apply(w), s.(phases := s.phases[w := Applied(g)], mem := s.mem + Stamps(g.Rec())));
      }
    case Synced(g) => GoesOn(s, Apply(w), s.(phases := s.phases[w := Applied(g)], mem := s.mem + Stamps(g.Rec())));
    case Applied(g) => GoesOn(s, Finish(w), FinishGroup(s, w, g, true, true, false));
    case Failed(g, logged, syncError) => GoesOn(s, Finish(w), FinishGroup(s, w, g, logged, false, syncError));
    case Done(_) =>
    case Returned(_) =>
  }

  /** At every point of every run all writers have returned, or a step is possible that does not need a new writer. */
  lemma NobodyIsStuck(states: seq<State>, steps: seq<Step>, m: nat)
    requires IsRun(states, steps) && m < |states|
    ensures Known(states[m])
    ensures (forall w :: w in states[m].phases ==> HasReturned(states[m], w)) || CanGoOn(states[m])
  {
    RunKeepsInv(states, steps, m);
    hide IsRun, PastInv, StoreInv;
    SomebodyGoesOn(states[m]);
  }

  lemma SomebodyGoesOn(s: State)
    requires QueueInv(s) && LeaderInv(s)
    ensures (forall w :: w in s.phases ==> HasReturned(s, w)) || CanGoOn(s)
  {
    hide LeaderInv, Next;
    if s.queue != [] {
      FrontGoesOn(s);
    } else if w :| w in s.phases && s.phases[w].Done? {
      DoneGoesOn(s, w);
    }
  }

  lemma DoneGoesOn(s: State, w: Id)
    requires Known(s) && w in s.phases && s.phases[w].Done?
    ensures CanGoOn(s)
  {
    GoesOn(s, Wake(w), s.(phases := s.phases[w := Returned(s.phases[w].ok)]));
  }

  // ---------------------------------------------------------------- and not for ever

  /** How many steps at most a writer has still to do. */
  function Left(p: Phase): nat {
    match p
    case Waiting => 7
    case Logging(_) => 6
    case Logged(_) => 5
    case Synced(_) => 4
    case Applied(_) => 3
    case Failed(_, _, _) => 3
    case Done(_) => 1
    case Returned(_) => 0
  }

  function Work(phases: map<Id, Phase>, ids: seq<Id>): nat {
    if ids == [] then 0
    else
      var w := ids[|ids| - 1];
      Work(phases, ids[..|ids| - 1]) + if w in phases then Left(phases[w]) else 0
  }

  predicate NoneGained(a: map<Id, Phase>, b: map<Id, Phase>) {
    a.Keys == b.Keys && forall w :: w in a ==> Left(b[w]) <= Left(a[w])
  }

  lemma {:induction false} NoMoreWork(a: map<Id, Phase>, b: map<Id, Phase>, ids: seq<Id>)
    requires NoneGained(a, b)
    ensures Work(b, ids) <= Work(a, ids)
    ensures (exists i :: 0 <= i < |ids| && ids[i] in a && Left(b[ids[i]]) < Left(a[ids[i]])) ==> Work(b, ids) < Work(a, ids)
  {
    if ids != [] {
      NoMoreWork(a, b, ids[..|ids| - 1]);
      hide Left;
    }
  }

  lemma OneMoves(a: map<Id, Phase>, b: map<Id, Phase>, w: Id, p: Phase)
    requires w in a && b == a[w := p] && Left(p) < Left(a[w])
    ensures NoneGained(a, b) && Left(b[w]) < Left(a[w])
  {
    hide Left;
  }

  /** A step of one writer, which has less to do then. */
  lemma WriterMoves(s: State, step: Step, t: State)
    requires Known(s) && Next(s, step, t) && !step.Enqueue? && !step.Finish?
    ensures t.arrivals == s.arrivals && step.w in s.phases && step.w in t.phases
    ensures t.phases == s.phases[step.w := t.phases[step.w]] && Left(t.phases[step.w]) < Left(s.phases[step.w])
  {
    hide Stamps, Ops, IsGroup, Known, Queued;
  }

  /** Every step but an arrival leaves the step's writer with less to do, and nobody with more. */
  lemma StepDoesWork(s: State, step: Step, t: State)
    requires QueueInv(s) && Next(s, step, t) && !step.Enqueue?
    ensures t.arrivals == s.arrivals && NoneGained(s.phases, t.phases)
    ensures step.w in s.phases && Left(t.phases[step.w]) < Left(s.phases[step.w])
  {
    hide QueueInv, Next, NoneGained, Left;
    QueueIsKnown(s);
    if step.Finish? {
      FinishDoesWork(s, step.w, t);
    } else {
      WriterMoves(s, step, t);
      OneMoves(s.phases, t.phases, step.w, t.phases[step.w]);
    }
  }

  lemma QueueIsKnown(s: State)
    requires QueueInv(s)
    ensures Known(s)
  {
  }

  lemma FinishDoesWork(s: State, w: Id, t: State)
    requires QueueInv(s) && Next(s, Finish(w), t)
    ensures t.arrivals == s.arrivals && NoneGained(s.phases, t.phases)
    ensures w in s.phases && Left(t.phases[w]) < Left(s.phases[w])
  {
    hide *;
    QueueIsKnown(s);
    FinishReleases(s, w, t);
    var n := s.phases[w].g.count;
    forall x | x in s.queue[..n] && x in s.phases
      ensures Left(s.phases[x]) > 1
    {
      QueuedIsBusy(s, n, x);
    }
    ReleasedDoesWork(s.phases, s.queue[..n], w, s.phases[w].Applied?);
  }

  lemma ReleasedDoesWork(phases: map<Id, Phase>, group: seq<Id>, w: Id, ok: bool)
    requires w in phases && (phases[w].Applied? || phases[w].Failed?)
    requires forall x :: x in group && x in phases ==> Left(phases[x]) > 1
    ensures var after := Released(phases, group, w, ok);
            NoneGained(phases, after) && w in after && Left(after[w]) < Left(phases[w])
  {
  }

  lemma FinishReleases(s: State, w: Id, t: State)
    requires Known(s) && Next(s, Finish(w), t)
    ensures w in s.phases && (s.phases[w].Applied? || s.phases[w].Failed?) && s.phases[w].g.count <= |s.queue|
    ensures t.arrivals == s.arrivals
    ensures t.phases == Released(s.phases, s.queue[..s.phases[w].g.count], w, s.phases[w].Applied?)
  {
    hide Known, Released;
  }

  lemma QueuedIsBusy(s: State, n: nat, x: Id)
    requires QueueInv(s) && n <= |s.queue| && x in s.queue[..n]
    ensures x in s.phases && Left(s.phases[x]) > 1
  {
    var i :| 0 <= i < n && s.queue[..n][i] == x;
    assert s.queue[i] == x;
  }

  lemma ArrivedIsThere(s: State, w: Id)
    requires QueueInv(s) && w in s.phases
    ensures w in s.arrivals
  {
  }

  /** Without new writers there are no more steps than the writers have left to do. */
  lemma {:induction false} StepsRunOut(states: seq<State>, steps: seq<Step>, i: nat, j: nat)
    requires IsRun(states, steps) && i <= j < |states|
    requires forall k :: i <= k < j ==> !steps[k].Enqueue?
    ensures j - i <= Work(states[i].phases, states[i].arrivals)
    decreases j - i
  {
    if i < j {
      RunKeepsInv(states, steps, i);
      StepsRunOut(states, steps, i + 1, j);
      var s, step, t := states[i], steps[i], states[i + 1];
      assert Next(s, step, t);
      hide IsRun, PastInv, StoreInv, LeaderInv, Next;
      StepDoesWork(s, step, t);
      ArrivedIsThere(s, step.w);
      var k :| 0 <= k < |s.arrivals| && s.arrivals[k] == step.w;
      NoMoreWork(s.phases, t.phases, s.arrivals);
    }
  }
}
