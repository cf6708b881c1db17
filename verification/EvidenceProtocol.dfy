/** Concurrent refiners and sweeps of one provisional node. The node lock is held to the end
    of the transaction; what differs between the two policies is only whether the deciding
    read comes after the lock or before it. */
module EvidenceProtocol {
  import opened Options
  import opened Formulas
  import opened Evidence

  datatype Policy = LockThenRead | ReadThenLock

  datatype Kind = Refiner(e: Contribution) | Sweeper

  /** `seen` is the map the read produced and `basis` the contributions it accounts for. */
  datatype Phase =
    | Waiting
    | Primed(seen: Contributions, basis: set<Contribution>)
    | Holding
    | Ready(seen: Contributions, basis: set<Contribution>)

  datatype Actor = Actor(kind: Kind, phase: Phase)

  type ActorId = nat

  /** `evidence` is what the MENTIONS edges say now and `retracted` what they said before some
      retraction; `delivered` are the contributions whose refiner has committed; `counted`
      those the stored map accounts for. */
  datatype State = State(
    stored: Contributions,
    lock: Option<ActorId>,
    actors: map<ActorId, Actor>,
    evidence: set<Contribution>,
    retracted: set<Contribution>,
    delivered: set<Contribution>,
    counted: set<Contribution>)

  datatype Action =
    | Mentioned(e: Contribution)
    | Retracted(e: Contribution)
    | Begin(kind: Kind)
    | Lock
    | Read(rebuilt: Contributions)
    | Commit
    | Crash

  datatype Event = Event(a: ActorId, action: Action)

  /** A refiner reads the stored map; the sweep reads the evidence. */
  ghost predicate Reads(s: State, kind: Kind, seen: Contributions, basis: set<Contribution>) {
    match kind
    case Refiner(_) => seen == s.stored && basis == s.counted
    case Sweeper => basis == s.evidence && MaxOf(seen, s.evidence)
  }

  function SetPhase(s: State, a: ActorId, phase: Phase): State
    requires a in s.actors
  {
    s.(actors := s.actors[a := s.actors[a].(phase := phase)])
  }

  ghost predicate LockStep(policy: Policy, s: State, s': State, a: ActorId) {
    && a in s.actors && s.lock.None?
    && match (policy, s.actors[a].phase)
       case (LockThenRead, Waiting) => s' == SetPhase(s, a, Holding).(lock := Some(a))
       case (ReadThenLock, Primed(seen, basis)) => s' == SetPhase(s, a, Ready(seen, basis)).(lock := Some(a))
       case _ => false
  }

  ghost predicate ReadStep(policy: Policy, s: State, s': State, a: ActorId, seen: Contributions) {
    && a in s.actors
    && var basis := if s.actors[a].kind.Refiner? then s.counted else s.evidence;
       && Reads(s, s.actors[a].kind, seen, basis)
       && match (policy, s.actors[a].phase)
          case (LockThenRead, Holding) => s' == SetPhase(s, a, Ready(seen, basis))
          case (ReadThenLock, Waiting) => s' == SetPhase(s, a, Primed(seen, basis))
          case _ => false
  }

  ghost predicate CommitStep(s: State, s': State, a: ActorId) {
    && a in s.actors && s.actors[a].phase.Ready?
    && var Ready(seen, basis) := s.actors[a].phase;
       match s.actors[a].kind
       case Refiner(e) =>
         s' == s.(stored := Absorb(seen, e), counted := basis + {e}, delivered := s.delivered + {e},
                  lock := None, actors := s.actors - {a})
       case Sweeper =>
         s' == s.(stored := seen, counted := basis, lock := None, actors := s.actors - {a})
  }

  ghost predicate Next(policy: Policy, s: State, s': State, ev: Event) {
    match ev.action
    case Mentioned(e) => s' == s.(evidence := s.evidence + {e})
    case Retracted(e) => s' == s.(evidence := s.evidence - {e}, retracted := s.retracted + {e})
    case Begin(kind) =>
      && ev.a !in s.actors && (kind.Refiner? ==> kind.e in s.evidence)
      && s' == s.(actors := s.actors[ev.a := Actor(kind, Waiting)])
    case Lock => LockStep(policy, s, s', ev.a)
    case Read(rebuilt) => ReadStep(policy, s, s', ev.a, rebuilt)
    case Commit => CommitStep(s, s', ev.a)
    case Crash =>
      && ev.a in s.actors
      && s' == SetPhase(s, ev.a, Waiting).(lock := if s.lock == Some(ev.a) then None else s.lock)
  }

  ghost predicate Initial(s: State) {
    && s.stored == map[] && s.lock == None && s.actors == map[]
    && s.retracted == {} && s.delivered == {} && s.counted == {}
  }

  ghost predicate Behaviour(policy: Policy, ss: seq<State>, events: seq<Event>) {
    && |ss| == |events| + 1
    && Initial(ss[0])
    && forall i :: 0 <= i < |events| ==> Next(policy, ss[i], ss[i + 1], events[i])
  }

  // ---- Lock, then read ----

  ghost predicate ActorOk(s: State, a: ActorId)
    requires a in s.actors
  {
    && (s.actors[a].phase.Holding? || s.actors[a].phase.Ready? <==> s.lock == Some(a))
    && !s.actors[a].phase.Primed?
    && (s.actors[a].kind.Refiner? ==> s.actors[a].kind.e in s.evidence + s.retracted)
    && match s.actors[a].phase
       case Ready(seen, basis) =>
         if s.actors[a].kind.Refiner? then seen == s.stored && basis == s.counted
         else MaxOf(seen, basis) && s.delivered - s.retracted <= basis <= s.evidence + s.retracted
       case _ => true
  }

  ghost predicate Inv(s: State) {
    && MaxOf(s.stored, s.counted)
    && s.delivered - s.retracted <= s.counted <= s.evidence + s.retracted
    && (s.lock.Some? ==> s.lock.value in s.actors)
    && forall a :: a in s.actors ==> ActorOk(s, a)
  }

  lemma CommitKeepsInv(s: State, s': State, a: ActorId)
    requires Inv(s) && CommitStep(s, s', a)
    ensures Inv(s')
  {
    assert ActorOk(s, a);
    if s.actors[a].kind.Refiner? {
      AbsorbIsMax(s.stored, s.counted, s.actors[a].kind.e);
    }
    forall b | b in s'.actors ensures ActorOk(s', b) {
      assert ActorOk(s, b);
    }
  }

  lemma NextKeepsInv(s: State, s': State, ev: Event)
    requires Inv(s) && Next(LockThenRead, s, s', ev)
    ensures Inv(s')
  {
    if ev.action.Commit? {
      CommitKeepsInv(s, s', ev.a);
    } else {
      forall b | b in s'.actors ensures ActorOk(s', b) {
        if b in s.actors { assert ActorOk(s, b); }
      }
    }
  }

  lemma {:induction false} BehaviourKeepsInv(ss: seq<State>, events: seq<Event>, k: nat)
    requires Behaviour(LockThenRead, ss, events) && k <= |events|
    ensures Inv(ss[k])
  {
    if k > 0 {
      BehaviourKeepsInv(ss, events, k - 1);
      NextKeepsInv(ss[k - 1], ss[k], events[k - 1]);
    }
  }

  /** However refiners, sweeps, retractions and crashes interleave, no contribution that was
      delivered and never retracted is lost, and none is invented: the stored map is the
      maximum of a set of contributions that holds all of those and only what the evidence
      supported at some time. */
  lemma NoContributionLost(ss: seq<State>, events: seq<Event>, k: nat)
    requires Behaviour(LockThenRead, ss, events) && k <= |events|
    ensures MaxOf(ss[k].stored, ss[k].counted)
    ensures ss[k].delivered - ss[k].retracted <= ss[k].counted <= ss[k].evidence + ss[k].retracted
    ensures forall e :: e in ss[k].delivered - ss[k].retracted ==>
      e.cluster in ss[k].stored && Clamp01(e.value) <= ss[k].stored[e.cluster]
  {
    BehaviourKeepsInv(ss, events, k);
  }

  lemma {:induction false} WithoutSweepsCountedIsDelivered(ss: seq<State>, events: seq<Event>, k: nat)
    requires Behaviour(LockThenRead, ss, events) && k <= |events|
    requires forall i :: 0 <= i < k ==> events[i].action != Begin(Sweeper)
    ensures ss[k].counted == ss[k].delivered
    ensures forall a :: a in ss[k].actors ==> ss[k].actors[a].kind.Refiner?
  {
    if k > 0 {
      WithoutSweepsCountedIsDelivered(ss, events, k - 1);
      BehaviourKeepsInv(ss, events, k - 1);
      var s, ev := ss[k - 1], events[k - 1];
      assert Next(LockThenRead, s, ss[k], ev);
      if ev.action.Commit? { assert ActorOk(s, ev.a); }
    }
  }

  /** With refiners alone the final map is the join of everything delivered. */
  lemma RefinersJoin(ss: seq<State>, events: seq<Event>, k: nat)
    requires Behaviour(LockThenRead, ss, events) && k <= |events|
    requires forall i :: 0 <= i < k ==> events[i].action != Begin(Sweeper)
    ensures MaxOf(ss[k].stored, ss[k].delivered)
  {
    NoContributionLost(ss, events, k);
    WithoutSweepsCountedIsDelivered(ss, events, k);
  }

  /** No step but a sweep's commit lowers the confidence. */
  lemma ConfidenceNeverFallsInterleaved(ss: seq<State>, events: seq<Event>, k: nat)
    requires Behaviour(LockThenRead, ss, events) && k < |events|
    requires events[k].action.Commit? && events[k].a in ss[k].actors ==> ss[k].actors[events[k].a].kind.Refiner?
    ensures NoisyOrOf(ss[k].stored) <= NoisyOrOf(ss[k + 1].stored)
  {
    BehaviourKeepsInv(ss, events, k);
    BehaviourKeepsInv(ss, events, k + 1);
    var s, s' := ss[k], ss[k + 1];
    assert Next(LockThenRead, s, s', events[k]);
    if events[k].action.Commit? { assert ActorOk(s, events[k].a); }
    MaxOfMonotone(s.stored, s'.stored, s.counted, s'.counted);
  }

  // ---- What an actor can do when the lock is free ----

  /** Lock, read, commit: actor `a` alone, from where it waits. */
  ghost predicate Completes(s: State, s1: State, s2: State, s': State, a: ActorId, seen: Contributions) {
    && Next(LockThenRead, s, s1, Event(a, Lock))
    && Next(LockThenRead, s1, s2, Event(a, Read(seen)))
    && Next(LockThenRead, s2, s', Event(a, Commit))
  }

  /** A waiting refiner that finds the lock free can go through and adds its contribution to
      what is stored by then. */
  lemma RefinerCompletes(s: State, a: ActorId, e: Contribution) returns (s1: State, s2: State, s': State)
    requires a in s.actors && s.actors[a] == Actor(Refiner(e), Waiting) && s.lock.None?
    ensures Completes(s, s1, s2, s', a, s.stored)
    ensures s'.stored == Absorb(s.stored, e) && s'.delivered == s.delivered + {e} && s'.counted == s.counted + {e}
    ensures s'.lock.None? && s'.actors == s.actors - {a} && s'.evidence == s.evidence
  {
    s1 := SetPhase(s, a, Holding).(lock := Some(a));
    s2 := SetPhase(s1, a, Ready(s.stored, s.counted));
    s' := s2.(stored := Absorb(s.stored, e), counted := s.counted + {e}, delivered := s.delivered + {e},
              lock := None, actors := s2.actors - {a});
    assert s'.actors == s.actors - {a};
  }

  /** So can a waiting sweep, which leaves the maximum of the evidence there is. */
  lemma SweepCompletes(s: State, a: ActorId, rebuilt: Contributions) returns (s1: State, s2: State, s': State)
    requires a in s.actors && s.actors[a] == Actor(Sweeper, Waiting) && s.lock.None?
    requires MaxOf(rebuilt, s.evidence)
    ensures Completes(s, s1, s2, s', a, rebuilt)
    ensures s'.stored == rebuilt && s'.counted == s.evidence && s'.delivered == s.delivered
    ensures s'.lock.None? && s'.actors == s.actors - {a} && s'.evidence == s.evidence && s'.retracted == s.retracted
  {
    s1 := SetPhase(s, a, Holding).(lock := Some(a));
    s2 := SetPhase(s1, a, Ready(rebuilt, s.evidence));
    s' := s2.(stored := rebuilt, counted := s.evidence, lock := None, actors := s2.actors - {a});
    assert s'.actors == s.actors - {a};
  }

  /** The lock is free, or held by `a`, of kind `kind` if it is there at all. */
  ghost predicate Unhindered(s: State, a: ActorId, kind: Kind) {
    if a in s.actors then s.actors[a].kind == kind && (s.lock.None? || s.lock == Some(a))
    else s.lock.None? && (kind.Refiner? ==> kind.e in s.evidence)
  }

  /** It comes in, or crashes wherever it has got to, and waits with the lock free. */
  lemma StartsAfresh(s: State, a: ActorId, kind: Kind) returns (first: Action, s0: State)
    requires Unhindered(s, a, kind)
    ensures first == (if a in s.actors then Crash else Begin(kind)) && Next(LockThenRead, s, s0, Event(a, first))
    ensures s0 == s.(lock := None, actors := s.actors[a := Actor(kind, Waiting)])
  {
    first := if a in s.actors then Crash else Begin(kind);
    s0 := s.(lock := None, actors := s.actors[a := Actor(kind, Waiting)]);
  }

  /** So a refiner, new or crashed at any point, adds its contribution once to what is stored,
      whatever it had read before. */
  lemma RefinerGetsThrough(s: State, a: ActorId, e: Contribution)
    returns (first: Action, s0: State, s1: State, s2: State, s': State)
    requires Unhindered(s, a, Refiner(e))
    ensures first == (if a in s.actors then Crash else Begin(Refiner(e))) && Next(LockThenRead, s, s0, Event(a, first))
    ensures Completes(s0, s1, s2, s', a, s.stored)
    ensures s'.stored == Absorb(s.stored, e) && s'.delivered == s.delivered + {e} && s'.counted == s.counted + {e}
  {
    first, s0 := StartsAfresh(s, a, Refiner(e));
    s1, s2, s' := RefinerCompletes(s0, a, e);
  }

  /** And a sweep leaves the maximum of the evidence. */
  lemma SweepGetsThrough(s: State, a: ActorId, rebuilt: Contributions)
    returns (first: Action, s0: State, s1: State, s2: State, s': State)
    requires Unhindered(s, a, Sweeper) && MaxOf(rebuilt, s.evidence)
    ensures first == (if a in s.actors then Crash else Begin(Sweeper)) && Next(LockThenRead, s, s0, Event(a, first))
    ensures Completes(s0, s1, s2, s', a, rebuilt)
    ensures s'.stored == rebuilt && s'.counted == s.evidence && s'.delivered == s.delivered
    ensures s'.retracted == s.retracted
  {
    first, s0 := StartsAfresh(s, a, Sweeper);
    s1, s2, s' := SweepCompletes(s0, a, rebuilt);
  }

  /** Once a mention is retracted the next sweep to get through forgets what it brought, unless
      other evidence says the same. */
  lemma RetractedIsForgotten(s: State, a: ActorId, e: Contribution, rebuilt: Contributions)
    returns (mid: State, first: Action, s0: State, s1: State, s2: State, s': State)
    requires Unhindered(s, a, Sweeper) && MaxOf(rebuilt, s.evidence - {e})
    ensures Next(LockThenRead, s, mid, Event(a, Retracted(e))) && Next(LockThenRead, mid, s0, Event(a, first))
    ensures Completes(s0, s1, s2, s', a, rebuilt)
    ensures s'.stored == rebuilt && s'.counted == s.evidence - {e} && e in s'.retracted
  {
    mid := s.(evidence := s.evidence - {e}, retracted := s.retracted + {e});
    first, s0, s1, s2, s' := SweepGetsThrough(mid, a, rebuilt);
  }

  // ---- Read, then lock: what goes wrong ----

  lemma Extend(policy: Policy, ss: seq<State>, events: seq<Event>, s: State, ev: Event, s': State)
    requires Behaviour(policy, ss, events) && s == ss[|events|] && Next(policy, s, s', ev)
    ensures Behaviour(policy, ss + [s'], events + [ev])
  {
  }

  ghost predicate Reachable(policy: Policy, s: State) {
    exists ss, events :: Behaviour(policy, ss, events) && ss[|events|] == s
  }

  lemma ReachableNext(policy: Policy, s: State, ev: Event, s': State)
    requires Reachable(policy, s) && Next(policy, s, s', ev)
    ensures Reachable(policy, s')
  {
    var ss, events :| Behaviour(policy, ss, events) && ss[|events|] == s;
    Extend(policy, ss, events, s, ev, s');
    assert (ss + [s'])[|events + [ev]|] == s';
  }

  lemma ReachableInitial(policy: Policy, s: State)
    requires Initial(s)
    ensures Reachable(policy, s)
  {
    var events: seq<Event> := [];
    assert Behaviour(policy, [s], events) && [s][|events|] == s;
  }

  /** Any actor may come in, read an unlocked state and wait. */
  lemma EarlyRead(s: State, a: ActorId, kind: Kind, seen: Contributions, basis: set<Contribution>)
    requires Reachable(ReadThenLock, s) && a !in s.actors && (kind.Refiner? ==> kind.e in s.evidence)
    requires basis == if kind.Refiner? then s.counted else s.evidence
    requires Reads(s, kind, seen, basis)
    ensures Reachable(ReadThenLock, s.(actors := s.actors[a := Actor(kind, Primed(seen, basis))]))
  {
    var s1 := s.(actors := s.actors[a := Actor(kind, Waiting)]);
    var s2 := s.(actors := s.actors[a := Actor(kind, Primed(seen, basis))]);
    ReachableNext(ReadThenLock, s, Event(a, Begin(kind)), s1);
    assert s1.actors[a := Actor(kind, Primed(seen, basis))] == s2.actors;
    ReachableNext(ReadThenLock, s1, Event(a, Read(seen)), s2);
  }

  /** A primed actor takes the free lock and commits what it read earlier. */
  lemma LateCommit(s: State, a: ActorId, s': State)
    requires Reachable(ReadThenLock, s) && s.lock.None? && a in s.actors && s.actors[a].phase.Primed?
    requires CommitStep(SetPhase(s, a, Ready(s.actors[a].phase.seen, s.actors[a].phase.basis)).(lock := Some(a)), s', a)
    ensures Reachable(ReadThenLock, s')
  {
    var s1 := SetPhase(s, a, Ready(s.actors[a].phase.seen, s.actors[a].phase.basis)).(lock := Some(a));
    ReachableNext(ReadThenLock, s, Event(a, Lock), s1);
    ReachableNext(ReadThenLock, s1, Event(a, Commit), s');
  }

  ghost predicate Lost(s: State, e: Contribution) {
    e in s.delivered && e.cluster !in s.stored
  }

  /** Two refiners read the empty map, then commit one after the other, each under the lock:
      the second write forgets the first contribution. */
  lemma ReadingBeforeLockLosesUpdate(e1: Contribution, e2: Contribution) returns (s: State)
    requires e1.cluster != e2.cluster
    ensures Reachable(ReadThenLock, s) && Lost(s, e1)
  {
    var s0 := State(map[], None, map[], {e1, e2}, {}, {}, {});
    var a1, a2 := Actor(Refiner(e1), Primed(map[], {})), Actor(Refiner(e2), Primed(map[], {}));
    ReachableInitial(ReadThenLock, s0);
    EarlyRead(s0, 1, Refiner(e1), map[], {});
    var s1 := s0.(actors := map[][1 := a1]);
    EarlyRead(s1, 2, Refiner(e2), map[], {});
    var s2 := s1.(actors := s1.actors[2 := a2]);
    var s3 := State(Absorb(map[], e1), None, s2.actors - {1}, {e1, e2}, {}, {} + {e1}, {} + {e1});
    LateCommit(s2, 1, s3);
    s := State(Absorb(map[], e2), None, s3.actors - {2}, {e1, e2}, {}, s3.delivered + {e2}, {} + {e2});
    LateCommit(s3, 2, s);
  }

  /** A sweep that decides before it locks clobbers a refinement that commits in between,
      although it holds the lock for its whole write. */
  lemma SweepDecidingEarlyClobbers(e: Contribution) returns (s: State)
    ensures Reachable(ReadThenLock, s) && Lost(s, e)
  {
    var s0 := State(map[], None, map[], {}, {}, {}, {});
    ReachableInitial(ReadThenLock, s0);
    EarlyRead(s0, 1, Sweeper, map[], {});
    var s1 := s0.(actors := map[][1 := Actor(Sweeper, Primed(map[], {}))]);
    var s2 := s1.(evidence := {} + {e});
    ReachableNext(ReadThenLock, s1, Event(0, Mentioned(e)), s2);
    EarlyRead(s2, 2, Refiner(e), map[], {});
    var s3 := s2.(actors := s2.actors[2 := Actor(Refiner(e), Primed(map[], {}))]);
    var s4 := s3.(stored := Absorb(map[], e), actors := s3.actors - {2}, delivered := {} + {e}, counted := {} + {e});
    LateCommit(s3, 2, s4);
    s := s4.(stored := map[], actors := s4.actors - {1}, counted := {});
    LateCommit(s4, 1, s);
  }
}
