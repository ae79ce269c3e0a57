/** A handler among others: its own steps, and before each of them whatever the
    other processes did meanwhile. */
module Schedule {
  import opened Protocol
  import Stores

  /** Events of others, then one of the handler's own. */
  datatype Turn = Turn(others: seq<Event>, own: Event)

  /** Whether an event is a step of process pid. */
  predicate Of(e: Event, pid: nat) {
    match e
    case Verify(p, _, _, _) => p == pid
    case Lookup(p, _) => p == pid
    case Save(p, _, _) => p == pid
    case Mint(p) => p == pid
    case Put(p, _, _) => p == pid
    case PutIndex(p, _) => p == pid
    case Revoke(p, _, _) => p == pid
    case Delete(p, _) => p == pid
    case Unindex(p, _) => p == pid
    case _ => false
  }

  ghost predicate Foreign(events: seq<Event>, pid: nat) {
    forall i :: 0 <= i < |events| ==> !Of(events[i], pid)
  }

  /** The state the handler's own step starts from. */
  ghost function Moment(s: State, t: Turn, w: int): State {
    Play(s, t.others, w)
  }

  ghost function Taken(s: State, t: Turn, w: int): State {
    Step(Moment(s, t, w), t.own, w)
  }

  ghost function After(s: State, turns: seq<Turn>, w: int): State {
    if turns == [] then s
    else Taken(After(s, turns[..|turns| - 1], w), turns[|turns| - 1], w)
  }

  ghost function MomentOf(s: State, turns: seq<Turn>, i: nat, w: int): State
    requires i < |turns|
  {
    Moment(After(s, turns[..i], w), turns[i], w)
  }

  lemma AfterSnoc(s: State, turns: seq<Turn>, t: Turn, w: int)
    ensures After(s, turns + [t], w) == Taken(After(s, turns, w), t, w)
    ensures MomentOf(s, turns + [t], |turns|, w) == Moment(After(s, turns, w), t, w)
    ensures forall i :: 0 <= i < |turns| ==> MomentOf(s, turns + [t], i, w) == MomentOf(s, turns, i, w)
  {
    hide Taken, Moment;
    assert (turns + [t])[..|turns|] == turns;
    forall i | 0 <= i < |turns| ensures MomentOf(s, turns + [t], i, w) == MomentOf(s, turns, i, w) {
      assert (turns + [t])[..i] == turns[..i];
    }
  }

  lemma AfterNothing(s: State, w: int)
    ensures After(s, [], w) == s && Play(s, [], w) == s
  {
  }

  // What others leave alone

  /** Another's step does not move process pid. */
  lemma StepLeaves(s: State, e: Event, pid: nat, w: int)
    requires !Of(e, pid)
    ensures pid in Step(s, e, w).procs <==> pid in s.procs
    ensures pid in s.procs ==> Step(s, e, w).procs[pid] == s.procs[pid]
  {
    hide Stores.Expire, Stores.Expiring, Stores.CountHit;
  }

  lemma {:induction false} OthersLeave(s: State, events: seq<Event>, pid: nat, w: int)
    requires Foreign(events, pid)
    ensures pid in Play(s, events, w).procs <==> pid in s.procs
    ensures pid in s.procs ==> Play(s, events, w).procs[pid] == s.procs[pid]
  {
    hide Step, Of;
    if events != [] {
      var n := |events| - 1;
      OthersLeave(s, events[..n], pid, w);
      StepLeaves(Play(s, events[..n], w), events[n], pid, w);
    }
  }

  // A handler's turns as part of a run

  ghost function Flat(turns: seq<Turn>): seq<Event> {
    if turns == [] then []
    else Flat(turns[..|turns| - 1]) + turns[|turns| - 1].others + [turns[|turns| - 1].own]
  }

  lemma {:induction false} PlayAppend(s: State, a: seq<Event>, b: seq<Event>, w: int)
    ensures Play(s, a + b, w) == Play(Play(s, a, w), b, w)
  {
    hide Step;
    if b == [] {
      assert a + b == a;
    } else {
      var n := |b| - 1;
      PlayAppend(s, a, b[..n], w);
      PlaySnoc(s, a + b[..n], b[n], w);
      assert a + b == a + b[..n] + [b[n]];
    }
  }

  lemma {:induction false} TurnsArePlayed(s: State, turns: seq<Turn>, w: int)
    ensures After(s, turns, w) == Play(s, Flat(turns), w)
  {
    hide Step, Play;
    AfterNothing(s, w);
    if turns != [] {
      var n := |turns| - 1;
      TurnsArePlayed(s, turns[..n], w);
      PlayAppend(s, Flat(turns[..n]), turns[n].others, w);
      PlaySnoc(s, Flat(turns[..n]) + turns[n].others, turns[n].own, w);
    }
  }

  lemma {:induction false} RunIsPlayed(start: int, events: seq<Event>, w: int)
    ensures Run(start, events, w) == Play(Initial(start), events, w)
  {
    hide Step, Initial;
    if events != [] {
      RunIsPlayed(start, events[..|events| - 1], w);
    }
  }

  /** The steps of process pid among the events. */
  ghost function StepsOf(events: seq<Event>, pid: nat): seq<Event> {
    if events == [] then []
    else
      var e := events[|events| - 1];
      StepsOf(events[..|events| - 1], pid) + if Of(e, pid) then [e] else []
  }

  lemma {:induction false} StepsOfAppend(a: seq<Event>, b: seq<Event>, pid: nat)
    ensures StepsOf(a + b, pid) == StepsOf(a, pid) + StepsOf(b, pid)
  {
    hide Of;
    if b == [] {
      assert a + b == a;
    } else {
      assert (a + b)[..|a + b| - 1] == a + b[..|b| - 1];
      StepsOfAppend(a, b[..|b| - 1], pid);
    }
  }

  lemma {:induction false} NoStepsOf(events: seq<Event>, pid: nat)
    requires Foreign(events, pid)
    ensures StepsOf(events, pid) == []
  {
    if events != [] {
      NoStepsOf(events[..|events| - 1], pid);
    }
  }

  ghost predicate OwnTurns(turns: seq<Turn>, pid: nat) {
    forall i :: 0 <= i < |turns| ==> Foreign(turns[i].others, pid) && Of(turns[i].own, pid)
  }

  function OwnSteps(turns: seq<Turn>): (es: seq<Event>)
    ensures |es| == |turns| && forall i :: 0 <= i < |es| ==> es[i] == turns[i].own
  {
    seq(|turns|, i requires 0 <= i < |turns| => turns[i].own)
  }

  lemma {:induction false} OwnStepsAmong(turns: seq<Turn>, pid: nat)
    requires OwnTurns(turns, pid)
    ensures StepsOf(Flat(turns), pid) == OwnSteps(turns)
  {
    hide Of, Foreign;
    if turns != [] {
      var n := |turns| - 1;
      var t := turns[n];
      OwnStepsAmong(turns[..n], pid);
      NoStepsOf(t.others, pid);
      StepsOfAppend(Flat(turns[..n]), t.others, pid);
      StepsOfAppend(Flat(turns[..n]) + t.others, [t.own], pid);
      assert [t.own][..0] == [];
      assert OwnSteps(turns) == OwnSteps(turns[..n]) + [t.own];
    }
  }

  /** A handler that starts in a reachable state leaves a reachable one: the
      run goes on with its own steps, in their order, among those of others.
      So what holds of every run holds of the handlers. */
  lemma HandlerInRun(start: int, events: seq<Event>, turns: seq<Turn>, pid: nat, w: int)
    ensures After(Run(start, events, w), turns, w) == Run(start, events + Flat(turns), w)
    ensures OwnTurns(turns, pid) ==> StepsOf(Flat(turns), pid) == OwnSteps(turns)
    ensures Inv(After(Run(start, events, w), turns, w), w)
  {
    hide *;
    RunIsPlayed(start, events, w);
    RunIsPlayed(start, events + Flat(turns), w);
    PlayAppend(Initial(start), events, Flat(turns), w);
    TurnsArePlayed(Run(start, events, w), turns, w);
    if OwnTurns(turns, pid) {
      OwnStepsAmong(turns, pid);
    }
    RunKeeps(start, events + Flat(turns), w);
  }

  /** There is always room for another process. */
  lemma {:induction false} FreshPid(used: set<nat>) returns (p: nat)
    ensures forall q :: q in used ==> q < p
  {
    if used == {} {
      return 0;
    }
    var q :| q in used;
    p := FreshPid(used - {q});
    p := if p > q then p else q + 1;
    assert forall r :: r in used ==> r == q || r in used - {q};
  }
}
