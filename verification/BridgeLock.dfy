/** The locking protocol of Handler in remote-signer/bridge.go: each connection waits at most
    three seconds for a goroutine that locks the one mutex on its behalf. Time-outs may fire
    at any moment, so every interleaving is a run. */
module BridgeLock {
  import opened Options

  datatype Phase = Waiting | Past | Finished | GaveUp

  /** The goroutine that locks: before Lock, between Lock and the send, after the send. */
  datatype Waiter = Blocked | Locked | Sent

  /** The goroutine that talks to the serial port. */
  datatype Io = Idle | Running | Ended

  datatype Handler = Handler(phase: Phase, waiter: Waiter, io: Io)

  datatype State = State(hs: map<nat, Handler>, owner: Option<nat>)

  const START := State(map[], None)

  datatype Step =
    | Spawn(h: nat)            // a connection is accepted
    | Lock(h: nat)             // mutex.Lock returns in the waiter
    | Send(h: nat)             // ch0 <- 1, which never blocks
    | Receive(h: nat)          // the handler takes the lock and starts the serial goroutine
    | LockTimeout(h: nat)      // three seconds without the lock
    | IoEnd(h: nat)            // the serial goroutine is done
    | Answered(h: nat)         // the handler sees that and unlocks
    | ResponseTimeout(h: nat)  // three seconds without an answer: unlock all the same

  predicate Enabled(s: State, e: Step) {
    if e.Spawn? then e.h !in s.hs
    else e.h in s.hs && var x := s.hs[e.h];
      match e
      case Spawn(_) => false
      case Lock(_) => x.waiter == Blocked && s.owner.None?
      case Send(_) => x.waiter == Locked
      case Receive(_) => x.phase == Waiting && x.waiter == Sent
      case LockTimeout(_) => x.phase == Waiting
      case IoEnd(_) => x.io == Running
      case Answered(_) => x.phase == Past && x.io == Ended
      case ResponseTimeout(_) => x.phase == Past
  }

  function Next(s: State, e: Step): State
    requires Enabled(s, e)
  {
    match e
    case Spawn(h) => s.(hs := s.hs[h := Handler(Waiting, Blocked, Idle)])
    case Lock(h) => State(s.hs[h := s.hs[h].(waiter := Locked)], Some(h))
    case Send(h) => s.(hs := s.hs[h := s.hs[h].(waiter := Sent)])
    case Receive(h) => s.(hs := s.hs[h := s.hs[h].(phase := Past, io := Running)])
    case LockTimeout(h) => s.(hs := s.hs[h := s.hs[h].(phase := GaveUp)])
    case IoEnd(h) => s.(hs := s.hs[h := s.hs[h].(io := Ended)])
    case Answered(h) => State(s.hs[h := s.hs[h].(phase := Finished)], None)
    case ResponseTimeout(h) => State(s.hs[h := s.hs[h].(phase := Finished)], None)
  }

  /** A handler whose serial goroutine has ended can answer, which frees the mutex and touches no
      other handler. */
  lemma AnswerFrees(s: State, h: nat)
    requires h in s.hs && s.hs[h].phase == Past && s.hs[h].io == Ended
    ensures Enabled(s, Answered(h))
    ensures Next(s, Answered(h)) == State(s.hs[h := Handler(Finished, s.hs[h].waiter, Ended)], None)
  {
  }

  /** Every handler that has not left can leave: its time-outs are never blocked. */
  lemma HandlersLeave(s: State, h: nat)
    requires h in s.hs
    ensures s.hs[h].phase == Waiting ==> Enabled(s, LockTimeout(h)) && Next(s, LockTimeout(h)).hs[h].phase == GaveUp
                                         && Next(s, LockTimeout(h)).owner == s.owner
    ensures s.hs[h].phase == Past ==> Enabled(s, ResponseTimeout(h)) && Next(s, ResponseTimeout(h)).hs[h].phase == Finished
                                      && Next(s, ResponseTimeout(h)).owner == None
  {
  }

  /** The states of a run from s. */
  ghost predicate IsRun(s: State, es: seq<Step>, ss: seq<State>) {
    && |ss| == |es| + 1 && ss[0] == s
    && forall i :: 0 <= i < |es| ==> Enabled(ss[i], es[i]) && ss[i + 1] == Next(ss[i], es[i])
  }

  /** The mutex is held exactly by the one handler that locked it and has not unlocked it. */
  ghost predicate Inv(s: State) {
    && (forall h :: h in s.hs && s.hs[h].waiter != Blocked && s.hs[h].phase != Finished ==> s.owner == Some(h))
    && (s.owner.Some? ==> s.owner.value in s.hs && s.hs[s.owner.value].waiter != Blocked && s.hs[s.owner.value].phase != Finished)
    && (forall h :: h in s.hs && (s.hs[h].phase == Past || s.hs[h].phase == Finished) ==> s.hs[h].waiter == Sent)
    && (forall h :: h in s.hs && s.hs[h].phase == Past ==> s.hs[h].io != Idle)
  }

  lemma StepInv(s: State, e: Step)
    requires Inv(s) && Enabled(s, e)
    ensures Inv(Next(s, e))
  {
  }

  lemma {:induction false} RunInv(s: State, es: seq<Step>, ss: seq<State>, i: nat)
    requires Inv(s) && IsRun(s, es, ss) && i < |ss|
    ensures Inv(ss[i])
  {
    if i > 0 {
      RunInv(s, es, ss, i - 1);
      StepInv(ss[i - 1], es[i - 1]);
    }
  }

  /** In every state of every run at most one handler is past the lock. */
  lemma MutualExclusion(es: seq<Step>, ss: seq<State>, i: nat, g: nat, h: nat)
    requires IsRun(START, es, ss) && i < |ss|
    requires g in ss[i].hs && ss[i].hs[g].phase == Past && h in ss[i].hs && ss[i].hs[h].phase == Past
    ensures g == h
  {
    RunInv(START, es, ss, i);
    assert ss[i].owner == Some(g) && ss[i].owner == Some(h);
  }

  // ----- the lock that is never given back

  /** The mutex is held for a handler that has already left. */
  ghost predicate Wedged(s: State) {
    s.owner.Some? && s.owner.value in s.hs && s.hs[s.owner.value].phase == GaveUp
  }

  /** Once wedged, always wedged, and no handler gets past the lock again. */
  lemma {:induction false} WedgedForever(s: State, es: seq<Step>, ss: seq<State>, i: nat, h: nat)
    requires Inv(s) && Wedged(s) && IsRun(s, es, ss) && i < |ss|
    ensures Wedged(ss[i]) && ss[i].owner == s.owner
    ensures h in ss[i].hs ==> ss[i].hs[h].phase != Past
  {
    RunInv(s, es, ss, i);
    if i > 0 {
      WedgedForever(s, es, ss, i - 1, h);
      RunInv(s, es, ss, i - 1);
      WedgedStep(ss[i - 1], es[i - 1]);
    }
  }

  lemma WedgedStep(s: State, e: Step)
    requires Inv(s) && Wedged(s) && Enabled(s, e)
    ensures Wedged(Next(s, e)) && Next(s, e).owner == s.owner
  {
  }

  /** One connection is enough: it gives up, then its waiter gets the mutex. */
  lemma OneConnectionWedges() returns (es: seq<Step>, ss: seq<State>)
    ensures IsRun(START, es, ss) && Wedged(ss[|es|])
  {
    var a := Next(START, Spawn(0));
    var b := Next(a, LockTimeout(0));
    es, ss := [Spawn(0), LockTimeout(0), Lock(0)], [START, a, b, Next(b, Lock(0))];
  }

  /** A handler that gave up leaves a waiter behind: ever after, that waiter is still blocked or
      has the mutex for good. */
  lemma {:induction false} GaveUpDooms(s: State, es: seq<Step>, ss: seq<State>, i: nat, h: nat)
    requires Inv(s) && IsRun(s, es, ss) && i < |ss|
    requires h in s.hs && s.hs[h].phase == GaveUp
    ensures h in ss[i].hs && ss[i].hs[h].phase == GaveUp
    ensures ss[i].hs[h].waiter == Blocked || (Wedged(ss[i]) && ss[i].owner == Some(h))
  {
    RunInv(s, es, ss, i);
    if i > 0 { GaveUpDooms(s, es, ss, i - 1, h); }
  }

  /** A locked mutex can still be released exactly when the bridge is not wedged. */
  lemma ReleasableIff(s: State)
    requires Inv(s) && s.owner.Some?
    ensures !Wedged(s) <==> exists es: seq<Step>, ss: seq<State> :: IsRun(s, es, ss) && ss[|es|].owner.None?
  {
    if Wedged(s) {
      forall es: seq<Step>, ss: seq<State> | IsRun(s, es, ss) ensures ss[|es|].owner.Some? {
        WedgedForever(s, es, ss, |es|, 0);
      }
    } else {
      var es, ss := ReleaseRun(s);
    }
  }

  lemma ReleaseRun(s: State) returns (es: seq<Step>, ss: seq<State>)
    requires Inv(s) && s.owner.Some? && !Wedged(s)
    ensures IsRun(s, es, ss) && ss[|es|].owner.None?
  {
    var h := s.owner.value;
    if s.hs[h].phase == Past {
      es, ss := [ResponseTimeout(h)], [s, Next(s, ResponseTimeout(h))];
    } else if s.hs[h].waiter == Sent {
      var a := Next(s, Receive(h));
      es, ss := [Receive(h), ResponseTimeout(h)], [s, a, Next(a, ResponseTimeout(h))];
    } else {
      var a := Next(s, Send(h));
      var b := Next(a, Receive(h));
      es, ss := [Send(h), Receive(h), ResponseTimeout(h)], [s, a, b, Next(b, ResponseTimeout(h))];
    }
  }

  // ----- the serial port

  /** A response time-out that unlocks while the serial goroutine is still at work. */
  predicate Abandons(s: State, e: Step) { e.ResponseTimeout? && e.h in s.hs && s.hs[e.h].io == Running }

  /** A run from s in which no further serial goroutine is abandoned. */
  ghost predicate IsPatient(s: State, es: seq<Step>, ss: seq<State>) {
    IsRun(s, es, ss) && forall k :: 0 <= k < |es| ==> !Abandons(ss[k], es[k])
  }

  predicate AtPort(s: State, h: nat) { h in s.hs && s.hs[h].io == Running }

  /** Two goroutines use the serial port at once. */
  ghost predicate Overlap(s: State) { exists g, h :: g != h && AtPort(s, g) && AtPort(s, h) }

  /** Someone is at the serial port whose handler has left. */
  ghost predicate Orphan(s: State) { exists g :: AtPort(s, g) && s.hs[g].phase == Finished }

  /** Only a handler that passed the lock has started a serial goroutine. */
  ghost predicate PortInv(s: State) {
    Inv(s) && forall h :: AtPort(s, h) ==> s.hs[h].phase == Past || s.hs[h].phase == Finished
  }

  lemma PortStep(s: State, e: Step)
    requires PortInv(s) && Enabled(s, e)
    ensures PortInv(Next(s, e))
  {
    StepInv(s, e);
    forall h | AtPort(Next(s, e), h) ensures Next(s, e).hs[h].phase == Past || Next(s, e).hs[h].phase == Finished {
      assert h == e.h || AtPort(s, h);
    }
  }

  lemma {:induction false} PortRun(s: State, es: seq<Step>, ss: seq<State>, i: nat)
    requires PortInv(s) && IsRun(s, es, ss) && i < |ss|
    ensures PortInv(ss[i])
  {
    if i > 0 {
      PortRun(s, es, ss, i - 1);
      PortStep(ss[i - 1], es[i - 1]);
    }
  }

  lemma OnePast(s: State, g: nat, h: nat)
    requires Inv(s) && g in s.hs && s.hs[g].phase == Past && h in s.hs && s.hs[h].phase == Past
    ensures g == h
  {
    assert s.owner == Some(g) && s.owner == Some(h);
  }

  /** Without an orphan the goroutines exclude each other as the handlers do. */
  lemma NoOrphanNoOverlap(s: State)
    requires PortInv(s) && !Orphan(s)
    ensures !Overlap(s)
  {
    forall g, h | AtPort(s, g) && AtPort(s, h) ensures g == h { OnePast(s, g, h); }
  }

  /** An answer: the serial goroutine ends, then the handler unlocks. */
  lemma AnswerRun(s: State, h: nat) returns (es: seq<Step>, ss: seq<State>)
    requires Inv(s) && h in s.hs && s.hs[h].phase == Past
    ensures IsPatient(s, es, ss) && ss[|es|].owner.None? && es != [] && es[|es| - 1] == Answered(h)
  {
    if s.hs[h].io == Ended {
      es, ss := [Answered(h)], [s, Next(s, Answered(h))];
    } else {
      var a := Next(s, IoEnd(h));
      es, ss := [IoEnd(h), Answered(h)], [s, a, Next(a, Answered(h))];
    }
  }

  /** Unless the bridge is wedged, the holder of the mutex can give it back with an answer,
      without any time-out. */
  lemma {:induction false} AnswerPossible(s: State) returns (es: seq<Step>, ss: seq<State>)
    requires Inv(s) && s.owner.Some? && !Wedged(s)
    ensures IsPatient(s, es, ss) && ss[|es|].owner.None? && es != [] && es[|es| - 1] == Answered(s.owner.value)
    decreases match s.hs[s.owner.value].waiter case Blocked => 3 case Locked => 2 case Sent => if s.hs[s.owner.value].phase == Past then 0 else 1
  {
    var h := s.owner.value;
    if s.hs[h].phase == Past {
      es, ss := AnswerRun(s, h);
    } else {
      var e := if s.hs[h].waiter == Sent then Receive(h) else Send(h);
      StepInv(s, e);
      es, ss := AnswerPossible(Next(s, e));
      Prepend(s, e, es, ss);
      es, ss := [e] + es, [s] + ss;
    }
  }

  /** A patient run makes no orphan. */
  lemma {:induction false} NoNewOrphan(s: State, es: seq<Step>, ss: seq<State>, i: nat)
    requires PortInv(s) && !Orphan(s) && IsPatient(s, es, ss) && i < |ss|
    ensures PortInv(ss[i]) && !Orphan(ss[i])
  {
    PortRun(s, es, ss, i);
    if i > 0 {
      NoNewOrphan(s, es, ss, i - 1);
      var t, e := ss[i - 1], es[i - 1];
      assert !Abandons(t, e);
      forall g | AtPort(ss[i], g) ensures ss[i].hs[g].phase != Finished {
        assert g == e.h || AtPort(t, g);
      }
    }
  }

  /** A wedged bridge starts no goroutine. */
  lemma {:induction false} WedgedStartsNone(s: State, es: seq<Step>, ss: seq<State>, i: nat, g: nat)
    requires PortInv(s) && Wedged(s) && IsRun(s, es, ss) && i < |ss| && AtPort(ss[i], g)
    ensures AtPort(s, g)
  {
    if i > 0 {
      WedgedForever(s, es, ss, i, es[i - 1].h);
      WedgedStartsNone(s, es, ss, i - 1, g);
    }
  }

  /** A number above all of these, hence one no handler has yet. */
  lemma {:induction false} Above(used: set<nat>) returns (n: nat)
    ensures forall k :: k in used ==> k < n
    decreases used
  {
    n := 0;
    if x :| x in used {
      n := Above(used - {x});
      if n <= x { n := x + 1; }
      assert forall k :: k in used ==> k == x || k in used - {x};
    }
  }

  /** A free bridge with an orphan: one new connection overlaps with it. */
  lemma NewConnection(s: State, g: nat) returns (es: seq<Step>, ss: seq<State>)
    requires Inv(s) && s.owner.None? && AtPort(s, g) && s.hs[g].phase == Finished
    ensures IsPatient(s, es, ss) && Overlap(ss[|es|])
  {
    var h := Above(s.hs.Keys);
    var a := Next(s, Spawn(h));
    var b := Next(a, Lock(h));
    var c := Next(b, Send(h));
    var d := Next(c, Receive(h));
    es, ss := [Spawn(h), Lock(h), Send(h), Receive(h)], [s, a, b, c, d];
    assert AtPort(d, g) && AtPort(d, h);
  }

  lemma Prepend(s: State, e: Step, es: seq<Step>, ss: seq<State>)
    requires Enabled(s, e) && !Abandons(s, e) && IsPatient(Next(s, e), es, ss)
    ensures IsPatient(s, [e] + es, [s] + ss) && ([s] + ss)[|[e] + es|] == ss[|es|]
  {
  }

  /** From a state with an orphan that is not wedged, two goroutines can meet at the port. */
  lemma OverlapRun(s: State, g: nat) returns (es: seq<Step>, ss: seq<State>)
    requires PortInv(s) && !Wedged(s) && AtPort(s, g) && s.hs[g].phase == Finished
    ensures IsPatient(s, es, ss) && Overlap(ss[|es|])
  {
    if s.owner.None? {
      es, ss := NewConnection(s, g);
    } else {
      var h := s.owner.value;
      if s.hs[h].phase == Past {
        if s.hs[h].io == Running {
          es, ss := [], [s];
          assert AtPort(s, g) && AtPort(s, h);
        } else {
          es, ss := NewConnection(Next(s, ResponseTimeout(h)), g);
          Prepend(s, ResponseTimeout(h), es, ss);
          es, ss := [ResponseTimeout(h)] + es, [s] + ss;
        }
      } else if s.hs[h].waiter == Sent {
        var a := Next(s, Receive(h));
        es, ss := [Receive(h)], [s, a];
        assert AtPort(a, g) && AtPort(a, h);
      } else {
        var a := Next(s, Send(h));
        var b := Next(a, Receive(h));
        es, ss := [Send(h), Receive(h)], [s, a, b];
        assert AtPort(b, g) && AtPort(b, h);
      }
    }
  }

  /** Without any further time-out on a busy port, two goroutines can still meet there exactly
      when two are there already, or when one was abandoned and the bridge is not wedged. */
  lemma OverlapIff(s: State)
    requires PortInv(s)
    ensures (exists es: seq<Step>, ss: seq<State> :: IsPatient(s, es, ss) && Overlap(ss[|es|]))
            <==> Overlap(s) || (Orphan(s) && !Wedged(s))
  {
    if Overlap(s) {
      var es: seq<Step>, ss := [], [s];
      assert IsPatient(s, es, ss) && Overlap(ss[|es|]);
    } else if Orphan(s) && !Wedged(s) {
      var g :| AtPort(s, g) && s.hs[g].phase == Finished;
      var es, ss := OverlapRun(s, g);
    } else {
      forall es: seq<Step>, ss: seq<State> | IsPatient(s, es, ss) ensures !Overlap(ss[|es|]) {
        if Orphan(s) {
          forall g, h | AtPort(ss[|es|], g) && AtPort(ss[|es|], h) ensures g == h {
            WedgedStartsNone(s, es, ss, |es|, g);
            WedgedStartsNone(s, es, ss, |es|, h);
          }
        } else {
          NoNewOrphan(s, es, ss, |es|);
          NoOrphanNoOverlap(ss[|es|]);
        }
      }
    }
  }

  /** From the start: patient runs exclude each other at the port. */
  lemma SerialExclusion(es: seq<Step>, ss: seq<State>, i: nat)
    requires IsPatient(START, es, ss) && i < |ss|
    ensures !Overlap(ss[i])
  {
    NoNewOrphan(START, es, ss, i);
    NoOrphanNoOverlap(ss[i]);
  }

  /** And every abandoned goroutine can be met there by another one. */
  lemma AbandonedMeets(s: State, e: Step) returns (es: seq<Step>, ss: seq<State>)
    requires PortInv(s) && Enabled(s, e) && Abandons(s, e)
    ensures IsPatient(Next(s, e), es, ss) && Overlap(ss[|es|])
  {
    PortStep(s, e);
    es, ss := OverlapRun(Next(s, e), e.h);
  }

  /** So one early time-out is enough for two goroutines on the port. */
  lemma SerialOverlap() returns (es: seq<Step>, ss: seq<State>)
    ensures IsRun(START, es, ss) && Overlap(ss[|es|])
  {
    var a := Next(START, Spawn(0));
    var b := Next(a, Lock(0));
    var c := Next(b, Send(0));
    var d := Next(c, Receive(0));
    var e := Next(d, ResponseTimeout(0));
    var f := Next(e, Spawn(1));
    var g := Next(f, Lock(1));
    var h := Next(g, Send(1));
    var i := Next(h, Receive(1));
    es := [Spawn(0), Lock(0), Send(0), Receive(0), ResponseTimeout(0), Spawn(1), Lock(1), Send(1), Receive(1)];
    ss := [START, a, b, c, d, e, f, g, h, i];
    assert AtPort(i, 0) && AtPort(i, 1);
  }
}
