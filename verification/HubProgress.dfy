/** How far pumps, calls and broadcasts get when they are left to themselves, and what nobody else can undo. */
module HubProgress {
  import opened Text
  import opened HubProtocol
  import opened HubDelivery

  // ---- The pump ----

  /** What a broadcast's send adds to the buffer of a client: its message, unless 64 wait. */
  function Added(h: Hub, s: Step, c: ClientId): seq<Message>
    requires Enabled(h, s) && c in h.conns
  {
    if s.Send? && s.to == c && |h.conns[c].buffer| < 64 then [h.casts[s.b].message] else []
  }

  /** The client has what it had, and what a broadcast adds; its pump goes on as it was, or starts. */
  predicate Kept(h: Hub, s: Step, c: ClientId)
    requires Enabled(h, s) && c in h.conns
  {
    && c in Next(h, s).conns
    && var k, o := h.conns[c], Next(h, s).conns[c];
       o.buffer == k.buffer + Added(h, s, c) && o.written == k.written && (o.pump == k.pump || s == StartPump(c))
  }

  lemma SendAdds(h: Hub, s: Step, c: ClientId)
    requires Enabled(h, s) && s.Send? && c in h.conns && SendEffect(h, Next(h, s), s.b, s.to)
    ensures Kept(h, s, c)
  {
    hide Enabled, Next;
  }

  lemma CastsKeepConns(h: Hub, s: Step, c: ClientId)
    requires LockInv(h) && Enabled(h, s) && (s.Begin? || s.End?) && c in h.conns
    ensures Kept(h, s, c)
  {
    hide Critical, Members;
    assert s.Begin? ==> h.writer == None;
  }

  lemma AcceptKeepsConns(h: Hub, s: Step, c: ClientId)
    requires Enabled(h, s) && s.Accept? && c in h.conns
    ensures Kept(h, s, c)
  {
  }

  lemma TrafficIsKept(h: Hub, s: Step, c: ClientId)
    requires Enabled(h, s) && !s.Send? && c in h.conns && SameTraffic(h, Next(h, s))
    ensures Kept(h, s, c)
  {
    hide Enabled, Next;
  }

  lemma PumpKeepsOthers(h: Hub, s: Step, c: ClientId)
    requires Enabled(h, s) && (PumpStep(s) || s.StartPump?) && c in h.conns && !(PumpStep(s) && s.c == c)
    ensures Kept(h, s, c)
  {
    hide Members, NoReaders, Critical, CanLock, Exclusive;
  }

  /** Nobody but a client's own pump takes a message out of its buffer or writes one, and only broadcasts add any. */
  lemma OthersKeepBuffer(h: Hub, s: Step, c: ClientId)
    requires Inv(h) && Enabled(h, s) && c in h.conns && !(PumpStep(s) && s.c == c)
    ensures Kept(h, s, c)
  {
    hide *;
    InvParts(h);
    StepKinds(s);
    if s.Send? {
      SendHasEffect(h, s);
      SendAdds(h, s, c);
    } else if s.Begin? || s.End? {
      CastsKeepConns(h, s, c);
    } else if s.Accept? {
      AcceptKeepsConns(h, s, c);
    } else if ServeStep(s) {
      ServeStepPlain(h, s);
      TrafficIsKept(h, s, c);
    } else {
      PumpKeepsOthers(h, s, c);
    }
  }

  /** A pump that stops has lost at most the message it was writing, and has written nothing more. */
  lemma PumpStops(h: Hub, s: Step)
    requires Enabled(h, s) && (s.PumpFailed? || s.PumpPingFailed? || s.PumpSawClose?)
    ensures s.c in Next(h, s).conns
    ensures var k, o := h.conns[s.c], Next(h, s).conns[s.c];
            o.pump == Stopped(InHand(k.pump)) && o.buffer == k.buffer && o.written == k.written
  {
  }

  /** The next step of a pump that has not stopped, if it has anything to do. */
  function PumpMove(c: ClientId, k: Conn): Step {
    if k.pump.NotStarted? then StartPump(c) else if k.pump.Writing? then PumpWrote(c) else PumpTake(c)
  }

  function StepsToDrain(k: Conn): nat {
    2 * |k.buffer| + if k.pump.Waiting? then 0 else 1
  }

  predicate MayPump(h: Hub, c: ClientId) {
    c in h.conns && !h.conns[c].pump.Stopped? && (h.conns[c].pump.NotStarted? ==> h.conns[c].phase == Live)
  }

  lemma PumpAdvances(h: Hub, c: ClientId)
    requires h.fault == None && MayPump(h, c) && StepsToDrain(h.conns[c]) > 0
    ensures var s := PumpMove(c, h.conns[c]);
            && Enabled(h, s) && Next(h, s).fault == None && MayPump(Next(h, s), c)
            && var k, o := h.conns[c], Next(h, s).conns[c];
               && StepsToDrain(o) == StepsToDrain(k) - 1
               && o.written + InHand(o.pump) + o.buffer == k.written + InHand(k.pump) + k.buffer
               && !o.pump.NotStarted? && o.attempts == k.attempts && o.closed == k.closed && o.env == k.env
  {
    hide Members, NoReaders, Critical, CanLock, Exclusive;
    var k := h.conns[c];
    if k.pump.Waiting? {
      assert k.buffer == [k.buffer[0]] + k.buffer[1..];
      assert k.written + [] + k.buffer == k.written + [k.buffer[0]] + k.buffer[1..];
    } else if k.pump.Writing? {
      assert k.written + [k.pump.message] + k.buffer == (k.written + [k.pump.message]) + [] + k.buffer;
    } else {
      assert k.written + [] + k.buffer == k.written + k.buffer;
    }
  }

  /** Left to itself, a pump that has not stopped writes all that waits, in order: two steps for each message in the
      buffer, and one more for a message in its hand or for starting. */
  lemma {:induction false} PumpDrains(h: Hub, c: ClientId) returns (steps: seq<Step>, g: Hub)
    requires h.fault == None && MayPump(h, c)
    ensures |steps| == 2 * |h.conns[c].buffer| + if h.conns[c].pump.Waiting? then 0 else 1
    ensures Follows(h, steps, g)
    ensures forall i :: 0 <= i < |steps| ==>
              (steps[i].StartPump? || steps[i].PumpTake? || steps[i].PumpWrote?) && steps[i].c == c
    ensures c in g.conns && g.conns[c].buffer == [] && g.conns[c].pump == Waiting
    ensures g.conns[c].written == h.conns[c].written + InHand(h.conns[c].pump) + h.conns[c].buffer
    ensures g.fault == None && g.conns[c].attempts == h.conns[c].attempts && g.conns[c].closed == h.conns[c].closed
    ensures g.conns[c].env == h.conns[c].env
    decreases StepsToDrain(h.conns[c])
  {
    hide Enabled, Next;
    if StepsToDrain(h.conns[c]) == 0 {
      steps, g := [], h;
      assert h.conns[c].written + [] + [] == h.conns[c].written;
    } else {
      var s := PumpMove(c, h.conns[c]);
      PumpAdvances(h, c);
      var rest;
      rest, g := PumpDrains(Next(h, s), c);
      steps := [s] + rest;
      assert steps[1..] == rest;
    }
  }

  lemma PumpHoldsAccepted(h: Hub, c: ClientId)
    requires LockInv(h) && DeliveryInv(h) && c in h.conns
    ensures h.fault == None
    ensures var k := h.conns[c]; k.written + InHand(k.pump) + k.buffer == Accepted(k.attempts)
  {
    assert Conserved(h.conns[c]);
    hide Accepted, InHand;
  }

  lemma PumpSeesClose(h: Hub, c: ClientId)
    requires h.fault == None && c in h.conns
    requires h.conns[c].pump == Waiting && h.conns[c].buffer == [] && h.conns[c].closed
    ensures Enabled(h, PumpSawClose(c)) && c in Next(h, PumpSawClose(c)).conns
    ensures Next(h, PumpSawClose(c)).conns[c] == h.conns[c].(pump := Stopped([]))
  {
  }

  /** So from any reachable state every message accepted for the client is on the wire then, in the order of the
      sends; and once the channel is closed the pump's next step is to stop, with nothing lost. */
  lemma AcceptedGetsOut(h: Hub, c: ClientId) returns (steps: seq<Step>, g: Hub)
    requires Inv(h) && MayPump(h, c)
    ensures Follows(h, steps, g) && c in g.conns && g.conns[c].written == Accepted(h.conns[c].attempts)
    ensures h.conns[c].closed ==>
              Enabled(g, PumpSawClose(c)) && c in Next(g, PumpSawClose(c)).conns
              && Next(g, PumpSawClose(c)).conns[c].pump == Stopped([])
              && Next(g, PumpSawClose(c)).conns[c].written == Accepted(h.conns[c].attempts)
  {
    hide Inv, Enabled, Next, Accepted, InHand, LockInv, DeliveryInv, Follows;
    InvParts(h);
    PumpHoldsAccepted(h, c);
    steps, g := PumpDrains(h, c);
    if h.conns[c].closed {
      PumpSeesClose(g, c);
    }
  }

  // ---- A broadcast from its call on ----

  /** A call is what its broadcast is about from then on. */
  lemma {:induction false} CallStays(run: seq<Hub>, i: nat, j: nat, b: CastId)
    requires IsRun(run) && i <= j < |run| && b in run[i].casts
    ensures b in run[j].casts && run[j].casts[b].env == run[i].casts[b].env
    ensures run[j].casts[b].message == run[i].casts[b].message
    decreases j
  {
    hide Inv, Enabled, Next, Initial;
    if i == j {
    } else {
      CallStays(run, i, j - 1, b);
      RunKeepsInv(run, j - 1);
      assert CanFollow(run[j - 1], run[j]);
      var s :| Enabled(run[j - 1], s) && run[j] == Next(run[j - 1], s);
      CastStep(run[j - 1], s, b);
    }
  }

  lemma BeginCalls(h: Hub, b: CastId, env: EnvId, m: Message)
    requires Inv(h) && Enabled(h, Begin(b, env, m))
    ensures b in Next(h, Begin(b, env, m)).casts && Next(h, Begin(b, env, m)).casts[b] == Cast(env, m, {}, false)
    ensures Next(h, Begin(b, env, m)).clients == h.clients
  {
    BeginFindsNoWriter(h, Begin(b, env, m));
  }

  lemma {:induction false} ReadingUntil(run: seq<Hub>, i: nat, k: nat, j: nat, b: CastId)
    requires IsRun(run) && i <= k <= j < |run| && Reading(run[j], b) && b in run[i].casts
    ensures Reading(run[k], b)
    decreases j - k
  {
    hide Inv, Enabled, Next, Initial;
    if k == j {
    } else {
      ReadingUntil(run, i, k + 1, j, b);
      CallStays(run, i, k, b);
      RunKeepsInv(run, k);
      assert CanFollow(run[k], run[k + 1]);
      var s :| Enabled(run[k], s) && run[k + 1] == Next(run[k], s);
      CastStep(run[k], s, b);
    }
  }

  lemma EndIsReading(h: Hub, b: CastId)
    requires Enabled(h, End(b))
    ensures Reading(h, b)
  {
  }

  lemma SameMembers(h: Hub, g: Hub, env: EnvId)
    requires g.clients == h.clients
    ensures Members(g, env) == Members(h, env)
  {
  }

  /** A call to broadcast m in env that starts at i and ends at j has by then tried every client that was in env's set
      when it started exactly once, and nobody else; what it tried to send is m. */
  lemma BroadcastAsCalled(run: seq<Hub>, i: nat, j: nat, b: CastId, env: EnvId, m: Message, c: ClientId)
    requires IsRun(run) && i < j < |run|
    requires Enabled(run[i], Begin(b, env, m)) && run[i + 1] == Next(run[i], Begin(b, env, m))
    requires Enabled(run[j], End(b)) && c in run[j].conns
    ensures Tries(run[j].conns[c].attempts, b) == if c in Members(run[i], env) then 1 else 0
    ensures forall k :: 0 <= k < |run[j].conns[c].attempts| && run[j].conns[c].attempts[k].cast == b ==>
              run[j].conns[c].attempts[k].message == m
  {
    hide Inv, Enabled, Next, IsRun, Tries, Members, Reading;
    RunKeepsInv(run, i);
    RunKeepsInv(run, j);
    BeginCalls(run[i], b, env, m);
    SameMembers(run[i], run[i + 1], env);
    EndIsReading(run[j], b);
    CallStays(run, i + 1, j, b);
    forall k | i + 1 <= k <= j ensures Reading(run[k], b) {
      ReadingUntil(run, i + 1, k, j, b);
    }
    MembersFrozen(run, i + 1, j, b, env);
    BroadcastReachesAll(run[j], b, c);
    forall k | 0 <= k < |run[j].conns[c].attempts| && run[j].conns[c].attempts[k].cast == b
      ensures run[j].conns[c].attempts[k].message == m
    {
      AtMostOneCopy(run[j], b, c, k);
    }
  }

  // ---- From register to the wire ----

  lemma {:induction false} FollowsJoin(h: Hub, a: seq<Step>, mid: Hub, b: seq<Step>, g: Hub)
    requires Follows(h, a, mid) && Follows(mid, b, g)
    ensures Follows(h, a + b, g)
    decreases |a|
  {
    hide Enabled, Next;
    if a == [] {
      assert a + b == b;
    } else {
      FollowsJoin(Next(h, a[0]), a[1..], mid, b, g);
      assert (a + b)[0] == a[0] && (a + b)[1..] == a[1..] + b;
    }
  }

  lemma OneStep(h: Hub, s: Step)
    requires Enabled(h, s)
    ensures Follows(h, [s], Next(h, s))
  {
    hide Enabled, Next;
    assert Follows(Next(h, s), [s][1..], Next(h, s));
  }

  /** One step of a ServeWS call moves it to its next phase and changes nothing else about its client. */
  lemma CallMoves(h: Hub, s: Step)
    requires Inv(h) && Enabled(h, s) && ServeStep(s) && !s.Accept?
    ensures Inv(Next(h, s)) && s.c in h.conns && s.c in Next(h, s).conns
    ensures var k, o := h.conns[s.c], Next(h, s).conns[s.c];
            o == k.(phase := PhaseAfter(s), closed := k.closed || s.CloseSend?)
    ensures Next(h, s).writer ==
            if LockingStep(s) then Some(s.c) else if s.UnlockReg? || s.UnlockUnreg? then None else h.writer
    ensures Next(h, s).casts == h.casts
  {
    hide Inv, Enabled, Next, PhaseAfter;
    StepKeepsInv(h, s);
    ServeStepIsSafe(h, s);
    ServeStepEffect(h, s);
    PhaseBefore(h, s);
  }

  function EndOf(p: Phase): Phase {
    if p in {RegLocked, RegReady, RegInserted} then Live else Gone
  }

  lemma MoveNearsEnd(c: ClientId, p: Phase)
    requires Critical(p)
    ensures var s := WriterMove(c, p);
            && ServeStep(s) && s.c == c && !s.Accept? && !LockingStep(s)
            && if Critical(PhaseAfter(s))
               then EndOf(PhaseAfter(s)) == EndOf(p) && StepsToUnlock(PhaseAfter(s)) == StepsToUnlock(p) - 1
               else PhaseAfter(s) == EndOf(p) && StepsToUnlock(p) == 1 && (s.UnlockReg? || s.UnlockUnreg?)
  {
  }

  lemma MayMove(h: Hub, c: ClientId)
    requires Inv(h) && c in h.conns && Critical(h.conns[c].phase)
    ensures Enabled(h, WriterMove(c, h.conns[c].phase))
  {
    InvParts(h);
    WriterProgress(h);
  }

  /** Left to itself, a call inside the lock gets to its end: registered, or gone. */
  lemma {:induction false} CallCompletes(h: Hub, c: ClientId) returns (steps: seq<Step>, g: Hub)
    requires Inv(h) && c in h.conns && Critical(h.conns[c].phase)
    ensures |steps| == StepsToUnlock(h.conns[c].phase) && Follows(h, steps, g) && Inv(g)
    ensures forall i :: 0 <= i < |steps| ==> ServeStep(steps[i]) && steps[i].c == c
    ensures g.writer == None && g.casts == h.casts && c in g.conns && g.conns[c].phase == EndOf(h.conns[c].phase)
    ensures g.conns[c] == h.conns[c].(phase := EndOf(h.conns[c].phase), closed := g.conns[c].closed)
    decreases StepsToUnlock(h.conns[c].phase)
  {
    hide Inv, Enabled, Next, ServeStep, Critical, StepsToUnlock, WriterMove, PhaseAfter, EndOf, LockingStep, Follows;
    var p := h.conns[c].phase;
    var s := WriterMove(c, p);
    MoveNearsEnd(c, p);
    MayMove(h, c);
    CallMoves(h, s);
    OneStep(h, s);
    var next := Next(h, s);
    if Critical(next.conns[c].phase) {
      var rest;
      rest, g := CallCompletes(next, c);
      steps := [s] + rest;
      FollowsJoin(h, [s], next, rest, g);
    } else {
      steps, g := [s], next;
    }
  }

  lemma MayLock(h: Hub, c: ClientId)
    requires Inv(h) && CanLock(h) && c in h.conns
    ensures h.conns[c].phase == Fresh ==> Enabled(h, LockReg(c))
    ensures h.conns[c].phase == Live && !PumpIs(h, c, NotStarted) ==> Enabled(h, LockUnreg(c))
  {
    InvParts(h);
  }

  lemma LockMoves(c: ClientId)
    ensures PhaseAfter(LockReg(c)) == RegLocked && PhaseAfter(LockUnreg(c)) == UnregLocked
    ensures StepsToUnlock(RegLocked) == 3 && StepsToUnlock(UnregLocked) == 4
    ensures EndOf(RegLocked) == Live && EndOf(UnregLocked) == Gone
    ensures Critical(RegLocked) && Critical(UnregLocked)
  {
  }

  /** Left to itself, a new connection that finds the lock free is in its environment's set after four steps, and the
      lock is free again. */
  lemma RegisterCompletes(h: Hub, c: ClientId) returns (steps: seq<Step>, g: Hub)
    requires Inv(h) && CanLock(h) && c in h.conns && h.conns[c].phase == Fresh
    ensures |steps| == 4 && Follows(h, steps, g) && Inv(g) && g.writer == None
    ensures forall i :: 0 <= i < |steps| ==> ServeStep(steps[i]) && steps[i].c == c
    ensures c in g.conns && g.conns[c] == h.conns[c].(phase := Live, closed := g.conns[c].closed)
    ensures g.casts == h.casts && c in Members(g, h.conns[c].env)
  {
    hide Inv, Enabled, Next, Members, CanLock, StepsToUnlock, PhaseAfter, EndOf, Critical, Follows;
    var s := LockReg(c);
    MayLock(h, c);
    CallMoves(h, s);
    LockMoves(c);
    OneStep(h, s);
    steps, g := CallCompletes(Next(h, s), c);
    FollowsJoin(h, [s], Next(h, s), steps, g);
    steps := [s] + steps;
    RunsMembership(g, c);
  }

  /** And one that leaves is in no set after five, with its channel closed. */
  lemma UnregisterCompletes(h: Hub, c: ClientId) returns (steps: seq<Step>, g: Hub)
    requires Inv(h) && CanLock(h) && c in h.conns && h.conns[c].phase == Live && !PumpIs(h, c, NotStarted)
    ensures |steps| == 5 && Follows(h, steps, g) && Inv(g) && g.writer == None
    ensures c in g.conns && g.conns[c].phase == Gone && g.conns[c].closed
    ensures forall env :: c !in Members(g, env)
  {
    hide Inv, Enabled, Next, Members, CanLock, StepsToUnlock, PhaseAfter, EndOf, Critical, Follows;
    var s := LockUnreg(c);
    MayLock(h, c);
    CallMoves(h, s);
    LockMoves(c);
    OneStep(h, s);
    steps, g := CallCompletes(Next(h, s), c);
    FollowsJoin(h, [s], Next(h, s), steps, g);
    steps := [s] + steps;
    RunsMembership(g, c);
  }

  lemma RunsMembership(h: Hub, c: ClientId)
    requires Inv(h) && c in h.conns
    ensures h.conns[c].phase == Live ==> c in Members(h, h.conns[c].env)
    ensures h.conns[c].phase == Gone ==> h.conns[c].closed && forall env :: c !in Members(h, env)
  {
    InvParts(h);
    hide Inv, Members, LockInv, SetsInv, AttemptInv, DeliveryInv, ReaderInv;
  }

  // ---- One broadcast to the wire ----

  /** What a broadcast that is left to itself does to every client: those it has still to try are offered its message,
      the others are as they were. */
  lemma {:induction false} BroadcastOffers(h: Hub, b: CastId) returns (steps: seq<Step>, g: Hub)
    requires Inv(h) && Reading(h, b)
    ensures |steps| == Remaining(h, b) + 1 && Follows(h, steps, g) && Inv(g) && !Reading(g, b)
    ensures forall i :: 0 <= i < |steps| ==> (steps[i].Send? || steps[i].End?) && steps[i].b == b
    ensures g.conns.Keys == h.conns.Keys
    ensures forall c :: c in h.conns ==>
              g.conns[c] == if c in Members(h, h.casts[b].env) - h.casts[b].visited
                            then Offered(h.conns[c], b, h.casts[b].message) else h.conns[c]
    decreases Remaining(h, b)
  {
    hide Inv, Enabled, Next, Members, Offered, Follows;
    var s := CastMove(h, b);
    BroadcastCanStep(h, b);
    BroadcastProgress(h, s, b);
    StepKeepsInv(h, s);
    CastStep(h, s, b);
    FrozenWhileRead(h, s, b);
    CastMoveEffect(h, s, b);
    OneStep(h, s);
    var next := Next(h, s);
    if s.End? {
      steps, g := [s], next;
    } else {
      var rest;
      rest, g := BroadcastOffers(next, b);
      steps := [s] + rest;
      FollowsJoin(h, [s], next, rest, g);
      SameMembers(h, next, h.casts[b].env);
    }
  }

  lemma CastMoveEffect(h: Hub, s: Step, b: CastId)
    requires Inv(h) && Enabled(h, s) && Reading(h, b) && s == CastMove(h, b)
    ensures s.Send? ==>
              s.b == b && s.to in Members(h, h.casts[b].env) - h.casts[b].visited && s.to in h.conns
              && Next(h, s).conns == h.conns[s.to := Offered(h.conns[s.to], b, h.casts[b].message)]
    ensures s.End? ==> s.b == b && Next(h, s).conns == h.conns && Members(h, h.casts[b].env) <= h.casts[b].visited
  {
    hide Offered;
    InvParts(h);
    if s.Send? {
      SendHasEffect(h, s);
    }
  }

  lemma BeginKeepsConns(h: Hub, b: CastId, env: EnvId, m: Message)
    requires Inv(h) && h.writer == None && b !in h.casts
    ensures Enabled(h, Begin(b, env, m)) && Reading(Next(h, Begin(b, env, m)), b)
    ensures var g := Next(h, Begin(b, env, m)); g.conns == h.conns && g.casts[b] == Cast(env, m, {}, false)
  {
    InvParts(h);
    BeginFindsNoWriter(h, Begin(b, env, m));
  }

  lemma OfferedWithRoom(k: Conn, b: CastId, m: Message)
    requires |k.buffer| < 64
    ensures Offered(k, b, m).buffer == k.buffer + [m] && Offered(k, b, m).written == k.written
    ensures Offered(k, b, m).pump == k.pump && Offered(k, b, m).phase == k.phase && Offered(k, b, m).env == k.env
  {
  }

  /** From any reachable state in which the lock is free: a call to broadcast m in an environment, left to itself, and
      then the pump of a registered client of that environment with room in its buffer, bring m to the client, after
      all that was accepted for it before. */
  lemma BroadcastGetsOut(h: Hub, b: CastId, m: Message, c: ClientId) returns (steps: seq<Step>, g: Hub)
    requires Inv(h) && h.writer == None && b !in h.casts
    requires MayPump(h, c) && h.conns[c].phase == Live && |h.conns[c].buffer| < 64
    ensures Follows(h, steps, g) && steps != [] && steps[0] == Begin(b, h.conns[c].env, m)
    ensures forall i :: 1 <= i < |steps| ==>
              steps[i].StartPump? || steps[i].PumpTake? || steps[i].PumpWrote? || steps[i].Send? || steps[i].End?
    ensures c in g.conns && g.conns[c].env == h.conns[c].env
    ensures g.conns[c].written == Accepted(h.conns[c].attempts) + [m]
  {
    hide Inv, Enabled, Next, Members, Offered, Follows, Accepted, LockInv, DeliveryInv;
    var env, k := h.conns[c].env, h.conns[c];
    InvParts(h);
    PumpHoldsAccepted(h, c);
    RunsMembership(h, c);
    var s := Begin(b, env, m);
    BeginKeepsConns(h, b, env, m);
    BeginCalls(h, b, env, m);
    StepKeepsInv(h, s);
    var h1 := Next(h, s);
    SameMembers(h, h1, env);
    OneStep(h, s);
    var offers, h2 := BroadcastOffers(h1, b);
    OfferedWithRoom(k, b, m);
    InvParts(h2);
    PumpHoldsAccepted(h2, c);
    var drains;
    drains, g := PumpDrains(h2, c);
    FollowsJoin(h, [s], h1, offers, h2);
    FollowsJoin(h, [s] + offers, h2, drains, g);
    steps := [s] + offers + drains;
    assert g.conns[c].written == k.written + InHand(k.pump) + (k.buffer + [m]);
  }

  lemma Accepts(h: Hub, c: ClientId, env: EnvId)
    requires Inv(h) && CanLock(h) && c !in h.conns
    ensures Enabled(h, Accept(c, env)) && CanLock(Next(h, Accept(c, env)))
    ensures var g := Next(h, Accept(c, env));
            c in g.conns && g.conns[c] == Conn(env, Fresh, [], false, NotStarted, [], []) && g.casts == h.casts
  {
    hide Critical;
    InvParts(h);
  }

  /** In any reachable state with the lock free somebody new may connect, and hears the next broadcast: there is a run
      that accepts and registers the client, broadcasts m in its environment and nothing else, and ends with m, and
      nothing else, written to it. */
  lemma NewClientHears(h: Hub, c: ClientId, env: EnvId, b: CastId, m: Message) returns (steps: seq<Step>, g: Hub)
    requires Inv(h) && CanLock(h) && c !in h.conns && b !in h.casts
    ensures Follows(h, steps, g) && steps != [] && steps[0] == Accept(c, env)
    ensures forall i :: 0 <= i < |steps| && steps[i].Begin? ==> steps[i] == Begin(b, env, m)
    ensures c in g.conns && g.conns[c].env == env && g.conns[c].written == [m]
  {
    hide Inv, Enabled, Next, Members, Offered, Follows, Accepted, LockInv, CanLock;
    var s := Accept(c, env);
    Accepts(h, c, env);
    StepKeepsInv(h, s);
    OneStep(h, s);
    var h1 := Next(h, s);
    var calls, h2 := RegisterCompletes(h1, c);
    var casts;
    casts, g := BroadcastGetsOut(h2, b, m, c);
    FollowsJoin(h, [s], h1, calls, h2);
    FollowsJoin(h, [s] + calls, h2, casts, g);
    NothingAccepted();
    steps := [s] + calls + casts;
  }

  lemma NothingAccepted()
    ensures Accepted([]) == []
  {
  }

  /** A pump at work may fail at its write, and a waiting one at its ping. */
  lemma PumpMayFail(h: Hub, c: ClientId)
    requires h.fault == None && c in h.conns
    ensures h.conns[c].pump.Writing? ==> Enabled(h, PumpFailed(c)) && Enabled(h, PumpWrote(c))
    ensures h.conns[c].pump.Waiting? ==> Enabled(h, PumpPingFailed(c))
  {
  }
}
