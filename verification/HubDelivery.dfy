/** The hub's invariant over every interleaving of its clients, pumps and broadcasts,
    and what it means for deliveries and for progress. */
module HubDelivery {
  import opened Text
  import opened HubProtocol

  // ---- Attempts ----

  /** No attempt is made and no broadcast changes. */
  predicate SameAttempts(h: Hub, g: Hub) {
    && g.conns.Keys == h.conns.Keys && g.casts == h.casts
    && forall c :: c in h.conns ==> g.conns[c].env == h.conns[c].env && g.conns[c].attempts == h.conns[c].attempts
  }

  lemma SameAttemptsKeep(h: Hub, g: Hub)
    requires AttemptInv(h) && SameAttempts(h, g)
    ensures AttemptInv(g)
  {
  }

  lemma PumpStepPlain(h: Hub, s: Step)
    requires Enabled(h, s) && (PumpStep(s) || s.StartPump?)
    ensures SameAttempts(h, Next(h, s))
  {
    hide Members, NoReaders, Critical, CanLock, Exclusive;
  }

  /** What a ServeWS step other than accepting leaves of everyone's traffic. */
  predicate SameTraffic(h: Hub, g: Hub) {
    && g.conns.Keys == h.conns.Keys && g.casts == h.casts
    && forall d :: d in h.conns ==> g.conns[d] == h.conns[d].(phase := g.conns[d].phase, closed := g.conns[d].closed)
  }

  lemma ServeStepTraffic(h: Hub, s: Step)
    requires Enabled(h, s) && ServeStep(s) && !s.Accept?
    requires MapStep(s) ==> Exclusive(h, s.c)
    requires s.CloseSend? ==> !h.conns[s.c].closed
    ensures SameTraffic(h, Next(h, s))
  {
    hide Exclusive, CanLock, Members, NoReaders, Critical;
    if MapStep(s) {
    } else {
    }
  }

  lemma ServeStepPlain(h: Hub, s: Step)
    requires Inv(h) && Enabled(h, s) && ServeStep(s) && !s.Accept?
    ensures SameTraffic(h, Next(h, s))
  {
    hide *;
    ServeStepIsSafe(h, s);
    ServeStepTraffic(h, s);
  }

  lemma PlainStep(h: Hub, s: Step)
    requires Inv(h) && Enabled(h, s) && !s.Accept? && !s.Begin? && !s.Send? && !s.End?
    ensures SameAttempts(h, Next(h, s))
  {
    StepKinds(s);
    if ServeStep(s) {
      ServeStepPlain(h, s);
    } else {
      PumpStepPlain(h, s);
    }
  }

  lemma AcceptKeepsAttempts(h: Hub, s: Step)
    requires AttemptInv(h) && Enabled(h, s) && s.Accept?
    ensures AttemptInv(Next(h, s))
  {
  }

  lemma BeginKeepsAttempts(h: Hub, s: Step)
    requires AttemptInv(h) && LockInv(h) && Enabled(h, s) && s.Begin?
    ensures AttemptInv(Next(h, s))
  {
    BeginFindsNoWriter(h, s);
    var g := Next(h, s);
    assert g.conns == h.conns && g.casts == h.casts[s.b := Cast(s.castEnv, s.message, {}, false)];
    hide Next, Enabled, LockInv, Critical;
    forall c | c in h.conns ensures !AttemptedBy(h.conns[c], s.b) {
      assert AttemptsInv(h, h.conns[c]);
    }
  }

  lemma EndKeepsAttempts(h: Hub, s: Step)
    requires AttemptInv(h) && Enabled(h, s) && s.End?
    ensures AttemptInv(Next(h, s))
  {
    var g := Next(h, s);
    assert g.conns == h.conns && g.casts == h.casts[s.b := h.casts[s.b].(finished := true)];
    hide Next, Enabled, Members;
  }

  /** A send is a new attempt of a client the broadcast had not tried. */
  predicate SendEffect(h: Hub, g: Hub, b: CastId, c: ClientId) {
    && b in h.casts && c in h.conns && c !in h.casts[b].visited && h.casts[b].env == h.conns[c].env
    && g.conns == h.conns[c := Offered(h.conns[c], b, h.casts[b].message)]
    && g.casts == h.casts[b := h.casts[b].(visited := h.casts[b].visited + {c})]
    && g.clients == h.clients && g.writer == h.writer && g.fault == h.fault
  }

  lemma SendHasEffect(h: Hub, s: Step)
    requires MembershipInv(h) && ClosedInv(h) && Enabled(h, s) && s.Send?
    ensures SendEffect(h, Next(h, s), s.b, s.to)
  {
    SendMeetsOpenChannel(h, s.b, s.to);
    assert s.to in Members(h, h.casts[s.b].env);
    hide Offered, ClosedInv, Members;
  }

  lemma OfferedAttempts(k: Conn, b: CastId, m: Message)
    ensures var o := Offered(k, b, m);
            o.attempts == k.attempts + [Attempt(b, m, |k.buffer|)] && o.env == k.env
    ensures forall x :: AttemptedBy(Offered(k, b, m), x) <==> AttemptedBy(k, x) || x == b
  {
    var o := Offered(k, b, m);
    forall x ensures AttemptedBy(o, x) <==> AttemptedBy(k, x) || x == b {
      if AttemptedBy(k, x) {
        var i :| 0 <= i < |k.attempts| && k.attempts[i].cast == x;
        assert o.attempts[i].cast == x;
      }
      assert o.attempts[|k.attempts|].cast == b;
    }
  }

  lemma SendKeepsAttempts(h: Hub, g: Hub, b: CastId, c: ClientId)
    requires AttemptInv(h) && SendEffect(h, g, b, c)
    ensures AttemptInv(g)
  {
    OfferedAttempts(h.conns[c], b, h.casts[b].message);
    hide Offered;
    assert !AttemptedBy(h.conns[c], b);
    forall d | d in g.conns ensures AttemptsInv(g, g.conns[d]) {
      assert AttemptsInv(h, h.conns[d]);
    }
    hide AttemptsInv, AttemptedBy;
  }

  lemma AttemptStep(h: Hub, s: Step)
    requires Inv(h) && Enabled(h, s)
    ensures AttemptInv(Next(h, s))
  {
    hide *;
    InvParts(h);
    if s.Accept? {
      AcceptKeepsAttempts(h, s);
    } else if s.Begin? {
      BeginKeepsAttempts(h, s);
    } else if s.End? {
      EndKeepsAttempts(h, s);
    } else if s.Send? {
      SendHasEffect(h, s);
      SendKeepsAttempts(h, Next(h, s), s.b, s.to);
    } else {
      PlainStep(h, s);
      SameAttemptsKeep(h, Next(h, s));
    }
  }

  // ---- Deliveries ----

  lemma OfferedConserved(k: Conn, b: CastId, m: Message)
    requires Conserved(k)
    ensures Conserved(Offered(k, b, m))
  {
    var o := Offered(k, b, m);
    var a := Attempt(b, m, |k.buffer|);
    assert o.attempts[..|o.attempts| - 1] == k.attempts && o.attempts[|o.attempts| - 1] == a;
    var done := k.written + InHand(k.pump);
    assert Accepted(o.attempts) == Accepted(k.attempts) + if a.buffered < CAPACITY then [m] else [];
    assert done + (k.buffer + [m]) == (done + k.buffer) + [m];
  }

  lemma PumpConserved(h: Hub, s: Step)
    requires Enabled(h, s) && (PumpStep(s) || s.StartPump?) && Conserved(h.conns[s.c])
    ensures var g := Next(h, s);
            s.c in g.conns && Conserved(g.conns[s.c])
            && forall d :: d in g.conns && d != s.c ==> d in h.conns && g.conns[d] == h.conns[d]
  {
    hide Accepted;
    var k := h.conns[s.c];
    if s.PumpTake? {
      assert k.buffer == [k.buffer[0]] + k.buffer[1..];
      assert k.written + [] + k.buffer == k.written + [k.buffer[0]] + k.buffer[1..];
    } else if s.PumpWrote? {
      var m := k.pump.message;
      assert k.written + [m] + k.buffer == (k.written + [m]) + [] + k.buffer;
    }
  }

  lemma AcceptConserved(h: Hub, s: Step)
    requires DeliveryInv(h) && Enabled(h, s) && s.Accept?
    ensures DeliveryInv(Next(h, s))
  {
    assert Accepted([]) == [];
    hide Accepted;
  }

  lemma TrafficConserved(h: Hub, g: Hub)
    requires DeliveryInv(h) && SameTraffic(h, g)
    ensures DeliveryInv(g)
  {
    hide Accepted, InHand;
  }

  lemma ServeConserved(h: Hub, s: Step)
    requires Inv(h) && Enabled(h, s) && ServeStep(s)
    ensures DeliveryInv(Next(h, s))
  {
    hide *;
    InvParts(h);
    if s.Accept? {
      AcceptConserved(h, s);
    } else {
      ServeStepPlain(h, s);
      TrafficConserved(h, Next(h, s));
    }
  }

  lemma CastConserved(h: Hub, s: Step)
    requires Inv(h) && Enabled(h, s) && (s.Begin? || s.End?)
    ensures DeliveryInv(Next(h, s))
  {
    if s.Begin? {
      BeginFindsNoWriter(h, s);
    }
    assert Next(h, s).conns == h.conns;
    hide Next, Enabled, Conserved;
  }

  lemma SendConserved(h: Hub, g: Hub, b: CastId, c: ClientId)
    requires DeliveryInv(h) && SendEffect(h, g, b, c)
    ensures DeliveryInv(g)
  {
    OfferedConserved(h.conns[c], b, h.casts[b].message);
    hide Conserved, Offered;
  }

  lemma PumpDelivery(h: Hub, s: Step)
    requires DeliveryInv(h) && Enabled(h, s) && (PumpStep(s) || s.StartPump?)
    ensures DeliveryInv(Next(h, s))
  {
    PumpConserved(h, s);
    hide Next, Conserved;
  }

  lemma StepKinds(s: Step)
    ensures ServeStep(s) || s.Begin? || s.End? || s.Send? || PumpStep(s) || s.StartPump?
    ensures !ServeStep(s) ==> Quiet(s)
  {
  }

  lemma DeliveryStep(h: Hub, s: Step)
    requires Inv(h) && Enabled(h, s)
    ensures DeliveryInv(Next(h, s))
  {
    hide *;
    InvParts(h);
    StepKinds(s);
    if ServeStep(s) {
      ServeConserved(h, s);
    } else if s.Begin? || s.End? {
      CastConserved(h, s);
    } else if s.Send? {
      SendHasEffect(h, s);
      SendConserved(h, Next(h, s), s.b, s.to);
    } else {
      PumpDelivery(h, s);
    }
  }

  // ---- The set a broadcast iterates ----

  /** While any broadcast runs, no step of anyone changes the client map. */
  lemma FrozenWhileRead(h: Hub, s: Step, b: CastId)
    requires Inv(h) && Enabled(h, s) && Reading(h, b)
    ensures Next(h, s).clients == h.clients
  {
    StepKinds(s);
    if ServeStep(s) {
      ServeHasEffect(h, s);
      ServeStepIsSafe(h, s);
      ServeStepEffect(h, s);
    } else {
      QuietKeepsPhases(h, s);
      PhasesShare(h, Next(h, s));
    }
  }

  /** A broadcast after a step. */
  function CastAfter(k: Cast, s: Step, b: CastId): Cast {
    if s.Send? && s.b == b then k.(visited := k.visited + {s.to})
    else if s == End(b) then k.(finished := true)
    else k
  }

  lemma CastStep(h: Hub, s: Step, b: CastId)
    requires Inv(h) && Enabled(h, s)
    ensures b in h.casts ==> b in Next(h, s).casts && Next(h, s).casts[b] == CastAfter(h.casts[b], s, b)
    ensures b !in h.casts && b in Next(h, s).casts ==>
        Next(h, s).casts[b].visited == {} && !Next(h, s).casts[b].finished
    ensures b !in h.casts && b in Next(h, s).casts ==> s.Begin? && s.b == b
  {
    hide Next, Enabled, Inv, LockInv, MembershipInv, ClosedInv;
    InvParts(h);
    if s.Begin? || s.End? {
      BeginEndCast(h, s, b);
    } else if s.Send? {
      SendHasEffect(h, s);
    } else if s.Accept? {
      AcceptCast(h, s, b);
    } else {
      PlainStep(h, s);
    }
  }

  lemma AcceptCast(h: Hub, s: Step, b: CastId)
    requires Enabled(h, s) && s.Accept?
    ensures Next(h, s).casts == h.casts && (b in h.casts ==> CastAfter(h.casts[b], s, b) == h.casts[b])
  {
  }

  lemma BeginEndCast(h: Hub, s: Step, b: CastId)
    requires LockInv(h) && Enabled(h, s) && (s.Begin? || s.End?)
    ensures b in h.casts ==> b in Next(h, s).casts && Next(h, s).casts[b] == CastAfter(h.casts[b], s, b)
    ensures b !in h.casts && b in Next(h, s).casts ==>
        Next(h, s).casts[b].visited == {} && !Next(h, s).casts[b].finished
    ensures b !in h.casts && b in Next(h, s).casts ==> s.Begin? && s.b == b
  {
    if s.Begin? {
      BeginFindsNoWriter(h, s);
    }
    hide LockInv, Members, Critical;
  }

  lemma SendIsOfMember(h: Hub, s: Step)
    requires Enabled(h, s) && s.Send?
    ensures Reading(h, s.b) && s.to in Members(h, h.casts[s.b].env) - h.casts[s.b].visited
  {
  }

  /** Every broadcast in progress stays inside the set it iterates. */
  lemma ReaderStep(h: Hub, s: Step)
    requires Inv(h) && Enabled(h, s)
    ensures ReaderInv(Next(h, s))
  {
    hide *;
    InvParts(h);
    if s.Send? {
      SendIsOfMember(h, s);
    }
    forall b { CastStep(h, s, b); }
    forall b | Reading(h, b) { FrozenWhileRead(h, s, b); }
    ReaderCarries(h, Next(h, s), s);
  }

  lemma ReaderCarries(h: Hub, g: Hub, s: Step)
    requires ReaderInv(h)
    requires forall b :: b in h.casts ==> b in g.casts && g.casts[b] == CastAfter(h.casts[b], s, b)
    requires forall b :: b !in h.casts && b in g.casts ==> g.casts[b].visited == {}
    requires forall b :: Reading(h, b) ==> g.clients == h.clients
    requires s.Send? ==> Reading(h, s.b) && s.to in Members(h, h.casts[s.b].env) - h.casts[s.b].visited
    ensures ReaderInv(g)
  {
    forall b | b in g.casts && !g.casts[b].finished ensures g.casts[b].visited <= Members(g, g.casts[b].env) {
      if b in h.casts {
        assert Reading(h, b);
      }
    }
  }

  /** Every step of every process keeps the invariant, whatever the interleaving. */
  lemma StepKeepsInv(h: Hub, s: Step)
    requires Inv(h) && Enabled(h, s)
    ensures Inv(Next(h, s))
  {
    StepKinds(s);
    AttemptStep(h, s);
    DeliveryStep(h, s);
    ReaderStep(h, s);
    if ServeStep(s) {
      ServeKeepsInv(h, s);
    } else {
      QuietStep(h, s);
    }
  }

  // ---- Runs ----

  ghost predicate CanFollow(h: Hub, g: Hub) {
    exists s :: Enabled(h, s) && g == Next(h, s)
  }

  /** Any interleaving of any number of ServeWS calls, pumps and broadcasts. */
  ghost predicate IsRun(run: seq<Hub>) {
    && run != [] && run[0] == Initial()
    && forall i :: 0 <= i < |run| - 1 ==> CanFollow(run[i], run[i + 1])
  }

  lemma {:induction false} RunKeepsInv(run: seq<Hub>, i: nat)
    requires IsRun(run) && i < |run|
    ensures Inv(run[i])
  {
    hide Inv, Enabled, Next, Initial;
    if i == 0 {
      InitialInv();
    } else {
      RunKeepsInv(run, i - 1);
      assert CanFollow(run[i - 1], run[i]);
      var s :| Enabled(run[i - 1], s) && run[i] == Next(run[i - 1], s);
      StepKeepsInv(run[i - 1], s);
    }
  }

  /** No send meets a closed channel, no channel is closed twice, no client goes into a set that is not there, no map
      is written while it is in use. */
  lemma RunIsFaultFree(run: seq<Hub>, i: nat)
    requires IsRun(run) && i < |run|
    ensures run[i].fault == None
  {
    RunKeepsInv(run, i);
  }

  /** A client is in the map exactly between register and unregister, under its own environment,
      and the map holds no empty set once the lock is free. */
  lemma RunMembership(run: seq<Hub>, i: nat, env: EnvId, c: ClientId)
    requires IsRun(run) && i < |run|
    ensures var h := run[i];
            c in Members(h, env) <==>
            c in h.conns && h.conns[c].env == env && h.conns[c].phase in {RegInserted, Live, UnregLocked}
    ensures run[i].writer == None && env in run[i].clients ==> run[i].clients[env] != {}
  {
    RunKeepsInv(run, i);
    assert MembershipInv(run[i]);
  }

  /** Messages written, in the pump's hand and buffered are the accepted sends in order. */
  lemma RunDelivers(run: seq<Hub>, i: nat, c: ClientId)
    requires IsRun(run) && i < |run| && c in run[i].conns
    ensures var k := run[i].conns[c]; k.written + InHand(k.pump) + k.buffer == Accepted(k.attempts)
    ensures |run[i].conns[c].buffer| <= 64
  {
    RunKeepsInv(run, i);
    assert Conserved(run[i].conns[c]);
  }

  // ---- One broadcast, from its first step to its last ----

  lemma {:induction false} MembersFrozen(run: seq<Hub>, i: nat, j: nat, b: CastId, env: EnvId)
    requires IsRun(run) && i <= j < |run|
    requires forall k :: i <= k <= j ==> Reading(run[k], b)
    ensures Members(run[j], env) == Members(run[i], env)
    decreases j
  {
    hide Inv, Enabled, Next, Initial, Reading;
    if i == j {
    } else {
      MembersFrozen(run, i, j - 1, b, env);
      RunKeepsInv(run, j - 1);
      assert CanFollow(run[j - 1], run[j]);
      var s :| Enabled(run[j - 1], s) && run[j] == Next(run[j - 1], s);
      FrozenWhileRead(run[j - 1], s, b);
    }
  }

  /** How often broadcast b tried a client, and how often it was accepted. */
  function Tries(attempts: seq<Attempt>, b: CastId): nat {
    if attempts == [] then 0
    else Tries(attempts[..|attempts| - 1], b) + if attempts[|attempts| - 1].cast == b then 1 else 0
  }

  lemma {:induction false} TriesOnce(attempts: seq<Attempt>, b: CastId)
    requires forall i, j :: 0 <= i < j < |attempts| ==> attempts[i].cast != attempts[j].cast
    ensures Tries(attempts, b) == if exists i :: 0 <= i < |attempts| && attempts[i].cast == b then 1 else 0
  {
    if attempts == [] {
    } else {
      var n := |attempts| - 1;
      var init := attempts[..n];
      TriesOnce(init, b);
      if exists i :: 0 <= i < |init| && init[i].cast == b {
        var i :| 0 <= i < |init| && init[i].cast == b;
        assert attempts[i].cast == b;
      } else {
        forall i | 0 <= i < n ensures attempts[i].cast != b { assert init[i].cast != b; }
      }
    }
  }

  /** When a broadcast ends, it has tried exactly the clients of its environment, each exactly once. */
  lemma BroadcastReachesAll(h: Hub, b: CastId, c: ClientId)
    requires Inv(h) && Enabled(h, End(b)) && c in h.conns
    ensures Tries(h.conns[c].attempts, b) == if c in Members(h, h.casts[b].env) then 1 else 0
  {
    assert h.casts[b].visited == Members(h, h.casts[b].env);
    assert AttemptsInv(h, h.conns[c]);
    assert AttemptedBy(h.conns[c], b) <==> c in h.casts[b].visited;
    hide Inv, Enabled, Members, Tries;
    TriesOnce(h.conns[c].attempts, b);
  }

  /** A client gets at most one copy of a broadcast, with its message and only in its environment. */
  lemma AtMostOneCopy(h: Hub, b: CastId, c: ClientId, i: nat)
    requires Inv(h) && c in h.conns && i < |h.conns[c].attempts| && h.conns[c].attempts[i].cast == b
    ensures Tries(h.conns[c].attempts, b) == 1
    ensures b in h.casts && h.casts[b].env == h.conns[c].env && h.conns[c].attempts[i].message == h.casts[b].message
  {
    assert AttemptsInv(h, h.conns[c]);
    hide Inv, Tries;
    TriesOnce(h.conns[c].attempts, b);
  }

  /** A send drops its message exactly when 64 messages wait. */
  lemma DroppedOnlyWhenFull(h: Hub, s: Step)
    requires Inv(h) && Enabled(h, s) && s.Send?
    ensures var k := h.conns[s.to]; var o := Next(h, s).conns[s.to];
            Accepted(o.attempts) == Accepted(k.attempts) + if |k.buffer| == 64 then [] else [h.casts[s.b].message]
  {
    InvParts(h);
    SendHasEffect(h, s);
    var k := h.conns[s.to];
    var m := h.casts[s.b].message;
    assert Conserved(k);
    hide Inv, Enabled, Next, MembershipInv, ClosedInv, AttemptInv, DeliveryInv;
    OfferedAttempts(k, s.b, m);
    var o := Offered(k, s.b, m);
    assert o.attempts[..|o.attempts| - 1] == k.attempts;
  }

  // ---- Progress ----

  /** The clients a broadcast still has to try. */
  function Remaining(h: Hub, b: CastId): nat
    requires b in h.casts
  {
    |Members(h, h.casts[b].env) - h.casts[b].visited|
  }

  /** The next step of a broadcast that holds the lock. */
  ghost function CastMove(h: Hub, b: CastId): Step
    requires Reading(h, b)
  {
    var left := Members(h, h.casts[b].env) - h.casts[b].visited;
    if left == {} then End(b) else var c :| c in left; Send(b, c)
  }

  /** A broadcast that holds the lock can always step. */
  lemma BroadcastCanStep(h: Hub, b: CastId)
    requires Inv(h) && Reading(h, b)
    ensures Enabled(h, CastMove(h, b))
  {
    var left := Members(h, h.casts[b].env) - h.casts[b].visited;
    if left == {} {
      forall c | c in Members(h, h.casts[b].env) ensures c in h.casts[b].visited { assert c !in left; }
    } else {
      var c := CastMove(h, b).to;
      assert c in Members(h, h.casts[b].env);
    }
  }

  /** Its own sends bring it one client closer to its end; no other step sets it back. */
  lemma BroadcastProgress(h: Hub, s: Step, b: CastId)
    requires Inv(h) && Enabled(h, s) && Reading(h, b)
    ensures b in Next(h, s).casts
    ensures Next(h, s).casts[b].finished <==> s == End(b)
    ensures Remaining(Next(h, s), b) == Remaining(h, b) - if s.Send? && s.b == b then 1 else 0
  {
    assert b in h.casts;
    hide *;
    CastStep(h, s, b);
    FrozenWhileRead(h, s, b);
    if s.Send? {
      SendIsOfMember(h, s);
    }
    RemainingAfter(h, Next(h, s), s, b);
  }

  lemma RemainingAfter(h: Hub, g: Hub, s: Step, b: CastId)
    requires Reading(h, b) && b in g.casts && g.clients == h.clients && g.casts[b] == CastAfter(h.casts[b], s, b)
    requires s.Send? && s.b == b ==> s.to in Members(h, h.casts[s.b].env) - h.casts[s.b].visited
    ensures Remaining(g, b) == Remaining(h, b) - if s.Send? && s.b == b then 1 else 0
    ensures g.casts[b].finished <==> s == End(b)
  {
    var all := Members(h, h.casts[b].env);
    if s.Send? && s.b == b {
      assert all - (h.casts[b].visited + {s.to}) == (all - h.casts[b].visited) - {s.to};
    }
  }

  ghost predicate Follows(h: Hub, steps: seq<Step>, g: Hub)
    decreases steps
  {
    if steps == [] then g == h else Enabled(h, steps[0]) && Follows(Next(h, steps[0]), steps[1..], g)
  }

  /** Left to itself, a broadcast ends after one step for each client still to try and one to release the lock. */
  lemma {:induction false} BroadcastFinishes(h: Hub, b: CastId) returns (steps: seq<Step>, g: Hub)
    requires Inv(h) && Reading(h, b)
    ensures |steps| == Remaining(h, b) + 1 && Follows(h, steps, g)
    ensures forall i :: 0 <= i < |steps| ==> (steps[i].Send? || steps[i].End?) && steps[i].b == b
    ensures b in g.casts && g.casts[b].finished
    decreases Remaining(h, b)
  {
    hide Inv, Enabled, Next, Members;
    var s := CastMove(h, b);
    BroadcastCanStep(h, b);
    BroadcastProgress(h, s, b);
    StepKeepsInv(h, s);
    var next := Next(h, s);
    if s.End? {
      steps, g := [s], next;
      assert Follows(next, steps[1..], g);
    } else {
      var rest;
      rest, g := BroadcastFinishes(next, b);
      steps := [s] + rest;
      assert steps[1..] == rest;
    }
  }

  /** Steps left before a critical section is over. */
  function StepsToUnlock(p: Phase): nat {
    match p
    case RegLocked => 3
    case RegReady => 2
    case RegInserted => 1
    case UnregLocked => 4
    case UnregDeleted => 3
    case UnregPruned => 2
    case UnregClosed => 1
    case _ => 0
  }

  function WriterMove(c: ClientId, p: Phase): Step
    requires Critical(p)
  {
    match p
    case RegLocked => MakeSet(c)
    case RegReady => Insert(c)
    case RegInserted => UnlockReg(c)
    case UnregLocked => DeleteEntry(c)
    case UnregDeleted => Prune(c)
    case UnregPruned => CloseSend(c)
    case _ => UnlockUnreg(c)
  }

  lemma WriterMoveAdvances(c: ClientId, p: Phase)
    requires Critical(p)
    ensures var s := WriterMove(c, p);
            ServeStep(s) && s.c == c && !s.Accept? && !LockingStep(s)
            && StepsToUnlock(PhaseAfter(s)) == StepsToUnlock(p) - 1
            && (StepsToUnlock(p) == 1 <==> s.UnlockReg? || s.UnlockUnreg?)
  {
  }

  /** The holder of the write lock can always step, and is at most four steps from releasing it. */
  lemma WriterProgress(h: Hub)
    requires Inv(h) && h.writer.Some?
    ensures h.writer.value in h.conns && Critical(h.conns[h.writer.value].phase)
    ensures Enabled(h, WriterMove(h.writer.value, h.conns[h.writer.value].phase))
    ensures var c := h.writer.value;
            var g := Next(h, WriterMove(c, h.conns[c].phase));
            c in g.conns && StepsToUnlock(g.conns[c].phase) == StepsToUnlock(h.conns[c].phase) - 1
            && (StepsToUnlock(h.conns[c].phase) == 1 <==> g.writer == None)
  {
    InvParts(h);
    var c := h.writer.value;
    var p := h.conns[c].phase;
    var s := WriterMove(c, p);
    WriterMoveAdvances(c, p);
    ServeHasEffect(h, s);
  }

  lemma UnlockIsNear(p: Phase)
    ensures StepsToUnlock(p) <= 4 && (StepsToUnlock(p) > 0 <==> Critical(p))
  {
  }

  /** Left to itself, the call that holds the write lock releases it after at most four steps. */
  lemma {:induction false} WriterFinishes(h: Hub) returns (steps: seq<Step>, g: Hub)
    requires Inv(h) && h.writer.Some?
    ensures h.writer.value in h.conns && |steps| == StepsToUnlock(h.conns[h.writer.value].phase) <= 4
    ensures Follows(h, steps, g) && g.writer == None
    ensures forall i :: 0 <= i < |steps| ==> ServeStep(steps[i]) && steps[i].c == h.writer.value
    decreases StepsToUnlock(h.conns[h.writer.value].phase)
  {
    hide Inv, Enabled, Next, ServeStep, Critical, StepsToUnlock, WriterMove;
    WriterProgress(h);
    var c := h.writer.value;
    var p := h.conns[c].phase;
    UnlockIsNear(p);
    var s := WriterMove(c, p);
    WriterMoveAdvances(c, p);
    StepKeepsInv(h, s);
    var next := Next(h, s);
    if next.writer == None {
      steps, g := [s], next;
      assert Follows(next, steps[1..], g);
    } else {
      SameHolder(h, s);
      var rest;
      rest, g := WriterFinishes(next);
      steps := [s] + rest;
      assert steps[1..] == rest;
    }
  }

  lemma SameHolder(h: Hub, s: Step)
    requires Inv(h) && Enabled(h, s) && ServeStep(s) && !s.Accept? && !LockingStep(s)
    ensures Next(h, s).writer == None || Next(h, s).writer == Some(s.c)
  {
    ServeHasEffect(h, s);
  }

  /** The lock is never stuck: if it is not free, the one who holds it can step. */
  lemma NoDeadlock(h: Hub)
    requires Inv(h)
    ensures CanLock(h) || (exists s :: Enabled(h, s) && !s.Accept?)
  {
    hide Inv, Enabled, Next;
    if h.writer.Some? {
      WriterProgress(h);
      var s := WriterMove(h.writer.value, h.conns[h.writer.value].phase);
      assert Enabled(h, s) && !s.Accept?;
    } else if !NoReaders(h) {
      var b :| b in h.casts && !h.casts[b].finished;
      assert Reading(h, b);
      BroadcastCanStep(h, b);
      var s := CastMove(h, b);
      assert Enabled(h, s) && !s.Accept?;
    }
  }
}
