/** The WebSocket hub as interleaved steps of any number of ServeWS calls, write pumps and broadcasts.
    The read-write lock, the client map and the send channels are shared; each step is one access. */
module HubProtocol {
  import opened Text

  type EnvId = string
  type ClientId = nat
  type CastId = nat
  type Message = string

  const CAPACITY: nat := 64

  /** Where a ServeWS call stands: before, inside and after register, reading, inside and after unregister. */
  datatype Phase =
    | Fresh
    | RegLocked | RegReady | RegInserted
    | Live
    | UnregLocked | UnregDeleted | UnregPruned | UnregClosed
    | Gone

  predicate Critical(p: Phase) {
    p in {RegLocked, RegReady, RegInserted, UnregLocked, UnregDeleted, UnregPruned, UnregClosed}
  }

  /** The phases in which the client is in the map. */
  predicate Registered(p: Phase) {
    p in {RegInserted, Live, UnregLocked}
  }

  datatype Pump = NotStarted | Waiting | Writing(message: Message) | Stopped(lost: seq<Message>)

  /** One non-blocking send: the broadcast it belongs to and how full the buffer was. */
  datatype Attempt = Attempt(cast: CastId, message: Message, buffered: nat)

  datatype Conn = Conn(env: EnvId, phase: Phase, buffer: seq<Message>, closed: bool,
                       pump: Pump, written: seq<Message>, attempts: seq<Attempt>)

  /** A Broadcast call that holds, or held, the read lock. */
  datatype Cast = Cast(env: EnvId, message: Message, visited: set<ClientId>, finished: bool)

  datatype Fault = SendOnClosed | CloseOfClosed | MapRace | NilSet

  datatype Hub = Hub(writer: Option<ClientId>, clients: map<EnvId, set<ClientId>>,
                     conns: map<ClientId, Conn>, casts: map<CastId, Cast>, fault: Option<Fault>)

  function Initial(): Hub {
    Hub(None, map[], map[], map[], None)
  }

  datatype Step =
    | Accept(c: ClientId, env: EnvId)
    | LockReg(c: ClientId) | MakeSet(c: ClientId) | Insert(c: ClientId) | UnlockReg(c: ClientId)
    | StartPump(c: ClientId)
    | LockUnreg(c: ClientId) | DeleteEntry(c: ClientId) | Prune(c: ClientId) | CloseSend(c: ClientId)
    | UnlockUnreg(c: ClientId)
    | Begin(b: CastId, castEnv: EnvId, message: Message) | Send(b: CastId, to: ClientId) | End(b: CastId)
    | PumpTake(c: ClientId) | PumpWrote(c: ClientId) | PumpFailed(c: ClientId) | PumpPingFailed(c: ClientId)
    | PumpSawClose(c: ClientId)

  function Members(h: Hub, env: EnvId): set<ClientId> {
    if env in h.clients then h.clients[env] else {}
  }

  predicate Reading(h: Hub, b: CastId) {
    b in h.casts && !h.casts[b].finished
  }

  predicate NoReaders(h: Hub) {
    forall b :: b in h.casts ==> h.casts[b].finished
  }

  predicate At(h: Hub, c: ClientId, p: Phase) {
    c in h.conns && h.conns[c].phase == p
  }

  predicate PumpIs(h: Hub, c: ClientId, p: Pump) {
    c in h.conns && h.conns[c].pump == p
  }

  predicate CanLock(h: Hub) {
    h.writer == None && NoReaders(h)
  }

  /** A step of a process that has not crashed. */
  predicate Enabled(h: Hub, s: Step) {
    && h.fault == None
    && match s
       case Accept(c, _) => c !in h.conns
       case LockReg(c) => At(h, c, Fresh) && CanLock(h)
       case MakeSet(c) => At(h, c, RegLocked)
       case Insert(c) => At(h, c, RegReady)
       case UnlockReg(c) => At(h, c, RegInserted)
       case StartPump(c) => At(h, c, Live) && PumpIs(h, c, NotStarted)
       case LockUnreg(c) => At(h, c, Live) && !PumpIs(h, c, NotStarted) && CanLock(h)
       case DeleteEntry(c) => At(h, c, UnregLocked)
       case Prune(c) => At(h, c, UnregDeleted)
       case CloseSend(c) => At(h, c, UnregPruned)
       case UnlockUnreg(c) => At(h, c, UnregClosed)
       case Begin(b, _, _) => b !in h.casts && h.writer == None
       case Send(b, c) => Reading(h, b) && c in Members(h, h.casts[b].env) - h.casts[b].visited && c in h.conns
       case End(b) => Reading(h, b) && Members(h, h.casts[b].env) <= h.casts[b].visited
       case PumpTake(c) => PumpIs(h, c, Waiting) && h.conns[c].buffer != []
       case PumpWrote(c) => c in h.conns && h.conns[c].pump.Writing?
       case PumpFailed(c) => c in h.conns && h.conns[c].pump.Writing?
       case PumpPingFailed(c) => PumpIs(h, c, Waiting)
       case PumpSawClose(c) => PumpIs(h, c, Waiting) && h.conns[c].closed && h.conns[c].buffer == []
  }

  /** Writing the map while it is read or written elsewhere is fatal. */
  predicate Exclusive(h: Hub, c: ClientId) {
    NoReaders(h) && forall d :: d in h.conns && d != c ==> !Critical(h.conns[d].phase)
  }

  function Move(h: Hub, c: ClientId, p: Phase): Hub
    requires c in h.conns
  {
    h.(conns := h.conns[c := h.conns[c].(phase := p)])
  }

  function WriteMap(h: Hub, c: ClientId, p: Phase, clients: map<EnvId, set<ClientId>>): Hub
    requires c in h.conns
  {
    if Exclusive(h, c) then Move(h, c, p).(clients := clients) else h.(fault := Some(MapRace))
  }

  function SetPump(h: Hub, c: ClientId, p: Pump): Hub
    requires c in h.conns
  {
    h.(conns := h.conns[c := h.conns[c].(pump := p)])
  }

  /** A send that never blocks: a full buffer drops the message. */
  function Offered(conn: Conn, b: CastId, m: Message): Conn {
    var sent := conn.(attempts := conn.attempts + [Attempt(b, m, |conn.buffer|)]);
    if |conn.buffer| < CAPACITY then sent.(buffer := conn.buffer + [m]) else sent
  }

  function Next(h: Hub, s: Step): Hub
    requires Enabled(h, s)
  {
    match s
    case Accept(c, env) => h.(conns := h.conns[c := Conn(env, Fresh, [], false, NotStarted, [], [])])
    case LockReg(c) => Move(h, c, RegLocked).(writer := Some(c))
    case MakeSet(c) =>
      var env := h.conns[c].env;
      WriteMap(h, c, RegReady, if env in h.clients then h.clients else h.clients[env := {}])
    case Insert(c) =>
      var env := h.conns[c].env;
      if env !in h.clients then h.(fault := Some(NilSet))
      else WriteMap(h, c, RegInserted, h.clients[env := h.clients[env] + {c}])
    case UnlockReg(c) => Move(h, c, Live).(writer := None)
    case StartPump(c) => SetPump(h, c, Waiting)
    case LockUnreg(c) => Move(h, c, UnregLocked).(writer := Some(c))
    case DeleteEntry(c) =>
      var env := h.conns[c].env;
      WriteMap(h, c, UnregDeleted, if env in h.clients then h.clients[env := h.clients[env] - {c}] else h.clients)
    case Prune(c) =>
      var env := h.conns[c].env;
      WriteMap(h, c, UnregPruned, if env in h.clients && h.clients[env] == {} then h.clients - {env} else h.clients)
    case CloseSend(c) =>
      if h.conns[c].closed then h.(fault := Some(CloseOfClosed))
      else h.(conns := h.conns[c := h.conns[c].(closed := true, phase := UnregClosed)])
    case UnlockUnreg(c) => Move(h, c, Gone).(writer := None)
    case Begin(b, env, m) =>
      if exists c :: c in h.conns && Critical(h.conns[c].phase) then h.(fault := Some(MapRace))
      else h.(casts := h.casts[b := Cast(env, m, {}, false)])
    case Send(b, c) =>
      if h.conns[c].closed then h.(fault := Some(SendOnClosed))
      else
        var k := h.casts[b];
        h.(conns := h.conns[c := Offered(h.conns[c], b, k.message)],
           casts := h.casts[b := k.(visited := k.visited + {c})])
    case End(b) => h.(casts := h.casts[b := h.casts[b].(finished := true)])
    case PumpTake(c) =>
      var k := h.conns[c];
      h.(conns := h.conns[c := k.(pump := Writing(k.buffer[0]), buffer := k.buffer[1..])])
    case PumpWrote(c) =>
      var k := h.conns[c];
      h.(conns := h.conns[c := k.(pump := Waiting, written := k.written + [k.pump.message])])
    case PumpFailed(c) => SetPump(h, c, Stopped([h.conns[c].pump.message]))
    case PumpPingFailed(c) => SetPump(h, c, Stopped([]))
    case PumpSawClose(c) => SetPump(h, c, Stopped([]))
  }

  // ---- The invariant ----

  /** The writer is the one ServeWS call inside a critical section, and no broadcast overlaps it. */
  predicate LockInv(h: Hub) {
    && h.fault == None
    && (forall c :: c in h.conns ==> (Critical(h.conns[c].phase) <==> h.writer == Some(c)))
    && (h.writer.Some? ==> h.writer.value in h.conns && NoReaders(h))
  }

  /** A client is in the map exactly while registered, and only under its own environment. */
  ghost predicate MembershipInv(h: Hub) {
    forall env, c :: c in Members(h, env) <==> c in h.conns && h.conns[c].env == env && Registered(h.conns[c].phase)
  }

  /** An empty set is only ever seen by the one call that is filling or pruning it, and who fills one finds it made. */
  predicate SetsInv(h: Hub) {
    && (forall env :: env in h.clients && h.clients[env] == {} ==>
          h.writer.Some? && h.writer.value in h.conns && h.conns[h.writer.value].env == env
          && h.conns[h.writer.value].phase in {RegReady, UnregDeleted})
    && (h.writer.Some? && At(h, h.writer.value, RegReady) ==> h.conns[h.writer.value].env in h.clients)
  }

  /** A channel is closed exactly from the close in unregister on. */
  predicate ClosedInv(h: Hub) {
    forall c :: c in h.conns ==> (h.conns[c].closed <==> h.conns[c].phase in {UnregClosed, Gone})
  }

  predicate AttemptedBy(k: Conn, b: CastId) {
    exists i :: 0 <= i < |k.attempts| && k.attempts[i].cast == b
  }

  /** Each broadcast tries each client at most once, under the broadcast's own environment and with its message. */
  predicate AttemptInv(h: Hub) {
    && (forall c, b :: c in h.conns && b in h.casts ==> (AttemptedBy(h.conns[c], b) <==> c in h.casts[b].visited))
    && (forall c :: c in h.conns ==> AttemptsInv(h, h.conns[c]))
    && (forall c, b :: b in h.casts && c in h.casts[b].visited ==> c in h.conns)
  }

  predicate AttemptsInv(h: Hub, k: Conn) {
    && (forall i, j :: 0 <= i < j < |k.attempts| ==> k.attempts[i].cast != k.attempts[j].cast)
    && (forall i :: 0 <= i < |k.attempts| ==>
          k.attempts[i].cast in h.casts
          && h.casts[k.attempts[i].cast].env == k.env && h.casts[k.attempts[i].cast].message == k.attempts[i].message)
  }

  /** The messages of the attempts that found room. */
  function Accepted(attempts: seq<Attempt>): seq<Message> {
    if attempts == [] then []
    else
      var a := attempts[|attempts| - 1];
      Accepted(attempts[..|attempts| - 1]) + if a.buffered < CAPACITY then [a.message] else []
  }

  function InHand(p: Pump): seq<Message> {
    match p
    case Writing(m) => [m]
    case Stopped(lost) => lost
    case _ => []
  }

  /** Nothing accepted is lost, duplicated or reordered; at most the one message of a failed write never gets out. */
  predicate Conserved(k: Conn) {
    && k.written + InHand(k.pump) + k.buffer == Accepted(k.attempts)
    && |k.buffer| <= CAPACITY
    && |InHand(k.pump)| <= 1
  }

  predicate DeliveryInv(h: Hub) {
    forall c :: c in h.conns ==> Conserved(h.conns[c])
  }

  /** A broadcast in progress has only tried clients that are in the set it iterates. */
  predicate ReaderInv(h: Hub) {
    forall b :: b in h.casts && !h.casts[b].finished ==> h.casts[b].visited <= Members(h, h.casts[b].env)
  }

  ghost predicate Inv(h: Hub) {
    && LockInv(h) && MembershipInv(h) && SetsInv(h) && ClosedInv(h)
    && ReaderInv(h) && AttemptInv(h) && DeliveryInv(h)
  }

  lemma InitialInv()
    ensures Inv(Initial())
  {
  }

  // ---- One step keeps it: what a step leaves alone ----

  predicate KeepsConns(h: Hub, g: Hub) {
    g.conns.Keys == h.conns.Keys && forall c :: c in h.conns ==> g.conns[c].env == h.conns[c].env
  }

  predicate KeepsPhases(h: Hub, g: Hub) {
    && KeepsConns(h, g) && g.clients == h.clients && g.writer == h.writer && g.fault == h.fault
    && forall c :: c in h.conns ==> g.conns[c].phase == h.conns[c].phase && g.conns[c].closed == h.conns[c].closed
  }

  /** The steps of pumps and broadcasts. */
  predicate Quiet(s: Step) {
    s.StartPump? || s.Begin? || s.Send? || s.End? || PumpStep(s)
  }

  predicate PumpStep(s: Step) {
    s.PumpTake? || s.PumpWrote? || s.PumpFailed? || s.PumpPingFailed? || s.PumpSawClose?
  }

  lemma ExclusiveHolds(h: Hub, c: ClientId)
    requires LockInv(h) && c in h.conns && Critical(h.conns[c].phase)
    ensures Exclusive(h, c)
  {
  }

  /** A broadcast only meets open channels: its clients are registered. */
  lemma SendMeetsOpenChannel(h: Hub, b: CastId, c: ClientId)
    requires MembershipInv(h) && ClosedInv(h) && Enabled(h, Send(b, c))
    ensures !h.conns[c].closed
  {
    assert c in Members(h, h.casts[b].env);
  }

  lemma PumpKeepsPhases(h: Hub, s: Step)
    requires Enabled(h, s) && (PumpStep(s) || s.StartPump?)
    ensures KeepsPhases(h, Next(h, s)) && Next(h, s).casts == h.casts
  {
    hide Critical, Members, NoReaders, CanLock, Exclusive;
    if s.PumpTake? {
    } else if s.PumpWrote? {
    } else if s.PumpFailed? {
    } else if s.PumpPingFailed? || s.PumpSawClose? {
    } else {
    }
  }

  lemma CastKeepsPhases(h: Hub, s: Step)
    requires Enabled(h, s) && (s.Begin? || s.Send? || s.End?)
    requires s.Send? ==> !h.conns[s.to].closed
    requires s.Begin? ==> !exists c :: c in h.conns && Critical(h.conns[c].phase)
    ensures KeepsPhases(h, Next(h, s))
    ensures NoReaders(h) ==> s.Begin? && h.writer == None
  {
    hide Critical, Members;
  }

  lemma QuietKeepsPhases(h: Hub, s: Step)
    requires Inv(h) && Enabled(h, s) && Quiet(s)
    ensures KeepsPhases(h, Next(h, s))
    ensures Next(h, s).writer.Some? ==> NoReaders(Next(h, s))
  {
    hide Next, Enabled, MembershipInv, SetsInv, ClosedInv, ReaderInv, AttemptInv, DeliveryInv, KeepsPhases;
    if s.Begin? || s.Send? || s.End? {
      if s.Send? {
        SendMeetsOpenChannel(h, s.b, s.to);
      }
      if s.Begin? {
        BeginFindsNoWriter(h, s);
      }
      CastKeepsPhases(h, s);
    } else {
      PumpKeepsPhases(h, s);
    }
    hide NoReaders;
    assert Next(h, s).writer == h.writer by { PhasesShare(h, Next(h, s)); }
  }

  lemma BeginFindsNoWriter(h: Hub, s: Step)
    requires LockInv(h) && Enabled(h, s) && s.Begin?
    ensures !exists c :: c in h.conns && Critical(h.conns[c].phase)
  {
  }

  lemma PhasesShare(h: Hub, g: Hub)
    requires KeepsPhases(h, g)
    ensures g.writer == h.writer && g.clients == h.clients
  {
  }

  lemma PhasesKeepInv(h: Hub, g: Hub)
    requires LockInv(h) && MembershipInv(h) && SetsInv(h) && ClosedInv(h)
    requires KeepsPhases(h, g)
    requires g.writer.Some? ==> NoReaders(g)
    ensures LockInv(g) && MembershipInv(g) && SetsInv(g) && ClosedInv(g)
  {
    hide Critical, Registered;
    assert forall env :: Members(g, env) == Members(h, env);
    hide Members;
  }

  lemma QuietStep(h: Hub, s: Step)
    requires Inv(h) && Enabled(h, s) && Quiet(s)
    ensures var g := Next(h, s); LockInv(g) && MembershipInv(g) && SetsInv(g) && ClosedInv(g)
  {
    hide *;
    QuietKeepsPhases(h, s);
    InvParts(h);
    PhasesKeepInv(h, Next(h, s));
  }

  lemma InvParts(h: Hub)
    requires Inv(h)
    ensures LockInv(h) && MembershipInv(h) && SetsInv(h) && ClosedInv(h)
    ensures ReaderInv(h) && AttemptInv(h) && DeliveryInv(h)
  {
  }

  /** The steps inside a critical section that touch the map. */
  predicate MapStep(s: Step) {
    s.MakeSet? || s.Insert? || s.DeleteEntry? || s.Prune?
  }

  predicate LockingStep(s: Step) {
    s.LockReg? || s.LockUnreg?
  }

  /** Who a ServeWS step belongs to. */
  predicate ServeStep(s: Step) {
    s.Accept? || LockingStep(s) || MapStep(s) || s.UnlockReg? || s.CloseSend? || s.UnlockUnreg?
  }

  /** What a ServeWS step does to the call it belongs to. */
  function PhaseAfter(s: Step): Phase
    requires ServeStep(s)
  {
    match s
    case Accept(_, _) => Fresh
    case LockReg(_) => RegLocked
    case MakeSet(_) => RegReady
    case Insert(_) => RegInserted
    case UnlockReg(_) => Live
    case LockUnreg(_) => UnregLocked
    case DeleteEntry(_) => UnregDeleted
    case Prune(_) => UnregPruned
    case CloseSend(_) => UnregClosed
    case _ => Gone
  }

  lemma MapStepMoves(h: Hub, s: Step)
    requires Enabled(h, s) && MapStep(s) && Exclusive(h, s.c)
    requires s.Insert? ==> h.conns[s.c].env in h.clients
    ensures Next(h, s).(clients := h.clients) == Move(h, s.c, PhaseAfter(s))
  {
    hide Exclusive, Members, Critical;
  }

  /** Inside its critical section a call meets no fault. */
  lemma ServeStepEffect(h: Hub, s: Step)
    requires Enabled(h, s) && ServeStep(s)
    requires MapStep(s) ==> Exclusive(h, s.c)
    requires s.Insert? ==> h.conns[s.c].env in h.clients
    requires s.CloseSend? ==> !h.conns[s.c].closed
    ensures var g := Next(h, s);
            && g.conns.Keys == h.conns.Keys + {s.c} && g.casts == h.casts && g.fault == None
            && g.conns[s.c].phase == PhaseAfter(s)
            && (forall d :: d in h.conns && d != s.c ==> g.conns[d] == h.conns[d])
    ensures var g := Next(h, s); var k := g.conns[s.c];
            if s.Accept? then k == Conn(s.env, Fresh, [], false, NotStarted, [], [])
            else k == h.conns[s.c].(phase := PhaseAfter(s), closed := h.conns[s.c].closed || s.CloseSend?)
    ensures var g := Next(h, s);
            g.writer == if LockingStep(s) then Some(s.c) else if s.UnlockReg? || s.UnlockUnreg? then None else h.writer
    ensures !MapStep(s) ==> Next(h, s).clients == h.clients
  {
    hide Exclusive, CanLock, Members, Critical, WriteMap;
    if s.Accept? {
    } else if MapStep(s) {
      MapStepMoves(h, s);
    } else {
    }
  }

  /** The facts that make a ServeWS step safe. */
  lemma ServeStepIsSafe(h: Hub, s: Step)
    requires Inv(h) && Enabled(h, s) && ServeStep(s)
    ensures MapStep(s) ==> Exclusive(h, s.c)
    ensures s.Insert? ==> h.conns[s.c].env in h.clients
    ensures s.CloseSend? ==> !h.conns[s.c].closed
    ensures LockingStep(s) ==> h.writer == None && NoReaders(h)
    ensures !s.Accept? && !LockingStep(s) ==> h.writer == Some(s.c) && NoReaders(h)
    ensures s.Accept? ==> s.c !in h.conns
  {
    hide Inv, MembershipInv, ReaderInv, AttemptInv, DeliveryInv, Members;
    InvParts(h);
    if MapStep(s) {
      ExclusiveHolds(h, s.c);
    }
  }

  lemma NextIsCritical(s: Step)
    requires ServeStep(s)
    ensures Critical(PhaseAfter(s)) <==> !s.Accept? && !s.UnlockReg? && !s.UnlockUnreg?
    ensures Registered(PhaseAfter(s)) <==> s.Insert? || s.UnlockReg? || s.LockUnreg?
    ensures PhaseAfter(s) in {UnregClosed, Gone} <==> s.CloseSend? || s.UnlockUnreg?
    ensures PhaseAfter(s) in {RegReady, UnregDeleted} <==> s.MakeSet? || s.DeleteEntry?
  {
  }

  lemma PhaseBefore(h: Hub, s: Step)
    requires Enabled(h, s) && ServeStep(s)
    ensures !s.Accept? ==> s.c in h.conns
    ensures s.Accept? ==> s.c !in h.conns
    ensures !s.Accept? ==> (h.conns[s.c].phase in {UnregClosed, Gone} <==> s.UnlockUnreg?)
    ensures !s.Accept? ==> (Registered(h.conns[s.c].phase) <==> s.UnlockReg? || s.LockUnreg? || s.DeleteEntry?)
    ensures !s.Accept? ==> (h.conns[s.c].phase in {RegReady, UnregDeleted} <==> s.Insert? || s.Prune?)
  {
  }

  /** Everyone but the acting call keeps its state. */
  predicate OthersSame(h: Hub, g: Hub, c: ClientId) {
    g.conns.Keys == h.conns.Keys + {c} && forall d :: d in h.conns && d != c ==> g.conns[d] == h.conns[d]
  }

  /** The lock and the acting call after a ServeWS step. */
  predicate ServeEffect(h: Hub, g: Hub, s: Step)
    requires ServeStep(s)
  {
    && OthersSame(h, g, s.c) && g.casts == h.casts && g.fault == None
    && (s.Accept? <==> s.c !in h.conns)
    && g.conns[s.c].phase == PhaseAfter(s)
    && (!s.Accept? ==> g.conns[s.c].env == h.conns[s.c].env)
    && (g.conns[s.c].closed <==> (!s.Accept? && h.conns[s.c].closed) || s.CloseSend?)
    && g.writer == (if LockingStep(s) then Some(s.c) else if s.UnlockReg? || s.UnlockUnreg? then None else h.writer)
    && (if s.Accept? then true
        else if LockingStep(s) then h.writer == None && NoReaders(h)
        else h.writer == Some(s.c) && NoReaders(h))
  }

  lemma ServeHasEffect(h: Hub, s: Step)
    requires Inv(h) && Enabled(h, s) && ServeStep(s)
    ensures ServeEffect(h, Next(h, s), s)
  {
    hide Next, Enabled, Inv, Exclusive, Critical, NoReaders, Registered;
    ServeStepIsSafe(h, s);
    ServeStepEffect(h, s);
    PhaseBefore(h, s);
  }

  lemma EffectKeepsLock(h: Hub, g: Hub, s: Step)
    requires ServeStep(s) && LockInv(h) && ServeEffect(h, g, s)
    ensures LockInv(g)
  {
    NextIsCritical(s);
    assert NoReaders(g) == NoReaders(h);
    hide Critical, PhaseAfter, NoReaders;
    forall d | d in g.conns ensures Critical(g.conns[d].phase) <==> g.writer == Some(d) {
      if d != s.c {
        assert g.conns[d] == h.conns[d];
      }
    }
  }

  lemma EffectKeepsClosed(h: Hub, g: Hub, s: Step)
    requires ServeStep(s) && ClosedInv(h) && ServeEffect(h, g, s)
    requires !s.Accept? ==> (h.conns[s.c].phase in {UnregClosed, Gone} <==> s.UnlockUnreg?)
    ensures ClosedInv(g)
  {
    NextIsCritical(s);
    hide PhaseAfter, NoReaders;
    forall d | d in g.conns ensures g.conns[d].closed <==> g.conns[d].phase in {UnregClosed, Gone} {
      if d != s.c {
        assert g.conns[d] == h.conns[d];
      }
    }
  }

  /** What the map steps do to the members of each environment. */
  lemma MapStepMembers(h: Hub, s: Step, env: EnvId)
    requires Enabled(h, s) && MapStep(s) && Exclusive(h, s.c)
    requires s.Insert? ==> h.conns[s.c].env in h.clients
    ensures var own := h.conns[s.c].env;
            Members(Next(h, s), env) ==
            if env == own && s.Insert? then Members(h, env) + {s.c}
            else if env == own && s.DeleteEntry? then Members(h, env) - {s.c}
            else Members(h, env)
  {
    hide Exclusive, Critical;
  }

  ghost predicate MembersEffect(h: Hub, g: Hub, s: Step)
    requires ServeStep(s) && (s.Accept? <==> s.c !in h.conns)
  {
    forall env ::
      Members(g, env) ==
      if s.Insert? && env == h.conns[s.c].env then Members(h, env) + {s.c}
      else if s.DeleteEntry? && env == h.conns[s.c].env then Members(h, env) - {s.c}
      else Members(h, env)
  }

  lemma ServeHasMembersEffect(h: Hub, s: Step)
    requires Inv(h) && Enabled(h, s) && ServeStep(s)
    ensures (s.Accept? <==> s.c !in h.conns) && MembersEffect(h, Next(h, s), s)
  {
    hide Next, Enabled, Inv, Exclusive, Critical, NoReaders, Registered;
    ServeStepIsSafe(h, s);
    ServeStepEffect(h, s);
    PhaseBefore(h, s);
    if MapStep(s) {
      forall env { MapStepMembers(h, s, env); }
    } else {
      assert forall env :: Members(Next(h, s), env) == Members(h, env);
    }
  }

  lemma EffectKeepsMembership(h: Hub, g: Hub, s: Step)
    requires ServeStep(s) && MembershipInv(h) && ServeEffect(h, g, s) && MembersEffect(h, g, s)
    requires !s.Accept? ==> (Registered(h.conns[s.c].phase) <==> s.UnlockReg? || s.LockUnreg? || s.DeleteEntry?)
    ensures MembershipInv(g)
  {
    NextIsCritical(s);
    hide PhaseAfter, NoReaders, Registered, Members;
    forall env, d
      ensures d in Members(g, env) <==> d in g.conns && g.conns[d].env == env && Registered(g.conns[d].phase)
    {
      assert d in Members(h, env) <==> d in h.conns && h.conns[d].env == env && Registered(h.conns[d].phase);
      if d != s.c && d in h.conns {
        assert g.conns[d] == h.conns[d];
      }
    }
  }

  lemma MapStepSets(h: Hub, s: Step, env: EnvId)
    requires Enabled(h, s) && MapStep(s) && Exclusive(h, s.c)
    requires s.Insert? ==> h.conns[s.c].env in h.clients
    requires env in Next(h, s).clients && Next(h, s).clients[env] == {}
    ensures (env in h.clients && h.clients[env] == {} && env != h.conns[s.c].env)
         || ((s.MakeSet? || s.DeleteEntry?) && env == h.conns[s.c].env)
  {
    hide Exclusive, Critical;
  }

  ghost predicate EmptySetEffect(h: Hub, g: Hub, s: Step)
    requires ServeStep(s) && (s.Accept? <==> s.c !in h.conns)
  {
    forall env :: env in g.clients && g.clients[env] == {} ==>
      || (env in h.clients && h.clients[env] == {} && (MapStep(s) ==> env != h.conns[s.c].env))
      || ((s.MakeSet? || s.DeleteEntry?) && env == h.conns[s.c].env)
  }

  lemma ServeHasEmptySetEffect(h: Hub, s: Step)
    requires Inv(h) && Enabled(h, s) && ServeStep(s)
    ensures (s.Accept? <==> s.c !in h.conns) && EmptySetEffect(h, Next(h, s), s)
  {
    ServeStepIsSafe(h, s);
    ServeStepEffect(h, s);
    PhaseBefore(h, s);
    var g := Next(h, s);
    forall env | MapStep(s) && env in g.clients && g.clients[env] == {} { MapStepSets(h, s, env); }
    hide Next, Enabled, Inv, Exclusive, Critical, NoReaders, Registered;
  }

  lemma EffectKeepsSets(h: Hub, g: Hub, s: Step)
    requires ServeStep(s) && SetsInv(h) && ServeEffect(h, g, s) && EmptySetEffect(h, g, s)
    requires !s.Accept? ==> (h.conns[s.c].phase in {RegReady, UnregDeleted} <==> s.Insert? || s.Prune?)
    requires g.writer.Some? && At(g, g.writer.value, RegReady) ==> g.conns[g.writer.value].env in g.clients
    ensures SetsInv(g)
  {
    hide PhaseAfter, NoReaders;
    NextIsCritical(s);
    forall env | env in g.clients && g.clients[env] == {}
      ensures g.writer.Some? && g.writer.value in g.conns && g.conns[g.writer.value].env == env
      ensures g.conns[g.writer.value].phase in {RegReady, UnregDeleted}
    {
    }
  }

  lemma MadeSet(h: Hub, s: Step)
    requires Enabled(h, s)
    requires s.Accept? || (s.MakeSet? && Exclusive(h, s.c))
    ensures s.Accept? ==> Next(h, s).clients == h.clients
    ensures s.MakeSet? ==> h.conns[s.c].env in Next(h, s).clients
  {
    hide Exclusive;
  }

  /** The set that a call is about to fill is there. */
  lemma ServeMakesSet(h: Hub, s: Step)
    requires Inv(h) && Enabled(h, s) && ServeStep(s)
    ensures var g := Next(h, s);
            g.writer.Some? && At(g, g.writer.value, RegReady) ==> g.conns[g.writer.value].env in g.clients
  {
    hide Next, Enabled, Inv, MembershipInv, ReaderInv, AttemptInv, DeliveryInv, ClosedInv;
    hide Critical, Exclusive, NoReaders;
    InvParts(h);
    ServeStepIsSafe(h, s);
    ServeHasEffect(h, s);
    if s.Accept? || s.MakeSet? {
      MadeSet(h, s);
    }
  }

  lemma ServeKeepsInv(h: Hub, s: Step)
    requires Inv(h) && Enabled(h, s) && ServeStep(s)
    ensures var g := Next(h, s); LockInv(g) && MembershipInv(g) && SetsInv(g) && ClosedInv(g)
  {
    hide Next, Enabled, Inv, LockInv, MembershipInv, ClosedInv, SetsInv;
    var g := Next(h, s);
    InvParts(h);
    PhaseBefore(h, s);
    ServeHasEffect(h, s);
    ServeHasMembersEffect(h, s);
    ServeHasEmptySetEffect(h, s);
    ServeMakesSet(h, s);
    EffectKeepsLock(h, g, s);
    EffectKeepsSets(h, g, s);
    EffectKeepsClosed(h, g, s);
    EffectKeepsMembership(h, g, s);
  }
}
