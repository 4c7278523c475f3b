/** The expiring rotation lock, deleted without asking whose it is; time is counted in seconds. */
module RotationLock {
  type SecretId = nat
  type RunId = nat

  const TTL: nat := 30

  /** The key in the cache. It stores no owner; the run that set it is kept here to state the property. */
  datatype Key = Key(setBy: RunId, since: nat)

  datatype Phase = Inside(secret: SecretId, since: nat) | Over

  datatype State = State(now: nat, keys: map<SecretId, Key>, runs: map<RunId, Phase>, foreignDelete: bool)

  /** What becomes of a request to the cache: it may also be carried out and the answer lost. */
  datatype Call = Answered | AnswerLost | NotCarriedOut

  datatype Step =
    | Tick
    | Start(r: RunId, secret: SecretId, setNX: Call)
    | Leave(r: RunId, del: Call)
    | Crash(r: RunId)

  function Initial(): State {
    State(0, map[], map[], false)
  }

  /** The key is there until more than 30 seconds have passed. */
  predicate Held(s: State, secret: SecretId) {
    secret in s.keys && s.now <= s.keys[secret].since + TTL
  }

  predicate IsInside(s: State, r: RunId) {
    r in s.runs && s.runs[r].Inside?
  }

  /** Time passes only while every run is within bound seconds of taking its lock. */
  predicate Enabled(bound: nat, s: State, step: Step) {
    match step
    case Tick => forall r :: r in s.runs && s.runs[r].Inside? ==> s.now + 1 <= s.runs[r].since + bound
    case Start(r, _, _) => r !in s.runs
    case Leave(r, _) => IsInside(s, r)
    case Crash(r) => IsInside(s, r)
  }

  function Next(s: State, step: Step): State
    requires step.Leave? || step.Crash? ==> IsInside(s, step.r)
  {
    match step
    case Tick => s.(now := s.now + 1)
    case Start(r, secret, setNX) =>
      if Held(s, secret) || setNX == NotCarriedOut then s.(runs := s.runs[r := Over])
      else
        s.(keys := s.keys[secret := Key(r, s.now)],
           runs := s.runs[r := if setNX == Answered then Inside(secret, s.now) else Over])
    case Leave(r, del) =>
      var secret := s.runs[r].secret;
      var left := s.(runs := s.runs[r := Over]);
      if del == NotCarriedOut || !Held(s, secret) then left
      else left.(keys := s.keys - {secret}, foreignDelete := s.foreignDelete || s.keys[secret].setBy != r)
    case Crash(r) => s.(runs := s.runs[r := Over])
  }

  ghost predicate CanFollow(bound: nat, a: State, b: State) {
    exists step :: Enabled(bound, a, step) && b == Next(a, step)
  }

  ghost predicate IsRun(bound: nat, run: seq<State>) {
    && run != [] && run[0] == Initial()
    && forall i :: 0 <= i < |run| - 1 ==> CanFollow(bound, run[i], run[i + 1])
  }

  /** No two runs for one secret are inside at once, and no run has deleted another's key. */
  ghost predicate Safe(s: State) {
    && !s.foreignDelete
    && forall q, r :: IsInside(s, q) && IsInside(s, r) && q != r ==> s.runs[q].secret != s.runs[r].secret
  }

  /** A run inside holds the key it set, and the key has not expired. */
  ghost predicate Inv(bound: nat, s: State) {
    && !s.foreignDelete
    && forall r :: IsInside(s, r) ==>
         var p := s.runs[r];
         p.secret in s.keys && s.keys[p.secret] == Key(r, p.since) && s.now <= p.since + bound
  }

  lemma StepKeepsInv(bound: nat, s: State, step: Step)
    requires bound <= TTL && Inv(bound, s) && Enabled(bound, s, step)
    ensures Inv(bound, Next(s, step))
  {
    var t := Next(s, step);
    if step.Leave? {
      var secret := s.runs[step.r].secret;
      assert s.keys[secret].setBy == step.r;
      forall r | IsInside(t, r) ensures s.runs[r].secret != secret {
        assert IsInside(s, r);
      }
    }
    if step.Start? {
      forall r | IsInside(t, r) && r != step.r ensures IsInside(s, r) && Held(s, s.runs[r].secret) {
        assert IsInside(s, r);
      }
    }
    forall r | IsInside(t, r) && r in s.runs ensures IsInside(s, r) {
    }
  }

  /** Runs that leave within 30 seconds of taking the lock keep each other out and delete only their own keys. */
  lemma {:induction false} ShortRunsAreSafe(bound: nat, run: seq<State>, i: nat)
    requires bound <= TTL && IsRun(bound, run) && i < |run|
    ensures Inv(bound, run[i]) && Safe(run[i])
  {
    if i == 0 {
    } else {
      ShortRunsAreSafe(bound, run, i - 1);
      assert CanFollow(bound, run[i - 1], run[i]);
      var step :| Enabled(bound, run[i - 1], step) && run[i] == Next(run[i - 1], step);
      StepKeepsInv(bound, run[i - 1], step);
    }
  }

  // ---- The bound cannot be relaxed ----

  /** One run takes the lock, 31 seconds pass, another takes it too, and the first one's delete hits it. */
  function Clock(n: nat): State {
    State(n, map[0 := Key(0, 0)], map[0 := Inside(0, 0)], false)
  }

  function Waiting(n: nat): (run: seq<State>)
    ensures |run| == n + 2 && run[0] == Initial() && forall i :: 0 <= i <= n ==> run[i + 1] == Clock(i)
  {
    if n == 0 then [Initial(), Clock(0)] else Waiting(n - 1) + [Clock(n)]
  }

  function Overlap(): State {
    State(31, map[0 := Key(1, 31)], map[0 := Inside(0, 0), 1 := Inside(0, 31)], false)
  }

  function Deleted(): State {
    State(31, map[], map[0 := Over, 1 := Inside(0, 31)], true)
  }

  lemma LongRunsCollide(bound: nat) returns (run: seq<State>)
    requires bound > TTL
    ensures IsRun(bound, run) && |run| == 35
    ensures IsInside(run[33], 0) && IsInside(run[33], 1) && run[33].runs[0].secret == run[33].runs[1].secret == 0
    ensures run[34].foreignDelete
  {
    run := Waiting(31) + [Overlap(), Deleted()];
    forall i | 0 <= i < |run| - 1 ensures CanFollow(bound, run[i], run[i + 1]) {
      if i == 0 {
        var step := Start(0, 0, Answered);
        assert Next(run[0], step).keys == Clock(0).keys && Next(run[0], step).runs == Clock(0).runs;
        assert Enabled(bound, run[0], step) && run[1] == Next(run[0], step);
      } else if i < 32 {
        assert run[i] == Clock(i - 1) && run[i + 1] == Clock(i);
        assert Enabled(bound, run[i], Tick) && run[i + 1] == Next(run[i], Tick);
      } else if i == 32 {
        var step := Start(1, 0, Answered);
        assert run[32] == Clock(31);
        assert Enabled(bound, run[32], step) && run[33] == Next(run[32], step);
      } else {
        var step := Leave(0, Answered);
        assert run[33] == Overlap() && run[34] == Deleted();
        assert Enabled(bound, run[33], step);
        assert Next(run[33], step).keys == map[];
        assert run[34] == Next(run[33], step);
      }
    }
  }

  /** The lock works for runs of at most bound seconds exactly when the bound is at most the key's 30 seconds. */
  lemma SafeIffWithinTtl(bound: nat)
    ensures (forall run, i :: IsRun(bound, run) && 0 <= i < |run| ==> Safe(run[i])) <==> bound <= TTL
  {
    if bound <= TTL {
      forall run, i | IsRun(bound, run) && 0 <= i < |run| ensures Safe(run[i]) {
        ShortRunsAreSafe(bound, run, i);
      }
    } else {
      var run := LongRunsCollide(bound);
      assert !Safe(run[34]);
    }
  }

  /** Keys are set in the past, by runs that have started. */
  predicate KeysFit(s: State) {
    forall secret :: secret in s.keys ==> s.keys[secret].setBy in s.runs && s.keys[secret].since <= s.now
  }

  /** The keys of runs that had started by a state were set by then. */
  predicate OldKeysAreOld(a: State, b: State) {
    && KeysFit(b) && a.now <= b.now && a.runs.Keys <= b.runs.Keys
    && forall secret :: secret in b.keys && b.keys[secret].setBy in a.runs ==> b.keys[secret].since <= a.now
  }

  lemma {:induction false} KeysFitAlong(bound: nat, run: seq<State>, i: nat)
    requires IsRun(bound, run) && i < |run|
    ensures KeysFit(run[i])
  {
    if i == 0 {
    } else {
      KeysFitAlong(bound, run, i - 1);
      assert CanFollow(bound, run[i - 1], run[i]);
    }
  }

  lemma {:induction false} OldKeysAlong(bound: nat, run: seq<State>, i: nat, j: nat)
    requires IsRun(bound, run) && i <= j < |run|
    ensures OldKeysAreOld(run[i], run[j])
    decreases j
  {
    if i == j {
      KeysFitAlong(bound, run, i);
    } else {
      OldKeysAlong(bound, run, i, j - 1);
      assert CanFollow(bound, run[j - 1], run[j]);
      var step :| Enabled(bound, run[j - 1], step) && run[j] == Next(run[j - 1], step);
    }
  }

  /** Whatever the runs started by a state leave behind - a crash, a lost answer, a delete that never arrived - they
      block no secret more than 30 seconds after it, in any run and for runs of any length: a new run then gets in
      unless a younger one holds the key. */
  lemma KeyNeverSticks(bound: nat, run: seq<State>, i: nat, j: nat, secret: SecretId, r: RunId)
    requires IsRun(bound, run) && i <= j < |run| && run[j].now > run[i].now + 30 && r !in run[j].runs
    ensures Enabled(bound, run[j], Start(r, secret, Answered))
    ensures IsInside(Next(run[j], Start(r, secret, Answered)), r)
         || (secret in run[j].keys && run[j].keys[secret].setBy in run[j].runs
            && run[j].keys[secret].setBy !in run[i].runs)
  {
    OldKeysAlong(bound, run, i, j);
  }

  /** A run leaves for good, and until then it is in for the same secret. */
  lemma {:induction false} PhaseKept(bound: nat, run: seq<State>, r: RunId, i: nat, j: nat)
    requires IsRun(bound, run) && i <= j < |run| && r in run[i].runs
    ensures r in run[j].runs && (run[j].runs[r] == run[i].runs[r] || run[j].runs[r].Over?)
    decreases j
  {
    if i == j {
    } else {
      PhaseKept(bound, run, r, i, j - 1);
      assert CanFollow(bound, run[j - 1], run[j]);
    }
  }

  /** A run that leaves in time takes its key away, unless the delete is not carried out, and the next run gets in; the
      keys of other secrets stay. */
  lemma LeaveLetsTheNextIn(bound: nat, s: State, r: RunId, del: Call, next: RunId)
    requires bound <= TTL && Inv(bound, s) && IsInside(s, r) && next !in s.runs
    ensures var secret := s.runs[r].secret;
            var t := Next(s, Leave(r, del));
            && !IsInside(t, r)
            && (forall other :: other != secret ==> (Held(t, other) <==> Held(s, other)))
            && (Held(t, secret) <==> del == NotCarriedOut)
            && (del != NotCarriedOut ==> IsInside(Next(t, Start(next, secret, Answered)), next))
  {
  }

  /** A start gets in exactly if the key is free and the cache answers; the key is then set unless the request was not
      carried out, even if the answer is lost. */
  lemma StartTakesTheKey(s: State, r: RunId, secret: SecretId, setNX: Call)
    requires r !in s.runs
    ensures var t := Next(s, Start(r, secret, setNX));
            && (IsInside(t, r) <==> !Held(s, secret) && setNX == Answered)
            && (Held(t, secret) <==> Held(s, secret) || setNX != NotCarriedOut)
  {
  }

  /** A crash leaves the key where it is. */
  lemma CrashKeepsTheKey(s: State, r: RunId)
    requires IsInside(s, r)
    ensures Next(s, Crash(r)).keys == s.keys && !IsInside(Next(s, Crash(r)), r)
  {
  }
}
