/** Rotations under their lock: each reads and commits its transaction while its run is inside. */
module LockedRotations {
  import opened SecretStore
  import opened EditRuns
  import opened EditTraces
  import opened EditHistory
  import opened EditScenarios
  import Lock = RotationLock

  /** The run of the worker that a transaction belongs to, and the secret it rotates. */
  datatype Rotation = Rotation(run: Lock.RunId, secret: SecretId)

  predicate IsInsideFor(s: Lock.State, rotation: Rotation) {
    Lock.IsInside(s, rotation.run) && s.runs[rotation.run].secret == rotation.secret
  }

  /** A step of a rotation happens while the lock lets its run be inside. */
  predicate InTime(s: Lock.State, step: Step, owner: map<TxId, Rotation>) {
    && (step.Select? && step.t in owner ==> step.id == owner[step.t].secret && IsInsideFor(s, owner[step.t]))
    && (step.Commit? && step.t in owner ==> IsInsideFor(s, owner[step.t]))
  }

  /** Step i of the writers happens at state at[i] of the lock, and a run of the worker has one transaction. */
  predicate Guarded(lock: seq<Lock.State>, at: seq<nat>, owner: map<TxId, Rotation>, steps: seq<Step>) {
    && |at| == |steps|
    && (forall i, j :: 0 <= i <= j < |at| ==> at[i] <= at[j])
    && (forall i :: 0 <= i < |steps| ==> at[i] < |lock| && InTime(lock[at[i]], steps[i], owner))
    && (forall t, u :: t in owner && u in owner && owner[t].run == owner[u].run ==> t == u)
  }

  lemma InsideBetween(bound: nat, lock: seq<Lock.State>, rotation: Rotation, i: nat, k: nat, j: nat)
    requires Lock.IsRun(bound, lock) && i <= k <= j < |lock|
    requires IsInsideFor(lock[i], rotation) && IsInsideFor(lock[j], rotation)
    ensures IsInsideFor(lock[k], rotation)
  {
    hide Lock.IsRun;
    Lock.PhaseKept(bound, lock, rotation.run, i, k);
    Lock.PhaseKept(bound, lock, rotation.run, k, j);
  }

  /** While one rotation of a secret is between its query and its commit, no other is. */
  lemma RotationsExclude(bound: nat, lock: seq<Lock.State>, at: seq<nat>, owner: map<TxId, Rotation>, steps: seq<Step>,
                         id: SecretId, r: nat, c: nat, q: nat, d: nat)
    requires Lock.IsRun(bound, lock) && bound <= Lock.TTL && Guarded(lock, at, owner, steps)
    requires IsTxWindow(steps, id, r, c) && IsTxWindow(steps, id, q, d) && r < q
    requires steps[r].t in owner && steps[q].t in owner && steps[r].t != steps[q].t
    ensures c < q
  {
    hide Lock.IsRun;
    if q < c {
      var here := at[q];
      assert InTime(lock[at[r]], steps[r], owner) && InTime(lock[at[c]], steps[c], owner);
      assert InTime(lock[here], steps[q], owner);
      InsideBetween(bound, lock, owner[steps[r].t], at[r], here, at[c]);
      assert owner[steps[r].t].run != owner[steps[q].t].run;
      Lock.ShortRunsAreSafe(bound, lock, here);
    }
  }

  /** Between a rotation's query and its commit, only a write that takes no lock changes the version: an update request
      or an import. */
  lemma OnlyOthersDisturb(bound: nat, lock: seq<Lock.State>, at: seq<nat>, owner: map<TxId, Rotation>, ws: seq<World>,
                          steps: seq<Step>, id: SecretId, r: nat, k: nat, c: nat)
    requires Lock.IsRun(bound, lock) && bound <= Lock.TTL && Guarded(lock, at, owner, steps)
    requires IsRun(ws, steps) && |ws| == |steps| + 1 && Fresh(ws[0], id)
    requires IsTxWindow(steps, id, r, c) && r < k < c && steps[r].t in owner && VersionChanges(ws, k, id)
    ensures (steps[k].Update? && steps[k].e in ws[k].edits && ws[k].edits[steps[k].e].id == id)
         || (steps[k].Commit? && steps[k].t !in owner && Held(ws[k], steps[k].t, id).Some?)
  {
    hide Lock.IsRun, Guarded, IsRun, WorldOk, Held, NothingHeld, HistoryFits, History, Enabled;
    RunGrows(ws, steps, 0, k, id);
    RunEffect(ws, steps, k, id);
    if steps[k].Commit? && steps[k].t in owner {
      var q := SelectBefore(ws, steps, id, k, steps[k].t);
      NotEndedBefore(ws, steps, k + 1, c);
      RunOnTransaction(ws, steps, k, steps[k].t, id);
      if q < r {
        RotationsExclude(bound, lock, at, owner, steps, id, q, k, r, c);
      } else {
        RotationsExclude(bound, lock, at, owner, steps, id, r, c, q, k);
      }
    }
  }

  /** Rotations under the lock are all that writes the secret, but for deletions. */
  ghost predicate OnlyRotated(bound: nat, lock: seq<Lock.State>, at: seq<nat>, owner: map<TxId, Rotation>,
                              ws: seq<World>, steps: seq<Step>, id: SecretId)
  {
    && Lock.IsRun(bound, lock) && Guarded(lock, at, owner, steps) && IsRun(ws, steps) && Fresh(ws[0], id)
    && forall i :: 0 <= i < |steps| ==>
         !(steps[i].Read? && steps[i].id == id) && (steps[i].Select? && steps[i].id == id ==> steps[i].t in owner)
  }

  predicate EndsFit(ws: seq<World>, id: SecretId) {
    ws != [] && Exists(ws[|ws| - 1].db, id) && HistoryFits(ws[|ws| - 1].db.rows[id], History(ws[|ws| - 1], id))
  }

  lemma {:induction false} NeverOpen(bound: nat, lock: seq<Lock.State>, at: seq<nat>, owner: map<TxId, Rotation>,
                                     ws: seq<World>, steps: seq<Step>, id: SecretId, i: nat)
    requires OnlyRotated(bound, lock, at, owner, ws, steps, id) && i < |ws|
    ensures NothingOpen(ws[i], id)
  {
    hide IsRun, Lock.IsRun, Guarded, WorldOk;
    RunLength(ws, steps);
    if i == 0 {
    } else {
      NeverOpen(bound, lock, at, owner, ws, steps, id, i - 1);
      RunOnRequests(ws, steps, i - 1);
      forall e | e in ws[i].edits ensures !Open(ws[i], e, id) {
        assert !(steps[i - 1].Read? && steps[i - 1].id == id);
        assert e in ws[i - 1].edits ==> !Open(ws[i - 1], e, id);
      }
    }
  }

  /** Then nothing disturbs any of them, whatever happens to other secrets ... */
  lemma RotationsUndisturbed(bound: nat, lock: seq<Lock.State>, at: seq<nat>, owner: map<TxId, Rotation>,
                             ws: seq<World>, steps: seq<Step>, id: SecretId, r: nat, k: nat, c: nat)
    requires OnlyRotated(bound, lock, at, owner, ws, steps, id) && bound <= Lock.TTL && |ws| == |steps| + 1
    requires IsTxWindow(steps, id, r, c) && r < k < c
    ensures !VersionChanges(ws, k, id)
  {
    hide IsRun, Lock.IsRun, Guarded, WorldOk, NothingHeld, Held, HistoryFits, History, VersionChanges;
    if VersionChanges(ws, k, id) {
      OnlyOthersDisturb(bound, lock, at, owner, ws, steps, id, r, k, c);
      NeverOpen(bound, lock, at, owner, ws, steps, id, k);
      RunOnRequests(ws, steps, k);
      if steps[k].Commit? {
        var q := SelectBefore(ws, steps, id, k, steps[k].t);
      }
    }
  }

  /** ... and the history ends complete. */
  lemma RotationsKeepHistory(bound: nat, lock: seq<Lock.State>, at: seq<nat>, owner: map<TxId, Rotation>,
                             ws: seq<World>, steps: seq<Step>, id: SecretId)
    requires OnlyRotated(bound, lock, at, owner, ws, steps, id) && bound <= Lock.TTL
    ensures EndsFit(ws, id)
  {
    hide IsRun, Lock.IsRun, Guarded, Fresh, NothingOpen, HistoryFits, History, VersionChanges, RowChanges;
    RunLength(ws, steps);
    NeverOpen(bound, lock, at, owner, ws, steps, id, |ws| - 1);
    NothingSaved(ws[|ws| - 1], id);
    forall r, k, c | 0 <= r < k < c < |steps| && IsTxWindow(steps, id, r, c) ensures !VersionChanges(ws, k, id) {
      RotationsUndisturbed(bound, lock, at, owner, ws, steps, id, r, k, c);
    }
    CompleteIffUndisturbed(ws, steps, id);
  }

  /** In longer runs two rotations can both read before either commits. */
  lemma LateRotations(bound: nat) returns (lock: seq<Lock.State>, at: seq<nat>, owner: map<TxId, Rotation>,
                                           ws: seq<World>, steps: seq<Step>, id: SecretId)
    requires bound > Lock.TTL
    ensures OnlyRotated(bound, lock, at, owner, ws, steps, id) && !EndsFit(ws, id)
  {
    hide Lock.IsRun, IsRun, WorldOk, HistoryFits, History;
    id, owner, at := 0, map[0 := Rotation(0, 0), 1 := Rotation(1, 0)], [33, 33, 33, 33];
    lock := Lock.LongRunsCollide(bound);
    var db := OneRow();
    var cipher := Cipher("", "");
    ws, steps := TransactionsOverlap(db, id, cipher, cipher);
    RunLength(ws, steps);
    NewIsFresh(db, id);
  }

  lemma OneRow() returns (db: Db)
    ensures DbInv(db) && |db.rows| == 1
  {
    db := Db([NewRow("", "", "", Cipher("", ""))], []);
  }

  lemma NewIsFresh(db: Db, id: SecretId)
    requires DbInv(db) && Exists(db, id)
    ensures Fresh(World(db, map[], map[]), id)
  {
    EmptyWorld(db);
    hide WorldOk;
  }

  /** The lock keeps histories that only rotations write exactly when runs leave within its 30 seconds. */
  lemma LockKeepsHistoryIff(bound: nat)
    ensures (forall lock, at, owner, ws, steps, id ::
               OnlyRotated(bound, lock, at, owner, ws, steps, id) ==> EndsFit(ws, id))
        <==> bound <= Lock.TTL
  {
    hide OnlyRotated, EndsFit;
    if bound <= Lock.TTL {
      forall lock, at, owner, ws, steps, id | OnlyRotated(bound, lock, at, owner, ws, steps, id)
        ensures EndsFit(ws, id)
      {
        RotationsKeepHistory(bound, lock, at, owner, ws, steps, id);
      }
    } else {
      var lock, at, owner, ws, steps, id := LateRotations(bound);
    }
  }
}
