/** What one step does to one secret, and the traces that requests and transactions leave in a run: what was read,
    when it was saved, and what a transaction under way still holds. */
module EditTraces {
  import opened Text
  import opened SecretStore
  import opened EditRuns

  // ---- One step, seen from one secret ----

  /** The requests of a secret that have saved and not yet updated. */
  function SavedOpen(w: World, id: SecretId): set<EditId> {
    set e | e in w.edits && w.edits[e].id == id && w.edits[e].Saved?
  }

  /** Requests and transactions hold rows at versions not above the present ones; a request's row was live. */
  ghost predicate WorldOk(w: World) {
    && Tables(w.db)
    && (forall e :: e in w.edits ==>
          && Exists(w.db, w.edits[e].id)
          && (!w.edits[e].Finished? ==>
                w.edits[e].row.version <= w.db.rows[w.edits[e].id].version && !w.edits[e].row.deleted))
    && (forall t: TxId :: Distinct(PartsOf(w, t)))
    && (forall t: TxId, id: SecretId :: Held(w, t, id).Some? ==>
          Exists(w.db, id) && Held(w, t, id).value.row.version <= w.db.rows[id].version)
  }

  /** What a step does to the secret's row, its history and its open saves. */
  predicate Effect(w: World, step: Step, t: World, id: SecretId)
    requires Exists(w.db, id) && Enabled(w, step)
  {
    && Exists(t.db, id)
    && var row, now := w.db.rows[id], t.db.rows[id];
       match step
       case Read(_, _) | Select(_, _, _) | Rollback(_) => Same(w.db, t.db, id) && SavedOpen(t, id) == SavedOpen(w, id)
       case Save(e) =>
         if w.edits[e].id == id then
           && now == row && History(t, id) == History(w, id) + [Snapshot(id, w.edits[e].row)]
           && e !in SavedOpen(w, id) && SavedOpen(t, id) == SavedOpen(w, id) + {e}
         else Same(w.db, t.db, id) && SavedOpen(t, id) == SavedOpen(w, id)
       case Update(e, cipher) =>
         if w.edits[e].id == id then
           && History(t, id) == History(w, id)
           && e in SavedOpen(w, id) && SavedOpen(t, id) == SavedOpen(w, id) - {e}
           && now == if row.deleted then row else row.(cipher := cipher, version := row.version + 1)
         else Same(w.db, t.db, id) && SavedOpen(t, id) == SavedOpen(w, id)
       case Commit(x, _) =>
         && SavedOpen(t, id) == SavedOpen(w, id)
         && (match Held(w, x, id) case None => Same(w.db, t.db, id) case Some(p) => Replaced(w.db, t.db, id, p))
       case Remove(d) =>
         && SavedOpen(t, id) == SavedOpen(w, id)
         && if d == id then Removed(w.db, t.db, id) else Same(w.db, t.db, id)
  }

  lemma StepHasEffect(w: World, step: Step, id: SecretId)
    requires WorldOk(w) && Exists(w.db, id) && Enabled(w, step)
    ensures Effect(w, step, Next(w, step), id)
  {
    hide HistoryOf, Tables, PartFor, Distinct, Committed, Fits;
    if step.Save? {
      HistoryGrows(w.db.versions, Snapshot(w.edits[step.e].id, w.edits[step.e].row), id);
    } else if step.Commit? {
      CommitOnSecret(w.db, PartsOf(w, step.t), step.added, id);
    }
  }

  /** Where a step leaves a request. */
  function RequestAfter(r: Request, step: Step, e: EditId): Request {
    if step == Save(e) && r.Reading? then Saved(r.id, r.row)
    else if step.Update? && step.e == e then Finished(r.id)
    else r
  }

  lemma EffectKeepsVersion(w: World, step: Step, t: World, id: SecretId)
    requires Exists(w.db, id) && Enabled(w, step) && Effect(w, step, t, id)
    ensures Exists(t.db, id) && w.db.rows[id].version <= t.db.rows[id].version
    ensures w.db.rows[id].deleted ==> t.db.rows[id].deleted
    ensures History(w, id) <= History(t, id)
    ensures t.db.rows[id].version == w.db.rows[id].version ==>
              Snapshot(id, t.db.rows[id]) == Snapshot(id, w.db.rows[id])
    ensures t.db.rows[id].version == w.db.rows[id].version && t.db.rows[id].deleted == w.db.rows[id].deleted
            ==> t.db.rows[id] == w.db.rows[id]
  {
    hide HistoryOf, SavedOpen, Enabled, Held;
  }

  lemma StepKeepsTables(w: World, step: Step)
    requires WorldOk(w) && Enabled(w, step)
    ensures Tables(Next(w, step).db) && NewAreFresh(w.db, Next(w, step).db)
  {
    hide HistoryOf, Held, Distinct, Fits;
    if step.Commit? {
      CommitKeepsTables(w.db, PartsOf(w, step.t), step.added);
      hide Committed, Tables, NewAreFresh;
    }
  }

  /** Where a step leaves what a transaction holds. */
  function HeldAfter(w: World, step: Step, t: TxId, id: SecretId): Option<Part>
    requires Enabled(w, step)
  {
    match step
    case Select(x, d, cipher) => if x == t && d == id then Some(Part(id, w.db.rows[id], cipher)) else Held(w, t, id)
    case Commit(x, _) => if x == t then None else Held(w, t, id)
    case Rollback(x) => if x == t then None else Held(w, t, id)
    case _ => Held(w, t, id)
  }

  lemma StepOnTransaction(w: World, step: Step, t: TxId, id: SecretId)
    requires Enabled(w, step)
    ensures var v := Next(w, step);
            && Held(v, t, id) == HeldAfter(w, step, t, id)
            && (Distinct(PartsOf(w, t)) ==> Distinct(PartsOf(v, t)))
            && (HasEnded(v, t) <==> HasEnded(w, t) || ((step.Commit? || step.Rollback?) && step.t == t))
  {
    hide Fits, Committed, SaveWrites, UpdateWrites, MarkDeleted;
    if step.Select? && step.t == t {
      var parts := PartsOf(w, t);
      assert (parts + [Part(step.id, w.db.rows[step.id], step.cipher)])[..|parts|] == parts;
    }
  }

  lemma StepKeepsRequests(w: World, step: Step, e: EditId)
    requires WorldOk(w) && Enabled(w, step) && e in Next(w, step).edits
    ensures var t := Next(w, step);
            Exists(t.db, t.edits[e].id)
            && (!t.edits[e].Finished? ==>
                  t.edits[e].row.version <= t.db.rows[t.edits[e].id].version && !t.edits[e].row.deleted)
  {
    hide Tables, Effect, Held, Distinct, Fits, Committed;
    var t := Next(w, step);
    var id := t.edits[e].id;
    StepHasEffect(w, step, id);
    EffectKeepsVersion(w, step, t, id);
  }

  lemma StepKeepsHeld(w: World, step: Step, x: TxId, id: SecretId)
    requires WorldOk(w) && Enabled(w, step)
    ensures var t := Next(w, step);
            && Distinct(PartsOf(t, x))
            && (Held(t, x, id).Some? ==> Exists(t.db, id) && Held(t, x, id).value.row.version <= t.db.rows[id].version)
  {
    hide Tables, Effect, Held, Distinct, Next;
    StepOnTransaction(w, step, x, id);
    var t := Next(w, step);
    if Held(t, x, id).Some? {
      StepHasEffect(w, step, id);
      EffectKeepsVersion(w, step, t, id);
    }
  }

  lemma StepKeepsWorld(w: World, step: Step)
    requires WorldOk(w) && Enabled(w, step)
    ensures WorldOk(Next(w, step))
  {
    var t := Next(w, step);
    StepKeepsTables(w, step);
    forall e | e in t.edits
      ensures Exists(t.db, t.edits[e].id)
      ensures !t.edits[e].Finished? ==>
          t.edits[e].row.version <= t.db.rows[t.edits[e].id].version && !t.edits[e].row.deleted
    {
      StepKeepsRequests(w, step, e);
    }
    forall x: TxId ensures Distinct(PartsOf(t, x)) {
      StepKeepsHeld(w, step, x, 0);
    }
    forall x: TxId, id: SecretId
      ensures Held(t, x, id).Some? ==> Exists(t.db, id) && Held(t, x, id).value.row.version <= t.db.rows[id].version
    {
      StepKeepsHeld(w, step, x, id);
    }
    hide Next, Tables, Held, Distinct;
  }

  // ---- Along a run ----

  lemma {:induction false} RunKeepsWorld(ws: seq<World>, steps: seq<Step>, i: nat)
    requires IsRun(ws, steps) && WorldOk(ws[0]) && i < |ws|
    ensures WorldOk(ws[i])
  {
    hide WorldOk, Enabled, Next;
    if i == 0 {
    } else {
      RunKeepsWorld(ws, steps, i - 1);
      StepKeepsWorld(ws[i - 1], steps[i - 1]);
    }
  }

  /** The secret exists, with a complete history, and no request or transaction under way has read it. */
  ghost predicate Fresh(w: World, id: SecretId) {
    && WorldOk(w) && Exists(w.db, id) && HistoryFits(w.db.rows[id], History(w, id))
    && NothingOpen(w, id) && NothingHeld(w, id)
  }

  lemma RunEffect(ws: seq<World>, steps: seq<Step>, i: nat, id: SecretId)
    requires IsRun(ws, steps) && WorldOk(ws[0]) && i < |steps| && Exists(ws[i].db, id)
    ensures Enabled(ws[i], steps[i]) && Effect(ws[i], steps[i], ws[i + 1], id) && Exists(ws[i + 1].db, id)
  {
    hide WorldOk, Enabled, Next, Effect;
    RunKeepsWorld(ws, steps, i);
    StepHasEffect(ws[i], steps[i], id);
    EffectKeepsVersion(ws[i], steps[i], ws[i + 1], id);
  }

  lemma {:induction false} RunGrows(ws: seq<World>, steps: seq<Step>, i: nat, j: nat, id: SecretId)
    requires IsRun(ws, steps) && WorldOk(ws[0]) && i <= j < |ws| && Exists(ws[i].db, id)
    ensures Exists(ws[j].db, id) && ws[i].db.rows[id].version <= ws[j].db.rows[id].version
    ensures ws[i].db.rows[id].deleted ==> ws[j].db.rows[id].deleted
    ensures History(ws[i], id) <= History(ws[j], id)
    ensures ws[i].db.rows[id].version == ws[j].db.rows[id].version ==>
              Snapshot(id, ws[i].db.rows[id]) == Snapshot(id, ws[j].db.rows[id])
    decreases j
  {
    hide WorldOk, Enabled, Next, Effect, History;
    if i == j {
    } else {
      RunGrows(ws, steps, i, j - 1, id);
      RunEffect(ws, steps, j - 1, id);
      EffectKeepsVersion(ws[j - 1], steps[j - 1], ws[j], id);
    }
  }

  // ---- The trace of one request ----

  lemma RunLength(ws: seq<World>, steps: seq<Step>)
    requires IsRun(ws, steps)
    ensures |ws| == |steps| + 1
  {
  }

  lemma RunOnRequests(ws: seq<World>, steps: seq<Step>, i: nat)
    requires IsRun(ws, steps) && i < |steps|
    ensures forall e :: e in ws[i].edits ==>
        e in ws[i + 1].edits && ws[i + 1].edits[e] == RequestAfter(ws[i].edits[e], steps[i], e)
    ensures forall e :: e in ws[i + 1].edits && e !in ws[i].edits ==>
              steps[i].Read? && steps[i].e == e && Exists(ws[i].db, steps[i].id)
              && ws[i + 1].edits[e] == Reading(steps[i].id, ws[i].db.rows[steps[i].id])
    ensures steps[i].Save? ==> steps[i].e in ws[i].edits && ws[i].edits[steps[i].e].Reading?
    ensures steps[i].Update? ==> steps[i].e in ws[i].edits && ws[i].edits[steps[i].e].Saved?
    ensures steps[i].Read? ==>
        steps[i].e !in ws[i].edits && Exists(ws[i].db, steps[i].id) && steps[i].e in ws[i + 1].edits
  {
    assert Enabled(ws[i], steps[i]);
    hide RequestAfter, Held, Fits, Committed;
  }

  /** A request that has saved by j, and was reading at i, saved in between. */
  lemma {:induction false} SavesBetween(ws: seq<World>, steps: seq<Step>, e: EditId, i: nat, j: nat) returns (s: nat)
    requires IsRun(ws, steps) && i <= j < |ws|
    requires e in ws[i].edits && ws[i].edits[e].Reading? && e in ws[j].edits && ws[j].edits[e].Saved?
    ensures i <= s < j && steps[s] == Save(e) && e in ws[s].edits && ws[s].edits[e] == ws[i].edits[e]
    ensures e in ws[s + 1].edits && ws[s + 1].edits[e] == Saved(ws[i].edits[e].id, ws[i].edits[e].row)
    decreases j - i
  {
    hide IsRun;
    RunLength(ws, steps);
    RunOnRequests(ws, steps, i);
    if steps[i] == Save(e) {
      s := i;
    } else {
      s := SavesBetween(ws, steps, e, i + 1, j);
    }
  }

  lemma {:induction false} FinishedStays(ws: seq<World>, steps: seq<Step>, e: EditId, i: nat, j: nat)
    requires IsRun(ws, steps) && i <= j < |ws| && e in ws[i].edits && ws[i].edits[e].Finished?
    ensures e in ws[j].edits && ws[j].edits[e].Finished?
    decreases j - i
  {
    hide IsRun;
    RunLength(ws, steps);
    if i == j {
    } else {
      RunOnRequests(ws, steps, i);
      FinishedStays(ws, steps, e, i + 1, j);
    }
  }

  lemma {:induction false} StaysSaved(ws: seq<World>, steps: seq<Step>, e: EditId, i: nat, k: nat, j: nat)
    requires IsRun(ws, steps) && i <= k <= j < |ws|
    requires e in ws[i].edits && ws[i].edits[e].Saved? && e in ws[j].edits && ws[j].edits[e].Saved?
    ensures e in ws[k].edits && ws[k].edits[e] == ws[i].edits[e]
    decreases k - i
  {
    hide IsRun;
    RunLength(ws, steps);
    if i == k {
    } else {
      RunOnRequests(ws, steps, i);
      if ws[i + 1].edits[e].Finished? {
        FinishedStays(ws, steps, e, i + 1, j);
      }
      StaysSaved(ws, steps, e, i + 1, k, j);
    }
  }

  /** An open request of a secret that had none at the start has read the row it holds. */
  lemma {:induction false} ReadBefore(ws: seq<World>, steps: seq<Step>, id: SecretId, n: nat, e: EditId)
    returns (r: nat)
    requires IsRun(ws, steps) && NothingOpen(ws[0], id) && n < |ws| && Open(ws[n], e, id)
    ensures r < n && steps[r].Read? && steps[r].id == id && steps[r].e == e
    ensures Exists(ws[r].db, id) && ws[n].edits[e].row == ws[r].db.rows[id]
    decreases n
  {
    hide IsRun;
    RunLength(ws, steps);
    assert n > 0;
    RunOnRequests(ws, steps, n - 1);
    if e in ws[n - 1].edits {
      r := ReadBefore(ws, steps, id, n - 1, e);
    } else {
      r := n - 1;
    }
  }

  /** A request that has saved, in a run that leaves none so, has its update still to come. */
  lemma {:induction false} UpdateAfter(ws: seq<World>, steps: seq<Step>, id: SecretId, n: nat, e: EditId)
    returns (u: nat)
    requires IsRun(ws, steps) && SavedOpen(ws[|ws| - 1], id) == {} && n < |ws| && e in SavedOpen(ws[n], id)
    ensures n <= u < |steps| && steps[u].Update? && steps[u].e == e
    decreases |ws| - n
  {
    hide IsRun;
    RunLength(ws, steps);
    assert n < |steps|;
    RunOnRequests(ws, steps, n);
    if steps[n].Update? && steps[n].e == e {
      u := n;
    } else {
      u := UpdateAfter(ws, steps, id, n + 1, e);
    }
  }

  // ---- The trace of one transaction ----

  lemma RunOnTransaction(ws: seq<World>, steps: seq<Step>, i: nat, t: TxId, id: SecretId)
    requires IsRun(ws, steps) && i < |steps|
    ensures Enabled(ws[i], steps[i]) && Held(ws[i + 1], t, id) == HeldAfter(ws[i], steps[i], t, id)
    ensures HasEnded(ws[i + 1], t) <==>
              HasEnded(ws[i], t) || ((steps[i].Commit? || steps[i].Rollback?) && steps[i].t == t)
    ensures (steps[i].Commit? || steps[i].Rollback?) && steps[i].t == t ==> !HasEnded(ws[i], t)
    ensures steps[i].Select? && steps[i].t == t && steps[i].id == id ==>
              Exists(ws[i].db, id) && Held(ws[i], t, id).None?
  {
    assert Enabled(ws[i], steps[i]);
    StepOnTransaction(ws[i], steps[i], t, id);
    hide Next, Held, Enabled;
  }

  lemma {:induction false} EndedStays(ws: seq<World>, steps: seq<Step>, t: TxId, i: nat, j: nat)
    requires IsRun(ws, steps) && i <= j < |ws| && HasEnded(ws[i], t)
    ensures HasEnded(ws[j], t)
    decreases j - i
  {
    hide IsRun, HasEnded, Enabled;
    RunLength(ws, steps);
    if i == j {
    } else {
      RunOnTransaction(ws, steps, i, t, 0);
      EndedStays(ws, steps, t, i + 1, j);
    }
  }

  lemma NotEndedBefore(ws: seq<World>, steps: seq<Step>, j: nat, c: nat)
    requires IsRun(ws, steps) && j <= c < |steps| && steps[c].Commit?
    ensures j < |ws| && !HasEnded(ws[j], steps[c].t)
  {
    RunLength(ws, steps);
    RunOnTransaction(ws, steps, c, steps[c].t, 0);
    hide IsRun, HasEnded, Enabled;
    if HasEnded(ws[j], steps[c].t) {
      EndedStays(ws, steps, steps[c].t, j, c);
    }
  }

  /** In its window a transaction holds the row its query found. */
  lemma {:induction false} HeldInWindow(ws: seq<World>, steps: seq<Step>, id: SecretId, r: nat, j: nat, c: nat)
    requires IsRun(ws, steps) && IsTxWindow(steps, id, r, c) && r < j <= c
    ensures j < |ws| && Exists(ws[r].db, id)
    ensures Held(ws[j], steps[r].t, id) == Some(Part(id, ws[r].db.rows[id], steps[r].cipher))
    decreases j
  {
    hide IsRun, Held, Enabled, HasEnded;
    NotEndedBefore(ws, steps, j, c);
    RunOnTransaction(ws, steps, j - 1, steps[r].t, id);
    if j == r + 1 {
    } else {
      HeldInWindow(ws, steps, id, r, j - 1, c);
    }
  }

  lemma NothingHeldYet(w: World, t: TxId, id: SecretId)
    requires NothingHeld(w, id)
    ensures Held(w, t, id).None?
  {
  }

  /** A row of the secret that a transaction holds has been read by it, in the run. */
  lemma {:induction false} SelectBefore(ws: seq<World>, steps: seq<Step>, id: SecretId, n: nat, t: TxId)
    returns (r: nat)
    requires IsRun(ws, steps) && NothingHeld(ws[0], id) && n < |ws| && Held(ws[n], t, id).Some?
    ensures r < n <= |steps| && steps[r].Select? && steps[r].t == t && steps[r].id == id && Exists(ws[r].db, id)
    ensures Held(ws[n], t, id) == Some(Part(id, ws[r].db.rows[id], steps[r].cipher))
    decreases n
  {
    RunLength(ws, steps);
    NothingHeldYet(ws[0], t, id);
    hide IsRun, Held, Enabled, HasEnded, NothingHeld;
    RunOnTransaction(ws, steps, n - 1, t, id);
    if steps[n - 1].Select? && steps[n - 1].t == t && steps[n - 1].id == id {
      r := n - 1;
    } else {
      r := SelectBefore(ws, steps, id, n - 1, t);
    }
  }
}
