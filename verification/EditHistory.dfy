/** Which runs of meeting writes keep a history complete: those in which no window of it is disturbed. */
module EditHistory {
  import opened SecretStore
  import opened EditRuns
  import opened EditTraces

  // ---- A complete history has no disturbed window ----

  /** How many more version rows a secret has than its version and its open saves account for. */
  function Slack(w: World, id: SecretId): int
    requires Exists(w.db, id)
  {
    |History(w, id)| + 1 - w.db.rows[id].version - |SavedOpen(w, id)|
  }

  /** Only an update that finds its secret deleted adds to the slack. */
  lemma SlackAfter(w: World, step: Step, t: World, id: SecretId)
    requires Exists(w.db, id) && Enabled(w, step) && Effect(w, step, t, id)
    ensures Slack(t, id) == Slack(w, id) +
                            if step.Update? && w.edits[step.e].id == id && w.db.rows[id].deleted then 1 else 0
  {
    hide HistoryOf, SavedOpen;
  }

  lemma {:induction false} SlackGrows(ws: seq<World>, steps: seq<Step>, i: nat, j: nat, id: SecretId)
    requires IsRun(ws, steps) && WorldOk(ws[0]) && i <= j < |ws| && Exists(ws[i].db, id)
    ensures Exists(ws[j].db, id) && Slack(ws[i], id) <= Slack(ws[j], id)
    decreases j
  {
    hide IsRun, WorldOk, Enabled, Next, Effect, Slack;
    RunLength(ws, steps);
    if i == j {
    } else {
      SlackGrows(ws, steps, i, j - 1, id);
      RunEffect(ws, steps, j - 1, id);
      SlackAfter(ws[j - 1], steps[j - 1], ws[j], id);
    }
  }

  /** A run that starts fresh and ends with a complete history and no request between its save and its update. */
  ghost predicate EndsComplete(ws: seq<World>, steps: seq<Step>, id: SecretId) {
    && IsRun(ws, steps) && Fresh(ws[0], id)
    && var last := ws[|ws| - 1];
       SavedOpen(last, id) == {} && Exists(last.db, id) && HistoryFits(last.db.rows[id], History(last, id))
  }

  lemma ClosedHasNoSlack(w: World, id: SecretId)
    requires Exists(w.db, id) && SavedOpen(w, id) == {} && HistoryFits(w.db.rows[id], History(w, id))
    ensures Slack(w, id) == 0
  {
    hide HistoryOf, SavedOpen;
  }

  lemma NothingSaved(w: World, id: SecretId)
    requires NothingOpen(w, id)
    ensures SavedOpen(w, id) == {}
  {
    forall e | e in SavedOpen(w, id) ensures Open(w, e, id) {
    }
  }

  lemma NoSlack(ws: seq<World>, steps: seq<Step>, i: nat, id: SecretId)
    requires EndsComplete(ws, steps, id) && i < |ws|
    ensures Exists(ws[i].db, id) && Slack(ws[i], id) == 0
  {
    hide IsRun, WorldOk, Slack, NothingOpen, HistoryFits, History;
    SlackGrows(ws, steps, 0, i, id);
    SlackGrows(ws, steps, i, |ws| - 1, id);
    NothingSaved(ws[0], id);
    ClosedHasNoSlack(ws[0], id);
    ClosedHasNoSlack(ws[|ws| - 1], id);
  }

  /** Row k of every history along the way has version k. */
  lemma NumberedAlong(ws: seq<World>, steps: seq<Step>, i: nat, id: SecretId)
    requires EndsComplete(ws, steps, id) && i < |ws|
    ensures Exists(ws[i].db, id)
    ensures forall k :: 0 <= k < |History(ws[i], id)| ==> History(ws[i], id)[k].version == k + 1
  {
    hide IsRun, WorldOk, NothingOpen, History;
    RunGrows(ws, steps, 0, i, id);
    RunGrows(ws, steps, i, |ws| - 1, id);
    var last := History(ws[|ws| - 1], id);
    forall k | 0 <= k < |History(ws[i], id)| ensures History(ws[i], id)[k].version == k + 1 {
      assert History(ws[i], id)[k] == last[k];
    }
  }

  /** A save finds its row still current and no other save open, and so does a commit that replaces the secret;
      an update finds its secret not deleted. */
  predicate Settled(w: World, step: Step, t: World, id: SecretId)
    requires Exists(w.db, id) && Exists(t.db, id) && Enabled(w, step)
  {
    && (step.Save? && w.edits[step.e].id == id ==>
          w.edits[step.e].row.version == w.db.rows[id].version && SavedOpen(w, id) == {})
    && (step.Commit? && Held(w, step.t, id).Some? ==>
          Held(w, step.t, id).value.row.version == w.db.rows[id].version && SavedOpen(w, id) == {})
    && (step.Update? && w.edits[step.e].id == id ==> !w.db.rows[id].deleted)
  }

  lemma EffectSettles(w: World, step: Step, t: World, id: SecretId)
    requires WorldOk(w) && Exists(w.db, id) && Enabled(w, step) && Effect(w, step, t, id)
    requires Slack(w, id) == 0 && Slack(t, id) == 0
    requires forall k :: 0 <= k < |History(t, id)| ==> History(t, id)[k].version == k + 1
    ensures Settled(w, step, t, id)
  {
    SlackAfter(w, step, t, id);
    hide HistoryOf, Tables, Held, Distinct;
    var n := |History(w, id)|;
    if step.Save? && w.edits[step.e].id == id {
      assert History(t, id)[n] == Snapshot(id, w.edits[step.e].row);
    }
    if step.Commit? && Held(w, step.t, id).Some? {
      assert Replaced(w.db, t.db, id, Held(w, step.t, id).value);
      assert History(t, id)[n] == Snapshot(id, Held(w, step.t, id).value.row);
    }
  }

  lemma RunSettles(ws: seq<World>, steps: seq<Step>, i: nat, id: SecretId)
    requires EndsComplete(ws, steps, id) && i < |steps|
    ensures |ws| == |steps| + 1 && Exists(ws[i].db, id) && Exists(ws[i + 1].db, id)
    ensures Enabled(ws[i], steps[i]) && Effect(ws[i], steps[i], ws[i + 1], id)
    ensures Settled(ws[i], steps[i], ws[i + 1], id)
  {
    hide Enabled, Next, Effect, Settled, Slack, History, HistoryFits, NothingOpen, WorldOk;
    NoSlack(ws, steps, i, id);
    NoSlack(ws, steps, i + 1, id);
    NumberedAlong(ws, steps, i + 1, id);
    RunEffect(ws, steps, i, id);
    RunKeepsWorld(ws, steps, i);
    EffectSettles(ws[i], steps[i], ws[i + 1], id);
  }

  lemma OneSavedAfter(w: World, step: Step, t: World, id: SecretId)
    requires Exists(w.db, id) && Exists(t.db, id) && Enabled(w, step)
    requires Effect(w, step, t, id) && Settled(w, step, t, id) && |SavedOpen(w, id)| <= 1
    ensures |SavedOpen(t, id)| <= 1
  {
    hide SavedOpen, HistoryOf;
  }

  lemma {:induction false} OneSavedAtATime(ws: seq<World>, steps: seq<Step>, i: nat, id: SecretId)
    requires EndsComplete(ws, steps, id) && i < |ws|
    ensures |SavedOpen(ws[i], id)| <= 1
  {
    hide IsRun, Effect, Settled, WorldOk, Enabled, HistoryFits, History;
    if i == 0 {
      NothingSaved(ws[0], id);
    } else {
      RunLength(ws, steps);
      OneSavedAtATime(ws, steps, i - 1, id);
      RunSettles(ws, steps, i - 1, id);
      OneSavedAfter(ws[i - 1], steps[i - 1], ws[i], id);
    }
  }

  lemma TheOnlySaved(s: set<EditId>, d: EditId, e: EditId)
    requires |s| <= 1 && d in s && e in s
    ensures d == e
  {
    assert |s - {d}| == |s| - 1;
    assert e !in s - {d};
  }

  /** While the only open save stays open and the secret is not deleted, its row does not change. */
  lemma SavedHoldsRow(w: World, step: Step, t: World, id: SecretId, e: EditId)
    requires Exists(w.db, id) && Exists(t.db, id) && Enabled(w, step)
    requires Effect(w, step, t, id) && Settled(w, step, t, id) && |SavedOpen(w, id)| <= 1
    requires e in SavedOpen(w, id) && e in SavedOpen(t, id) && !t.db.rows[id].deleted
    ensures t.db.rows[id] == w.db.rows[id]
  {
    EffectKeepsVersion(w, step, t, id);
    hide SavedOpen, HistoryOf;
    if step.Update? && w.edits[step.e].id == id {
      TheOnlySaved(SavedOpen(w, id), step.e, e);
    }
  }

  /** A window as the run sees it: the read, the save at s, and the request's phase from there on. */
  lemma TraceOfWindow(ws: seq<World>, steps: seq<Step>, id: SecretId, r: nat, u: nat) returns (s: nat)
    requires IsRun(ws, steps) && IsWindow(steps, id, r, u)
    ensures |ws| == |steps| + 1 && r < s < u && steps[s] == Save(steps[r].e) && Exists(ws[r].db, id)
    ensures var e := steps[r].e;
            e in ws[s].edits && ws[s].edits[e] == Reading(id, ws[r].db.rows[id])
            && forall k :: s < k <= u ==> e in ws[k].edits && ws[k].edits[e] == Saved(id, ws[r].db.rows[id])
  {
    hide IsRun;
    RunLength(ws, steps);
    var e := steps[r].e;
    RunOnRequests(ws, steps, r);
    RunOnRequests(ws, steps, u);
    s := SavesBetween(ws, steps, e, r + 1, u);
    forall k | s < k <= u ensures e in ws[k].edits && ws[k].edits[e] == Saved(id, ws[r].db.rows[id]) {
      StaysSaved(ws, steps, e, s + 1, k, u);
    }
  }

  lemma ReadKeepsRow(ws: seq<World>, steps: seq<Step>, r: nat, id: SecretId)
    requires IsRun(ws, steps) && r < |steps| && steps[r].Read? && Exists(ws[r].db, id)
    ensures Exists(ws[r + 1].db, id) && ws[r + 1].db.rows[id] == ws[r].db.rows[id]
  {
    assert Enabled(ws[r], steps[r]) && ws[r + 1] == Next(ws[r], steps[r]);
  }

  /** In a run that ends complete, no write falls into a window before its save ... */
  lemma QuietBeforeSave(ws: seq<World>, steps: seq<Step>, id: SecretId, r: nat, k: nat, u: nat, s: nat)
    requires EndsComplete(ws, steps, id) && IsWindow(steps, id, r, u) && r < k < s < u
    requires steps[s] == Save(steps[r].e) && |ws| == |steps| + 1
    requires steps[r].e in ws[s].edits && Exists(ws[r].db, id)
    requires ws[s].edits[steps[r].e] == Reading(id, ws[r].db.rows[id])
    requires Exists(ws[u].db, id) && !ws[u].db.rows[id].deleted
    ensures !RowChanges(ws, k, id)
  {
    hide IsRun, Effect, HistoryFits, History, WorldOk, NothingOpen;
    RunSettles(ws, steps, s, id);
    RunSettles(ws, steps, k, id);
    RunGrows(ws, steps, r, k, id);
    RunGrows(ws, steps, k + 1, s, id);
    RunGrows(ws, steps, s, u, id);
    EffectKeepsVersion(ws[k], steps[k], ws[k + 1], id);
    hide Enabled;
  }

  /** ... nor from its save on. */
  lemma QuietFromSave(ws: seq<World>, steps: seq<Step>, id: SecretId, r: nat, k: nat, u: nat, s: nat)
    requires EndsComplete(ws, steps, id) && |ws| == |steps| + 1 && r < s <= k < u < |steps|
    requires steps[r].Read? && steps[s] == Save(steps[r].e) && Exists(ws[r].db, id)
    requires forall j :: s < j <= u ==>
        steps[r].e in ws[j].edits && ws[j].edits[steps[r].e] == Saved(id, ws[r].db.rows[id])
    requires Exists(ws[u].db, id) && !ws[u].db.rows[id].deleted
    ensures !RowChanges(ws, k, id)
  {
    hide IsRun, HistoryFits, History, WorldOk, NothingOpen;
    var e := steps[r].e;
    RunSettles(ws, steps, k, id);
    RunGrows(ws, steps, k + 1, u, id);
    if k == s {
      hide HistoryOf, SavedOpen;
    } else {
      OneSavedAtATime(ws, steps, k, id);
      assert e in SavedOpen(ws[k], id) && e in SavedOpen(ws[k + 1], id);
      hide Effect, Settled, Enabled, SavedOpen;
      SavedHoldsRow(ws[k], steps[k], ws[k + 1], id, e);
    }
  }

  lemma QuietRequest(ws: seq<World>, steps: seq<Step>, id: SecretId, r: nat, k: nat, u: nat)
    requires EndsComplete(ws, steps, id) && |ws| == |steps| + 1 && IsWindow(steps, id, r, u) && r < k < u
    ensures !RowChanges(ws, k, id)
  {
    hide IsRun, Effect, HistoryFits, History, WorldOk, NothingOpen, RowChanges;
    var s := TraceOfWindow(ws, steps, id, r, u);
    RunSettles(ws, steps, u, id);
    assert ws[u].edits[steps[r].e].id == id;
    if k < s {
      QuietBeforeSave(ws, steps, id, r, k, u, s);
    } else {
      QuietFromSave(ws, steps, id, r, k, u, s);
    }
  }

  /** In a run that ends complete a commit finds the version its transaction has read. */
  lemma QuietTransaction(ws: seq<World>, steps: seq<Step>, id: SecretId, r: nat, k: nat, c: nat)
    requires EndsComplete(ws, steps, id) && |ws| == |steps| + 1 && IsTxWindow(steps, id, r, c) && r < k < c
    ensures !VersionChanges(ws, k, id)
  {
    hide IsRun, Effect, HistoryFits, History, WorldOk, NothingOpen, Held, Enabled;
    HeldInWindow(ws, steps, id, r, c, c);
    RunSettles(ws, steps, c, id);
    RunGrows(ws, steps, r, k, id);
    RunGrows(ws, steps, k, k + 1, id);
    RunGrows(ws, steps, k + 1, c, id);
  }

  lemma CompleteIsUndisturbed(ws: seq<World>, steps: seq<Step>, id: SecretId)
    requires EndsComplete(ws, steps, id)
    ensures |ws| == |steps| + 1 && Undisturbed(ws, steps, id)
  {
    RunLength(ws, steps);
    hide EndsComplete, RowChanges, VersionChanges;
    forall r, k, u | 0 <= r < k < u < |steps| && IsWindow(steps, id, r, u) ensures !RowChanges(ws, k, id) {
      QuietRequest(ws, steps, id, r, k, u);
    }
    forall r, k, c | 0 <= r < k < c < |steps| && IsTxWindow(steps, id, r, c) ensures !VersionChanges(ws, k, id) {
      QuietTransaction(ws, steps, id, r, k, c);
    }
  }

  // ---- A run without disturbed windows ends complete ----

  /** A run that starts fresh, disturbs no window and leaves no request between its save and its update. */
  ghost predicate Peaceful(ws: seq<World>, steps: seq<Step>, id: SecretId) {
    && IsRun(ws, steps) && |ws| == |steps| + 1 && Fresh(ws[0], id)
    && SavedOpen(ws[|ws| - 1], id) == {} && Undisturbed(ws, steps, id)
  }

  lemma {:induction false} RowKeptInWindow(ws: seq<World>, steps: seq<Step>, id: SecretId, r: nat, u: nat, j: nat)
    requires Peaceful(ws, steps, id) && IsWindow(steps, id, r, u) && r < j <= u && Exists(ws[r].db, id)
    ensures Exists(ws[j].db, id) && ws[j].db.rows[id] == ws[r].db.rows[id]
    decreases j
  {
    hide IsRun, Fresh, NothingOpen;
    if j == r + 1 {
      ReadKeepsRow(ws, steps, r, id);
    } else {
      RowKeptInWindow(ws, steps, id, r, u, j - 1);
      assert !RowChanges(ws, j - 1, id);
    }
  }

  predicate Updates(steps: seq<Step>, u: nat, e: EditId) {
    u < |steps| && steps[u].Update? && steps[u].e == e
  }

  /** The window of an open request that updates at u. */
  lemma WindowOf(ws: seq<World>, steps: seq<Step>, id: SecretId, n: nat, e: EditId, u: nat) returns (r: nat)
    requires Peaceful(ws, steps, id) && n <= u && Updates(steps, u, e) && Open(ws[n], e, id)
    ensures r < n && IsWindow(steps, id, r, u) && steps[r].e == e && Exists(ws[r].db, id)
    ensures Exists(ws[n].db, id) && ws[n].edits[e].row == ws[n].db.rows[id] == ws[r].db.rows[id]
  {
    hide IsRun, Fresh, NothingOpen, Undisturbed;
    r := ReadOfOpen(ws, steps, id, n, e);
    RowKeptInWindow(ws, steps, id, r, u, n);
  }

  lemma ReadOfOpen(ws: seq<World>, steps: seq<Step>, id: SecretId, n: nat, e: EditId) returns (r: nat)
    requires Peaceful(ws, steps, id) && n < |ws| && Open(ws[n], e, id)
    ensures r < n && r < |steps| && steps[r].Read? && steps[r].id == id && steps[r].e == e
    ensures Exists(ws[r].db, id) && ws[n].edits[e].row == ws[r].db.rows[id]
  {
    hide IsRun, NothingOpen, Undisturbed, WorldOk;
    r := ReadBefore(ws, steps, id, n, e);
  }

  /** Until an open request updates, the row does not change. */
  lemma OpenHoldsRow(ws: seq<World>, steps: seq<Step>, id: SecretId, n: nat, e: EditId, u: nat)
    requires Peaceful(ws, steps, id) && n < u && Updates(steps, u, e) && Open(ws[n], e, id)
    ensures !RowChanges(ws, n, id)
  {
    hide IsRun, Fresh, NothingOpen, RowChanges;
    var r := WindowOf(ws, steps, id, n, e, u);
  }

  /** An update of an open request changes the row: the row it read was live and is still the current one. */
  lemma OwnUpdateChanges(ws: seq<World>, steps: seq<Step>, id: SecretId, u: nat, e: EditId)
    requires Peaceful(ws, steps, id) && u < |ws| && Open(ws[u], e, id) && Updates(steps, u, e)
    ensures RowChanges(ws, u, id) && Exists(ws[u].db, id) && !ws[u].db.rows[id].deleted
  {
    hide NothingOpen, Undisturbed, Tables;
    var r := WindowOf(ws, steps, id, u, e, u);
    RunKeepsWorld(ws, steps, u);
    RunEffect(ws, steps, u, id);
  }

  lemma {:induction false} SameSecret(ws: seq<World>, steps: seq<Step>, e: EditId, i: nat, j: nat)
    requires IsRun(ws, steps) && i <= j < |ws| && e in ws[i].edits
    ensures e in ws[j].edits && ws[j].edits[e].id == ws[i].edits[e].id
    decreases j
  {
    hide IsRun;
    RunLength(ws, steps);
    if i == j {
    } else {
      SameSecret(ws, steps, e, i, j - 1);
      RunOnRequests(ws, steps, j - 1);
    }
  }

  /** An open request at i that updates at j is open all the while. */
  lemma OpenUntil(ws: seq<World>, steps: seq<Step>, id: SecretId, e: EditId, i: nat, k: nat, j: nat)
    requires IsRun(ws, steps) && i <= k <= j && j < |ws| && Open(ws[i], e, id) && Updates(steps, j, e)
    ensures Open(ws[k], e, id)
  {
    hide IsRun;
    RunLength(ws, steps);
    SameSecret(ws, steps, e, i, k);
    RunOnRequests(ws, steps, j);
    if ws[k].edits[e].Finished? {
      FinishedStays(ws, steps, e, k, j);
    }
  }

  /** Two requests of a secret that get to their updates are never open together: the first to update would disturb
      the other. */
  lemma OneOpenAtATime(ws: seq<World>, steps: seq<Step>, id: SecretId, n: nat, d: EditId, u: nat, e: EditId, v: nat)
    requires Peaceful(ws, steps, id) && n < |ws| && Open(ws[n], d, id) && Open(ws[n], e, id)
    requires n <= u && Updates(steps, u, d) && n <= v && Updates(steps, v, e)
    ensures d == e
  {
    hide Undisturbed, Fresh, RowChanges, Open;
    if u < v {
      OpenUntil(ws, steps, id, d, n, u, u);
      OpenUntil(ws, steps, id, e, n, u, v);
      OwnUpdateChanges(ws, steps, id, u, d);
      OpenHoldsRow(ws, steps, id, u, e, v);
    } else if v < u {
      OpenUntil(ws, steps, id, e, n, v, v);
      OpenUntil(ws, steps, id, d, n, v, u);
      OwnUpdateChanges(ws, steps, id, v, e);
      OpenHoldsRow(ws, steps, id, v, d, u);
    }
  }

  /** Between steps the history holds every replaced version, and the current one if it is saved already,
      each as it was. */
  predicate Balanced(w: World, id: SecretId) {
    && Exists(w.db, id)
    && var row, history := w.db.rows[id], History(w, id);
       && |history| + 1 == row.version + |SavedOpen(w, id)|
       && (forall k :: 0 <= k < |history| ==> history[k].version == k + 1)
       && (SavedOpen(w, id) != {} ==>
           |SavedOpen(w, id)| == 1 && history != [] && history[|history| - 1] == Snapshot(id, row))
  }

  /** What peace means for one step: the row that is saved or replaced is the current one, and no other save is open. */
  predicate Calm(w: World, step: Step, t: World, id: SecretId)
    requires Exists(w.db, id) && Exists(t.db, id) && Enabled(w, step)
  {
    && (step.Save? && w.edits[step.e].id == id ==> w.edits[step.e].row == w.db.rows[id] && SavedOpen(w, id) == {})
    && (step.Update? && w.edits[step.e].id == id ==> SavedOpen(w, id) == {step.e} && !w.db.rows[id].deleted)
    && (step.Commit? && Held(w, step.t, id).Some? ==>
          Snapshot(id, Held(w, step.t, id).value.row) == Snapshot(id, w.db.rows[id]) && SavedOpen(w, id) == {})
  }

  lemma StepStaysBalanced(w: World, step: Step, t: World, id: SecretId)
    requires Balanced(w, id) && Enabled(w, step) && Effect(w, step, t, id) && Calm(w, step, t, id)
    ensures Balanced(t, id)
    ensures t.db.rows[id].version != w.db.rows[id].version ==>
              0 < w.db.rows[id].version <= |History(t, id)|
              && History(t, id)[w.db.rows[id].version - 1] == Snapshot(id, w.db.rows[id])
  {
    hide SavedOpen, HistoryOf, Enabled, Held;
  }

  lemma {:induction false} VersionKeptInWindow(ws: seq<World>, steps: seq<Step>, id: SecretId, r: nat, c: nat, j: nat)
    requires Peaceful(ws, steps, id) && IsTxWindow(steps, id, r, c) && r < j <= c && Exists(ws[r].db, id)
    ensures Exists(ws[j].db, id) && ws[j].db.rows[id].version == ws[r].db.rows[id].version
    decreases j
  {
    if j == r + 1 {
      RunEffect(ws, steps, r, id);
      hide IsRun, Undisturbed, WorldOk, Enabled;
    } else {
      hide IsRun, Fresh, NothingOpen;
      VersionKeptInWindow(ws, steps, id, r, c, j - 1);
      assert !VersionChanges(ws, j - 1, id);
    }
  }

  /** A commit that replaces the secret finds the row its transaction has read, and no save open. */
  lemma CommitIsCalm(ws: seq<World>, steps: seq<Step>, n: nat, id: SecretId)
    requires Peaceful(ws, steps, id) && n < |steps| && steps[n].Commit? && Held(ws[n], steps[n].t, id).Some?
    ensures Exists(ws[n].db, id)
    ensures Snapshot(id, Held(ws[n], steps[n].t, id).value.row) == Snapshot(id, ws[n].db.rows[id])
    ensures SavedOpen(ws[n], id) == {}
  {
    hide Undisturbed, WorldOk, NothingOpen, HistoryFits, History, Held;
    var r := SelectBefore(ws, steps, id, n, steps[n].t);
    RunGrows(ws, steps, r, n, id);
    VersionKeptInWindow(ws, steps, id, r, n, n);
    RunEffect(ws, steps, n, id);
    hide IsRun, Fresh, Enabled;
    if e :| e in SavedOpen(ws[n], id) {
      var u := SavedUpdates(ws, steps, id, n, e);
      OpenHoldsRow(ws, steps, id, n, e, u);
    }
  }

  lemma SavedUpdates(ws: seq<World>, steps: seq<Step>, id: SecretId, n: nat, e: EditId) returns (u: nat)
    requires Peaceful(ws, steps, id) && n < |ws| && e in SavedOpen(ws[n], id)
    ensures n <= u && Updates(steps, u, e) && Open(ws[n], e, id)
  {
    hide IsRun, Fresh, Undisturbed;
    u := UpdateAfter(ws, steps, id, n, e);
  }

  lemma OthersClosed(ws: seq<World>, steps: seq<Step>, id: SecretId, n: nat, e: EditId, u: nat)
    requires Peaceful(ws, steps, id) && n <= u && Updates(steps, u, e) && Open(ws[n], e, id)
    ensures forall d :: d in SavedOpen(ws[n], id) ==> d == e
  {
    hide IsRun, Fresh, Undisturbed, Open, SavedOpen;
    forall d | d in SavedOpen(ws[n], id) ensures d == e {
      var v := SavedUpdates(ws, steps, id, n, d);
      OneOpenAtATime(ws, steps, id, n, d, v, e, u);
    }
  }

  lemma RunIsCalm(ws: seq<World>, steps: seq<Step>, n: nat, id: SecretId)
    requires Peaceful(ws, steps, id) && n < |steps|
    ensures Exists(ws[n].db, id) && Exists(ws[n + 1].db, id) && Enabled(ws[n], steps[n])
    ensures Effect(ws[n], steps[n], ws[n + 1], id) && Calm(ws[n], steps[n], ws[n + 1], id)
  {
    hide Undisturbed, WorldOk, NothingOpen, HistoryFits, History, Effect, Held;
    var w, step := ws[n], steps[n];
    RunGrows(ws, steps, 0, n, id);
    RunEffect(ws, steps, n, id);
    RunOnRequests(ws, steps, n);
    hide IsRun, Fresh;
    if step.Save? && w.edits[step.e].id == id {
      var u := SavedUpdates(ws, steps, id, n + 1, step.e);
      var r := WindowOf(ws, steps, id, n, step.e, u);
      OthersClosed(ws, steps, id, n, step.e, u);
      assert step.e !in SavedOpen(w, id);
    }
    if step.Update? && w.edits[step.e].id == id {
      OwnUpdateChanges(ws, steps, id, n, step.e);
      OthersClosed(ws, steps, id, n, step.e, n);
      assert step.e in SavedOpen(w, id);
    }
    if step.Commit? && Held(w, step.t, id).Some? {
      CommitIsCalm(ws, steps, n, id);
    }
  }

  lemma FreshIsBalanced(w: World, id: SecretId)
    requires Fresh(w, id)
    ensures Balanced(w, id)
  {
    assert SavedOpen(w, id) == {};
    hide SavedOpen, HistoryOf, WorldOk;
  }

  lemma {:induction false} PeacefulIsBalanced(ws: seq<World>, steps: seq<Step>, n: nat, id: SecretId)
    requires Peaceful(ws, steps, id) && n < |ws|
    ensures Balanced(ws[n], id)
  {
    hide IsRun, Undisturbed, WorldOk, NothingOpen, Effect, Calm, Balanced, Enabled;
    if n == 0 {
      FreshIsBalanced(ws[0], id);
    } else {
      PeacefulIsBalanced(ws, steps, n - 1, id);
      RunIsCalm(ws, steps, n - 1, id);
      StepStaysBalanced(ws[n - 1], steps[n - 1], ws[n], id);
    }
  }

  lemma PeacefulEndsComplete(ws: seq<World>, steps: seq<Step>, id: SecretId)
    requires Peaceful(ws, steps, id)
    ensures EndsComplete(ws, steps, id)
  {
    var last := ws[|ws| - 1];
    PeacefulIsBalanced(ws, steps, |ws| - 1, id);
    hide IsRun, Undisturbed, WorldOk, SavedOpen;
  }

  /** In every run that leaves no request between its save and its update, a secret's history is complete if and
      only if no other write to it falls between a request's read and its update and none that changes its version
      between a transaction's query and its commit. */
  lemma CompleteIffUndisturbed(ws: seq<World>, steps: seq<Step>, id: SecretId)
    requires IsRun(ws, steps) && Fresh(ws[0], id) && SavedOpen(ws[|ws| - 1], id) == {}
    ensures var last := ws[|ws| - 1];
            Exists(last.db, id)
            && (HistoryFits(last.db.rows[id], History(last, id)) <==> Undisturbed(ws, steps, id))
  {
    RunLength(ws, steps);
    RunGrows(ws, steps, 0, |ws| - 1, id);
    hide IsRun, Undisturbed, Fresh, NothingOpen, HistoryFits;
    var last := ws[|ws| - 1];
    if HistoryFits(last.db.rows[id], History(last, id)) {
      CompleteIsUndisturbed(ws, steps, id);
    }
    if Undisturbed(ws, steps, id) {
      PeacefulEndsComplete(ws, steps, id);
    }
  }

  /** A history that is complete is also true: row k holds what was current at version k. */
  lemma CompleteIsTrue(ws: seq<World>, steps: seq<Step>, id: SecretId, n: nat)
    requires EndsComplete(ws, steps, id) && n < |steps|
    ensures Exists(ws[n].db, id) && Exists(ws[n + 1].db, id)
    ensures var v, history := ws[n].db.rows[id].version, History(ws[|ws| - 1], id);
            ws[n + 1].db.rows[id].version != v ==>
              0 < v <= |history| && history[v - 1] == Snapshot(id, ws[n].db.rows[id])
  {
    hide IsRun, Undisturbed, WorldOk, NothingOpen, Effect, Calm, Balanced, Enabled, History, HistoryFits;
    CompleteIsUndisturbed(ws, steps, id);
    PeacefulIsBalanced(ws, steps, n, id);
    RunIsCalm(ws, steps, n, id);
    StepStaysBalanced(ws[n], steps[n], ws[n + 1], id);
    RunGrows(ws, steps, n + 1, |ws| - 1, id);
  }

  // ---- Every secret of a run from empty tables ----

  lemma {:induction false} CreatedAt(ws: seq<World>, steps: seq<Step>, id: SecretId, j: nat) returns (c: nat)
    requires IsRun(ws, steps) && j < |ws| && !Exists(ws[0].db, id) && Exists(ws[j].db, id)
    ensures c < j && !Exists(ws[c].db, id) && Exists(ws[c + 1].db, id)
    decreases j
  {
    hide IsRun;
    if Exists(ws[j - 1].db, id) {
      c := CreatedAt(ws, steps, id, j - 1);
    } else {
      c := j - 1;
    }
  }

  /** A secret is fresh when it has just been created. */
  lemma CreatedIsFresh(ws: seq<World>, steps: seq<Step>, id: SecretId, c: nat)
    requires IsRun(ws, steps) && WorldOk(ws[0]) && c + 1 < |ws| && !Exists(ws[c].db, id) && Exists(ws[c + 1].db, id)
    ensures Fresh(ws[c + 1], id)
  {
    RunLength(ws, steps);
    RunKeepsWorld(ws, steps, c);
    RunKeepsWorld(ws, steps, c + 1);
    RunOnRequests(ws, steps, c);
    assert Enabled(ws[c], steps[c]) && ws[c + 1] == Next(ws[c], steps[c]);
    StepKeepsTables(ws[c], steps[c]);
    var w := ws[c + 1];
    forall t | t in w.txs ensures Held(w, t, id).None? {
      RunOnTransaction(ws, steps, c, t, id);
      hide Held, Next;
    }
    hide IsRun, WorldOk, Enabled, Next, Held;
  }

  /** A secret that is read exists, from then on. */
  lemma ReadsComeLater(ws: seq<World>, steps: seq<Step>, id: SecretId, c: nat, r: nat)
    requires IsRun(ws, steps) && WorldOk(ws[0]) && c < |steps| && !Exists(ws[c].db, id) && r < |steps|
    requires (steps[r].Read? || steps[r].Select?) && steps[r].id == id
    ensures r > c
  {
    assert Enabled(ws[r], steps[r]);
    if r <= c {
      RunGrows(ws, steps, r, c, id);
    }
  }

  /** No window of a secret opens before the secret exists. */
  lemma RequestsComeLater(ws: seq<World>, steps: seq<Step>, id: SecretId, c: nat)
    requires IsRun(ws, steps) && |ws| == |steps| + 1 && WorldOk(ws[0]) && c < |steps| && !Exists(ws[c].db, id)
    ensures RequestsUndisturbed(ws, steps, id) <==> RequestsUndisturbed(ws[c + 1..], steps[c + 1..], id)
  {
    hide IsRun, WorldOk;
    var vs, rest := ws[c + 1..], steps[c + 1..];
    if RequestsUndisturbed(ws, steps, id) {
      forall r, k, u | 0 <= r < k < u < |rest| && IsWindow(rest, id, r, u) ensures !RowChanges(vs, k, id) {
        assert IsWindow(steps, id, c + 1 + r, c + 1 + u);
        assert !RowChanges(ws, c + 1 + k, id);
      }
    }
    if RequestsUndisturbed(vs, rest, id) {
      forall r, k, u | 0 <= r < k < u < |steps| && IsWindow(steps, id, r, u) ensures !RowChanges(ws, k, id) {
        ReadsComeLater(ws, steps, id, c, r);
        assert IsWindow(rest, id, r - c - 1, u - c - 1);
        assert !RowChanges(vs, k - c - 1, id);
      }
    }
  }

  lemma TransactionsComeLater(ws: seq<World>, steps: seq<Step>, id: SecretId, c: nat)
    requires IsRun(ws, steps) && |ws| == |steps| + 1 && WorldOk(ws[0]) && c < |steps| && !Exists(ws[c].db, id)
    ensures TransactionsUndisturbed(ws, steps, id) <==> TransactionsUndisturbed(ws[c + 1..], steps[c + 1..], id)
  {
    hide IsRun, WorldOk;
    var vs, rest := ws[c + 1..], steps[c + 1..];
    if TransactionsUndisturbed(ws, steps, id) {
      forall r, k, u | 0 <= r < k < u < |rest| && IsTxWindow(rest, id, r, u) ensures !VersionChanges(vs, k, id) {
        assert IsTxWindow(steps, id, c + 1 + r, c + 1 + u);
        assert !VersionChanges(ws, c + 1 + k, id);
      }
    }
    if TransactionsUndisturbed(vs, rest, id) {
      forall r, k, u | 0 <= r < k < u < |steps| && IsTxWindow(steps, id, r, u) ensures !VersionChanges(ws, k, id) {
        ReadsComeLater(ws, steps, id, c, r);
        assert IsTxWindow(rest, id, r - c - 1, u - c - 1);
        assert !VersionChanges(vs, k - c - 1, id);
      }
    }
  }

  lemma RunFrom(ws: seq<World>, steps: seq<Step>, c: nat)
    requires IsRun(ws, steps) && c <= |steps|
    ensures |ws| == |steps| + 1 && IsRun(ws[c..], steps[c..])
  {
    hide Enabled, Next;
  }

  lemma UndisturbedFrom(ws: seq<World>, steps: seq<Step>, id: SecretId, c: nat)
    requires IsRun(ws, steps) && |ws| == |steps| + 1 && WorldOk(ws[0]) && c < |steps| && !Exists(ws[c].db, id)
    ensures Undisturbed(ws, steps, id) <==> Undisturbed(ws[c + 1..], steps[c + 1..], id)
  {
    RequestsComeLater(ws, steps, id, c);
    TransactionsComeLater(ws, steps, id, c);
    hide IsRun, WorldOk, RequestsUndisturbed, TransactionsUndisturbed;
  }

  lemma OneSecret(ws: seq<World>, steps: seq<Step>, id: SecretId)
    requires IsRun(ws, steps) && ws[0] == World(Db([], []), map[], map[])
    requires Exists(ws[|ws| - 1].db, id) && SavedOpen(ws[|ws| - 1], id) == {}
    ensures |ws| == |steps| + 1
    ensures var last := ws[|ws| - 1];
            HistoryFits(last.db.rows[id], History(last, id)) <==> Undisturbed(ws, steps, id)
  {
    RunFrom(ws, steps, 0);
    assert WorldOk(ws[0]);
    hide IsRun, Fresh, Undisturbed, HistoryFits, NothingOpen, WorldOk;
    var c := CreatedAt(ws, steps, id, |ws| - 1);
    CreatedIsFresh(ws, steps, id, c);
    UndisturbedFrom(ws, steps, id, c);
    RunFrom(ws, steps, c + 1);
    CompleteIffUndisturbed(ws[c + 1..], steps[c + 1..], id);
  }

  predicate Quiescent(w: World) {
    forall e :: e in w.edits ==> !w.edits[e].Saved?
  }

  /** In every run from empty tables that leaves no request between its save and its update, all histories are
      complete exactly when no window of any secret was disturbed. */
  lemma HistoriesOkIffUndisturbed(ws: seq<World>, steps: seq<Step>)
    requires IsRun(ws, steps) && ws[0] == World(Db([], []), map[], map[]) && Quiescent(ws[|ws| - 1])
    ensures |ws| == |steps| + 1
    ensures HistoryOk(ws[|ws| - 1].db)
        <==> forall id: SecretId :: id < |ws[|ws| - 1].db.rows| ==> Undisturbed(ws, steps, id)
  {
    RunLength(ws, steps);
    RunKeepsWorld(ws, steps, |ws| - 1);
    var last := ws[|ws| - 1];
    forall id: SecretId | id < |last.db.rows|
      ensures HistoryFits(last.db.rows[id], HistoryOf(last.db.versions, id)) <==> Undisturbed(ws, steps, id)
    {
      OneSecret(ws, steps, id);
    }
    hide IsRun, Undisturbed, HistoryFits, HistoryOf, UniqueKeys;
  }
}
