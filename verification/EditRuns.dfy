/** Writes that meet: any number of update requests, each a read, a save and an update, and any number of
    transactions, each reading rows and committing later, with everybody else's steps in between. */
module EditRuns {
  import opened Text
  import opened SecretStore

  type EditId = nat
  type TxId = nat

  /** Where an update request stands, with the row it read. */
  datatype Request = Reading(id: SecretId, row: Row) | Saved(id: SecretId, row: Row) | Finished(id: SecretId)

  /** A secret that a transaction replaces: the row its query found, and the new ciphertext. */
  datatype Part = Part(id: SecretId, row: Row, cipher: Cipher)

  datatype Transaction = Pending(parts: seq<Part>) | Ended

  datatype World = World(db: Db, edits: map<EditId, Request>, txs: map<TxId, Transaction>)

  /** A transaction is at the isolation level read committed: a query sees the row as last committed, and others may
      commit before its update, which replaces the row it then finds. That update and the saved row are seen at the
      commit. Row locks would only rule out some of these runs. A create is a commit that replaces nothing. */
  datatype Step =
    | Read(e: EditId, id: SecretId)
    | Save(e: EditId)
    | Update(e: EditId, cipher: Cipher)
    | Select(t: TxId, id: SecretId, cipher: Cipher)
    | Commit(t: TxId, added: seq<Row>)
    | Rollback(t: TxId)
    | Remove(id: SecretId)

  /** The part that replaces the secret, if one does. */
  function PartFor(parts: seq<Part>, id: SecretId): Option<Part> {
    if parts == [] then None
    else
      var n := |parts| - 1;
      if parts[n].id == id then Some(parts[n]) else PartFor(parts[..n], id)
  }

  function PartsOf(w: World, t: TxId): seq<Part> {
    if t in w.txs && w.txs[t].Pending? then w.txs[t].parts else []
  }

  /** What a transaction under way has read of the secret and will put in its place. */
  function Held(w: World, t: TxId, id: SecretId): Option<Part> {
    PartFor(PartsOf(w, t), id)
  }

  predicate HasEnded(w: World, t: TxId) {
    t in w.txs && w.txs[t].Ended?
  }

  /** What a transaction's saves and updates do to the tables it finds at its commit. */
  function Written(db: Db, parts: seq<Part>): (d: Db)
    ensures |d.rows| == |db.rows|
  {
    if parts == [] then db
    else
      var n := |parts| - 1;
      var d, p := Written(db, parts[..n]), parts[n];
      if Exists(d, p.id)
      then Db(d.rows[p.id := Bumped(d.rows[p.id], p.cipher)], d.versions + [Snapshot(p.id, p.row)])
      else d
  }

  function Committed(db: Db, parts: seq<Part>, added: seq<Row>): Db {
    var d := Written(db, parts);
    d.(rows := d.rows + added)
  }

  /** The unique constraint lets the new rows in. */
  predicate Fits(db: Db, added: seq<Row>) {
    UniqueKeys(db.rows + added) && forall row :: row in added ==> row.version == 1
  }

  predicate Enabled(w: World, step: Step) {
    match step
    case Read(e, id) => e !in w.edits && Live(w.db, id)
    case Save(e) => e in w.edits && w.edits[e].Reading?
    case Update(e, _) => e in w.edits && w.edits[e].Saved?
    case Select(t, id, _) => !HasEnded(w, t) && Exists(w.db, id) && Held(w, t, id).None?
    case Commit(t, added) => !HasEnded(w, t) && Fits(w.db, added)
    case Rollback(t) => !HasEnded(w, t)
    case Remove(_) => true
  }

  function Next(w: World, step: Step): World
    requires Enabled(w, step)
  {
    match step
    case Read(e, id) => w.(edits := w.edits[e := Reading(id, w.db.rows[id])])
    case Save(e) =>
      var r := w.edits[e];
      w.(db := SaveWrites(w.db, r.id, r.row, true), edits := w.edits[e := Saved(r.id, r.row)])
    case Update(e, cipher) =>
      var r := w.edits[e];
      w.(db := UpdateWrites(w.db, r.id, Some(cipher), true), edits := w.edits[e := Finished(r.id)])
    case Select(t, id, cipher) =>
      w.(txs := w.txs[t := Pending(PartsOf(w, t) + [Part(id, w.db.rows[id], cipher)])])
    case Commit(t, added) => w.(db := Committed(w.db, PartsOf(w, t), added), txs := w.txs[t := Ended])
    case Rollback(t) => w.(txs := w.txs[t := Ended])
    case Remove(id) => w.(db := MarkDeleted(w.db, id))
  }

  /** A transaction under way may end either way at any time; given up, it leaves the tables as they are. */
  lemma MayRollBack(w: World, t: TxId)
    requires !HasEnded(w, t)
    ensures Enabled(w, Rollback(t)) && Next(w, Rollback(t)).db == w.db
    ensures HasEnded(Next(w, Rollback(t)), t) && Next(w, Rollback(t)).edits == w.edits
    ensures UniqueKeys(w.db.rows) ==> Enabled(w, Commit(t, []))
  {
    assert w.db.rows + [] == w.db.rows;
  }

  predicate IsRun(ws: seq<World>, steps: seq<Step>) {
    && |ws| == |steps| + 1
    && forall i :: 0 <= i < |steps| ==> Enabled(ws[i], steps[i]) && ws[i + 1] == Next(ws[i], steps[i])
  }

  /** A request of this secret that has read and not yet updated. */
  predicate Open(w: World, e: EditId, id: SecretId) {
    e in w.edits && w.edits[e].id == id && !w.edits[e].Finished?
  }

  predicate NothingOpen(w: World, id: SecretId) {
    forall e :: e in w.edits ==> !Open(w, e, id)
  }

  predicate NothingHeld(w: World, id: SecretId) {
    forall t :: t in w.txs ==> Held(w, t, id).None?
  }

  predicate RowChanges(ws: seq<World>, k: nat, id: SecretId)
    requires k + 1 < |ws|
  {
    !(Exists(ws[k].db, id) && Exists(ws[k + 1].db, id) && ws[k + 1].db.rows[id] == ws[k].db.rows[id])
  }

  predicate VersionChanges(ws: seq<World>, k: nat, id: SecretId)
    requires k + 1 < |ws|
  {
    !(Exists(ws[k].db, id) && Exists(ws[k + 1].db, id) && ws[k + 1].db.rows[id].version == ws[k].db.rows[id].version)
  }

  predicate IsWindow(steps: seq<Step>, id: SecretId, r: nat, u: nat) {
    r < u < |steps| && steps[r].Read? && steps[r].id == id && steps[u].Update? && steps[u].e == steps[r].e
  }

  predicate IsTxWindow(steps: seq<Step>, id: SecretId, r: nat, c: nat) {
    r < c < |steps| && steps[r].Select? && steps[r].id == id && steps[c].Commit? && steps[c].t == steps[r].t
  }

  /** No write to the secret falls between a request's read and its update. */
  predicate RequestsUndisturbed(ws: seq<World>, steps: seq<Step>, id: SecretId)
    requires |ws| == |steps| + 1
  {
    forall r, k, u :: 0 <= r < k < u < |steps| && IsWindow(steps, id, r, u) ==> !RowChanges(ws, k, id)
  }

  /** No other write of a version falls between a transaction's query of the secret and its commit. A deletion may:
      the update of a transaction does not ask for it. */
  predicate TransactionsUndisturbed(ws: seq<World>, steps: seq<Step>, id: SecretId)
    requires |ws| == |steps| + 1
  {
    forall r, k, c :: 0 <= r < k < c < |steps| && IsTxWindow(steps, id, r, c) ==> !VersionChanges(ws, k, id)
  }

  predicate Undisturbed(ws: seq<World>, steps: seq<Step>, id: SecretId)
    requires |ws| == |steps| + 1
  {
    RequestsUndisturbed(ws, steps, id) && TransactionsUndisturbed(ws, steps, id)
  }

  function History(w: World, id: SecretId): seq<VersionRow> {
    HistoryOf(w.db.versions, id)
  }

  // ---- What a commit does to one secret ----

  predicate Same(a: Db, b: Db, id: SecretId)
    requires Exists(a, id)
  {
    Exists(b, id) && b.rows[id] == a.rows[id] && HistoryOf(b.versions, id) == HistoryOf(a.versions, id)
  }

  /** The row gets the new ciphertext and the row that was read is saved: it need not be the one replaced. */
  predicate Replaced(a: Db, b: Db, id: SecretId, p: Part)
    requires Exists(a, id)
  {
    && Exists(b, id) && b.rows[id] == a.rows[id].(cipher := p.cipher, version := a.rows[id].version + 1)
    && HistoryOf(b.versions, id) == HistoryOf(a.versions, id) + [Snapshot(id, p.row)]
  }

  predicate Removed(a: Db, b: Db, id: SecretId)
    requires Exists(a, id)
  {
    && Exists(b, id) && b.rows[id] == a.rows[id].(deleted := true)
    && HistoryOf(b.versions, id) == HistoryOf(a.versions, id)
  }

  /** Version rows belong to secrets. */
  predicate Rooted(db: Db) {
    forall k :: 0 <= k < |db.versions| ==> db.versions[k].secret < |db.rows|
  }

  /** Histories may be anything. */
  predicate Tables(db: Db) {
    UniqueKeys(db.rows) && Rooted(db)
  }

  /** A secret that is new starts at version 1 without history. */
  predicate NewAreFresh(a: Db, b: Db) {
    && |a.rows| <= |b.rows|
    && forall id :: |a.rows| <= id < |b.rows| ==> b.rows[id].version == 1 && HistoryOf(b.versions, id) == []
  }

  /** No secret twice. */
  predicate Distinct(parts: seq<Part>) {
    parts == [] || (PartFor(parts[..|parts| - 1], parts[|parts| - 1].id).None? && Distinct(parts[..|parts| - 1]))
  }

  lemma {:induction false} WrittenOnSecret(db: Db, parts: seq<Part>, id: SecretId)
    requires Distinct(parts) && Exists(db, id)
    ensures var d := Written(db, parts);
            match PartFor(parts, id) case None => Same(db, d, id) case Some(p) => Replaced(db, d, id, p)
  {
    if parts == [] {
    } else {
      var n := |parts| - 1;
      WrittenOnSecret(db, parts[..n], id);
      HistoryGrows(Written(db, parts[..n]).versions, Snapshot(parts[n].id, parts[n].row), id);
      hide HistoryOf;
    }
  }

  lemma {:induction false} WrittenKeepsTables(db: Db, parts: seq<Part>)
    requires Rooted(db)
    ensures Rooted(Written(db, parts))
    ensures forall i :: 0 <= i < |db.rows| ==>
              var row := Written(db, parts).rows[i]; row.env == db.rows[i].env && row.key == db.rows[i].key
  {
    if parts == [] {
    } else {
      WrittenKeepsTables(db, parts[..|parts| - 1]);
    }
  }

  /** A commit keeps the tables sound, replaces each secret its parts name once, and leaves the others alone. */
  lemma CommitOnSecret(db: Db, parts: seq<Part>, added: seq<Row>, id: SecretId)
    requires Distinct(parts) && Exists(db, id)
    ensures var d := Committed(db, parts, added);
            match PartFor(parts, id) case None => Same(db, d, id) case Some(p) => Replaced(db, d, id, p)
  {
    WrittenOnSecret(db, parts, id);
    hide HistoryOf, Written, PartFor;
  }

  lemma NothingFits(db: Db)
    requires UniqueKeys(db.rows)
    ensures Fits(db, [])
  {
    assert db.rows + [] == db.rows;
  }

  lemma CommitKeepsTables(db: Db, parts: seq<Part>, added: seq<Row>)
    requires Tables(db) && Fits(db, added)
    ensures Tables(Committed(db, parts, added)) && NewAreFresh(db, Committed(db, parts, added))
  {
    WrittenKeepsTables(db, parts);
    hide Written;
    var d, g := Written(db, parts), Committed(db, parts, added);
    forall i, j | 0 <= i < j < |g.rows| ensures g.rows[i].env != g.rows[j].env || g.rows[i].key != g.rows[j].key {
      var before := db.rows + added;
      assert before[i].env != before[j].env || before[i].key != before[j].key;
    }
    forall id | |db.rows| <= id < |g.rows| ensures g.rows[id].version == 1 && HistoryOf(g.versions, id) == [] {
      assert g.rows[id] == added[id - |db.rows|] && added[id - |db.rows|] in added;
      NoHistoryYet(g.versions, id);
    }
  }
}
