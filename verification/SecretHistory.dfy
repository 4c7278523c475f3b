/** Runs of creates, updates, deletes, rotations and imports, each one a whole step: what the history keeps,
    and what it says about the past. */
module SecretHistory {
  import opened Text
  import opened SecretStore
  import opened BulkImport

  datatype Op =
    | Create(env: EnvId, user: UserId, key: string, cipher: Cipher)
    | Edit(id: SecretId, cipher: Cipher)
    | Remove(id: SecretId)
    | Rotate(id: SecretId, cipher: Cipher)
    | Import(env: EnvId, user: UserId, items: seq<Item>, overwrite: bool)

  /** The tables after an operation none of whose steps fails. */
  function Apply(db: Db, op: Op): Db {
    match op
    case Create(env, user, key, cipher) =>
      if Taken(db.rows, env, key) then db else Append(db, NewRow(env, user, key, cipher))
    case Edit(id, cipher) =>
      if Live(db, id) then EditWrites(db, id, db.rows[id], true, Some(cipher), true) else db
    case Remove(id) => MarkDeleted(db, id)
    case Rotate(id, cipher) => if Exists(db, id) then Bump(db, id, cipher) else db
    case Import(env, user, items, overwrite) =>
      var r := ImportItems(db, env, user, items, overwrite);
      if r.Imported? then r.db else db
  }

  /** The items of an import come from a map, so their keys differ. */
  predicate Allowed(op: Op) {
    op.Import? ==> DistinctKeys(op.items)
  }

  lemma {:induction false} ImportKeepsHistory(db: Db, env: EnvId, user: UserId, items: seq<Item>, overwrite: bool)
    requires DbInv(db)
    ensures var r := ImportItems(db, env, user, items, overwrite); r.Imported? ==> DbInv(r.db) && Extends(db, r.db)
  {
    hide DbInv, Extends, Find, Taken;
    if items == [] {
      ExtendsItself(db);
    } else {
      var n := |items| - 1;
      ImportKeepsHistory(db, env, user, items[..n], overwrite);
      var so := ImportItems(db, env, user, items[..n], overwrite);
      if so.Imported? {
        OneKeepsHistory(so, env, user, items[n], overwrite);
        var r := ImportOne(so, env, user, items[n], overwrite);
        if r.Imported? {
          ExtendsTransitive(db, so.db, r.db);
        }
      }
    }
  }

  lemma OneKeepsHistory(so: Outcome, env: EnvId, user: UserId, item: Item, overwrite: bool)
    requires so.Imported? && DbInv(so.db)
    ensures var r := ImportOne(so, env, user, item, overwrite); r.Imported? ==> DbInv(r.db) && Extends(so.db, r.db)
  {
    hide DbInv, Extends, Find, Bump, Append, Taken;
    match Find(so.db.rows, env, item.key) {
      case Some(id) =>
        if overwrite {
          BumpKeepsHistory(so.db, id, item.cipher);
        } else {
          ExtendsItself(so.db);
        }
      case None =>
        if !Taken(so.db.rows, env, item.key) {
          AppendKeepsHistory(so.db, NewRow(env, user, item.key, item.cipher));
        }
    }
  }

  /** Every operation keeps the history complete and only adds to it. */
  lemma ApplyKeepsHistory(db: Db, op: Op)
    requires DbInv(db)
    ensures DbInv(Apply(db, op)) && Extends(db, Apply(db, op))
  {
    hide DbInv, Extends, Append, Bump, MarkDeleted, ImportItems, EditWrites, Taken;
    ExtendsItself(db);
    match op {
      case Create(env, user, key, cipher) =>
        if !Taken(db.rows, env, key) {
          AppendKeepsHistory(db, NewRow(env, user, key, cipher));
        }
      case Edit(id, cipher) =>
        if Live(db, id) {
          EditIsBump(db, id, cipher);
          BumpKeepsHistory(db, id, cipher);
        }
      case Remove(id) => DeleteKeepsHistory(db, id);
      case Rotate(id, cipher) =>
        if Exists(db, id) {
          BumpKeepsHistory(db, id, cipher);
        }
      case Import(env, user, items, overwrite) => ImportKeepsHistory(db, env, user, items, overwrite);
    }
  }

  // ---- Runs ----

  ghost predicate CanFollow(a: Db, b: Db) {
    exists op :: Allowed(op) && b == Apply(a, op)
  }

  ghost predicate IsRun(run: seq<Db>) {
    && run != [] && run[0] == Db([], [])
    && forall i :: 0 <= i < |run| - 1 ==> CanFollow(run[i], run[i + 1])
  }

  /** In every run a secret at version v has exactly the history versions 1 to v - 1, each once. */
  lemma {:induction false} RunKeepsHistory(run: seq<Db>, i: nat)
    requires IsRun(run) && i < |run|
    ensures DbInv(run[i])
  {
    hide Apply, DbInv;
    if i == 0 {
      EmptyIsFine();
    } else {
      RunKeepsHistory(run, i - 1);
      assert CanFollow(run[i - 1], run[i]);
      var op :| Allowed(op) && run[i] == Apply(run[i - 1], op);
      ApplyKeepsHistory(run[i - 1], op);
    }
  }

  lemma EmptyIsFine()
    ensures DbInv(Db([], []))
  {
  }

  lemma {:induction false} RunExtends(run: seq<Db>, i: nat, j: nat)
    requires IsRun(run) && i <= j < |run|
    ensures Extends(run[i], run[j])
    decreases j
  {
    hide Apply, DbInv, Extends;
    RunKeepsHistory(run, i);
    if i == j {
      ExtendsItself(run[i]);
    } else {
      RunKeepsHistory(run, j - 1);
      RunExtends(run, i, j - 1);
      assert CanFollow(run[j - 1], run[j]);
      var op :| Allowed(op) && run[j] == Apply(run[j - 1], op);
      ApplyKeepsHistory(run[j - 1], op);
      ExtendsTransitive(run[i], run[j - 1], run[j]);
    }
  }

  /** A ciphertext that was current at version k is row k of the history from its replacement on, whatever follows. */
  lemma OnceCurrentThenHistory(run: seq<Db>, i: nat, j: nat, id: SecretId)
    requires IsRun(run) && i <= j < |run| && id < |run[i].rows|
    ensures id < |run[j].rows|
    ensures var k := run[i].rows[id].version; var history := HistoryOf(run[j].versions, id);
            if k == run[j].rows[id].version then run[j].rows[id].cipher == run[i].rows[id].cipher
            else 1 <= k <= |history| && history[k - 1].version == k && history[k - 1].cipher == run[i].rows[id].cipher
  {
    RunExtends(run, i, j);
    RunKeepsHistory(run, j);
    assert RowExtends(run[i].rows[id], HistoryOf(run[i].versions, id), run[j].rows[id], HistoryOf(run[j].versions, id));
    assert HistoryFits(run[j].rows[id], HistoryOf(run[j].versions, id));
  }

  // ---- No version is skipped ----

  /** One operation moves a version on by at most one, and new secrets start at version 1. */
  predicate OneVersionAtATime(a: Db, b: Db) {
    && |a.rows| <= |b.rows|
    && (forall id :: 0 <= id < |a.rows| ==> a.rows[id].version <= b.rows[id].version <= a.rows[id].version + 1)
    && (forall id :: |a.rows| <= id < |b.rows| ==> b.rows[id].version == 1)
  }

  lemma {:induction false} AddedStartAtOne(db: Db, env: EnvId, user: UserId, items: seq<Item>, i: nat)
    requires i < |FlatMap(RowsAdded(db, env, user), items)|
    ensures FlatMap(RowsAdded(db, env, user), items)[i].version == 1
  {
    if items == [] {
    } else {
      var n := |items| - 1;
      if i < |FlatMap(RowsAdded(db, env, user), items[..n])| {
        AddedStartAtOne(db, env, user, items[..n], i);
      }
    }
  }

  lemma ImportMovesOne(db: Db, env: EnvId, user: UserId, items: seq<Item>, overwrite: bool)
    requires UniqueKeys(db.rows) && DistinctKeys(items)
    ensures var r := ImportItems(db, env, user, items, overwrite); r.Imported? ==> OneVersionAtATime(db, r.db)
  {
    var r := ImportItems(db, env, user, items, overwrite);
    ImportDescribed(db, env, user, items, overwrite);
    hide ImportItems, FlatMap, UniqueKeys, DistinctKeys, Describes;
    if r.Imported? {
      DescribesRows(db, env, user, items, overwrite, r);
      RowsAreMore(db, env, items, overwrite, r.db.rows);
      forall id | 0 <= id < |db.rows| ensures db.rows[id].version <= r.db.rows[id].version <= db.rows[id].version + 1 {
        RowMovesOne(db.rows[id], env, items, overwrite, r.db.rows[id]);
      }
      forall id | |db.rows| <= id < |r.db.rows| ensures r.db.rows[id].version == 1 {
        assert r.db.rows[id] == r.db.rows[|db.rows|..][id - |db.rows|];
        AddedStartAtOne(db, env, user, items, id - |db.rows|);
      }
    }
  }

  lemma RowMovesOne(row: Row, env: EnvId, items: seq<Item>, overwrite: bool, after: Row)
    requires RowAfter(row, env, items, overwrite, after)
    ensures row.version <= after.version <= row.version + 1
  {
    if item :| item in items && overwrite && Hits(row, env, item.key) {
      assert after == Bumped(row, item.cipher);
    } else {
      assert after == row;
    }
  }

  lemma ApplyMovesOne(db: Db, op: Op)
    requires UniqueKeys(db.rows) && Allowed(op)
    ensures OneVersionAtATime(db, Apply(db, op))
  {
    hide ImportItems, UniqueKeys, Taken;
    if op.Import? {
      hide OneVersionAtATime;
      ImportMovesOne(db, op.env, op.user, op.items, op.overwrite);
    }
  }

  predicate WasCurrent(db: Db, id: SecretId, row: VersionRow) {
    id < |db.rows| && db.rows[id].version == row.version && db.rows[id].cipher == row.cipher
  }

  /** Row k of the history holds a ciphertext that was the current one, at version k, in an earlier state. */
  lemma {:induction false} HistoryWasCurrent(run: seq<Db>, j: nat, id: SecretId, k: nat) returns (i: nat)
    requires IsRun(run) && j < |run| && id < |run[j].rows| && 1 <= k < run[j].rows[id].version
    ensures i < j && k <= |HistoryOf(run[j].versions, id)|
    ensures WasCurrent(run[i], id, HistoryOf(run[j].versions, id)[k - 1])
  {
    hide Apply;
    i := VersionWasReached(run, j, id, k);
    OnceCurrentThenHistory(run, i, j, id);
  }

  lemma {:induction false} VersionWasReached(run: seq<Db>, j: nat, id: SecretId, k: nat) returns (i: nat)
    requires IsRun(run) && j < |run| && id < |run[j].rows| && 1 <= k < run[j].rows[id].version
    ensures i < j && id < |run[i].rows| && run[i].rows[id].version == k
    decreases j
  {
    hide Apply, UniqueKeys, HistoryOk;
    RunKeepsHistory(run, j - 1);
    assert CanFollow(run[j - 1], run[j]);
    var op :| Allowed(op) && run[j] == Apply(run[j - 1], op);
    ApplyMovesOne(run[j - 1], op);
    if run[j - 1].rows[id].version == k {
      i := j - 1;
    } else {
      i := VersionWasReached(run, j - 1, id, k);
    }
  }
}
