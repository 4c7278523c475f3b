/** Writes that nobody meets do what the serial operations do; writes that meet can lose a version. */
module EditScenarios {
  import opened Text
  import opened SecretStore
  import opened BulkImport
  import Serial = SecretHistory
  import opened EditRuns
  import opened EditTraces

  // ---- Writes that nobody meets ----

  lemma Nothing(w: World) returns (ws: seq<World>, steps: seq<Step>)
    ensures ws == [w] && steps == [] && IsRun(ws, steps)
  {
    ws, steps := [w], [];
  }

  lemma EmptyWorld(db: Db)
    requires DbInv(db)
    ensures WorldOk(World(db, map[], map[]))
  {
  }

  lemma Then(ws: seq<World>, steps: seq<Step>, step: Step) returns (vs: seq<World>, more: seq<Step>)
    requires IsRun(ws, steps) && Enabled(ws[|steps|], step)
    ensures vs == ws + [Next(ws[|steps|], step)] && more == steps + [step] && IsRun(vs, more)
  {
    vs, more := ws + [Next(ws[|steps|], step)], steps + [step];
  }

  lemma ReadAndSave(w: World, e: EditId, id: SecretId)
    requires WorldOk(w) && Live(w.db, id) && e !in w.edits
    ensures Enabled(w, Read(e, id)) && Enabled(Next(w, Read(e, id)), Save(e))
    ensures var x := Next(Next(w, Read(e, id)), Save(e));
            && WorldOk(x) && x.txs == w.txs && x.db.rows == w.db.rows
            && e in x.edits && x.edits[e] == Saved(id, w.db.rows[id])
            && History(x, id) == History(w, id) + [Snapshot(id, w.db.rows[id])]
  {
    hide HistoryOf, WorldOk;
    StepKeepsWorld(w, Read(e, id));
    StepKeepsWorld(Next(w, Read(e, id)), Save(e));
    HistoryGrows(w.db.versions, Snapshot(id, w.db.rows[id]), id);
  }

  lemma SelectHolds(w: World, t: TxId, id: SecretId, cipher: Cipher)
    requires WorldOk(w) && Exists(w.db, id) && t !in w.txs
    ensures Enabled(w, Select(t, id, cipher))
    ensures var x := Next(w, Select(t, id, cipher));
            && WorldOk(x) && x.db == w.db && History(x, id) == History(w, id)
            && x.edits == w.edits && x.txs.Keys == w.txs.Keys + {t}
            && !HasEnded(x, t) && Held(x, t, id) == Some(Part(id, w.db.rows[id], cipher))
            && forall u :: u in w.txs ==> HasEnded(x, u) == HasEnded(w, u) && Held(x, u, id) == Held(w, u, id)
  {
    hide WorldOk, PartFor;
    assert Held(w, t, id) == None by {
      EmptyHoldsNothing(w, t, id);
    }
    StepKeepsWorld(w, Select(t, id, cipher));
    StepOnTransaction(w, Select(t, id, cipher), t, id);
  }

  lemma EmptyHoldsNothing(w: World, t: TxId, id: SecretId)
    requires t !in w.txs
    ensures Held(w, t, id).None? && PartsOf(w, t) == []
  {
  }

  lemma RunsJoin(ws: seq<World>, steps: seq<Step>, vs: seq<World>, more: seq<Step>)
    requires IsRun(ws, steps) && IsRun(vs, more) && vs[0] == ws[|steps|]
    ensures IsRun(ws + vs[1..], steps + more) && (ws + vs[1..])[|steps + more|] == vs[|more|]
  {
    hide Enabled, Next;
    var us, all := ws + vs[1..], steps + more;
    forall i | 0 <= i < |all| ensures Enabled(us[i], all[i]) && us[i + 1] == Next(us[i], all[i]) {
      if i >= |steps| {
        assert us[i] == vs[i - |steps|] && us[i + 1] == vs[i + 1 - |steps|] && all[i] == more[i - |steps|];
      }
    }
  }

  /** What an item of an overwriting import replaces. */
  function PartsMet(db: Db, env: EnvId): Item -> seq<Part> {
    (item: Item) =>
      match Find(db.rows, env, item.key) case Some(id) => [Part(id, db.rows[id], item.cipher)] case None => []
  }

  lemma OneMorePart(db: Db, parts: seq<Part>, p: Part, added: seq<Row>)
    requires Exists(db, p.id) && p.row == Committed(db, parts, added).rows[p.id]
    ensures Committed(db, parts + [p], added) == Bump(Committed(db, parts, added), p.id, p.cipher)
  {
    assert (parts + [p])[..|parts|] == parts;
  }

  lemma OneMoreRow(db: Db, parts: seq<Part>, added: seq<Row>, row: Row)
    ensures Committed(db, parts, added + [row]) == Append(Committed(db, parts, added), row)
  {
  }

  /** One item of an import, on top of a commit of the items before it. */
  lemma ItemIsPart(db: Db, env: EnvId, user: UserId, item: Item, overwrite: bool, so: Outcome, parts: seq<Part>,
                   added: seq<Row>)
    requires so.Imported? && so.db == Committed(db, parts, added)
    requires ImportOne(so, env, user, item, overwrite).Imported?
    requires Find(so.db.rows, env, item.key) == Find(db.rows, env, item.key)
    requires Taken(so.db.rows, env, item.key) <==> Taken(db.rows, env, item.key)
    requires var r := Find(db.rows, env, item.key); r.Some? ==> so.db.rows[r.value] == db.rows[r.value]
    ensures ImportOne(so, env, user, item, overwrite).db
         == Committed(db, parts + if overwrite then PartsMet(db, env)(item) else [],
                      added + RowsAdded(db, env, user)(item))
  {
    hide Find, Taken, Committed, Bump, Append;
    match Find(db.rows, env, item.key) {
      case Some(id) =>
        TakenOrNone(db.rows, env, item.key);
        assert added + [] == added;
        if overwrite {
          OneMorePart(db, parts, Part(id, db.rows[id], item.cipher), added);
        } else {
          assert parts + [] == parts;
        }
      case None =>
        assert parts + [] == parts;
        OneMoreRow(db, parts, added, NewRow(env, user, item.key, item.cipher));
    }
  }

  lemma NothingCommitted(db: Db)
    ensures Committed(db, [], []) == db
  {
    assert db.rows + [] == db.rows;
  }

  /** An import that nobody meets is one commit: of the rows it met, if it overwrites, and of those it adds. */
  lemma {:induction false} ImportIsCommit(db: Db, env: EnvId, user: UserId, items: seq<Item>, overwrite: bool)
    requires UniqueKeys(db.rows) && DistinctKeys(items) && ImportItems(db, env, user, items, overwrite).Imported?
    ensures ImportItems(db, env, user, items, overwrite).db
         == Committed(db, if overwrite then FlatMap(PartsMet(db, env), items) else [],
                      FlatMap(RowsAdded(db, env, user), items))
  {
    hide Find, Taken, Describes, Committed, UniqueKeys;
    if items == [] {
      NothingCommitted(db);
    } else {
      var n := |items| - 1;
      var so := ImportItems(db, env, user, items[..n], overwrite);
      ImportIsCommit(db, env, user, items[..n], overwrite);
      ImportDescribed(db, env, user, items[..n], overwrite);
      ImportKeepsUnique(db, env, user, items[..n], overwrite);
      OtherKeysUntouched(db, env, user, items[..n], overwrite, so, items[n].key);
      SameForFinds(db.rows, so.db.rows, env, items[n].key);
      var parts := if overwrite then FlatMap(PartsMet(db, env), items[..n]) else [];
      assert !overwrite ==> parts + [] == [];
      ItemIsPart(db, env, user, items[n], overwrite, so, parts, FlatMap(RowsAdded(db, env, user), items[..n]));
    }
  }

  /** The parts of an import name live rows, each once, as they are. */
  lemma {:induction false} PartsMetFit(db: Db, env: EnvId, items: seq<Item>)
    requires DistinctKeys(items)
    ensures Distinct(FlatMap(PartsMet(db, env), items))
    ensures forall p :: p in FlatMap(PartsMet(db, env), items) ==>
              Exists(db, p.id) && p.row == db.rows[p.id] && exists item :: item in items && item.key == p.row.key
  {
    if items == [] {
    } else {
      var n := |items| - 1;
      PartsMetFit(db, env, items[..n]);
      var parts := FlatMap(PartsMet(db, env), items[..n]);
      var more := PartsMet(db, env)(items[n]);
      forall p: Part | p in parts + more
        ensures Exists(db, p.id) && p.row == db.rows[p.id] && exists item :: item in items && item.key == p.row.key
      {
        if p in parts {
          var item :| item in items[..n] && item.key == p.row.key;
          assert item in items;
        } else {
          assert items[n] in items;
        }
      }
      if more != [] {
        assert (parts + more)[..|parts|] == parts;
        NotRead(parts, more[0].id);
      } else {
        assert parts + more == parts;
      }
    }
  }

  lemma {:induction false} NotRead(parts: seq<Part>, id: SecretId)
    requires forall p :: p in parts ==> p.id != id
    ensures PartFor(parts, id).None?
  {
    if parts == [] {
    } else {
      NotRead(parts[..|parts| - 1], id);
    }
  }

  lemma {:induction false} SelectAll(w: World, t: TxId, parts: seq<Part>) returns (ws: seq<World>, steps: seq<Step>)
    requires t !in w.txs && Distinct(parts)
    requires forall p :: p in parts ==> Exists(w.db, p.id) && p.row == w.db.rows[p.id]
    ensures IsRun(ws, steps) && |ws| == |steps| + 1 && ws[0] == w
    ensures var x := ws[|steps|];
            && x.db == w.db && x.edits == w.edits && x.txs.Keys <= w.txs.Keys + {t}
            && PartsOf(x, t) == parts && !HasEnded(x, t)
  {
    if parts == [] {
      ws, steps := Nothing(w);
    } else {
      var n := |parts| - 1;
      assert parts[n] in parts && parts == parts[..n] + [parts[n]];
      ws, steps := SelectAll(w, t, parts[..n]);
      hide IsRun;
      ws, steps := Then(ws, steps, Select(t, parts[n].id, parts[n].cipher));
    }
  }

  /** A transaction that nobody meets. */
  lemma LoneTransaction(w: World, t: TxId, parts: seq<Part>, added: seq<Row>)
    returns (ws: seq<World>, steps: seq<Step>)
    requires t !in w.txs && Distinct(parts) && Fits(w.db, added)
    requires forall p :: p in parts ==> Exists(w.db, p.id) && p.row == w.db.rows[p.id]
    ensures IsRun(ws, steps) && |ws| == |steps| + 1 && ws[0] == w
    ensures var x := ws[|steps|];
            x.db == Committed(w.db, parts, added) && x.edits == w.edits && x.txs.Keys <= w.txs.Keys + {t}
  {
    hide IsRun, Distinct, Fits, Committed;
    ws, steps := SelectAll(w, t, parts);
    ws, steps := Then(ws, steps, Commit(t, added));
  }

  lemma LoneEdit(w: World, e: EditId, id: SecretId, cipher: Cipher) returns (ws: seq<World>, steps: seq<Step>)
    requires e !in w.edits && Live(w.db, id)
    ensures IsRun(ws, steps) && |ws| == |steps| + 1 && ws[0] == w
    ensures var x := ws[|steps|];
            && x.db == EditWrites(w.db, id, w.db.rows[id], true, Some(cipher), true)
            && x.edits.Keys <= w.edits.Keys + {e} && x.txs == w.txs
  {
    hide IsRun;
    ws, steps := Nothing(w);
    ws, steps := Then(ws, steps, Read(e, id));
    ws, steps := Then(ws, steps, Save(e));
    ws, steps := Then(ws, steps, Update(e, cipher));
  }

  lemma AddedFit(db: Db, env: EnvId, user: UserId, items: seq<Item>, overwrite: bool)
    requires UniqueKeys(db.rows) && DistinctKeys(items) && ImportItems(db, env, user, items, overwrite).Imported?
    ensures Fits(db, FlatMap(RowsAdded(db, env, user), items))
  {
    hide ImportItems, FlatMap, DistinctKeys, Describes;
    var r := ImportItems(db, env, user, items, overwrite);
    var added := FlatMap(RowsAdded(db, env, user), items);
    ImportDescribed(db, env, user, items, overwrite);
    DescribesRows(db, env, user, items, overwrite, r);
    ImportKeepsUnique(db, env, user, items, overwrite);
    forall i | 0 <= i < |added| ensures added[i].version == 1 {
      Serial.AddedStartAtOne(db, env, user, items, i);
    }
    var all := db.rows + added;
    forall i | 0 <= i < |all| ensures all[i].env == r.db.rows[i].env && all[i].key == r.db.rows[i].key {
      if i < |db.rows| {
        assert RowAfter(db.rows[i], env, items, overwrite, r.db.rows[i]);
        KeyKept(db.rows[i], env, items, overwrite, r.db.rows[i]);
      } else {
        assert all[i] == r.db.rows[|db.rows|..][i - |db.rows|];
      }
    }
  }

  lemma KeyKept(row: Row, env: EnvId, items: seq<Item>, overwrite: bool, after: Row)
    requires RowAfter(row, env, items, overwrite, after)
    ensures after.env == row.env && after.key == row.key
  {
    if item :| item in items && overwrite && Hits(row, env, item.key) {
      assert after == Bumped(row, item.cipher);
    }
  }

  /** Any operation that nobody meets does here what it does as one whole step. */
  lemma OperationIsARun(w: World, op: Serial.Op, e: EditId, t: TxId) returns (ws: seq<World>, steps: seq<Step>)
    requires UniqueKeys(w.db.rows) && Serial.Allowed(op) && e !in w.edits && t !in w.txs
    ensures IsRun(ws, steps) && |ws| == |steps| + 1 && ws[0] == w
    ensures var x := ws[|steps|];
            && x.db == Serial.Apply(w.db, op)
            && x.edits.Keys <= w.edits.Keys + {e} && x.txs.Keys <= w.txs.Keys + {t}
  {
    hide IsRun, UniqueKeys, DistinctKeys, ImportItems, FlatMap, Committed, Fits, EditWrites, Taken;
    ws, steps := Nothing(w);
    match op {
      case Create(env, user, key, cipher) =>
        if !Taken(w.db.rows, env, key) {
          var row := NewRow(env, user, key, cipher);
          RowFits(w.db, row);
          ws, steps := LoneTransaction(w, t, [], [row]);
        }
      case Edit(id, cipher) =>
        if Live(w.db, id) {
          ws, steps := LoneEdit(w, e, id, cipher);
        }
      case Remove(id) =>
        ws, steps := Then(ws, steps, Step.Remove(id));
      case Rotate(id, cipher) =>
        if Exists(w.db, id) {
          NothingFits(w.db);
          PartIsBump(w.db, id, cipher);
          ws, steps := LoneTransaction(w, t, [Part(id, w.db.rows[id], cipher)], []);
        }
      case Import(env, user, items, overwrite) =>
        if ImportItems(w.db, env, user, items, overwrite).Imported? {
          ImportIsCommit(w.db, env, user, items, overwrite);
          PartsMetFit(w.db, env, items);
          AddedFit(w.db, env, user, items, overwrite);
          var parts := if overwrite then FlatMap(PartsMet(w.db, env), items) else [];
          ws, steps := LoneTransaction(w, t, parts, FlatMap(RowsAdded(w.db, env, user), items));
        }
    }
  }

  lemma RowFits(db: Db, row: Row)
    requires UniqueKeys(db.rows) && row.version == 1 && !Taken(db.rows, row.env, row.key)
    ensures Fits(db, [row]) && Committed(db, [], [row]) == Append(db, row)
  {
    var all := db.rows + [row];
    forall i, j | 0 <= i < j < |all| ensures all[i].env != all[j].env || all[i].key != all[j].key {
      assert all[i] == db.rows[i];
    }
  }

  lemma PartIsBump(db: Db, id: SecretId, cipher: Cipher)
    requires Exists(db, id)
    ensures Distinct([Part(id, db.rows[id], cipher)])
    ensures Committed(db, [Part(id, db.rows[id], cipher)], []) == Bump(db, id, cipher)
  {
    var p := Part(id, db.rows[id], cipher);
    assert [p][..0] == [];
    assert db.rows + [] == db.rows;
    OneMorePart(db, [], p, []);
    assert [] + [p] == [p];
  }

  /** Every serial run is a run of meeting writes. */
  lemma {:induction false} SerialRunIsARun(run: seq<Db>) returns (ws: seq<World>, steps: seq<Step>)
    requires Serial.IsRun(run)
    ensures IsRun(ws, steps) && |ws| == |steps| + 1 && ws[0] == World(Db([], []), map[], map[])
    ensures ws[|steps|].db == run[|run| - 1]
    ensures forall e :: e in ws[|steps|].edits ==> e < |run|
    ensures forall t :: t in ws[|steps|].txs ==> t < |run|
  {
    hide IsRun, Serial.Apply, Serial.Allowed, UniqueKeys, HistoryOk;
    var n := |run| - 1;
    if n == 0 {
      ws, steps := Nothing(World(Db([], []), map[], map[]));
    } else {
      assert Serial.IsRun(run[..n]) by {
        hide Serial.CanFollow;
      }
      Serial.RunKeepsHistory(run, n - 1);
      assert Serial.CanFollow(run[n - 1], run[n]);
      var op :| Serial.Allowed(op) && run[n] == Serial.Apply(run[n - 1], op);
      ws, steps := SerialRunIsARun(run[..n]);
      var vs, more := OperationIsARun(ws[|steps|], op, n, n);
      RunsJoin(ws, steps, vs, more);
      ws, steps := ws + vs[1..], steps + more;
    }
  }

  // ---- Writes that meet ----

  /** One way to lose a version: a commit that replaces the row that a request has saved saves it a second time. */
  lemma SaveThenCommit(w: World, e: EditId, t: TxId, id: SecretId, cipher: Cipher)
    requires WorldOk(w) && Exists(w.db, id) && e in w.edits && w.edits[e].Saved? && w.edits[e].id == id
    requires !HasEnded(w, t) && Held(w, t, id).Some? && Held(w, t, id).value.row == w.db.rows[id]
    requires Snapshot(id, w.db.rows[id]) in History(w, id)
    ensures Enabled(w, Commit(t, [])) && Enabled(Next(w, Commit(t, [])), Update(e, cipher))
    ensures var x := Next(Next(w, Commit(t, [])), Update(e, cipher));
            Exists(x.db, id) && !HistoryFits(x.db.rows[id], History(x, id))
  {
    NothingFits(w.db);
    var v := Next(w, Commit(t, []));
    StepKeepsWorld(w, Commit(t, []));
    assert Enabled(v, Update(e, cipher));
    var x := Next(v, Update(e, cipher));
    hide Tables, Held, Distinct, Fits, HasEnded, HistoryOf;
    StepHasEffect(w, Commit(t, []), id);
    StepHasEffect(v, Update(e, cipher), id);
    hide Next, WorldOk;
    var saved := Snapshot(id, w.db.rows[id]);
    assert History(x, id) == History(w, id) + [saved];
    var k :| 0 <= k < |History(w, id)| && History(w, id)[k] == saved;
    assert History(x, id)[k] == History(x, id)[|History(w, id)|] == saved;
  }

  lemma RotationInAWindow(db: Db, id: SecretId, a: Cipher, b: Cipher) returns (ws: seq<World>, steps: seq<Step>)
    requires DbInv(db) && Live(db, id)
    ensures IsRun(ws, steps) && ws[0] == World(db, map[], map[])
    ensures steps == [Read(0, id), Save(0), Select(0, id, a), Commit(0, []), Update(0, b)]
    ensures Exists(ws[5].db, id) && !HistoryFits(ws[5].db.rows[id], History(ws[5], id))
  {
    hide Next, Enabled, Held, HasEnded, WorldOk, History, HistoryFits, IsRun, DbInv;
    EmptyWorld(db);
    ws, steps := Nothing(World(db, map[], map[]));
    ReadAndSave(ws[0], 0, id);
    ws, steps := Then(ws, steps, Read(0, id));
    ws, steps := Then(ws, steps, Save(0));
    SelectHolds(ws[2], 0, id, a);
    ws, steps := Then(ws, steps, Select(0, id, a));
    SaveThenCommit(ws[3], 0, 0, id, b);
    ws, steps := Then(ws, steps, Commit(0, []));
    ws, steps := Then(ws, steps, Update(0, b));
  }

  /** Another: two transactions that have both read the current row save it twice. */
  lemma BothCommit(w: World, t: TxId, u: TxId, id: SecretId)
    requires WorldOk(w) && Exists(w.db, id) && t != u && !HasEnded(w, t) && !HasEnded(w, u)
    requires Held(w, t, id).Some? && Held(w, t, id).value.row == w.db.rows[id]
    requires Held(w, u, id).Some? && Held(w, u, id).value.row == w.db.rows[id]
    ensures Enabled(w, Commit(t, [])) && Enabled(Next(w, Commit(t, [])), Commit(u, []))
    ensures var x := Next(Next(w, Commit(t, [])), Commit(u, []));
            var saved := Snapshot(id, w.db.rows[id]);
            && Exists(x.db, id) && x.db.rows[id].version == w.db.rows[id].version + 2
            && History(x, id) == History(w, id) + [saved, saved]
            && !HistoryFits(x.db.rows[id], History(x, id))
  {
    NothingFits(w.db);
    var v := Next(w, Commit(t, []));
    StepKeepsWorld(w, Commit(t, []));
    NothingFits(v.db);
    var x := Next(v, Commit(u, []));
    StepOnTransaction(w, Commit(t, []), u, id);
    hide Tables, Held, Distinct, Fits, HasEnded, HistoryOf;
    StepHasEffect(w, Commit(t, []), id);
    StepHasEffect(v, Commit(u, []), id);
    hide Next, WorldOk;
    var saved := Snapshot(id, w.db.rows[id]);
    assert History(x, id) == History(w, id) + [saved, saved];
    assert History(x, id)[|History(w, id)|] == History(x, id)[|History(w, id)| + 1] == saved;
  }

  lemma TransactionsOverlap(db: Db, id: SecretId, a: Cipher, b: Cipher) returns (ws: seq<World>, steps: seq<Step>)
    requires DbInv(db) && Exists(db, id)
    ensures IsRun(ws, steps) && ws[0] == World(db, map[], map[])
    ensures steps == [Select(0, id, a), Select(1, id, b), Commit(0, []), Commit(1, [])]
    ensures Exists(ws[4].db, id) && ws[4].db.rows[id].version == db.rows[id].version + 2
    ensures var saved := Snapshot(id, db.rows[id]); History(ws[4], id) == History(ws[0], id) + [saved, saved]
    ensures !HistoryFits(ws[4].db.rows[id], History(ws[4], id))
  {
    hide Next, Enabled, Held, HasEnded, WorldOk, History, HistoryFits, IsRun, DbInv;
    EmptyWorld(db);
    ws, steps := Nothing(World(db, map[], map[]));
    SelectHolds(ws[0], 0, id, a);
    ws, steps := Then(ws, steps, Select(0, id, a));
    SelectHolds(ws[1], 1, id, b);
    ws, steps := Then(ws, steps, Select(1, id, b));
    BothCommit(ws[2], 0, 1, id);
    ws, steps := Then(ws, steps, Commit(0, []));
    ws, steps := Then(ws, steps, Commit(1, []));
  }
}
