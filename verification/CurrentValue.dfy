/** Which ciphertext is the current one: the one given last, in serial runs and in runs of meeting writes. */
module CurrentValue {
  import opened Text
  import opened SecretStore
  import opened BulkImport
  import Serial = SecretHistory
  import opened EditRuns
  import opened EditTraces

  // ---- Operations as whole steps ----

  /** The operation takes effect on the secret and gives it this ciphertext. */
  ghost predicate Gives(db: Db, op: Serial.Op, id: SecretId, cipher: Cipher) {
    match op
    case Create(env, _, key, c) => id == |db.rows| && !Taken(db.rows, env, key) && cipher == c
    case Edit(d, c) => d == id && Live(db, id) && cipher == c
    case Remove(_) => false
    case Rotate(d, c) => d == id && Exists(db, id) && cipher == c
    case Import(env, user, items, overwrite) =>
      var r := ImportItems(db, env, user, items, overwrite);
      && r.Imported?
      && exists item :: item in items && cipher == item.cipher &&
           if Exists(db, id) then overwrite && Hits(db.rows[id], env, item.key)
           else Exists(r.db, id) && !Taken(db.rows, env, item.key) && r.db.rows[id].key == item.key
  }

  /** What an operation gives is the current ciphertext after it; if it gives the secret none, the old one stays. */
  lemma GivenIsCurrent(db: Db, op: Serial.Op, id: SecretId)
    requires UniqueKeys(db.rows) && Serial.Allowed(op) && Exists(Serial.Apply(db, op), id)
    ensures forall cipher :: Gives(db, op, id, cipher) ==> Serial.Apply(db, op).rows[id].cipher == cipher
    ensures (forall cipher :: !Gives(db, op, id, cipher)) ==>
              Exists(db, id) && Serial.Apply(db, op).rows[id].cipher == db.rows[id].cipher
  {
    hide Taken, UniqueKeys, ImportItems, DistinctKeys;
    if op.Import? {
      ImportGives(db, op, id);
    } else if op.Create? {
      var after := Serial.Apply(db, op);
      assert id == |db.rows| && !Taken(db.rows, op.env, op.key) ==> Gives(db, op, id, op.cipher);
    } else if op.Edit? {
      assert op.id == id && Live(db, id) ==> Gives(db, op, id, op.cipher);
    } else if op.Rotate? {
      assert op.id == id && Exists(db, id) ==> Gives(db, op, id, op.cipher);
    }
  }

  lemma ImportGives(db: Db, op: Serial.Op, id: SecretId)
    requires UniqueKeys(db.rows) && op.Import? && DistinctKeys(op.items) && Exists(Serial.Apply(db, op), id)
    ensures forall cipher :: Gives(db, op, id, cipher) ==> Serial.Apply(db, op).rows[id].cipher == cipher
    ensures (forall cipher :: !Gives(db, op, id, cipher)) ==>
              Exists(db, id) && Serial.Apply(db, op).rows[id].cipher == db.rows[id].cipher
  {
    hide ImportItems, FlatMap, UniqueKeys, Taken, Describes, RowsAfter, DistinctKeys, Gives;
    var r := ImportItems(db, op.env, op.user, op.items, op.overwrite);
    ImportDescribed(db, op.env, op.user, op.items, op.overwrite);
    if r.Imported? {
      DescribesRows(db, op.env, op.user, op.items, op.overwrite, r);
      if Exists(db, id) {
        ImportGivesOld(db, op, id, r);
      } else {
        ImportGivesNew(db, op, id, r);
      }
    } else {
      NothingImported(db, op, id);
    }
  }

  lemma NothingImported(db: Db, op: Serial.Op, id: SecretId)
    requires op.Import? && ImportItems(db, op.env, op.user, op.items, op.overwrite).Aborted?
    ensures forall cipher :: !Gives(db, op, id, cipher)
  {
  }

  lemma ImportGivesOld(db: Db, op: Serial.Op, id: SecretId, r: Outcome)
    requires op.Import? && Exists(db, id) && r.Imported?
    requires r == ImportItems(db, op.env, op.user, op.items, op.overwrite)
    requires RowsAfter(db, op.env, op.items, op.overwrite, r.db.rows)
    ensures forall cipher :: Gives(db, op, id, cipher) ==> r.db.rows[id].cipher == cipher
    ensures (forall cipher :: !Gives(db, op, id, cipher)) ==> r.db.rows[id].cipher == db.rows[id].cipher
  {
    hide ImportItems, Taken;
    assert RowAfter(db.rows[id], op.env, op.items, op.overwrite, r.db.rows[id]);
    if item :| item in op.items && op.overwrite && Hits(db.rows[id], op.env, item.key) {
      assert Gives(db, op, id, item.cipher);
    }
  }

  lemma ImportGivesNew(db: Db, op: Serial.Op, id: SecretId, r: Outcome)
    requires op.Import? && DistinctKeys(op.items) && r.Imported? && |db.rows| <= id < |r.db.rows|
    requires r == ImportItems(db, op.env, op.user, op.items, op.overwrite)
    requires r.db.rows[|db.rows|..] == FlatMap(RowsAdded(db, op.env, op.user), op.items)
    ensures Gives(db, op, id, r.db.rows[id].cipher)
    ensures forall cipher :: Gives(db, op, id, cipher) ==> r.db.rows[id].cipher == cipher
  {
    hide ImportItems, Taken, FlatMap, DistinctKeys;
    assert r.db.rows[id] == r.db.rows[|db.rows|..][id - |db.rows|];
    var item := AddedFrom(db, op.env, op.user, op.items, id - |db.rows|);
    forall other | other in op.items && other.key == item.key ensures other == item {
      OneItemForAKey(op.items, item, other);
    }
  }

  lemma OneItemForAKey(items: seq<Item>, a: Item, b: Item)
    requires DistinctKeys(items) && a in items && b in items && a.key == b.key
    ensures a == b
  {
    var i :| 0 <= i < |items| && items[i] == a;
    var j :| 0 <= j < |items| && items[j] == b;
  }

  /** The item an added row is made from. */
  lemma {:induction false} AddedFrom(db: Db, env: EnvId, user: UserId, items: seq<Item>, i: nat) returns (item: Item)
    requires i < |FlatMap(RowsAdded(db, env, user), items)|
    ensures item in items && !Taken(db.rows, env, item.key)
    ensures FlatMap(RowsAdded(db, env, user), items)[i] == Row(env, item.key, item.cipher, 1, user, false)
  {
    var n := |items| - 1;
    if i < |FlatMap(RowsAdded(db, env, user), items[..n])| {
      item := AddedFrom(db, env, user, items[..n], i);
    } else {
      item := items[n];
    }
  }

  /** A run with the operations it is made of. */
  predicate IsSerialRun(run: seq<Db>, ops: seq<Serial.Op>) {
    && |run| == |ops| + 1 && run[0] == Db([], [])
    && forall i :: 0 <= i < |ops| ==> Serial.Allowed(ops[i]) && run[i + 1] == Serial.Apply(run[i], ops[i])
  }

  lemma {:induction false} SerialKeepsUnique(run: seq<Db>, ops: seq<Serial.Op>, i: nat)
    requires IsSerialRun(run, ops) && i < |run|
    ensures DbInv(run[i])
  {
    hide Serial.Apply, DbInv, Serial.Allowed;
    if i == 0 {
      Serial.EmptyIsFine();
    } else {
      SerialKeepsUnique(run, ops, i - 1);
      Serial.ApplyKeepsHistory(run[i - 1], ops[i - 1]);
    }
  }

  /** The current ciphertext of a secret is the one given by the last operation that gave it any: its creation, an
      edit, a rotation, or an item of an import. */
  lemma {:induction false} CurrentIsLastGiven(run: seq<Db>, ops: seq<Serial.Op>, j: nat, id: SecretId) returns (k: nat)
    requires IsSerialRun(run, ops) && j < |run| && Exists(run[j], id)
    ensures k < j && Gives(run[k], ops[k], id, run[j].rows[id].cipher)
    ensures forall i, cipher :: k < i < j ==> !Gives(run[i], ops[i], id, cipher)
    decreases j
  {
    hide Serial.Apply, Gives, DbInv, Serial.Allowed;
    var n := j - 1;
    SerialKeepsUnique(run, ops, n);
    KeysOf(run[n]);
    GivenIsCurrent(run[n], ops[n], id);
    if cipher :| Gives(run[n], ops[n], id, cipher) {
      k := n;
    } else {
      k := CurrentIsLastGiven(run, ops, n, id);
    }
  }

  lemma KeysOf(db: Db)
    requires DbInv(db)
    ensures UniqueKeys(db.rows)
  {
  }

  // ---- Requests and transactions that meet ----

  /** What a step makes the current ciphertext of a secret, if it takes effect on it. */
  function Given(w: World, step: Step, id: SecretId): Option<Cipher>
    requires Enabled(w, step)
  {
    match step
    case Update(e, cipher) => if w.edits[e].id == id && Live(w.db, id) then Some(cipher) else None
    case Commit(t, added) =>
      if !Exists(w.db, id) then
        if id < |w.db.rows| + |added| then Some(added[id - |w.db.rows|].cipher) else None
      else if Held(w, t, id).Some? then Some(Held(w, t, id).value.cipher)
      else None
    case _ => None
  }

  /** A step that gives a secret a ciphertext makes it current at once, and any other leaves the current one. */
  lemma StepGives(w: World, step: Step, id: SecretId)
    requires WorldOk(w) && Enabled(w, step) && Exists(Next(w, step).db, id)
    ensures var c := Next(w, step).db.rows[id].cipher;
            match Given(w, step, id)
            case Some(cipher) => c == cipher
            case None => Exists(w.db, id) && c == w.db.rows[id].cipher
  {
    hide HistoryOf, Held, Tables, Distinct, Fits, WorldOk;
    if Exists(w.db, id) {
      StepHasEffect(w, step, id);
      hide Next;
    }
  }

  /** The current ciphertext is the one of the last update, commit or creation that took effect on the secret. What a
      commit gives is what its transaction's query of the secret was for. */
  lemma {:induction false} CurrentIsLastWritten(ws: seq<World>, steps: seq<Step>, j: nat, id: SecretId)
    returns (k: nat)
    requires IsRun(ws, steps) && WorldOk(ws[0]) && !Exists(ws[0].db, id) && j < |ws| && Exists(ws[j].db, id)
    ensures k < j <= |steps| && (forall i :: k <= i < j ==> Enabled(ws[i], steps[i]))
    ensures Given(ws[k], steps[k], id) == Some(ws[j].db.rows[id].cipher)
    ensures forall i :: k < i < j ==> Given(ws[i], steps[i], id) == None
    ensures steps[k].Commit? && Exists(ws[k].db, id) ==>
              exists r :: 0 <= r < k && steps[r] == Select(steps[k].t, id, ws[j].db.rows[id].cipher)
    decreases j
  {
    hide Given, WorldOk, Enabled, Next, IsRun;
    RunLength(ws, steps);
    var n := j - 1;
    RunSteps(ws, steps, n);
    RunKeepsWorld(ws, steps, n);
    StepGives(ws[n], steps[n], id);
    if Given(ws[n], steps[n], id).Some? {
      k := n;
      if steps[n].Commit? && Exists(ws[n].db, id) {
        var r := QueryOfCommit(ws, steps, id, n);
      }
    } else {
      k := CurrentIsLastWritten(ws, steps, n, id);
    }
  }

  lemma RunSteps(ws: seq<World>, steps: seq<Step>, i: nat)
    requires IsRun(ws, steps) && i < |steps|
    ensures |ws| == |steps| + 1 && Enabled(ws[i], steps[i]) && ws[i + 1] == Next(ws[i], steps[i])
  {
  }

  lemma QueryOfCommit(ws: seq<World>, steps: seq<Step>, id: SecretId, n: nat) returns (r: nat)
    requires IsRun(ws, steps) && WorldOk(ws[0]) && !Exists(ws[0].db, id) && n < |steps| && n < |ws|
    requires Enabled(ws[n], steps[n]) && steps[n].Commit? && Exists(ws[n].db, id)
    requires Given(ws[n], steps[n], id).Some?
    ensures r < n && steps[r] == Select(steps[n].t, id, Given(ws[n], steps[n], id).value)
  {
    hide IsRun, Enabled, Held, Tables, Distinct;
    assert NothingHeld(ws[0], id);
    r := SelectBefore(ws, steps, id, n, steps[n].t);
  }
}
