/** The rows of secrets and secret_versions, and the statements and transactions that write them.
    A secret's id is its position; rows are only ever added, changed in place or marked deleted. */
module SecretStore {
  import opened Text

  type SecretId = nat
  type EnvId = string
  type UserId = string

  datatype Cipher = Cipher(value: string, dek: string)

  datatype Row = Row(env: EnvId, key: string, cipher: Cipher, version: nat, createdBy: UserId, deleted: bool)

  datatype VersionRow = VersionRow(secret: SecretId, cipher: Cipher, version: nat, createdBy: UserId)

  datatype Db = Db(rows: seq<Row>, versions: seq<VersionRow>)

  predicate Exists(db: Db, id: SecretId) {
    id < |db.rows|
  }

  predicate Live(db: Db, id: SecretId) {
    id < |db.rows| && !db.rows[id].deleted
  }

  /** Some row, deleted or not, holds the key: the unique constraint looks at all of them. */
  predicate Taken(rows: seq<Row>, env: EnvId, key: string) {
    exists i :: 0 <= i < |rows| && rows[i].env == env && rows[i].key == key
  }

  /** The live row with this key, if there is one. */
  function Find(rows: seq<Row>, env: EnvId, key: string): (r: Option<SecretId>)
    ensures r.Some? ==>
        r.value < |rows| && rows[r.value].env == env && rows[r.value].key == key && !rows[r.value].deleted
    ensures r.None? ==> forall i :: 0 <= i < |rows| && rows[i].env == env && rows[i].key == key ==> rows[i].deleted
  {
    if rows == [] then None
    else
      var n := |rows| - 1;
      if rows[n].env == env && rows[n].key == key && !rows[n].deleted then Some(n)
      else Find(rows[..n], env, key)
  }

  function Snapshot(id: SecretId, row: Row): VersionRow {
    VersionRow(id, row.cipher, row.version, row.createdBy)
  }

  function Bumped(row: Row, cipher: Cipher): Row {
    row.(cipher := cipher, version := row.version + 1)
  }

  function NewRow(env: EnvId, user: UserId, key: string, cipher: Cipher): Row {
    Row(env, key, cipher, 1, user, false)
  }

  // ---- What each write does to the tables ----

  function Append(db: Db, row: Row): Db {
    db.(rows := db.rows + [row])
  }

  /** Saves the current version to history and replaces it. */
  function Bump(db: Db, id: SecretId, cipher: Cipher): Db
    requires Exists(db, id)
  {
    Db(db.rows[id := Bumped(db.rows[id], cipher)], db.versions + [Snapshot(id, db.rows[id])])
  }

  function MarkDeleted(db: Db, id: SecretId): Db {
    if Exists(db, id) then db.(rows := db.rows[id := db.rows[id].(deleted := true)]) else db
  }

  // ---- The history invariant ----

  /** The version rows of one secret, oldest first. */
  function HistoryOf(versions: seq<VersionRow>, id: SecretId): seq<VersionRow> {
    if versions == [] then []
    else
      var n := |versions| - 1;
      HistoryOf(versions[..n], id) + if versions[n].secret == id then [versions[n]] else []
  }

  predicate UniqueKeys(rows: seq<Row>) {
    forall i, j :: 0 <= i < j < |rows| ==> rows[i].env != rows[j].env || rows[i].key != rows[j].key
  }

  /** A secret at version v has exactly the history versions 1 to v - 1, each once and in order. */
  predicate HistoryFits(row: Row, history: seq<VersionRow>) {
    && row.version == |history| + 1
    && forall k :: 0 <= k < |history| ==> history[k].version == k + 1
  }

  predicate HistoryOk(db: Db) {
    && (forall id :: 0 <= id < |db.rows| ==> HistoryFits(db.rows[id], HistoryOf(db.versions, id)))
    && (forall k :: 0 <= k < |db.versions| ==> db.versions[k].secret < |db.rows|)
  }

  predicate DbInv(db: Db) {
    UniqueKeys(db.rows) && HistoryOk(db)
  }

  /** Later tables extend earlier ones: history is only added to, a version keeps its ciphertext for ever,
      and once it is replaced the history holds it. */
  predicate RowExtends(a: Row, past: seq<VersionRow>, b: Row, history: seq<VersionRow>) {
    && b.env == a.env && b.key == a.key && b.createdBy == a.createdBy
    && a.version <= b.version && past <= history
    && (a.version == b.version ==> b.cipher == a.cipher && history == past)
    && (a.version < b.version ==> 1 <= a.version <= |history| && history[a.version - 1].cipher == a.cipher)
  }

  predicate Extends(a: Db, b: Db) {
    && |a.rows| <= |b.rows|
    && forall id :: 0 <= id < |a.rows| ==>
         RowExtends(a.rows[id], HistoryOf(a.versions, id), b.rows[id], HistoryOf(b.versions, id))
  }

  lemma ExtendsTransitive(a: Db, b: Db, c: Db)
    requires Extends(a, b) && Extends(b, c)
    ensures Extends(a, c)
  {
    hide HistoryOf;
    forall id | 0 <= id < |a.rows|
      ensures RowExtends(a.rows[id], HistoryOf(a.versions, id), c.rows[id], HistoryOf(c.versions, id))
    {
      assert RowExtends(a.rows[id], HistoryOf(a.versions, id), b.rows[id], HistoryOf(b.versions, id));
      assert RowExtends(b.rows[id], HistoryOf(b.versions, id), c.rows[id], HistoryOf(c.versions, id));
    }
  }

  lemma HistoryGrows(versions: seq<VersionRow>, v: VersionRow, id: SecretId)
    ensures HistoryOf(versions + [v], id) == HistoryOf(versions, id) + if v.secret == id then [v] else []
  {
    assert (versions + [v])[..|versions|] == versions;
  }

  lemma {:induction false} NoHistoryYet(versions: seq<VersionRow>, id: SecretId)
    requires forall k :: 0 <= k < |versions| ==> versions[k].secret != id
    ensures HistoryOf(versions, id) == []
  {
    if versions == [] {
    } else {
      NoHistoryYet(versions[..|versions| - 1], id);
    }
  }

  lemma ExtendsItself(db: Db)
    requires DbInv(db)
    ensures Extends(db, db)
  {
  }

  lemma AppendKeepsHistory(db: Db, row: Row)
    requires DbInv(db) && row.version == 1 && !Taken(db.rows, row.env, row.key)
    ensures DbInv(Append(db, row)) && Extends(db, Append(db, row))
  {
    NoHistoryYet(db.versions, |db.rows|);
    hide HistoryOf;
    var g := Append(db, row);
    assert UniqueKeys(g.rows) by {
      forall i, j | 0 <= i < j < |g.rows| ensures g.rows[i].env != g.rows[j].env || g.rows[i].key != g.rows[j].key {
        assert g.rows[i] == db.rows[i];
      }
    }
    hide UniqueKeys, Taken;
    forall id | 0 <= id < |g.rows| ensures HistoryFits(g.rows[id], HistoryOf(g.versions, id)) {
      if id < |db.rows| {
        assert HistoryFits(db.rows[id], HistoryOf(db.versions, id));
      }
    }
  }

  lemma BumpKeepsHistory(db: Db, id: SecretId, cipher: Cipher)
    requires DbInv(db) && Exists(db, id)
    ensures DbInv(Bump(db, id, cipher)) && Extends(db, Bump(db, id, cipher))
  {
    var g := Bump(db, id, cipher);
    forall d | 0 <= d < |db.rows|
      ensures HistoryFits(g.rows[d], HistoryOf(g.versions, d))
      ensures RowExtends(db.rows[d], HistoryOf(db.versions, d), g.rows[d], HistoryOf(g.versions, d))
    {
      HistoryGrows(db.versions, Snapshot(id, db.rows[id]), d);
      assert HistoryFits(db.rows[d], HistoryOf(db.versions, d));
    }
    assert UniqueKeys(g.rows);
  }

  lemma DeleteKeepsHistory(db: Db, id: SecretId)
    requires DbInv(db)
    ensures DbInv(MarkDeleted(db, id)) && Extends(db, MarkDeleted(db, id))
  {
    hide HistoryOf;
  }

  // ---- The update handler: read, save, encrypt, update ----

  /** The tables after the save of the row that was read; an error of the save is dropped. */
  function SaveWrites(db: Db, id: SecretId, read: Row, saved: bool): Db {
    if saved && Exists(db, id) then db.(versions := db.versions + [Snapshot(id, read)]) else db
  }

  /** The tables after the update, which an error of the encryption prevents. */
  function UpdateWrites(db: Db, id: SecretId, encrypted: Option<Cipher>, updated: bool): Db {
    if encrypted.Some? && updated && Live(db, id)
    then db.(rows := db.rows[id := Bumped(db.rows[id], encrypted.value)])
    else db
  }

  /** The handler's writes with nobody else's between them. */
  function EditWrites(db: Db, id: SecretId, read: Row, saved: bool, encrypted: Option<Cipher>, updated: bool): Db {
    UpdateWrites(SaveWrites(db, id, read, saved), id, encrypted, updated)
  }

  /** What whole writes of others do to a secret between two statements of one edit: every version they replace
      joins the history. They may also delete it. */
  predicate OthersWrote(a: Db, b: Db, id: SecretId)
    requires Exists(a, id)
  {
    && Exists(b, id)
    && var past, history := HistoryOf(a.versions, id), HistoryOf(b.versions, id);
       && past <= history && |history| - |past| == b.rows[id].version - a.rows[id].version
       && forall k :: |past| <= k < |history| ==> history[k].version == a.rows[id].version + (k - |past|)
  }

  /** The tables at the save and those at the update are given separately. The secret's history ends up complete
      exactly when the save succeeds just in case the update takes effect, and the row that was read is the one
      current at the save and the one the update replaces. */
  lemma EditKeepsHistoryIff(db: Db, id: SecretId, read: Row, saved: bool, later: Db, encrypted: Option<Cipher>,
                            updated: bool)
    requires Exists(db, id) && HistoryFits(db.rows[id], HistoryOf(db.versions, id))
    requires OthersWrote(SaveWrites(db, id, read, saved), later, id)
    ensures var done := UpdateWrites(later, id, encrypted, updated);
            HistoryFits(done.rows[id], HistoryOf(done.versions, id))
            <==> saved == (encrypted.Some? && updated && Live(later, id))
                 && (saved ==> read.version == db.rows[id].version == later.rows[id].version)
  {
    HistoryGrows(db.versions, Snapshot(id, read), id);
    hide HistoryOf;
    var history := HistoryOf(later.versions, id);
    var v := db.rows[id].version;
    if saved {
      assert history[v - 1] == Snapshot(id, read);
      assert later.rows[id].version > v ==> history[v].version == v;
    }
  }

  lemma {:induction false} HistoryVersions(db: Db, id: SecretId, row: Row, versions: seq<VersionRow>)
    requires HistoryOk(db) && Exists(db, id)
    requires versions == db.versions + [Snapshot(id, row)]
    ensures |HistoryOf(versions, id)| == db.rows[id].version
    ensures HistoryOf(versions, id)[db.rows[id].version - 1] == Snapshot(id, row)
    ensures forall k :: 0 <= k < db.rows[id].version - 1 ==> HistoryOf(versions, id)[k].version == k + 1
    ensures forall d :: d != id ==> HistoryOf(versions, d) == HistoryOf(db.versions, d)
  {
    assert HistoryFits(db.rows[id], HistoryOf(db.versions, id));
    forall d: nat
      ensures HistoryOf(versions, d) == HistoryOf(db.versions, d) + if d == id then [Snapshot(id, row)] else []
    {
      HistoryGrows(db.versions, Snapshot(id, row), d);
    }
  }

  /** With nobody in between, for the tables as a whole. */
  lemma LoneEditKeepsHistoryIff(db: Db, id: SecretId, read: Row, saved: bool, encrypted: Option<Cipher>, updated: bool)
    requires HistoryOk(db) && Live(db, id)
    ensures HistoryOk(EditWrites(db, id, read, saved, encrypted, updated))
        <==> saved == (encrypted.Some? && updated) && (saved ==> read.version == db.rows[id].version)
  {
    var g := EditWrites(db, id, read, saved, encrypted, updated);
    assert HistoryFits(db.rows[id], HistoryOf(db.versions, id));
    if saved {
      HistoryVersions(db, id, read, g.versions);
    }
    hide HistoryOf, HistoryOk;
  }

  /** Failures of two edits can cancel out: one saves and then cannot encrypt, the next cannot save and updates. */
  lemma FailuresCanCancel(db: Db, id: SecretId, cipher: Cipher)
    requires HistoryOk(db) && Live(db, id)
    ensures var half := EditWrites(db, id, db.rows[id], true, None, true);
            !HistoryOk(half) && Live(half, id)
            && EditWrites(half, id, half.rows[id], false, Some(cipher), true) == Bump(db, id, cipher)
            && HistoryFits(Bump(db, id, cipher).rows[id], HistoryOf(Bump(db, id, cipher).versions, id))
  {
    LoneEditKeepsHistoryIff(db, id, db.rows[id], true, None, true);
    LoneEditKeepsHistoryIff(db, id, db.rows[id], true, Some(cipher), true);
    hide HistoryOf;
  }

  /** With the row just read and no failure, the handler is one save-and-replace. */
  lemma EditIsBump(db: Db, id: SecretId, cipher: Cipher)
    requires Live(db, id)
    ensures EditWrites(db, id, db.rows[id], true, Some(cipher), true) == Bump(db, id, cipher)
  {
  }

  // ---- The store ----

  class Store {
    var rows: seq<Row>
    var versions: seq<VersionRow>

    constructor ()
      ensures Contents() == Db([], [])
    {
      rows, versions := [], [];
    }

    function Contents(): Db
      reads this
    {
      Db(rows, versions)
    }

    method CreateSecret(env: EnvId, user: UserId, key: string, cipher: Cipher) returns (id: Option<SecretId>)
      modifies this
      ensures id.Some? <==> !Taken(old(rows), env, key)
      ensures id.Some? ==>
          id.value == |old(rows)| && Contents() == Append(old(Contents()), NewRow(env, user, key, cipher))
          && rows[id.value] == Row(env, key, cipher, 1, user, false)
      ensures id.None? ==> Contents() == old(Contents())
    {
      if Taken(rows, env, key) {
        return None;
      }
      id := Some(|rows|);
      rows := rows + [NewRow(env, user, key, cipher)];
    }

    method UpdateSecret(id: SecretId, cipher: Cipher) returns (updated: Option<Row>)
      modifies this
      ensures versions == old(versions)
      ensures updated.Some? <==> Live(old(Contents()), id)
      ensures updated.Some? ==>
          updated.value == old(rows)[id].(cipher := cipher, version := old(rows)[id].version + 1)
          && rows == old(rows)[id := updated.value]
      ensures updated.None? ==> rows == old(rows)
    {
      if id >= |rows| || rows[id].deleted {
        return None;
      }
      rows := rows[id := rows[id].(cipher := cipher, version := rows[id].version + 1)];
      updated := Some(rows[id]);
    }

    method SaveSecretVersion(id: SecretId, secret: Row)
      requires id < |rows|
      modifies this
      ensures Contents() == old(Contents()).(versions := old(versions) + [Snapshot(id, secret)])
      ensures Snapshot(id, secret) == VersionRow(id, secret.cipher, secret.version, secret.createdBy)
    {
      versions := versions + [VersionRow(id, secret.cipher, secret.version, secret.createdBy)];
    }

    method DeleteSecret(id: SecretId)
      modifies this
      ensures Contents() == MarkDeleted(old(Contents()), id)
      ensures id < |rows| ==> rows[id].deleted
    {
      if id < |rows| {
        rows := rows[id := rows[id].(deleted := true)];
      }
    }

    /** One transaction: it commits whole, or leaves the tables as they were. It does not ask whether
        the secret is deleted. */
    method RotateSecretValue(id: SecretId, cipher: Cipher, commits: bool) returns (ok: bool)
      modifies this
      ensures ok <==> Exists(old(Contents()), id) && commits
      ensures Contents() == if ok then Bump(old(Contents()), id, cipher) else old(Contents())
      ensures ok ==> rows == old(rows)[id := old(rows)[id].(cipher := cipher, version := old(rows)[id].version + 1)]
    {
      if id >= |rows| {
        return false;
      }
      var current := rows[id];
      var txVersions := versions + [VersionRow(id, current.cipher, current.version, current.createdBy)];
      var txRows := rows[id := rows[id].(cipher := cipher, version := rows[id].version + 1)];
      if !commits {
        return false;
      }
      rows, versions := txRows, txVersions;
      ok := true;
    }

    /** The update handler against this store, nothing else writing meanwhile. */
    method EditSecret(id: SecretId, saves: bool, encrypted: Option<Cipher>, updates: bool)
      returns (updated: Option<Row>)
      modifies this
      ensures !Live(old(Contents()), id) ==> updated.None? && Contents() == old(Contents())
      ensures Live(old(Contents()), id) ==>
                Contents() == EditWrites(old(Contents()), id, old(rows)[id], saves, encrypted, updates)
      ensures updated.Some? <==> Live(old(Contents()), id) && encrypted.Some? && updates
      ensures rows == if updated.None? then old(rows)
                      else old(rows)[id := old(rows)[id].(cipher := encrypted.value,
                                                          version := old(rows)[id].version + 1)]
    {
      if id >= |rows| || rows[id].deleted {
        return None;
      }
      var secret := rows[id];
      if saves {
        SaveSecretVersion(id, secret);
      }
      if encrypted.None? {
        return None;
      }
      if !updates {
        return None;
      }
      updated := UpdateSecret(id, encrypted.value);
    }
  }
}
