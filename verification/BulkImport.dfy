/** The bulk import transaction, and an account of it in terms of the tables before it and the items alone, in which
    no order of the items appears. */
module BulkImport {
  import opened Text
  import opened SecretStore

  datatype Item = Item(key: string, cipher: Cipher)

  datatype Outcome = Imported(db: Db, created: nat, updated: nat, skipped: nat) | Aborted

  /** One item inside the transaction, after the items before it. */
  function ImportOne(so: Outcome, env: EnvId, user: UserId, item: Item, overwrite: bool): Outcome {
    match so
    case Aborted => Aborted
    case Imported(d, created, updated, skipped) =>
      match Find(d.rows, env, item.key)
      case Some(id) =>
        if overwrite then Imported(Bump(d, id, item.cipher), created, updated + 1, skipped)
        else Imported(d, created, updated, skipped + 1)
      case None =>
        if Taken(d.rows, env, item.key) then Aborted
        else Imported(Append(d, NewRow(env, user, item.key, item.cipher)), created + 1, updated, skipped)
  }

  function ImportItems(db: Db, env: EnvId, user: UserId, items: seq<Item>, overwrite: bool): Outcome {
    if items == [] then Imported(db, 0, 0, 0)
    else
      var n := |items| - 1;
      ImportOne(ImportItems(db, env, user, items[..n], overwrite), env, user, items[n], overwrite)
  }

  lemma {:induction false} AbortSticks(db: Db, env: EnvId, user: UserId, items: seq<Item>, overwrite: bool, i: nat)
    requires i <= |items| && ImportItems(db, env, user, items[..i], overwrite).Aborted?
    ensures ImportItems(db, env, user, items, overwrite).Aborted?
  {
    if i == |items| {
      assert items[..i] == items;
    } else {
      var n := |items| - 1;
      assert items[..n][..i] == items[..i];
      AbortSticks(db, env, user, items[..n], overwrite, i);
    }
  }

  /** The transaction: nothing is written unless every item was, and the commit goes through. */
  method BulkImportSecrets(store: Store, env: EnvId, user: UserId, items: seq<Item>, overwrite: bool, commits: bool)
    returns (result: Option<(nat, nat, nat)>)
    modifies store
    ensures var outcome := ImportItems(old(store.Contents()), env, user, items, overwrite);
            if outcome.Imported? && commits
            then store.Contents() == outcome.db && result == Some((outcome.created, outcome.updated, outcome.skipped))
            else store.Contents() == old(store.Contents()) && result == None
  {
    ghost var before := store.Contents();
    var rows, versions := store.rows, store.versions;
    var created, updated, skipped := 0, 0, 0;
    for i := 0 to |items|
      invariant store.Contents() == before
      invariant ImportItems(before, env, user, items[..i], overwrite)
             == Imported(Db(rows, versions), created, updated, skipped)
    {
      var item := items[i];
      assert items[..i + 1][..i] == items[..i];
      match Find(rows, env, item.key) {
        case Some(id) =>
          if overwrite {
            versions := versions + [VersionRow(id, rows[id].cipher, rows[id].version, rows[id].createdBy)];
            rows := rows[id := rows[id].(cipher := item.cipher, version := rows[id].version + 1)];
            updated := updated + 1;
          } else {
            skipped := skipped + 1;
          }
        case None =>
          if Taken(rows, env, item.key) {
            AbortSticks(before, env, user, items, overwrite, i + 1);
            return None;
          }
          rows := rows + [Row(env, item.key, item.cipher, 1, user, false)];
          created := created + 1;
      }
    }
    assert items[..|items|] == items;
    if !commits {
      return None;
    }
    store.rows, store.versions := rows, versions;
    result := Some((created, updated, skipped));
  }

  // ---- What the import does, without its order ----

  predicate DistinctKeys(items: seq<Item>) {
    forall i, j :: 0 <= i < j < |items| ==> items[i].key != items[j].key
  }

  /** The key belongs to a deleted row: no live row answers the query, and the insert breaks the constraint. */
  predicate Blocked(rows: seq<Row>, env: EnvId, key: string) {
    Find(rows, env, key).None? && Taken(rows, env, key)
  }

  predicate Hits(row: Row, env: EnvId, key: string) {
    row.env == env && row.key == key && !row.deleted
  }

  function FlatMap<A, B>(f: A -> seq<B>, s: seq<A>): seq<B> {
    if s == [] then [] else FlatMap(f, s[..|s| - 1]) + f(s[|s| - 1])
  }

  /** The row an item adds, if any. */
  function RowsAdded(db: Db, env: EnvId, user: UserId): Item -> seq<Row> {
    (item: Item) => if Taken(db.rows, env, item.key) then [] else [NewRow(env, user, item.key, item.cipher)]
  }

  /** The row whose key an item meets, if any. */
  function Met(db: Db, env: EnvId): Item -> seq<VersionRow> {
    (item: Item) => match Find(db.rows, env, item.key) case Some(id) => [Snapshot(id, db.rows[id])] case None => []
  }

  /** An existing row after the import. */
  predicate RowAfter(row: Row, env: EnvId, items: seq<Item>, overwrite: bool, after: Row) {
    && (forall item :: item in items && overwrite && Hits(row, env, item.key) ==>
          after == row.(cipher := item.cipher, version := row.version + 1))
    && ((forall item :: item in items && overwrite ==> !Hits(row, env, item.key)) ==> after == row)
  }

  predicate RowsAfter(db: Db, env: EnvId, items: seq<Item>, overwrite: bool, rows: seq<Row>) {
    && |rows| >= |db.rows|
    && forall i :: 0 <= i < |db.rows| ==> RowAfter(db.rows[i], env, items, overwrite, rows[i])
  }

  /** Success, tables and counts in terms of the tables before and the items alone. */
  predicate Describes(db: Db, env: EnvId, user: UserId, items: seq<Item>, overwrite: bool, r: Outcome) {
    var met := FlatMap(Met(db, env), items);
    && (r.Aborted? <==> exists item :: item in items && Blocked(db.rows, env, item.key))
    && (r.Imported? ==>
          && RowsAfter(db, env, items, overwrite, r.db.rows)
          && r.db.rows[|db.rows|..] == FlatMap(RowsAdded(db, env, user), items)
          && r.db.versions == db.versions + (if overwrite then met else [])
          && r.created == |FlatMap(RowsAdded(db, env, user), items)|
          && r.updated == (if overwrite then |met| else 0)
          && r.skipped == (if overwrite then 0 else |met|)
          && r.created + r.updated + r.skipped == |items|)
  }

  /** With unique keys the query finds the one live row that holds the key. */
  lemma FindIsUnique(rows: seq<Row>, env: EnvId, key: string, id: SecretId)
    requires UniqueKeys(rows) && id < |rows| && Hits(rows[id], env, key)
    ensures Find(rows, env, key) == Some(id)
  {
    var r := Find(rows, env, key);
    assert r.Some? && Hits(rows[r.value], env, key);
  }

  lemma TakenOrNone(rows: seq<Row>, env: EnvId, key: string)
    ensures Find(rows, env, key).Some? ==> Taken(rows, env, key)
  {
  }

  /** Tables that differ only in other keys answer the query for this one alike. */
  predicate SameFor(rows: seq<Row>, now: seq<Row>, env: EnvId, key: string) {
    && |rows| <= |now|
    && (forall i :: 0 <= i < |rows| ==>
          now[i].env == rows[i].env && now[i].key == rows[i].key && now[i].deleted == rows[i].deleted)
    && (forall i :: 0 <= i < |rows| && rows[i].env == env && rows[i].key == key ==> now[i] == rows[i])
    && (forall i :: |rows| <= i < |now| ==> now[i].key != key)
  }

  lemma SameForFinds(rows: seq<Row>, now: seq<Row>, env: EnvId, key: string)
    requires UniqueKeys(rows) && UniqueKeys(now) && SameFor(rows, now, env, key)
    ensures Find(now, env, key) == Find(rows, env, key)
    ensures Find(rows, env, key).Some? ==> now[Find(rows, env, key).value] == rows[Find(rows, env, key).value]
    ensures Taken(now, env, key) <==> Taken(rows, env, key)
  {
    var r := Find(rows, env, key);
    if r.Some? {
      FindIsUnique(now, env, key, r.value);
    } else {
      forall i | 0 <= i < |now| ensures !Hits(now[i], env, key) {
        assert i < |rows| ==> !Hits(rows[i], env, key);
      }
    }
    if Taken(rows, env, key) {
      var i :| 0 <= i < |rows| && rows[i].env == env && rows[i].key == key;
      assert now[i].key == key;
    }
    if Taken(now, env, key) {
      var i :| 0 <= i < |now| && now[i].env == env && now[i].key == key;
      assert i < |rows|;
    }
  }

  lemma {:induction false} AddedKeys(db: Db, env: EnvId, user: UserId, items: seq<Item>, i: nat)
    requires i < |FlatMap(RowsAdded(db, env, user), items)|
    ensures exists item :: item in items && item.key == FlatMap(RowsAdded(db, env, user), items)[i].key
  {
    if items == [] {
    } else {
      var n := |items| - 1;
      if i < |FlatMap(RowsAdded(db, env, user), items[..n])| {
        AddedKeys(db, env, user, items[..n], i);
        var item :| item in items[..n] && item.key == FlatMap(RowsAdded(db, env, user), items[..n])[i].key;
        assert item in items;
      } else {
        assert items[n] in items;
      }
    }
  }

  /** After the items before it, an item meets what it would have met first. */
  lemma OtherKeysUntouched(db: Db, env: EnvId, user: UserId, items: seq<Item>, overwrite: bool, r: Outcome, key: string)
    requires Describes(db, env, user, items, overwrite, r) && r.Imported?
    requires forall item :: item in items ==> item.key != key
    ensures SameFor(db.rows, r.db.rows, env, key)
  {
    var n := |db.rows|;
    var now := r.db.rows;
    hide Describes, FlatMap;
    assert RowsAfter(db, env, items, overwrite, now) && now[n..] == FlatMap(RowsAdded(db, env, user), items) by {
      DescribesRows(db, env, user, items, overwrite, r);
    }
    forall i | 0 <= i < n
      ensures now[i].env == db.rows[i].env && now[i].key == db.rows[i].key && now[i].deleted == db.rows[i].deleted
      ensures db.rows[i].env == env && db.rows[i].key == key ==> now[i] == db.rows[i]
    {
      assert RowAfter(db.rows[i], env, items, overwrite, now[i]);
      if exists item :: item in items && overwrite && Hits(db.rows[i], env, item.key) {
        var item :| item in items && overwrite && Hits(db.rows[i], env, item.key);
        assert now[i] == Bumped(db.rows[i], item.cipher);
      }
    }
    forall i | n <= i < |now| ensures now[i].key != key {
      assert now[i] == now[n..][i - n];
      AddedKeys(db, env, user, items, i - n);
    }
  }

  lemma DescribesRows(db: Db, env: EnvId, user: UserId, items: seq<Item>, overwrite: bool, r: Outcome)
    requires Describes(db, env, user, items, overwrite, r) && r.Imported?
    ensures RowsAfter(db, env, items, overwrite, r.db.rows)
    ensures r.db.rows[|db.rows|..] == FlatMap(RowsAdded(db, env, user), items)
  {
  }

  lemma {:induction false} ImportKeepsUnique(db: Db, env: EnvId, user: UserId, items: seq<Item>, overwrite: bool)
    requires UniqueKeys(db.rows)
    ensures var r := ImportItems(db, env, user, items, overwrite); r.Imported? ==> UniqueKeys(r.db.rows)
  {
    if items == [] {
    } else {
      var n := |items| - 1;
      ImportKeepsUnique(db, env, user, items[..n], overwrite);
      var so := ImportItems(db, env, user, items[..n], overwrite);
      hide ImportItems, Find;
      if so.Imported? {
        OneKeepsUnique(so, env, user, items[n], overwrite);
      }
    }
  }

  lemma OneKeepsUnique(so: Outcome, env: EnvId, user: UserId, item: Item, overwrite: bool)
    requires so.Imported? && UniqueKeys(so.db.rows)
    ensures var r := ImportOne(so, env, user, item, overwrite); r.Imported? ==> UniqueKeys(r.db.rows)
  {
    hide Find;
    var r := ImportOne(so, env, user, item, overwrite);
    if r.Imported? {
      forall i, j | 0 <= i < j < |r.db.rows|
        ensures r.db.rows[i].env != r.db.rows[j].env || r.db.rows[i].key != r.db.rows[j].key
      {
        assert i < |so.db.rows|;
      }
    }
  }

  lemma FlatMapOneMore<A, B>(f: A -> seq<B>, s: seq<A>, x: A)
    ensures FlatMap(f, s + [x]) == FlatMap(f, s) + f(x)
  {
    assert (s + [x])[..|s|] == s;
  }

  /** An item that meets a row under overwrite: that row alone changes. */
  lemma RowsAfterBump(db: Db, env: EnvId, items: seq<Item>, item: Item, rows: seq<Row>, id: SecretId)
    requires UniqueKeys(db.rows) && RowsAfter(db, env, items, true, rows)
    requires id < |db.rows| && Hits(db.rows[id], env, item.key) && rows[id] == db.rows[id]
    requires forall other :: other in items ==> other.key != item.key
    ensures RowsAfter(db, env, items + [item], true, rows[id := Bumped(rows[id], item.cipher)])
  {
    var all := items + [item];
    var now := rows[id := Bumped(rows[id], item.cipher)];
    forall i | 0 <= i < |db.rows| ensures RowAfter(db.rows[i], env, all, true, now[i]) {
      assert RowAfter(db.rows[i], env, items, true, rows[i]);
      assert forall other :: other in items ==> other in all;
      assert item in all;
      assert i != id ==> !Hits(db.rows[i], env, item.key);
    }
  }

  /** An item that changes no row there was. */
  lemma RowsAfterOther(db: Db, env: EnvId, items: seq<Item>, item: Item, overwrite: bool, rows: seq<Row>, now: seq<Row>)
    requires RowsAfter(db, env, items, overwrite, rows) && rows <= now
    requires forall i :: 0 <= i < |db.rows| && overwrite ==> !Hits(db.rows[i], env, item.key)
    ensures RowsAfter(db, env, items + [item], overwrite, now)
  {
    var all := items + [item];
    forall i | 0 <= i < |db.rows| ensures RowAfter(db.rows[i], env, all, overwrite, now[i]) {
      assert RowAfter(db.rows[i], env, items, overwrite, rows[i]);
      assert forall other :: other in items ==> other in all;
    }
  }

  lemma BlockedOneMore(db: Db, env: EnvId, items: seq<Item>, item: Item)
    ensures (exists x :: x in items + [item] && Blocked(db.rows, env, x.key))
       <==> (exists x :: x in items && Blocked(db.rows, env, x.key)) || Blocked(db.rows, env, item.key)
  {
    hide Blocked;
    var all := items + [item];
    assert forall x :: x in all <==> x in items || x == item;
  }

  lemma DescribeAborted(db: Db, env: EnvId, user: UserId, items: seq<Item>, item: Item, overwrite: bool)
    requires Describes(db, env, user, items, overwrite, Aborted)
    ensures Describes(db, env, user, items + [item], overwrite, Aborted)
  {
    BlockedOneMore(db, env, items, item);
    hide Blocked, FlatMap;
  }

  lemma DescribeBlocked(db: Db, env: EnvId, user: UserId, items: seq<Item>, item: Item, overwrite: bool)
    requires Blocked(db.rows, env, item.key)
    ensures Describes(db, env, user, items + [item], overwrite, Aborted)
  {
    BlockedOneMore(db, env, items, item);
    hide Blocked, FlatMap;
  }

  lemma WhatMeetingDoes(db: Db, env: EnvId, user: UserId, item: Item, id: SecretId)
    requires Find(db.rows, env, item.key) == Some(id)
    ensures Met(db, env)(item) == [Snapshot(id, db.rows[id])] && RowsAdded(db, env, user)(item) == []
    ensures !Blocked(db.rows, env, item.key)
  {
    TakenOrNone(db.rows, env, item.key);
    hide Find, Taken;
  }

  lemma WhatAddingDoes(db: Db, env: EnvId, user: UserId, item: Item)
    requires !Taken(db.rows, env, item.key)
    ensures Met(db, env)(item) == [] && RowsAdded(db, env, user)(item) == [NewRow(env, user, item.key, item.cipher)]
    ensures !Blocked(db.rows, env, item.key) && Find(db.rows, env, item.key) == None
  {
    TakenOrNone(db.rows, env, item.key);
    hide Find, Taken;
  }

  /** The item meets the live row id. */
  lemma DescribeMet(db: Db, env: EnvId, user: UserId, items: seq<Item>, item: Item, overwrite: bool, so: Outcome,
                    id: SecretId)
    requires UniqueKeys(db.rows) && so.Imported? && Describes(db, env, user, items, overwrite, so)
    requires Find(db.rows, env, item.key) == Some(id) && Find(so.db.rows, env, item.key) == Some(id)
    requires so.db.rows[id] == db.rows[id]
    requires forall other :: other in items ==> other.key != item.key
    ensures Describes(db, env, user, items + [item], overwrite, ImportOne(so, env, user, item, overwrite))
  {
    hide FlatMap, Taken, Find, Blocked, RowsAdded, Met, RowAfter, RowsAfter, UniqueKeys;
    DescribesRows(db, env, user, items, overwrite, so);
    RowsAreMore(db, env, items, overwrite, so.db.rows);
    WhatMeetingDoes(db, env, user, item, id);
    FlatMapOneMore(Met(db, env), items, item);
    FlatMapOneMore(RowsAdded(db, env, user), items, item);
    BlockedOneMore(db, env, items, item);
    if overwrite {
      RowsAfterBump(db, env, items, item, so.db.rows, id);
      assert Bump(so.db, id, item.cipher).rows[|db.rows|..] == so.db.rows[|db.rows|..];
    } else {
      RowsAfterOther(db, env, items, item, overwrite, so.db.rows, so.db.rows);
    }
  }

  lemma RowsAreMore(db: Db, env: EnvId, items: seq<Item>, overwrite: bool, rows: seq<Row>)
    requires RowsAfter(db, env, items, overwrite, rows)
    ensures |rows| >= |db.rows|
  {
  }

  lemma NotTakenNotHit(rows: seq<Row>, env: EnvId, key: string)
    requires !Taken(rows, env, key)
    ensures forall i :: 0 <= i < |rows| ==> !Hits(rows[i], env, key)
  {
  }

  /** The item's key is new. */
  lemma DescribeNew(db: Db, env: EnvId, user: UserId, items: seq<Item>, item: Item, overwrite: bool, so: Outcome)
    requires so.Imported? && Describes(db, env, user, items, overwrite, so)
    requires !Taken(db.rows, env, item.key) && !Taken(so.db.rows, env, item.key)
    ensures Describes(db, env, user, items + [item], overwrite, ImportOne(so, env, user, item, overwrite))
  {
    hide FlatMap, Taken, Find, Blocked, RowsAdded, Met, RowAfter, RowsAfter, NewRow, Hits;
    DescribesRows(db, env, user, items, overwrite, so);
    RowsAreMore(db, env, items, overwrite, so.db.rows);
    WhatAddingDoes(db, env, user, item);
    WhatAddingDoes(so.db, env, user, item);
    FlatMapOneMore(Met(db, env), items, item);
    FlatMapOneMore(RowsAdded(db, env, user), items, item);
    BlockedOneMore(db, env, items, item);
    NotTakenNotHit(db.rows, env, item.key);
    var row := NewRow(env, user, item.key, item.cipher);
    RowsAfterOther(db, env, items, item, overwrite, so.db.rows, so.db.rows + [row]);
    assert (so.db.rows + [row])[|db.rows|..] == so.db.rows[|db.rows|..] + [row];
  }

  /** One more item, described from the tables before the import. */
  lemma DescribeOneMore(db: Db, env: EnvId, user: UserId, items: seq<Item>, item: Item, overwrite: bool, so: Outcome)
    requires UniqueKeys(db.rows) && Describes(db, env, user, items, overwrite, so)
    requires so.Imported? ==> UniqueKeys(so.db.rows)
    requires forall other :: other in items ==> other.key != item.key
    ensures Describes(db, env, user, items + [item], overwrite, ImportOne(so, env, user, item, overwrite))
  {
    hide Find, FlatMap, Taken, UniqueKeys, Describes;
    if so.Aborted? {
      DescribeAborted(db, env, user, items, item, overwrite);
    } else {
      OtherKeysUntouched(db, env, user, items, overwrite, so, item.key);
      SameForFinds(db.rows, so.db.rows, env, item.key);
      match Find(db.rows, env, item.key) {
        case Some(id) =>
          DescribeMet(db, env, user, items, item, overwrite, so, id);
        case None =>
          if Taken(db.rows, env, item.key) {
            DescribeBlocked(db, env, user, items, item, overwrite);
          } else {
            DescribeNew(db, env, user, items, item, overwrite, so);
          }
      }
    }
  }

  /** Each item acts on the tables as they were: the import is described without any order. */
  lemma {:induction false} ImportDescribed(db: Db, env: EnvId, user: UserId, items: seq<Item>, overwrite: bool)
    requires UniqueKeys(db.rows) && DistinctKeys(items)
    ensures Describes(db, env, user, items, overwrite, ImportItems(db, env, user, items, overwrite))
  {
    if items == [] {
      assert db.rows[|db.rows|..] == [] && db.versions + [] == db.versions;
    } else {
      var n := |items| - 1;
      ImportDescribed(db, env, user, items[..n], overwrite);
      ImportKeepsUnique(db, env, user, items[..n], overwrite);
      assert items == items[..n] + [items[n]];
      var so := ImportItems(db, env, user, items[..n], overwrite);
      DescribeOneMore(db, env, user, items[..n], items[n], overwrite, so);
    }
  }
}
