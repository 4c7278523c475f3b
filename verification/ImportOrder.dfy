/** The import does not depend on the order in which the encryptions finish. */
module ImportOrder {
  import opened Text
  import opened SecretStore
  import opened BulkImport

  // ---- Permutations ----

  lemma {:induction false} FlatMapWithout<A, B>(f: A -> seq<B>, s: seq<A>, j: nat)
    requires j < |s|
    decreases |s|
    ensures multiset(FlatMap(f, s)) == multiset(FlatMap(f, s[..j] + s[j + 1..])) + multiset(f(s[j]))
  {
    var n := |s| - 1;
    var init, last := s[..n], s[n];
    assert s == init + [last];
    FlatMapOneMore(f, init, last);
    if j == n {
      assert s[..j] + s[j + 1..] == init;
    } else {
      FlatMapWithout(f, init, j);
      var rest := init[..j] + init[j + 1..];
      assert s[..j] + s[j + 1..] == rest + [last];
      FlatMapOneMore(f, rest, last);
    }
  }

  /** What a sequence maps to, as a multiset, only depends on the multiset mapped. */
  lemma {:induction false} FlatMapPermuted<A, B>(f: A -> seq<B>, s: seq<A>, t: seq<A>)
    requires multiset(s) == multiset(t)
    ensures multiset(FlatMap(f, s)) == multiset(FlatMap(f, t))
  {
    assert |multiset(s)| == |s| && |multiset(t)| == |t|;
    if s == [] {
    } else {
      var n := |s| - 1;
      assert s[n] in multiset(t);
      var j :| 0 <= j < |t| && t[j] == s[n];
      var rest := t[..j] + t[j + 1..];
      assert t == t[..j] + [t[j]] + t[j + 1..];
      assert s == s[..n] + [s[n]];
      assert multiset(rest) == multiset(t) - multiset{t[j]};
      assert multiset(s[..n]) == multiset(s) - multiset{s[n]};
      FlatMapPermuted(f, s[..n], rest);
      FlatMapWithout(f, t, j);
    }
  }

  lemma SameMembers<A>(s: seq<A>, t: seq<A>)
    requires multiset(s) == multiset(t)
    ensures forall x :: x in s <==> x in t
  {
    forall x ensures x in s <==> x in t {
      assert x in multiset(s) <==> x in multiset(t);
    }
  }

  // ---- Order-blindness ----

  /** Two outcomes that differ at most in which fresh id each new row and each new version row got. */
  predicate SameUpToFreshIds(db: Db, a: Outcome, b: Outcome) {
    && (a.Aborted? <==> b.Aborted?)
    && (a.Imported? && b.Imported? ==>
          && a.created == b.created && a.updated == b.updated && a.skipped == b.skipped
          && |a.db.rows| >= |db.rows| && |b.db.rows| >= |db.rows|
          && a.db.rows[..|db.rows|] == b.db.rows[..|db.rows|]
          && multiset(a.db.rows[|db.rows|..]) == multiset(b.db.rows[|db.rows|..])
          && |a.db.versions| >= |db.versions| && |b.db.versions| >= |db.versions|
          && a.db.versions[..|db.versions|] == b.db.versions[..|db.versions|] == db.versions
          && multiset(a.db.versions[|db.versions|..]) == multiset(b.db.versions[|db.versions|..]))
  }

  lemma RowAfterIsUnique(row: Row, env: EnvId, items: seq<Item>, permuted: seq<Item>, overwrite: bool, a: Row, b: Row)
    requires forall x :: x in items <==> x in permuted
    requires RowAfter(row, env, items, overwrite, a) && RowAfter(row, env, permuted, overwrite, b)
    ensures a == b
  {
    if item :| item in items && overwrite && Hits(row, env, item.key) {
      assert a == Bumped(row, item.cipher) && b == Bumped(row, item.cipher);
    } else {
      assert a == row && b == row;
    }
  }

  lemma OldRowsAgree(db: Db, env: EnvId, items: seq<Item>, permuted: seq<Item>, overwrite: bool, a: seq<Row>,
                     b: seq<Row>)
    requires forall x :: x in items <==> x in permuted
    requires RowsAfter(db, env, items, overwrite, a) && RowsAfter(db, env, permuted, overwrite, b)
    ensures |a| >= |db.rows| && |b| >= |db.rows| && a[..|db.rows|] == b[..|db.rows|]
  {
    forall i | 0 <= i < |db.rows| ensures a[i] == b[i] {
      RowAfterIsUnique(db.rows[i], env, items, permuted, overwrite, a[i], b[i]);
    }
  }

  /** What an import adds to a table, in two orders. */
  lemma AddedAlike<A, B>(f: A -> seq<B>, items: seq<A>, permuted: seq<A>)
    requires multiset(items) == multiset(permuted)
    ensures multiset(FlatMap(f, items)) == multiset(FlatMap(f, permuted))
    ensures |FlatMap(f, items)| == |FlatMap(f, permuted)|
  {
    FlatMapPermuted(f, items, permuted);
    assert |multiset(FlatMap(f, items))| == |FlatMap(f, items)|;
    assert |multiset(FlatMap(f, permuted))| == |FlatMap(f, permuted)|;
  }

  lemma DescribedAlike(db: Db, env: EnvId, user: UserId, items: seq<Item>, permuted: seq<Item>, overwrite: bool,
                       a: Outcome, b: Outcome)
    requires multiset(items) == multiset(permuted)
    requires Describes(db, env, user, items, overwrite, a) && Describes(db, env, user, permuted, overwrite, b)
    ensures SameUpToFreshIds(db, a, b)
  {
    hide FlatMap, Blocked, RowsAdded, Met, RowAfter, RowsAfter;
    SameMembers(items, permuted);
    if a.Imported? && b.Imported? {
      OldRowsAgree(db, env, items, permuted, overwrite, a.db.rows, b.db.rows);
      AddedAlike(RowsAdded(db, env, user), items, permuted);
      AddedAlike(Met(db, env), items, permuted);
      assert a.db.versions[|db.versions|..] == if overwrite then FlatMap(Met(db, env), items) else [];
      assert b.db.versions[|db.versions|..] == if overwrite then FlatMap(Met(db, env), permuted) else [];
    }
  }

  /** Any order of the same items gives the same result, the same counts and the same tables up to fresh ids. */
  lemma ImportIsOrderBlind(db: Db, env: EnvId, user: UserId, items: seq<Item>, permuted: seq<Item>, overwrite: bool)
    requires UniqueKeys(db.rows) && DistinctKeys(items) && multiset(items) == multiset(permuted)
    ensures SameUpToFreshIds(db, ImportItems(db, env, user, items, overwrite),
                             ImportItems(db, env, user, permuted, overwrite))
  {
    hide *;
    PermutedDistinct(items, permuted);
    ImportDescribed(db, env, user, items, overwrite);
    ImportDescribed(db, env, user, permuted, overwrite);
    DescribedAlike(db, env, user, items, permuted, overwrite,
      ImportItems(db, env, user, items, overwrite), ImportItems(db, env, user, permuted, overwrite));
  }

  lemma TwiceIn(s: seq<Item>, i: nat, j: nat)
    requires i < j < |s| && s[i] == s[j]
    ensures multiset(s)[s[i]] >= 2
  {
    var a, b := s[..j], s[j..];
    assert s == a + b;
    assert a[i] in a && b[0] in b;
    assert multiset(s) == multiset(a) + multiset(b);
    assert s[i] in multiset(a) && s[i] in multiset(b);
  }

  lemma PermutedDistinct(items: seq<Item>, permuted: seq<Item>)
    requires DistinctKeys(items) && multiset(items) == multiset(permuted)
    ensures DistinctKeys(permuted)
  {
    SameMembers(items, permuted);
    forall i, j | 0 <= i < j < |permuted| ensures permuted[i].key != permuted[j].key {
      var x, y := permuted[i], permuted[j];
      assert x in items && y in items;
      OnceEach(items, x);
      if x == y {
        TwiceIn(permuted, i, j);
      }
    }
  }

  lemma {:induction false} OnceEach(items: seq<Item>, x: Item)
    requires DistinctKeys(items)
    ensures multiset(items)[x] <= 1
  {
    if items == [] {
    } else {
      var n := |items| - 1;
      OnceEach(items[..n], x);
      assert items == items[..n] + [items[n]];
      if x == items[n] {
        assert x !in items[..n];
        assert x !in multiset(items[..n]);
      }
    }
  }

  /** A deleted row still holds the key. */
  predicate HeldByDeleted(rows: seq<Row>, env: EnvId, key: string) {
    exists i :: 0 <= i < |rows| && rows[i].env == env && rows[i].key == key && rows[i].deleted
  }

  /** The import fails, and writes nothing, exactly when some key belongs to a deleted row. */
  lemma AbortsExactlyOnDeletedKey(db: Db, env: EnvId, user: UserId, items: seq<Item>, overwrite: bool)
    requires UniqueKeys(db.rows) && DistinctKeys(items)
    ensures ImportItems(db, env, user, items, overwrite).Aborted? <==>
            exists item :: item in items && HeldByDeleted(db.rows, env, item.key)
  {
    ImportDescribed(db, env, user, items, overwrite);
    hide ImportItems, FlatMap, RowsAdded, Met, RowAfter, RowsAfter, UniqueKeys, DistinctKeys, Blocked;
    hide HeldByDeleted;
    forall item | item in items ensures Blocked(db.rows, env, item.key) <==> HeldByDeleted(db.rows, env, item.key) {
      BlockedMeansDeleted(db.rows, env, item.key);
    }
  }

  lemma BlockedMeansDeleted(rows: seq<Row>, env: EnvId, key: string)
    requires UniqueKeys(rows)
    ensures Blocked(rows, env, key) <==> HeldByDeleted(rows, env, key)
  {
    if i :| 0 <= i < |rows| && rows[i].env == env && rows[i].key == key && rows[i].deleted {
      forall j | 0 <= j < |rows| ensures !Hits(rows[j], env, key) {
      }
    }
  }

  /** Counts add up; without overwrite no row and no history there was changes. */
  lemma ImportCounts(db: Db, env: EnvId, user: UserId, items: seq<Item>, overwrite: bool)
    requires UniqueKeys(db.rows) && DistinctKeys(items)
    ensures var r := ImportItems(db, env, user, items, overwrite);
            r.Imported? ==> r.created + r.updated + r.skipped == |items| && r.created == |r.db.rows| - |db.rows|
                            && r.updated == |r.db.versions| - |db.versions| && (overwrite ==> r.skipped == 0)
    ensures var r := ImportItems(db, env, user, items, overwrite);
            r.Imported? && !overwrite ==> db.rows <= r.db.rows && r.db.versions == db.versions
  {
    ImportDescribed(db, env, user, items, overwrite);
    var r := ImportItems(db, env, user, items, overwrite);
    if r.Imported? {
      DescribesRows(db, env, user, items, overwrite, r);
      RowsAreMore(db, env, items, overwrite, r.db.rows);
      if !overwrite {
        forall i | 0 <= i < |db.rows| ensures r.db.rows[i] == db.rows[i] {
          assert RowAfter(db.rows[i], env, items, overwrite, r.db.rows[i]);
        }
      }
    }
  }

  /** With overwrite every live key ends up with its item's ciphertext, one version on. */
  lemma ImportReplaces(db: Db, env: EnvId, user: UserId, items: seq<Item>, i: nat, item: Item)
    requires UniqueKeys(db.rows) && DistinctKeys(items)
    requires i < |db.rows| && item in items && db.rows[i].env == env && db.rows[i].key == item.key
             && !db.rows[i].deleted
    ensures var r := ImportItems(db, env, user, items, true);
            r.Imported? ==> i < |r.db.rows| && r.db.rows[i].cipher == item.cipher
                            && r.db.rows[i].version == db.rows[i].version + 1
                            && r.db.rows[i].env == env && r.db.rows[i].key == item.key && !r.db.rows[i].deleted
                            && |db.versions| <= |r.db.versions|
                            && Snapshot(i, db.rows[i]) in r.db.versions[|db.versions|..]
  {
    ImportDescribed(db, env, user, items, true);
    hide ImportItems, FlatMap, Find;
    var r := ImportItems(db, env, user, items, true);
    if r.Imported? {
      assert RowAfter(db.rows[i], env, items, true, r.db.rows[i]);
      assert Hits(db.rows[i], env, item.key);
      FindIsUnique(db.rows, env, item.key, i);
      MappedIn(Met(db, env), items, item);
      assert Met(db, env)(item) == [Snapshot(i, db.rows[i])];
      assert r.db.versions[|db.versions|..] == FlatMap(Met(db, env), items);
    }
  }

  lemma {:induction false} MappedIn<A, B>(f: A -> seq<B>, s: seq<A>, x: A)
    requires x in s
    ensures forall y :: y in f(x) ==> y in FlatMap(f, s)
  {
    var n := |s| - 1;
    if s[n] == x {
    } else {
      assert x in s[..n];
      MappedIn(f, s[..n], x);
    }
  }

  // ---- From the request to the items ----

  datatype Pair = Pair(key: string, value: string)

  /** Later values of a normalised key replace earlier ones; an empty key is dropped. */
  function Clean(normal: string -> string, payload: seq<Pair>): map<string, string> {
    if payload == [] then map[]
    else
      var n := |payload| - 1;
      var so := Clean(normal, payload[..n]);
      var k := normal(payload[n].key);
      if k != "" then so[k := payload[n].value] else so
  }

  method CleanItems(normal: string -> string, payload: seq<Pair>) returns (clean: map<string, string>)
    ensures clean == Clean(normal, payload)
  {
    clean := map[];
    for i := 0 to |payload|
      invariant clean == Clean(normal, payload[..i])
    {
      assert payload[..i + 1][..i] == payload[..i];
      var k := normal(payload[i].key);
      if k != "" {
        clean := clean[k := payload[i].value];
      }
    }
    assert payload[..|payload|] == payload;
  }

  predicate LastOf(normal: string -> string, payload: seq<Pair>, k: string, i: int) {
    0 <= i < |payload| && normal(payload[i].key) == k && forall j :: i < j < |payload| ==> normal(payload[j].key) != k
  }

  predicate Mentioned(normal: string -> string, payload: seq<Pair>, k: string) {
    exists i :: 0 <= i < |payload| && normal(payload[i].key) == k
  }

  /** A key is imported exactly when it is not empty and some pair normalises to it. */
  lemma {:induction false} CleanKeys(normal: string -> string, payload: seq<Pair>, k: string)
    ensures k in Clean(normal, payload) <==> k != "" && Mentioned(normal, payload, k)
  {
    if payload == [] {
    } else {
      var n := |payload| - 1;
      var init := payload[..n];
      CleanKeys(normal, init, k);
      assert Mentioned(normal, payload, k) <==> Mentioned(normal, init, k) || normal(payload[n].key) == k by {
        assert forall i :: 0 <= i < n ==> init[i] == payload[i];
      }
    }
  }

  /** The last pair that normalises to a key gives its value. */
  lemma {:induction false} CleanKeepsTheLast(normal: string -> string, payload: seq<Pair>, k: string, i: int)
    requires k != "" && LastOf(normal, payload, k, i)
    ensures k in Clean(normal, payload) && Clean(normal, payload)[k] == payload[i].value
  {
    var n := |payload| - 1;
    if i == n {
    } else {
      assert LastOf(normal, payload[..n], k, i);
      CleanKeepsTheLast(normal, payload[..n], k, i);
    }
  }

  /** One possible order in which the encryptions of the cleaned values finish. */
  predicate Completion(clean: map<string, string>, encrypt: (string, string) -> Option<Cipher>, items: seq<Item>) {
    && |items| == |clean| && DistinctKeys(items)
    && forall i :: 0 <= i < |items| ==>
         items[i].key in clean && encrypt(items[i].key, clean[items[i].key]) == Some(items[i].cipher)
  }

  /** One goroutine for each key, finishing in any order; one failure fails the request. */
  method EncryptAll(clean: map<string, string>, encrypt: (string, string) -> Option<Cipher>)
    returns (items: Option<seq<Item>>)
    ensures items.Some? <==> forall k :: k in clean ==> encrypt(k, clean[k]).Some?
    ensures items.Some? ==> Completion(clean, encrypt, items.value)
  {
    var results: seq<Item> := [];
    var pending := clean.Keys;
    var failed := false;
    while pending != {}
      invariant pending <= clean.Keys
      invariant failed <==> exists k :: k in clean.Keys - pending && encrypt(k, clean[k]).None?
      invariant DistinctKeys(results) && |results| + |pending| <= |clean|
      invariant !failed ==> |results| + |pending| == |clean|
      invariant forall i :: 0 <= i < |results| ==> results[i].key in clean.Keys - pending
      invariant forall i :: 0 <= i < |results| ==>
          encrypt(results[i].key, clean[results[i].key]) == Some(results[i].cipher)
      decreases pending
    {
      var k :| k in pending;
      pending := pending - {k};
      match encrypt(k, clean[k]) {
        case Some(cipher) => results := results + [Item(k, cipher)];
        case None => failed := true;
      }
    }
    items := if failed then None else Some(results);
  }

  lemma KeysOf(items: seq<Item>) returns (keys: set<string>)
    requires DistinctKeys(items)
    ensures |keys| == |items| && forall k :: k in keys <==> exists i :: 0 <= i < |items| && items[i].key == k
  {
    keys := {};
    for n := 0 to |items|
      invariant |keys| == n && forall k :: k in keys <==> exists i :: 0 <= i < n && items[i].key == k
    {
      keys := keys + {items[n].key};
    }
  }

  lemma CompletionHasAll(clean: map<string, string>, encrypt: (string, string) -> Option<Cipher>, items: seq<Item>,
                         k: string)
    requires Completion(clean, encrypt, items) && k in clean
    ensures exists i :: 0 <= i < |items| && items[i].key == k
  {
    var keys := KeysOf(items);
    assert keys <= clean.Keys;
    SubsetOfSameSize(keys, clean.Keys);
  }

  lemma SubsetOfSameSize<T>(a: set<T>, b: set<T>)
    requires a <= b && |a| == |b|
    ensures a == b
  {
    assert |b - a| == |b| - |a|;
    assert b == a + (b - a);
  }

  /** The finishing orders are permutations of one another. */
  lemma CompletionsPermute(clean: map<string, string>, encrypt: (string, string) -> Option<Cipher>, a: seq<Item>,
                           b: seq<Item>)
    requires Completion(clean, encrypt, a) && Completion(clean, encrypt, b)
    ensures multiset(a) == multiset(b)
  {
    forall x: Item ensures multiset(a)[x] == multiset(b)[x] {
      OnceEach(a, x);
      OnceEach(b, x);
      CompletionMember(clean, encrypt, a, x);
      CompletionMember(clean, encrypt, b, x);
      assert x in a <==> x in multiset(a);
      assert x in b <==> x in multiset(b);
    }
  }

  lemma CompletionMember(clean: map<string, string>, encrypt: (string, string) -> Option<Cipher>, items: seq<Item>,
                         x: Item)
    requires Completion(clean, encrypt, items)
    ensures x in items <==> x.key in clean && encrypt(x.key, clean[x.key]) == Some(x.cipher)
  {
    if x.key in clean && encrypt(x.key, clean[x.key]) == Some(x.cipher) {
      CompletionHasAll(clean, encrypt, items, x.key);
      var i :| 0 <= i < |items| && items[i].key == x.key;
      assert items[i] == x;
    }
  }

  /** Whatever order the goroutines finish in, the import does the same. */
  lemma HandlerIsOrderBlind(db: Db, env: EnvId, user: UserId, overwrite: bool, clean: map<string, string>,
                            encrypt: (string, string) -> Option<Cipher>, a: seq<Item>, b: seq<Item>)
    requires UniqueKeys(db.rows) && Completion(clean, encrypt, a) && Completion(clean, encrypt, b)
    ensures SameUpToFreshIds(db, ImportItems(db, env, user, a, overwrite), ImportItems(db, env, user, b, overwrite))
  {
    CompletionsPermute(clean, encrypt, a, b);
    hide ImportItems, SameUpToFreshIds, UniqueKeys;
    ImportIsOrderBlind(db, env, user, a, b, overwrite);
  }

  /** The handler: nothing is written when no key is left or an encryption fails. */
  method ImportRequest(store: Store, normal: string -> string, encrypt: (string, string) -> Option<Cipher>,
                       env: EnvId, user: UserId, payload: seq<Pair>, overwrite: bool, commits: bool)
    returns (result: Option<(nat, nat, nat)>, ghost items: seq<Item>)
    modifies store
    ensures var clean := Clean(normal, payload);
            if clean == map[] || (exists k :: k in clean && encrypt(k, clean[k]).None?)
            then result == None && store.Contents() == old(store.Contents())
            else Completion(clean, encrypt, items)
    ensures var clean := Clean(normal, payload);
            clean != map[] && (forall k :: k in clean ==> encrypt(k, clean[k]).Some?) ==>
              var outcome := ImportItems(old(store.Contents()), env, user, items, overwrite);
              if outcome.Imported? && commits
              then store.Contents() == outcome.db && result == Some((outcome.created, outcome.updated, outcome.skipped))
              else store.Contents() == old(store.Contents()) && result == None
  {
    items := [];
    var clean := CleanItems(normal, payload);
    if clean == map[] {
      return None, items;
    }
    var encrypted := EncryptAll(clean, encrypt);
    if encrypted.None? {
      return None, items;
    }
    items := encrypted.value;
    result := BulkImportSecrets(store, env, user, encrypted.value, overwrite, commits);
  }
}
