/** internal/ast/store/store.go: the symbol cache on top of an ordered key-value database.

    The database is a map that methods replace as a whole: one assignment is one committed
    transaction.  A record value is kept decoded (Json); any other payload is Raw and does not
    decode.  Index values are Raw primary keys. */
module SymbolStore {
  import opened Text
  import opened Model
  import opened Keys
  import opened Order

  const DEFAULT_LOOKUP_LIMIT := 25
  const DELETE_BATCH := 512

  datatype Value = Json(rec: SymbolRecord) | Raw(text: string)

  type Database = map<string, Value>

  datatype Filter = Filter(repo: string, types: seq<string>, exactOnly: bool, limit: int)

  datatype StoreError = EmptyQuery | UndecodableRecord | Invalid(reason: RecordError)

  datatype Result<+T> = Ok(value: T) | Err(error: StoreError)

  /* ---- what a record contributes ---- */

  // The canonical name and every alias; blank ones are not indexed.
  predicate Named(r: SymbolRecord, n: string) {
    (n == r.name || n in r.aliases) && !Blank(n)
  }

  function IndexedNames(r: SymbolRecord): set<string> {
    set n | n in [r.name] + r.aliases && !Blank(n)
  }

  function IndexKeySet(r: SymbolRecord): set<string> {
    (set n | n in IndexedNames(r) :: NameKey(n, r)) + (set n | n in IndexedNames(r) :: TypeKey(n, r)) + {FileKey(r)}
  }

  function Pointers(keys: set<string>, primary: string): Database {
    map k | k in keys :: Raw(primary)
  }

  function Entries(r: SymbolRecord): Database {
    map[PrimaryKey(r) := Json(r)] + Pointers(IndexKeySet(r), PrimaryKey(r))
  }

  // The state PutSymbol leaves for an acceptable record, written or skipped.
  function Put(db: Database, r: SymbolRecord): Database { db + Entries(r) }

  predicate Stored(db: Database, r: SymbolRecord) {
    PrimaryKey(r) in db && db[PrimaryKey(r)] == Json(r)
  }

  function Stale(db: Database, repo: string, keep: set<string>): set<string> {
    set k | k in db && RepoPrefix(repo) <= k && k !in keep
  }

  // Every key that goes away with the given primary keys.
  function Doomed(db: Database, primaries: set<string>): set<string> {
    primaries + (set k, i | k in primaries && k in db && db[k].Json? && i in IndexKeySet(db[k].rec) :: i)
  }

  function Prune(db: Database, repo: string, keep: set<string>): Database {
    db - Doomed(db, Stale(db, repo, keep))
  }

  /* ---- the invariant of every store ---- */

  // A decodable value is an acceptable record under its own primary key; index values are
  // primary keys.
  ghost predicate ValidDb(db: Database) {
    && (forall k | k in db && IDX <= k :: db[k].Raw?)
    && (forall k | k in db && db[k].Json? :: k == PrimaryKey(db[k].rec) && Acceptable(db[k].rec))
  }

  lemma IndexKeysAreIndexes(r: SymbolRecord)
    ensures forall k | k in IndexKeySet(r) :: IDX <= k && !(SYM <= k) && k != PrimaryKey(r)
  {
    forall k | k in IndexKeySet(r) ensures IDX <= k && !(SYM <= k) && k != PrimaryKey(r) {
      PrefixesApart(k);
      Families("", r);
      if n :| n in IndexedNames(r) && k == NameKey(n, r) {
        Families(n, r);
      } else if n :| n in IndexedNames(r) && k == TypeKey(n, r) {
        Families(n, r);
      }
      PrefixesApart(PrimaryKey(r));
    }
  }

  lemma EntriesAt(r: SymbolRecord, k: string)
    ensures k in Entries(r) <==> k == PrimaryKey(r) || k in IndexKeySet(r)
    ensures Entries(r)[PrimaryKey(r)] == Json(r)
    ensures k in IndexKeySet(r) ==> Entries(r)[k] == Raw(PrimaryKey(r))
  {
    IndexKeysAreIndexes(r);
  }

  lemma PutValid(db: Database, r: SymbolRecord)
    requires ValidDb(db) && Acceptable(r)
    ensures ValidDb(Put(db, r)) && Stored(Put(db, r), r)
  {
    var after := Put(db, r);
    forall k | k in after ensures (IDX <= k ==> after[k].Raw?)
                                  && (after[k].Json? ==> k == PrimaryKey(after[k].rec) && Acceptable(after[k].rec)) {
      EntriesAt(r, k);
      Families("", r);
      PrefixesApart(k);
    }
    EntriesAt(r, PrimaryKey(r));
  }

  lemma PruneValid(db: Database, repo: string, keep: set<string>)
    requires ValidDb(db)
    ensures ValidDb(Prune(db, repo, keep))
  {
  }

  /* ---- lookup ---- */

  // A key inside one of the scanned ranges.
  predicate Scanned(query: string, types: seq<string>, k: string) {
    if types == [] then NAME + Esc(query) <= k
    else exists t :: t in types && TYPE + Esc(t) + ":" + Esc(query) <= k
  }

  // An index key the scan keeps.
  predicate Keeps(query: string, f: Filter, k: string) {
    var m := MatchedName(k, |f.types| > 0);
    m.Some? && (f.exactOnly ==> m.value == query)
  }

  // Some kept index entry points to primary key p.
  ghost predicate Hit(db: Database, query: string, f: Filter, p: string) {
    exists k :: k in db && Scanned(query, f.types, k) && Keeps(query, f, k) && db[k] == Raw(p)
  }

  predicate InRepo(f: Filter, r: SymbolRecord) { f.repo == "" || r.repo == f.repo }

  // All records a lookup finds, in answer order and before the limit is applied.
  ghost predicate Found(db: Database, query: string, f: Filter, all: seq<SymbolRecord>) {
    && Arranged(all, query) && NoDup(all)
    && (forall r :: r in all <==>
          Stored(db, r) && Hit(db, query, f, PrimaryKey(r)) && (f.repo == "" || r.repo == f.repo))
  }

  /* ---- the answer as a function of database, query and filter ---- */

  predicate IsAscending(keys: seq<string>) { forall i, j | 0 <= i < j < |keys| :: LexLess(keys[i], keys[j]) }

  // The keys of a set in ascending order; there is one such sequence, see AscendingUnique.
  ghost function InOrder(keys: set<string>): (s: seq<string>)
    ensures IsAscending(s) && forall k :: k in s <==> k in keys
  {
    OrderExists(keys);
    var s :| IsAscending(s) && forall k :: k in s <==> k in keys;
    s
  }

  function Under(db: Database, prefix: string): set<string> { set k | k in db && prefix <= k }

  // The key ranges a lookup scans: one per requested type, or the name range.
  function Ranges(query: string, types: seq<string>): seq<string> {
    if types == [] then [NAME + Esc(query)]
    else seq(|types|, i requires 0 <= i < |types| => TYPE + Esc(types[i]) + ":" + Esc(query))
  }

  // The primary keys behind the kept ones of the given entries that found does not list yet.
  function Collect(db: Database, query: string, f: Filter, keys: seq<string>, found: seq<string>): seq<string> {
    if keys == [] then found
    else
      var k := keys[|keys| - 1];
      var c := Collect(db, query, f, keys[..|keys| - 1], found);
      if k in db && db[k].Raw? && Keeps(query, f, k) && db[k].text !in c then c + [db[k].text] else c
  }

  ghost function CollectRanges(db: Database, query: string, f: Filter, prefixes: seq<string>): seq<string> {
    if prefixes == [] then []
    else Collect(db, query, f, InOrder(Under(db, prefixes[|prefixes| - 1])),
                 CollectRanges(db, query, f, prefixes[..|prefixes| - 1]))
  }

  // The records behind the candidates, in candidate order.
  function RecordsAt(db: Database, f: Filter, cands: seq<string>): seq<SymbolRecord> {
    if cands == [] then []
    else
      var p := cands[|cands| - 1];
      var init := RecordsAt(db, f, cands[..|cands| - 1]);
      if p in db && db[p].Json? && InRepo(f, db[p].rec) then init + [db[p].rec] else init
  }

  ghost function CandidatesOf(db: Database, query: string, f: Filter): seq<string> {
    CollectRanges(db, query, f, Ranges(query, f.types))
  }

  // Everything a lookup finds, in answer order and before the limit is applied.
  ghost function FullAnswer(db: Database, query: string, f: Filter): seq<SymbolRecord> {
    StableSort(RecordsAt(db, f, CandidatesOf(db, query, f)), query)
  }

  // Some candidate does not decode.
  ghost predicate Unreadable(db: Database, query: string, f: Filter) {
    exists p :: p in db && Hit(db, query, f, p) && db[p].Raw?
  }

  lemma {:induction false} OrderExists(keys: set<string>)
    ensures exists s :: IsAscending(s) && forall k :: k in s <==> k in keys
  {
    if keys == {} {
      assert IsAscending([]) && forall k :: k in [] <==> k in keys;
    } else {
      var k :| k in keys;
      OrderExists(keys - {k});
      var s :| IsAscending(s) && forall j :: j in s <==> j in keys - {k};
      var i := Position(s, k);
      InsertAscending(s, i, k);
      Spliced(s, i, k);
      var t := s[..i] + [k] + s[i..];
      assert forall j :: j in t <==> j in keys;
    }
  }

  lemma Spliced(s: seq<string>, i: nat, k: string)
    requires i <= |s|
    ensures forall j :: j in s[..i] + [k] + s[i..] <==> j in s || j == k
  {
    assert s == s[..i] + s[i..];
  }

  // Where k goes.
  function Position(s: seq<string>, k: string): (i: nat)
    requires IsAscending(s)
    ensures i <= |s| && (forall j | 0 <= j < i :: LexLess(s[j], k)) && (i < |s| ==> !LexLess(s[i], k))
  {
    if s == [] || !LexLess(s[0], k) then 0 else 1 + Position(s[1..], k)
  }

  lemma {:induction false} AscendingUnique(s: seq<string>, t: seq<string>)
    requires IsAscending(s) && IsAscending(t) && forall k :: k in s <==> k in t
    ensures s == t
  {
    assert (s != [] ==> s[0] in t) && (t != [] ==> t[0] in s);
    if s != [] {
      AscendingHead(s, t);
      AscendingNoDup(s);
      AscendingNoDup(t);
      NoDupTail(s);
      NoDupTail(t);
      AscendingUnique(s[1..], t[1..]);
      assert s == [s[0]] + s[1..] && t == [t[0]] + t[1..];
    }
  }

  lemma AscendingHead(s: seq<string>, t: seq<string>)
    requires s != [] && t != [] && IsAscending(s) && IsAscending(t) && s[0] in t && t[0] in s
    ensures s[0] == t[0]
  {
    var i :| 0 <= i < |t| && t[i] == s[0];
    var j :| 0 <= j < |s| && s[j] == t[0];
    LexTotal(s[0], t[0]);
  }

  lemma CollectNothing(db: Database, query: string, f: Filter, found: seq<string>)
    ensures Collect(db, query, f, [], found) == found
  {
  }

  lemma CollectNext(db: Database, query: string, f: Filter, keys: seq<string>, j: nat, found: seq<string>)
    requires j < |keys|
    ensures var k := keys[j];
            var c := Collect(db, query, f, keys[..j], found);
            Collect(db, query, f, keys[..j + 1], found)
            == if k in db && db[k].Raw? && Keeps(query, f, k) && db[k].text !in c then c + [db[k].text] else c
  {
    hide Keeps;
    assert keys[..j + 1][..j] == keys[..j];
  }

  // The scan's test on a key; what it keeps is an index key.
  lemma KeepsExactly(query: string, f: Filter, k: string)
    ensures var m := MatchedName(k, |f.types| > 0);
            Keeps(query, f, k) <==> !(m.None? || (f.exactOnly && m.value != query))
    ensures Keeps(query, f, k) ==> IDX <= k
  {
    PrefixesApart(k);
  }

  // Scanning the ranges one by one collects each primary key behind a kept entry once.
  lemma {:induction false} CollectExactly(db: Database, query: string, f: Filter, keys: seq<string>, found: seq<string>)
    requires NoDup(found)
    ensures var c := Collect(db, query, f, keys, found);
            NoDup(c) && forall p :: p in c <==>
              p in found || exists k :: k in keys && k in db && Keeps(query, f, k) && db[k] == Raw(p)
  {
    hide Keeps;
    if keys != [] {
      var n := |keys| - 1;
      CollectExactly(db, query, f, keys[..n], found);
      assert keys == keys[..n] + [keys[n]];
    }
  }

  lemma {:induction false} CollectRangesExactly(db: Database, query: string, f: Filter, prefixes: seq<string>)
    ensures var c := CollectRanges(db, query, f, prefixes);
            NoDup(c) && forall p :: p in c <==>
              exists k, j :: 0 <= j < |prefixes| && k in db && prefixes[j] <= k && Keeps(query, f, k) && db[k] == Raw(p)
  {
    hide Keeps, Collect;
    if prefixes != [] {
      var n := |prefixes| - 1;
      CollectRangesExactly(db, query, f, prefixes[..n]);
      CollectExactly(db, query, f, InOrder(Under(db, prefixes[n])), CollectRanges(db, query, f, prefixes[..n]));
    }
  }

  lemma RangesExactly(query: string, types: seq<string>, k: string)
    ensures Scanned(query, types, k) <==> exists j :: 0 <= j < |Ranges(query, types)| && Ranges(query, types)[j] <= k
  {
    hide Esc;
    var prefixes := Ranges(query, types);
    if types == [] {
      assert Scanned(query, types, k) ==> prefixes[0] <= k;
    } else {
      if t :| t in types && TYPE + Esc(t) + ":" + Esc(query) <= k {
        var j :| 0 <= j < |types| && types[j] == t;
        assert prefixes[j] <= k;
      }
      if j :| 0 <= j < |prefixes| && prefixes[j] <= k {
        assert types[j] in types;
      }
    }
  }

  lemma CandidatesExactly(db: Database, query: string, f: Filter)
    ensures NoDup(CandidatesOf(db, query, f))
    ensures forall p :: p in CandidatesOf(db, query, f) <==> Hit(db, query, f, p)
  {
    hide Keeps, Scanned, Ranges, CollectRanges;
    CollectRangesExactly(db, query, f, Ranges(query, f.types));
    forall k ensures Scanned(query, f.types, k) <==>
                     exists j :: 0 <= j < |Ranges(query, f.types)| && Ranges(query, f.types)[j] <= k
    {
      RangesExactly(query, f.types, k);
    }
  }

  lemma {:induction false} RecordsExactly(db: Database, f: Filter, cands: seq<string>)
    requires ValidDb(db) && NoDup(cands)
    ensures NoDup(RecordsAt(db, f, cands))
    ensures forall r :: r in RecordsAt(db, f, cands) <==> PrimaryKey(r) in cands && Stored(db, r) && InRepo(f, r)
  {
    hide PrimaryKey, Acceptable;
    if cands != [] {
      var n := |cands| - 1;
      RecordsExactly(db, f, cands[..n]);
      assert cands == cands[..n] + [cands[n]];
      assert cands[n] !in cands[..n];
    }
  }

  // What a lookup finds is every stored record it hits, each once, in order.
  lemma FullAnswerFound(db: Database, query: string, f: Filter)
    requires ValidDb(db)
    ensures Found(db, query, f, FullAnswer(db, query, f))
  {
    hide Hit, CandidatesOf, RecordsAt, StableSort, Stored, ValidDb, Sorted, Arranged;
    CandidatesExactly(db, query, f);
    var records := RecordsAt(db, f, CandidatesOf(db, query, f));
    RecordsExactly(db, f, CandidatesOf(db, query, f));
    StableSortCorrect(records, query);
    PermutationNoDup(records, StableSort(records, query));
  }

  class Store {
    var db: Database

    ghost predicate Valid()
      reads this
    {
      ValidDb(db)
    }

    constructor ()
      ensures db == map[] && Valid()
    {
      db := map[];
    }

    // A database iterator: the keys under a prefix in ascending order.
    method Scan(prefix: string) returns (keys: seq<string>)
      ensures keys == InOrder(Under(db, prefix))
      ensures IsAscending(keys) && forall k :: k in keys <==> k in db && prefix <= k
    {
      keys := [];
      var rest := Under(db, prefix);
      ghost var all := rest;
      while rest != {}
        invariant IsAscending(keys) && rest <= all
        invariant forall k :: k in keys <==> k in all && k !in rest
        decreases |rest|
      {
        var k :| k in rest;
        var i := 0;
        while i < |keys| && LexLess(keys[i], k)
          invariant 0 <= i <= |keys|
          invariant forall j | 0 <= j < i :: LexLess(keys[j], k)
        {
          i := i + 1;
        }
        InsertAscending(keys, i, k);
        keys := keys[..i] + [k] + keys[i..];
        rest := rest - {k};
      }
      AscendingUnique(keys, InOrder(all));
    }

    // indexKeys: every secondary key of a record, name by name, each name once.
    method IndexKeys(r: SymbolRecord) returns (keys: seq<string>)
      ensures forall k :: k in keys <==> k in IndexKeySet(r)
    {
      hide NameKey, TypeKey, FileKey, Blank;
      var names := [r.name] + r.aliases;
      keys := [];
      var seen: set<string> := {};
      for i := 0 to |names|
        invariant seen == (set n | n in names[..i] && !Blank(n))
        invariant forall k :: k in keys <==> exists n :: n in seen && (k == NameKey(n, r) || k == TypeKey(n, r))
      {
        var n := names[i];
        assert names[..i + 1] == names[..i] + [n];
        if Blank(n) || n in seen {
          continue;
        }
        seen := seen + {n};
        keys := keys + [NameKey(n, r), TypeKey(n, r)];
      }
      assert names[..|names|] == names;
      keys := keys + [FileKey(r)];
    }

    method WriteIndexes(txn: Database, r: SymbolRecord, primary: string) returns (after: Database)
      ensures after == txn + Pointers(IndexKeySet(r), primary)
    {
      var keys := IndexKeys(r);
      after := txn;
      for i := 0 to |keys|
        invariant after == txn + Pointers(SetOf(keys[..i]), primary)
      {
        assert keys[..i + 1] == keys[..i] + [keys[i]];
        after := after[keys[i] := Raw(primary)];
      }
      assert keys[..|keys|] == keys;
      assert SetOf(keys) == IndexKeySet(r);
    }

    /** Stores a record and refreshes its index entries.  The flag reports a physical write of
        the record, which happens exactly when the stored value differed. */
    method PutSymbol(r: SymbolRecord) returns (res: Result<(string, bool)>)
      requires Valid()
      modifies this
      ensures Valid()
      ensures !Acceptable(r) ==> res == Err(Invalid(Validate(r).value)) && db == old(db)
      ensures Acceptable(r) ==> res == Ok((PrimaryKey(r), !Stored(old(db), r))) && db == Put(old(db), r)
    {
      var reason := Validate(r);
      if reason.Some? {
        return Err(Invalid(reason.value));
      }
      PutValid(db, r);
      var primary := PrimaryKey(r);
      var txn := db;
      if primary in txn && txn[primary].Json? {
        var have := Fingerprint(txn[primary].rec);
        var want := Fingerprint(r);
        if have == want {
          StreamInjective(txn[primary].rec, r);
          PutSkipped(db, r);
          db := WriteIndexes(txn, r, primary);
          return Ok((primary, false));
        }
      }
      txn := txn[primary := Json(r)];
      PutWritten(db, r);
      db := WriteIndexes(txn, r, primary);
      return Ok((primary, true));
    }

    method Prefixes(query: string, types: seq<string>) returns (prefixes: seq<string>)
      ensures prefixes == Ranges(query, types)
      ensures forall k :: Scanned(query, types, k) <==> exists j :: 0 <= j < |prefixes| && prefixes[j] <= k
    {
      prefixes := [];
      if types == [] {
        prefixes := [NAME + Esc(query)];
      } else {
        for i := 0 to |types|
          invariant |prefixes| == i
          invariant forall j | 0 <= j < i :: prefixes[j] == TYPE + Esc(types[j]) + ":" + Esc(query)
        {
          prefixes := prefixes + [TYPE + Esc(types[i]) + ":" + Esc(query)];
        }
      }
      forall k ensures Scanned(query, types, k) <==> exists j :: 0 <= j < |prefixes| && prefixes[j] <= k {
        RangesExactly(query, types, k);
      }
    }

    // Scans one range, adding primary keys not met before.
    method ScanRange(prefix: string, query: string, f: Filter, found: seq<string>) returns (cands: seq<string>)
      requires Valid() && NoDup(found)
      ensures cands == Collect(db, query, f, InOrder(Under(db, prefix)), found)
      ensures NoDup(cands)
      ensures forall p :: p in cands <==>
                p in found || exists k :: k in db && prefix <= k && Keeps(query, f, k) && db[k] == Raw(p)
    {
      hide Esc, Unesc, InOrder, Collect, Keeps, MatchedName;
      cands := found;
      CollectNothing(db, query, f, found);
      var seen := SetOf(found);
      var keys := Scan(prefix);
      for j := 0 to |keys|
        invariant SetOf(cands) == seen
        invariant cands == Collect(db, query, f, keys[..j], found)
      {
        var key := keys[j];
        CollectNext(db, query, f, keys, j, found);
        var matched := MatchedName(key, |f.types| > 0);
        KeepsExactly(query, f, key);
        if matched.None? || (f.exactOnly && matched.value != query) {
          continue;
        }
        var primary := db[key].text;
        if primary in seen {
          continue;
        }
        seen := seen + {primary};
        cands := cands + [primary];
      }
      assert keys[..|keys|] == keys;
      CollectExactly(db, query, f, keys, found);
    }

    // The scanning half of Lookup: the distinct primary keys behind the kept index entries.
    method Candidates(query: string, f: Filter) returns (cands: seq<string>)
      requires Valid()
      ensures cands == CandidatesOf(db, query, f) && NoDup(cands)
      ensures forall p :: p in cands <==> Hit(db, query, f, p)
    {
      var prefixes := Prefixes(query, f.types);
      cands := [];
      for i := 0 to |prefixes|
        invariant NoDup(cands) && cands == CollectRanges(db, query, f, prefixes[..i])
      {
        assert prefixes[..i + 1][..i] == prefixes[..i];
        cands := ScanRange(prefixes[i], query, f, cands);
      }
      assert prefixes[..|prefixes|] == prefixes;
      CandidatesExactly(db, query, f);
    }

    /** Resolves a name.  The answer is determined by the database, the query and the filter: the
        first records of the full answer, which lists every stored record the index leads to, and
        25 of them unless the filter says otherwise. */
    method Lookup(name: string, f: Filter) returns (res: Result<seq<SymbolRecord>>)
      requires Valid()
      ensures var query := TrimSpace(name);
              var all := FullAnswer(db, query, f);
              var limit := if f.limit <= 0 then 25 else f.limit;
              && res == (if query == "" then Err(EmptyQuery)
                         else if Unreadable(db, query, f) then Err(UndecodableRecord)
                         else if |all| <= limit then Ok(all) else Ok(all[..limit]))
              && Found(db, query, f, all)
    {
      hide Hit, Found, CandidatesOf, StableSort, ValidDb, TrimSpace, Acceptable, PrimaryKey, Arranged;
      var query := TrimSpace(name);
      FullAnswerFound(db, query, f);
      if query == "" {
        return Err(EmptyQuery);
      }
      var limit := f.limit;
      if limit <= 0 {
        limit := DEFAULT_LOOKUP_LIMIT;
      }
      var cands := Candidates(query, f);
      var records: seq<SymbolRecord> := [];
      for i := 0 to |cands|
        invariant records == RecordsAt(db, f, cands[..i])
        invariant forall j | 0 <= j < i && cands[j] in db :: db[cands[j]].Json?
      {
        assert cands[..i + 1][..i] == cands[..i];
        if cands[i] !in db {
          continue;
        }
        var value := db[cands[i]];
        if value.Raw? {
          assert cands[i] in cands;
          return Err(UndecodableRecord);
        }
        if f.repo != "" && value.rec.repo != f.repo {
          continue;
        }
        records := records + [value.rec];
      }
      assert cands[..|cands|] == cands;
      var sorted := StableSort(records, query);
      if |sorted| > limit {
        return Ok(sorted[..limit]);
      }
      return Ok(sorted);
    }

    /** Deletes the records of a repository that are not in keep, with their index entries, in
        batches; each batch is one transaction. */
    method PruneRepo(repo: string, keep: set<string>) returns (removed: nat)
      requires Valid()
      modifies this
      ensures Valid()
      ensures db == Prune(old(db), repo, keep)
      ensures removed == |Stale(old(db), repo, keep)|
    {
      var staleKeys, stale := StaleRecords(repo, keep);
      removed := 0;
      ghost var was := db;
      var start := 0;
      while start < |staleKeys|
        invariant 0 <= start && removed == if start <= |staleKeys| then start else |staleKeys|
        invariant db == Pruned(was, staleKeys, removed)
      {
        var end := if start + DELETE_BATCH < |staleKeys| then start + DELETE_BATCH else |staleKeys|;
        db := DeleteBatch(was, staleKeys, stale, start, end);
        removed := removed + (end - start);
        start := start + DELETE_BATCH;
      }
      assert staleKeys[..|staleKeys|] == staleKeys;
      PrunedTotal(was, staleKeys, |staleKeys|);
      SetOfSize(staleKeys);
    }

    // One transaction of PruneRepo: records start up to end.
    method DeleteBatch(ghost was: Database, staleKeys: seq<string>, stale: seq<Option<SymbolRecord>>, start: nat,
        end: nat)
      returns (txn: Database)
      requires start <= end <= |staleKeys| == |stale|
      requires db == Pruned(was, staleKeys, start)
      requires forall j | 0 <= j < |stale| :: stale[j] == Decoded(was, staleKeys[j])
      requires forall j | 0 <= j < |stale| && stale[j].Some? :: stale[j].value.name != ""
      ensures txn == Pruned(was, staleKeys, end)
    {
      txn := db;
      for i := start to end
        invariant txn == Pruned(was, staleKeys, i)
      {
        txn := DeleteRecord(txn, staleKeys[i], stale[i]);
      }
    }

    // The scan of PruneRepo: keys to drop and, beside each, the record when it decodes.
    method StaleRecords(repo: string, keep: set<string>)
      returns (staleKeys: seq<string>, stale: seq<Option<SymbolRecord>>)
      requires Valid()
      ensures NoDup(staleKeys) && SetOf(staleKeys) == Stale(db, repo, keep)
      ensures |stale| == |staleKeys|
      ensures forall j | 0 <= j < |stale| :: stale[j] == Decoded(db, staleKeys[j])
      ensures forall j | 0 <= j < |stale| && stale[j].Some? :: stale[j].value.name != ""
    {
      var keys := Scan(RepoPrefix(repo));
      AscendingNoDup(keys);
      staleKeys, stale := [], [];
      for i := 0 to |keys|
        invariant |stale| == |staleKeys| && NoDup(staleKeys)
        invariant forall k :: k in staleKeys <==> k in keys[..i] && k !in keep
        invariant forall j | 0 <= j < |stale| :: stale[j] == Decoded(db, staleKeys[j])
      {
        assert keys[..i + 1] == keys[..i] + [keys[i]];
        if keys[i] in keep {
          continue;
        }
        assert keys[i] !in keys[..i];
        staleKeys := staleKeys + [keys[i]];
        stale := stale + [if db[keys[i]].Json? then Some(db[keys[i]].rec) else None];
      }
      assert keys[..|keys|] == keys;
      assert Blank("");
    }

    // One record of a batch: its key and, unless it was unreadable, its index entries.
    method DeleteRecord(txn: Database, key: string, rec: Option<SymbolRecord>) returns (after: Database)
      requires rec.Some? ==> rec.value.name != ""
      ensures after == txn - Removal(key, rec)
    {
      after := txn - {key};
      if rec.None? || rec.value.name == "" {
        return;
      }
      var idx := IndexKeys(rec.value);
      for j := 0 to |idx|
        invariant after == txn - {key} - SetOf(idx[..j])
      {
        assert idx[..j + 1] == idx[..j] + [idx[j]];
        after := after - {idx[j]};
      }
      assert idx[..|idx|] == idx && SetOf(idx) == IndexKeySet(rec.value);
    }
  }

  function SetOf<T(==)>(s: seq<T>): set<T> { set x | x in s }

  lemma {:induction false} SetOfSize<T>(s: seq<T>)
    requires NoDup(s)
    ensures |SetOf(s)| == |s|
  {
    if s != [] {
      var t, x := s[..|s| - 1], s[|s| - 1];
      SetOfSize(t);
      assert s == t + [x] && x !in t;
      assert SetOf(s) == SetOf(t) + {x};
    }
  }

  lemma PutSkipped(db: Database, r: SymbolRecord)
    requires Stored(db, r)
    ensures db + Pointers(IndexKeySet(r), PrimaryKey(r)) == Put(db, r)
  {
    IndexKeysAreIndexes(r);
  }

  lemma PutWritten(db: Database, r: SymbolRecord)
    ensures db[PrimaryKey(r) := Json(r)] + Pointers(IndexKeySet(r), PrimaryKey(r)) == Put(db, r)
  {
  }

  function Decoded(db: Database, k: string): Option<SymbolRecord> {
    if k in db && db[k].Json? then Some(db[k].rec) else None
  }

  function Removal(key: string, rec: Option<SymbolRecord>): set<string> {
    {key} + if rec.Some? then IndexKeySet(rec.value) else {}
  }

  // The database once the first n of the given records are gone, one after the other.
  ghost function Pruned(db: Database, keys: seq<string>, n: nat): Database
    requires n <= |keys|
  {
    if n == 0 then db else Pruned(db, keys, n - 1) - Removal(keys[n - 1], Decoded(db, keys[n - 1]))
  }

  lemma {:induction false} PrunedTotal(db: Database, keys: seq<string>, n: nat)
    requires n <= |keys|
    ensures Pruned(db, keys, n) == db - Doomed(db, SetOf(keys[..n]))
  {
    hide Doomed, Removal, Decoded;
    if n == 0 {
      assert SetOf(keys[..0]) == {};
      NothingDoomed(db);
    } else {
      PrunedTotal(db, keys, n - 1);
      assert keys[..n] == keys[..n - 1] + [keys[n - 1]];
      assert SetOf(keys[..n]) == SetOf(keys[..n - 1]) + {keys[n - 1]};
      DoomedAdd(db, SetOf(keys[..n - 1]), keys[n - 1]);
    }
  }

  lemma NothingDoomed(db: Database)
    ensures Doomed(db, {}) == {}
  {
  }

  // Deleting one more record deletes its key and, when it decodes, its index entries.
  lemma DoomedAdd(db: Database, ks: set<string>, k: string)
    ensures Doomed(db, ks + {k}) == Doomed(db, ks) + Removal(k, Decoded(db, k))
  {
  }

  lemma InsertAscending(keys: seq<string>, i: nat, k: string)
    requires IsAscending(keys) && i <= |keys| && k !in keys
    requires forall j | 0 <= j < i :: LexLess(keys[j], k)
    requires i < |keys| ==> !LexLess(keys[i], k)
    ensures IsAscending(keys[..i] + [k] + keys[i..])
  {
    var s := keys[..i] + [k] + keys[i..];
    forall j | i <= j < |keys| ensures LexLess(k, keys[j]) {
      LexTotal(k, keys[i]);
      if j > i {
        LexTransitive(k, keys[i], keys[j]);
      }
    }
    forall a, b | 0 <= a < b < |s| ensures LexLess(s[a], s[b]) {
      assert s[a] == if a < i then keys[a] else if a == i then k else keys[a - 1];
      assert s[b] == if b < i then keys[b] else if b == i then k else keys[b - 1];
    }
  }

  lemma AscendingNoDup(keys: seq<string>)
    requires IsAscending(keys)
    ensures NoDup(keys)
  {
    forall a, b | 0 <= a < b < |keys| ensures keys[a] != keys[b] {
      LexTotal(keys[a], keys[a]);
    }
  }
}
