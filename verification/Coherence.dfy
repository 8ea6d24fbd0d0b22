/** When the secondary indexes of internal/ast/store/store.go tell the truth.

    Lookup never re-checks a record's name or kind, so everything it promises rests on what
    holds between index entries and records.  Two levels are separated here: WellIndexed holds
    after every run, Coherent only while puts neither drop an alias nor collide. */
module Coherence {
  import opened Text
  import opened Model
  import opened Keys
  import opened Order
  import opened SymbolStore

  ghost predicate PointsTo(db: Database, k: string, r: SymbolRecord) {
    k in db && db[k] == Raw(PrimaryKey(r))
  }

  // Key k is one of the name or type keys of r.
  ghost predicate KeyOf(k: string, r: SymbolRecord) {
    exists n :: Named(r, n) && (k == NameKey(n, r) || k == TypeKey(n, r))
  }

  predicate NameOrType(k: string) { NAME <= k || TYPE <= k }

  // Every stored record is reachable under each of its names.
  ghost predicate Complete(db: Database) {
    forall r, n | Stored(db, r) && Named(r, n) :: PointsTo(db, NameKey(n, r), r) && PointsTo(db, TypeKey(n, r), r)
  }

  // Every name or type entry leads to a stored record that has the name.
  ghost predicate Sound(db: Database) {
    forall k {:trigger NameOrType(k)} | k in db && NameOrType(k) ::
      exists r :: Stored(db, r) && KeyOf(k, r) && PointsTo(db, k, r)
  }

  ghost predicate Coherent(db: Database) { Complete(db) && Sound(db) }

  lemma IndexedNamesAreNamed(r: SymbolRecord, n: string)
    ensures n in IndexedNames(r) <==> Named(r, n)
  {
  }

  // The name and type keys among the index keys of a record are those its names build.
  lemma NameKeysOf(r: SymbolRecord, k: string)
    ensures NameOrType(k) ==> (k in IndexKeySet(r) <==> KeyOf(k, r))
    ensures KeyOf(k, r) ==> NameOrType(k) && IDX <= k
  {
    hide Esc, Unesc, Join;
    PrefixesApart(k);
    Families("", r);
    if n :| Named(r, n) && (k == NameKey(n, r) || k == TypeKey(n, r)) {
      IndexedNamesAreNamed(r, n);
      Families(n, r);
    }
    if NameOrType(k) && k in IndexKeySet(r) {
      if n :| n in IndexedNames(r) && k == NameKey(n, r) {
        IndexedNamesAreNamed(r, n);
      } else if n :| n in IndexedNames(r) && k == TypeKey(n, r) {
        IndexedNamesAreNamed(r, n);
      }
    }
  }

  // What a put changes, read key by key.
  lemma PutAt(db: Database, r: SymbolRecord, k: string)
    requires NameOrType(k)
    ensures KeyOf(k, r) ==> PointsTo(Put(db, r), k, r)
    ensures !KeyOf(k, r) ==> (k in Put(db, r) <==> k in db) && (k in db ==> Put(db, r)[k] == db[k])
  {
    NameKeysOf(r, k);
    EntriesAt(r, k);
    PrefixesApart(k);
    Families("", r);
  }

  lemma PutStored(db: Database, r: SymbolRecord, o: SymbolRecord)
    ensures Stored(Put(db, r), o) <==> o == r || (Stored(db, o) && PrimaryKey(o) != PrimaryKey(r))
  {
    EntriesAt(r, PrimaryKey(o));
    IndexKeysAreIndexes(r);
    Families("", o);
    PrefixesApart(PrimaryKey(o));
  }

  // Any record under exactly this name.
  const EXACT := Filter("", [], true, 0)

  /* ---- the exact condition under which a put keeps the index coherent ---- */

  // The record being replaced has no name the new one lacks.
  ghost predicate NoneDropped(db: Database, r: SymbolRecord) {
    forall o, n | Stored(db, o) && PrimaryKey(o) == PrimaryKey(r) && Named(o, n) ::
      exists m :: Named(r, m) && Unesc(m) == Unesc(n)
  }

  // No other record at the same place shares a name with the new one.
  ghost predicate NoneShared(db: Database, r: SymbolRecord) {
    forall o, n, m | Stored(db, o) && PrimaryKey(o) != PrimaryKey(r) && SamePlace(o, r) && Named(o, n) && Named(r, m) ::
      Unesc(n) != Unesc(m)
  }

  ghost predicate Admissible(db: Database, r: SymbolRecord) { NoneDropped(db, r) && NoneShared(db, r) }

  lemma PutKeepsComplete(db: Database, r: SymbolRecord)
    requires Coherent(db) && NoneShared(db, r)
    ensures Complete(Put(db, r))
  {
    var after := Put(db, r);
    forall o, n | Stored(after, o) && Named(o, n)
      ensures PointsTo(after, NameKey(n, o), o) && PointsTo(after, TypeKey(n, o), o)
    {
      PutStored(db, r, o);
      Families(n, o);
      PutAt(db, r, NameKey(n, o));
      PutAt(db, r, TypeKey(n, o));
      if o != r {
        if KeyOf(NameKey(n, o), r) {
          SharedName(n, o, NameKey(n, o), r);
        }
        if KeyOf(TypeKey(n, o), r) {
          SharedName(n, o, TypeKey(n, o), r);
        }
      }
    }
  }

  // A key two records have in common is a name they have in common at one place.
  lemma SharedName(n: string, o: SymbolRecord, k: string, r: SymbolRecord)
    requires Named(o, n) && (k == NameKey(n, o) || k == TypeKey(n, o)) && KeyOf(k, r)
    ensures SamePlace(o, r)
    ensures exists m :: Named(r, m) && Unesc(n) == Unesc(m)
  {
    var m :| Named(r, m) && (k == NameKey(m, r) || k == TypeKey(m, r));
    Families(n, o);
    Families(m, r);
    PrefixesApart(k);
    NameKeyIdentity(n, o, m, r);
    TypeKeyIdentity(n, o, m, r);
  }

  lemma PutKeepsSound(db: Database, r: SymbolRecord)
    requires Coherent(db) && NoneDropped(db, r)
    ensures Sound(Put(db, r))
  {
    var after := Put(db, r);
    forall k | k in after && NameOrType(k)
      ensures exists o :: Stored(after, o) && KeyOf(k, o) && PointsTo(after, k, o)
    {
      PutAt(db, r, k);
      PutStored(db, r, r);
      if KeyOf(k, r) {
        assert Stored(after, r);
      } else {
        var o :| Stored(db, o) && KeyOf(k, o) && PointsTo(db, k, o);
        PutStored(db, r, o);
        if PrimaryKey(o) == PrimaryKey(r) {
          ReplacedKeysStay(db, r, o, k);
        } else {
          assert Stored(after, o);
        }
      }
    }
  }

  // With no name dropped, every key of the replaced record is a key of the new one.
  lemma ReplacedKeysStay(db: Database, r: SymbolRecord, o: SymbolRecord, k: string)
    requires NoneDropped(db, r) && Stored(db, o) && PrimaryKey(o) == PrimaryKey(r) && KeyOf(k, o)
    ensures KeyOf(k, r)
  {
    var n :| Named(o, n) && (k == NameKey(n, o) || k == TypeKey(n, o));
    var m :| Named(r, m) && Unesc(m) == Unesc(n);
    PrimaryKeyIdentity(o, r);
    NameKeyIdentity(n, o, m, r);
    TypeKeyIdentity(n, o, m, r);
  }

  /** A put keeps the index coherent exactly when it drops no name of the record it replaces
      and shares no name with another record at the same place. */
  lemma PutCoherentExactly(db: Database, r: SymbolRecord)
    requires Coherent(db)
    ensures Coherent(Put(db, r)) <==> Admissible(db, r)
  {
    var after := Put(db, r);
    if Admissible(db, r) {
      PutKeepsComplete(db, r);
      PutKeepsSound(db, r);
    }
    if Coherent(after) {
      forall o, n | Stored(db, o) && PrimaryKey(o) == PrimaryKey(r) && Named(o, n)
        ensures exists m :: Named(r, m) && Unesc(m) == Unesc(n)
      {
        CoherentKeepsName(db, r, o, n);
      }
      forall o, n, m | Stored(db, o) && PrimaryKey(o) != PrimaryKey(r) && SamePlace(o, r) && Named(o, n) && Named(r, m)
        ensures Unesc(n) != Unesc(m)
      {
        var k := NameKey(n, o);
        NameKeyIdentity(n, o, m, r);
        PutStored(db, r, o);
        Families(n, o);
        PutAt(db, r, k);
        assert Stored(after, o) && PointsTo(after, k, o);
      }
    }
  }

  lemma CoherentKeepsName(db: Database, r: SymbolRecord, o: SymbolRecord, n: string)
    requires Coherent(db) && Coherent(Put(db, r))
    requires Stored(db, o) && PrimaryKey(o) == PrimaryKey(r) && Named(o, n)
    ensures exists m :: Named(r, m) && Unesc(m) == Unesc(n)
  {
    var after, k := Put(db, r), NameKey(n, o);
    Families(n, o);
    PutAt(db, r, k);
    assert PointsTo(db, k, o);
    assert k in after && NameOrType(k);
    var q :| Stored(after, q) && KeyOf(k, q) && PointsTo(after, k, q);
    PutStored(db, r, q);
    assert PrimaryKey(q) == PrimaryKey(r);
    SharedName(n, o, k, q);
  }

  // The lie an inadmissible put leaves behind: an exact lookup of the dropped alias still
  // answers with the new record.
  lemma DroppedAliasStillAnswers(db: Database, o: SymbolRecord, r: SymbolRecord, alias: string)
    requires Coherent(db) && Stored(db, o) && PrimaryKey(o) == PrimaryKey(r)
    requires Named(o, alias) && Clean(alias) && forall m :: Named(r, m) ==> Unesc(m) != Unesc(alias)
    ensures Stored(Put(db, r), r) && Hit(Put(db, r), alias, EXACT, PrimaryKey(r))
    ensures !Matches(alias, EXACT, r)
  {
    var k := NameKey(alias, o);
    Families(alias, o);
    PutAt(db, r, k);
    PutStored(db, r, r);
    if KeyOf(k, r) {
      SharedName(alias, o, k, r);
      assert false;
    }
    assert PointsTo(db, k, o);
    MatchedNameOfKey(alias, o);
    UnescLength(alias);
    NamePrefixSelects(alias, alias, o);
    assert Scanned(alias, [], k) && Keeps(alias, EXACT, k);
  }

  /* ---- pruning ---- */

  // Removing records with their index entries keeps coherence, whichever records they are;
  // so it holds after every batch of a prune, not only after the last.
  lemma RemovalKeepsCoherent(db: Database, primaries: set<string>)
    requires ValidDb(db) && Coherent(db)
    requires forall k | k in primaries :: SYM <= k
    ensures ValidDb(db - Doomed(db, primaries)) && Coherent(db - Doomed(db, primaries))
  {
    var after := db - Doomed(db, primaries);
    forall r, n | Stored(after, r) && Named(r, n)
      ensures PointsTo(after, NameKey(n, r), r) && PointsTo(after, TypeKey(n, r), r)
    {
      assert Stored(db, r);
      Families(n, r);
      Survives(db, primaries, r, NameKey(n, r));
      Survives(db, primaries, r, TypeKey(n, r));
    }
    forall k | k in after && NameOrType(k)
      ensures exists r :: Stored(after, r) && KeyOf(k, r) && PointsTo(after, k, r)
    {
      var r :| Stored(db, r) && KeyOf(k, r) && PointsTo(db, k, r);
      NameKeysOf(r, k);
      assert PrimaryKey(r) !in primaries;
      PrimaryNotDoomed(db, primaries, r);
      assert Stored(after, r);
    }
  }

  lemma PrimaryNotDoomed(db: Database, primaries: set<string>, r: SymbolRecord)
    ensures PrimaryKey(r) in Doomed(db, primaries) <==> PrimaryKey(r) in primaries
  {
    Families("", r);
    PrefixesApart(PrimaryKey(r));
    forall o ensures PrimaryKey(r) !in IndexKeySet(o) {
      IndexKeysAreIndexes(o);
    }
  }

  lemma Survives(db: Database, primaries: set<string>, r: SymbolRecord, k: string)
    requires ValidDb(db) && Complete(db) && Stored(db, r) && PrimaryKey(r) !in primaries
    requires forall p | p in primaries :: SYM <= p
    requires KeyOf(k, r) && PointsTo(db, k, r)
    ensures k !in Doomed(db, primaries)
  {
    hide Esc, Unesc, Join, PrimaryKey, IndexKeySet, KeyOf, Acceptable;
    NameKeysOf(r, k);
    PrefixesApart(k);
    forall p | p in primaries && p in db && db[p].Json?
      ensures k !in IndexKeySet(db[p].rec)
    {
      var o := db[p].rec;
      NameKeysOf(o, k);
      CompletePoints(db, o, k);
    }
  }

  lemma CompletePoints(db: Database, o: SymbolRecord, k: string)
    requires Complete(db) && Stored(db, o)
    ensures KeyOf(k, o) ==> PointsTo(db, k, o)
  {
    hide Esc, Unesc, Join, PrimaryKey;
  }

  lemma PruneKeepsCoherent(db: Database, repo: string, keep: set<string>)
    requires ValidDb(db) && Coherent(db)
    ensures Coherent(Prune(db, repo, keep))
  {
    RemovalKeepsCoherent(db, Stale(db, repo, keep));
  }

  /* ---- lookup against records ---- */

  // What the caller asked for, said about the record alone.
  predicate Matches(query: string, f: Filter, r: SymbolRecord) {
    && (f.types == [] || r.kind in f.types)
    && exists n :: n in [r.name] + r.aliases && Asked(query, f.exactOnly, n)
  }

  // The answer before the limit: all matching records, each once, in order.
  ghost predicate IsAnswer(db: Database, query: string, f: Filter, all: seq<SymbolRecord>) {
    && Arranged(all, query) && NoDup(all)
    && (forall r :: r in all <==> Stored(db, r) && Matches(query, f, r) && (f.repo == "" || r.repo == f.repo))
  }

  // No name or alias of the record contains the escape sequence.
  predicate CleanNames(r: SymbolRecord) { forall n | n in [r.name] + r.aliases :: Clean(n) }

  ghost predicate CleanDb(db: Database) { forall r | Stored(db, r) :: CleanNames(r) }

  // What a query must satisfy besides being trimmed; an exact query always does.
  predicate SafeQuery(query: string, f: Filter) { f.exactOnly || PrefixSafe(query) }

  lemma {:induction false} NoPercentClean(s: string)
    requires '%' !in s
    ensures Clean(s)
  {
    EscapedChars(s);
    if s != "" {
      NoPercentClean(s[1..]);
    }
  }

  lemma {:induction false} UncleanHasColon(s: string)
    requires !Clean(s)
    ensures ':' in Unesc(s)
    decreases |s|
  {
    if ESCAPED <= s {
      assert Unesc(s)[0] == ':';
    } else {
      UncleanHasColon(s[1..]);
    }
  }

  predicate Plain(s: string) { forall i | 0 <= i < |s| :: s[i] != '%' && s[i] != ':' }

  lemma {:induction false} OneOfPlain(s: string, options: seq<string>)
    requires OneOf(s, options) && forall i | 0 <= i < |options| :: Plain(options[i])
    ensures Plain(s)
  {
    if s != options[0] {
      OneOfPlain(s, options[1..]);
    }
  }

  lemma PlainKinds()
    ensures Plain("function") && Plain("method") && Plain("struct") && Plain("interface") && Plain("macro")
  {
  }

  lemma MorePlainKinds()
    ensures Plain("macro_function") && Plain("enum") && Plain("typedef") && Plain("constant") && Plain("type_alias")
  {
  }

  // No symbol type contains a colon or a percent sign.
  lemma KindIsPlain(kind: string)
    requires OneOf(kind, SYMBOL_TYPES)
    ensures Plain(kind)
  {
    hide Plain, OneOf;
    PlainKinds();
    MorePlainKinds();
    OneOfPlain(kind, SYMBOL_TYPES);
  }

  // A type range only meets records of that very type.
  lemma SameKind(t: string, r: SymbolRecord)
    requires OneOf(r.kind, SYMBOL_TYPES) && Unesc(t) == Unesc(r.kind)
    ensures t == r.kind
  {
    KindIsPlain(r.kind);
    NoPercentClean(r.kind);
    UnescLength(r.kind);
    if !Clean(t) {
      UncleanHasColon(t);
    }
    UnescLength(t);
  }

  // What the index compares: the escaped forms for a prefix, the name read back for an exact query.
  predicate Spelled(query: string, exactOnly: bool, n: string) {
    if exactOnly then Unesc(n) == query else Esc(query) <= Esc(n)
  }

  // What the index takes a request to mean, said about the record alone.
  ghost predicate Spells(query: string, f: Filter, r: SymbolRecord) {
    (f.types == [] || r.kind in f.types) && exists n :: Named(r, n) && Spelled(query, f.exactOnly, n)
  }

  lemma FamilyOfKey(k: string, n: string, r: SymbolRecord)
    requires k == NameKey(n, r) || k == TypeKey(n, r)
    ensures NAME <= k ==> k == NameKey(n, r)
    ensures TYPE <= k ==> k == TypeKey(n, r)
  {
    Families(n, r);
    PrefixesApart(k);
  }

  predicate Asked(query: string, exactOnly: bool, n: string) { if exactOnly then n == query else query <= n }

  // A scanned and kept key of a record spells something the query asked for.
  lemma KeptSpells(query: string, f: Filter, k: string, r: SymbolRecord)
    requires Acceptable(r) && Scanned(query, f.types, k) && Keeps(query, f, k) && KeyOf(k, r)
    ensures Spells(query, f, r)
  {
    hide Esc, Unesc, Join, NameKey, TypeKey;
    var n :| Named(r, n) && (k == NameKey(n, r) || k == TypeKey(n, r));
    MatchedNameOfKey(n, r);
    ScannedFamily(query, f.types, k);
    FamilyOfKey(k, n, r);
    if f.types == [] {
      NamePrefixSelects(query, n, r);
    } else {
      var t :| t in f.types && TYPE + Esc(t) + ":" + Esc(query) <= k;
      TypePrefixSelects(t, query, n, r);
      SameKind(t, r);
    }
    assert Spelled(query, f.exactOnly, n);
  }

  lemma ScannedFamily(query: string, types: seq<string>, k: string)
    requires Scanned(query, types, k)
    ensures NameOrType(k) && if types == [] then NAME <= k else TYPE <= k
  {
    if types == [] {
      PrefixOfPrefix(NAME, Esc(query), k);
    } else {
      var t :| t in types && TYPE + Esc(t) + ":" + Esc(query) <= k;
      assert TYPE + Esc(t) + ":" + Esc(query) == TYPE + (Esc(t) + ":" + Esc(query));
      PrefixOfPrefix(TYPE, Esc(t) + ":" + Esc(query), k);
    }
  }

  lemma PrefixOfPrefix(p: string, s: string, k: string)
    requires p + s <= k
    ensures p <= k
  {
    assert k[..|p|] == (p + s)[..|p|] == p;
  }

  lemma HitSpells(db: Database, query: string, f: Filter, r: SymbolRecord)
    requires ValidDb(db) && Coherent(db) && Stored(db, r) && Hit(db, query, f, PrimaryKey(r))
    ensures Spells(query, f, r)
  {
    hide Esc, Unesc, Join, NameKey, TypeKey;
    var k :| k in db && Scanned(query, f.types, k) && Keeps(query, f, k) && db[k] == Raw(PrimaryKey(r));
    ScannedFamily(query, f.types, k);
    var o :| Stored(db, o) && KeyOf(k, o) && PointsTo(db, k, o);
    assert o == r && Acceptable(r);
    KeptSpells(query, f, k, r);
  }

  lemma SpellsHit(db: Database, query: string, f: Filter, r: SymbolRecord)
    requires Coherent(db) && Stored(db, r) && Spells(query, f, r)
    ensures Hit(db, query, f, PrimaryKey(r))
  {
    hide Esc, Unesc, Join, NameKey, TypeKey;
    var n :| Named(r, n) && Spelled(query, f.exactOnly, n);
    MatchedNameOfKey(n, r);
    if f.exactOnly {
      EscUnesc(n);
      assert Esc(query) <= Esc(n);
    }
    if f.types == [] {
      NamePrefixSelects(query, n, r);
      assert PointsTo(db, NameKey(n, r), r);
      assert Scanned(query, f.types, NameKey(n, r)) && Keeps(query, f, NameKey(n, r));
    } else {
      TypePrefixSelects(r.kind, query, n, r);
      assert PointsTo(db, TypeKey(n, r), r);
      assert Scanned(query, f.types, TypeKey(n, r)) && Keeps(query, f, TypeKey(n, r));
    }
  }

  /** What the index answers, for every coherent store, every query and every filter: a record is
      hit exactly when one of its names spells the query. */
  lemma HitExactly(db: Database, query: string, f: Filter, r: SymbolRecord)
    requires ValidDb(db) && Coherent(db) && Stored(db, r)
    ensures Hit(db, query, f, PrimaryKey(r)) <==> Spells(query, f, r)
  {
    if Hit(db, query, f, PrimaryKey(r)) {
      HitSpells(db, query, f, r);
    }
    if Spells(query, f, r) {
      SpellsHit(db, query, f, r);
    }
  }

  // Spelling and matching are the same for a record whose names are clean and a safe query.
  lemma SpellsExactly(name: string, f: Filter, r: SymbolRecord)
    requires TrimSpace(name) != "" && SafeQuery(TrimSpace(name), f) && CleanNames(r)
    ensures Spells(TrimSpace(name), f, r) <==> Matches(TrimSpace(name), f, r)
  {
    hide Esc, Unesc, TrimSpace, Blank, PrefixSafe;
    var query := TrimSpace(name);
    forall n | n in [r.name] + r.aliases
      ensures Asked(query, f.exactOnly, n) <==> Named(r, n) && Spelled(query, f.exactOnly, n)
    {
      UnescLength(n);
      if !f.exactOnly {
        EscPrefix(query, n);
      }
      if Asked(query, f.exactOnly, n) {
        TrimSpaceStart(name, n);
      }
    }
  }

  // Two different stored records of a coherent store never tie in the answer order.
  lemma NoTies(db: Database, query: string, a: SymbolRecord, b: SymbolRecord)
    requires ValidDb(db) && Coherent(db) && Stored(db, a) && Stored(db, b) && a != b
    ensures !Tied(a, b, query)
  {
    NameKeyIdentity(a.name, a, b.name, b);
    assert Acceptable(a) && Acceptable(b);
    assert Named(a, a.name) && Named(b, b.name);
    assert PointsTo(db, NameKey(a.name, a), a) && PointsTo(db, NameKey(b.name, b), b);
  }

  lemma HitDecodes(db: Database, query: string, f: Filter, p: string)
    requires ValidDb(db) && Coherent(db) && Hit(db, query, f, p)
    ensures p in db && db[p].Json?
  {
    var k :| k in db && Scanned(query, f.types, k) && Keeps(query, f, k) && db[k] == Raw(p);
    ScannedFamily(query, f.types, k);
    var r :| Stored(db, r) && KeyOf(k, r) && PointsTo(db, k, r);
  }

  // On a coherent store the hits are the records a name of which spells the query.
  lemma FoundExactly(db: Database, query: string, f: Filter, all: seq<SymbolRecord>)
    requires ValidDb(db) && Coherent(db)
    ensures Found(db, query, f, all) <==>
            Arranged(all, query) && NoDup(all)
            && forall r :: r in all <==> Stored(db, r) && Spells(query, f, r) && (f.repo == "" || r.repo == f.repo)
  {
    hide Spells, Hit, Arranged;
    forall r | Stored(db, r) ensures Hit(db, query, f, PrimaryKey(r)) <==> Spells(query, f, r) {
      HitExactly(db, query, f, r);
    }
  }

  /** What a lookup answers on every coherent store, whatever its names and the query: the records
      a name of which spells the query, each once, in order; and it never fails. */
  lemma LookupSpells(db: Database, query: string, f: Filter)
    requires ValidDb(db) && Coherent(db)
    ensures var all := FullAnswer(db, query, f);
            Arranged(all, query) && NoDup(all)
            && forall r :: r in all <==> Stored(db, r) && Spells(query, f, r) && (f.repo == "" || r.repo == f.repo)
    ensures !Unreadable(db, query, f)
  {
    hide Hit, Spells, FullAnswer;
    FullAnswerFound(db, query, f);
    FoundExactly(db, query, f, FullAnswer(db, query, f));
    forall p | Hit(db, query, f, p) ensures p in db && db[p].Json? {
      HitDecodes(db, query, f, p);
    }
  }

  lemma FoundIsAnswer(db: Database, name: string, f: Filter, all: seq<SymbolRecord>)
    requires ValidDb(db) && Coherent(db) && CleanDb(db)
    requires TrimSpace(name) != "" && SafeQuery(TrimSpace(name), f)
    ensures Found(db, TrimSpace(name), f, all) <==> IsAnswer(db, TrimSpace(name), f, all)
  {
    hide Spells, Matches, TrimSpace, Arranged;
    FoundExactly(db, TrimSpace(name), f, all);
    forall r | Stored(db, r) ensures Spells(TrimSpace(name), f, r) <==> Matches(TrimSpace(name), f, r) {
      SpellsExactly(name, f, r);
    }
  }

  /** Lookup refines a search over the records.  On a coherent store whose names are free of the
      escape sequence, the full answer is the one and only list of the matching records in order,
      each once, and no lookup fails. */
  lemma LookupRefinesSearch(db: Database, name: string, f: Filter, all: seq<SymbolRecord>)
    requires ValidDb(db) && Coherent(db) && CleanDb(db)
    requires TrimSpace(name) != "" && SafeQuery(TrimSpace(name), f)
    ensures IsAnswer(db, TrimSpace(name), f, all) <==> all == FullAnswer(db, TrimSpace(name), f)
    ensures !Unreadable(db, TrimSpace(name), f)
  {
    hide TrimSpace, IsAnswer, Found, FullAnswer, Unreadable;
    var query := TrimSpace(name);
    LookupSpells(db, query, f);
    FullAnswerFound(db, query, f);
    FoundIsAnswer(db, name, f, all);
    FoundIsAnswer(db, name, f, FullAnswer(db, query, f));
    if IsAnswer(db, query, f, all) {
      AnswerUnique(db, query, f, all, FullAnswer(db, query, f));
    }
  }

  // Order and contents leave one answer.
  lemma AnswerUnique(db: Database, query: string, f: Filter, s: seq<SymbolRecord>, t: seq<SymbolRecord>)
    requires ValidDb(db) && Coherent(db)
    requires IsAnswer(db, query, f, s) && IsAnswer(db, query, f, t)
    ensures s == t
  {
    forall a, b | a in s && b in s && a != b ensures !Tied(a, b, query) {
      NoTies(db, query, a, b);
    }
    SortedExactly(s, query);
    SortedExactly(t, query);
    SortedUnique(s, t, query);
  }

  /* ---- the conditions on names are exact ---- */

  lemma {:induction false} UnescEnds(s: string)
    requires s != ""
    ensures Unesc(s) != ""
    ensures IsSpace(s[0]) ==> Unesc(s)[0] == s[0]
    ensures IsSpace(s[|s| - 1]) ==> Unesc(s)[|Unesc(s)| - 1] == s[|s| - 1]
    decreases |s|
  {
    if ESCAPED <= s {
      if s[3..] != "" {
        UnescEnds(s[3..]);
      }
    } else if s[1..] != "" {
      UnescEnds(s[1..]);
    }
  }

  /** Exact lookups see a record under its own names, all of them and no others, if and only if
      each of its names that a trimmed query can equal is free of the escape sequence. */
  lemma ExactLookupExactly(db: Database, r: SymbolRecord)
    requires ValidDb(db) && Coherent(db) && Stored(db, r)
    ensures (forall name | TrimSpace(name) != "" ::
               Hit(db, TrimSpace(name), EXACT, PrimaryKey(r)) <==> Matches(TrimSpace(name), EXACT, r))
            <==> forall n | Named(r, n) && Trimmed(n) :: Clean(n)
  {
    hide Hit, Matches, PrimaryKey, Trimmed, TrimSpace, Clean;
    TrimmedHitExactly(db, r);
    forall name | TrimSpace(name) != "" ensures Trimmed(TrimSpace(name)) {
      TrimSpaceTrimmed(name);
    }
    forall query | Trimmed(query) ensures query != "" && TrimSpace(query) == query {
      TrimmedExactly(query);
    }
  }

  lemma TrimmedHitExactly(db: Database, r: SymbolRecord)
    requires ValidDb(db) && Coherent(db) && Stored(db, r)
    ensures (forall query | Trimmed(query) :: Hit(db, query, EXACT, PrimaryKey(r)) <==> Matches(query, EXACT, r))
            <==> forall n | Named(r, n) && Trimmed(n) :: Clean(n)
  {
    hide Unesc, Clean, Hit, PrimaryKey, Trimmed;
    if forall n | Named(r, n) && Trimmed(n) :: Clean(n) {
      forall query | Trimmed(query) ensures Hit(db, query, EXACT, PrimaryKey(r)) <==> Matches(query, EXACT, r) {
        HitExactly(db, query, EXACT, r);
        TrimmedSpells(query, r);
      }
    }
    forall n | Named(r, n) && Trimmed(n) && !Clean(n)
      ensures !Hit(db, n, EXACT, PrimaryKey(r)) && Matches(n, EXACT, r)
    {
      HitExactly(db, n, EXACT, r);
      UncleanNeverSpelled(n, r);
    }
  }

  lemma UncleanNeverSpelled(n: string, r: SymbolRecord)
    requires Named(r, n) && !Clean(n)
    ensures !Spells(n, EXACT, r) && Matches(n, EXACT, r)
  {
    assert Asked(n, true, n);
    forall m ensures Unesc(m) != n {
      UnescIsClean(m);
    }
  }

  lemma TrimmedSpells(query: string, r: SymbolRecord)
    requires Trimmed(query) && forall n | Named(r, n) && Trimmed(n) :: Clean(n)
    ensures Spells(query, EXACT, r) <==> Matches(query, EXACT, r)
  {
    hide Unesc, Clean;
    forall n | Named(r, n) ensures Unesc(n) == query <==> n == query {
      UnescEnds(n);
      UnescLength(n);
    }
    assert forall n | n in [r.name] + r.aliases && Asked(query, true, n) :: Named(r, n);
  }

  /* ---- what holds after every run of puts and prunes ---- */

  datatype Op = PutOp(rec: SymbolRecord) | PruneOp(repo: string, keep: set<string>)

  function Apply(db: Database, op: Op): Database {
    match op
    case PutOp(r) => if Acceptable(r) then Put(db, r) else db
    case PruneOp(repo, keep) => Prune(db, repo, keep)
  }

  function Run(ops: seq<Op>): Database {
    if ops == [] then map[] else Apply(Run(ops[..|ops| - 1]), ops[|ops| - 1])
  }

  // Every name or type entry points where the record that wrote it sits, stored or not.
  ghost predicate WellIndexed(db: Database) {
    forall k {:trigger NameOrType(k)} | k in db && NameOrType(k) ::
      exists r :: Acceptable(r) && KeyOf(k, r) && PointsTo(db, k, r)
  }

  lemma PutWellIndexed(db: Database, r: SymbolRecord)
    requires WellIndexed(db) && Acceptable(r)
    ensures WellIndexed(Put(db, r))
  {
    var after := Put(db, r);
    forall k | k in after && NameOrType(k)
      ensures exists o :: Acceptable(o) && KeyOf(k, o) && PointsTo(after, k, o)
    {
      PutAt(db, r, k);
      if !KeyOf(k, r) {
        var o :| Acceptable(o) && KeyOf(k, o) && PointsTo(db, k, o);
        assert PointsTo(after, k, o);
      }
    }
  }

  lemma {:induction false} EveryRunWellIndexed(ops: seq<Op>)
    ensures ValidDb(Run(ops)) && WellIndexed(Run(ops))
  {
    if ops != [] {
      var before, op := Run(ops[..|ops| - 1]), ops[|ops| - 1];
      EveryRunWellIndexed(ops[..|ops| - 1]);
      match op {
        case PutOp(r) =>
          if Acceptable(r) {
            PutValid(before, r);
            PutWellIndexed(before, r);
          }
        case PruneOp(repo, keep) =>
          PruneValid(before, repo, keep);
          var after := Prune(before, repo, keep);
          forall k | k in after && NameOrType(k)
            ensures exists r :: Acceptable(r) && KeyOf(k, r) && PointsTo(after, k, r)
          {
            var r :| Acceptable(r) && KeyOf(k, r) && PointsTo(before, k, r);
            assert PointsTo(after, k, r);
          }
      }
    }
  }

  lemma ScannedKind(query: string, types: seq<string>, k: string, w: SymbolRecord)
    requires types != [] && Scanned(query, types, k) && Acceptable(w) && KeyOf(k, w)
    ensures w.kind in types
  {
    ScannedFamily(query, types, k);
    var n :| Named(w, n) && (k == NameKey(n, w) || k == TypeKey(n, w));
    Families(n, w);
    PrefixesApart(k);
    var t :| t in types && TYPE + Esc(t) + ":" + Esc(query) <= k;
    TypePrefixSelects(t, query, n, w);
    SameKind(t, w);
  }

  lemma EntryKind(db: Database, query: string, types: seq<string>, k: string, r: SymbolRecord)
    requires WellIndexed(db) && Acceptable(r) && types != []
    requires k in db && Scanned(query, types, k) && db[k] == Raw(PrimaryKey(r))
    ensures r.kind in types
  {
    ScannedFamily(query, types, k);
    var w :| Acceptable(w) && KeyOf(k, w) && PointsTo(db, k, w);
    ScannedKind(query, types, k, w);
    PrimaryKeyIdentity(w, r);
    SameKind(w.kind, r);
  }

  /** After every run, whatever aliases were dropped or names collided, a lookup restricted to
      some kinds returns records of those kinds only. */
  lemma TypedLookupNeverLeaks(ops: seq<Op>, query: string, f: Filter, r: SymbolRecord)
    requires f.types != [] && r in FullAnswer(Run(ops), query, f)
    ensures r.kind in f.types
  {
    hide FullAnswer;
    var db := Run(ops);
    EveryRunWellIndexed(ops);
    FullAnswerFound(db, query, f);
    var k :| k in db && Scanned(query, f.types, k) && Keeps(query, f, k) && db[k] == Raw(PrimaryKey(r));
    EntryKind(db, query, f.types, k, r);
  }

  ghost predicate AdmissibleRun(ops: seq<Op>) {
    ops == [] ||
    (AdmissibleRun(ops[..|ops| - 1]) &&
     (ops[|ops| - 1].PutOp? && Acceptable(ops[|ops| - 1].rec) ==>
           Admissible(Run(ops[..|ops| - 1]), ops[|ops| - 1].rec)))
  }

  lemma ApplyCoherentExactly(db: Database, op: Op)
    requires ValidDb(db) && Coherent(db)
    ensures Coherent(Apply(db, op)) <==> (op.PutOp? && Acceptable(op.rec) ==> Admissible(db, op.rec))
  {
    if op.PutOp? {
      PutCoherentExactly(db, op.rec);
    } else {
      PruneKeepsCoherent(db, op.repo, op.keep);
    }
  }

  // Coherent now and at every earlier point of the run.
  ghost predicate CoherentThroughout(ops: seq<Op>) {
    Coherent(Run(ops)) && (ops != [] ==> CoherentThroughout(ops[..|ops| - 1]))
  }

  /** The index is coherent at every point of a run exactly when every put of the run was
      admissible at its time. */
  lemma {:induction false} CoherentRunExactly(ops: seq<Op>)
    ensures CoherentThroughout(ops) <==> AdmissibleRun(ops)
  {
    if ops != [] {
      var init := ops[..|ops| - 1];
      CoherentRunExactly(init);
      EveryRunWellIndexed(init);
      if CoherentThroughout(init) {
        ApplyCoherentExactly(Run(init), ops[|ops| - 1]);
      }
    }
  }
}
