/** internal/ast/indexer/indexer.go: one indexing cycle of a repository.

    Workers parse files in parallel and their results reach the single writer in any order; the
    sequence of results is that arrival order.  Whether the context was cancelled by the end of
    the crawl is a parameter. */
module Indexer {
  import opened Text
  import opened Model
  import opened Keys
  import opened SymbolStore
  import opened Coherence

  // parser.Symbol: a record before it is attributed to a repository and a file.
  datatype Symbol = Symbol(
    name: string, aliases: seq<string>, kind: string, parentScope: string,
    signature: string, documentation: string, source: string, language: string,
    startByte: int, endByte: int, startLine: int, endLine: int)

  // A worker's answer for one file; Filtered is a nil symbol list without an error.
  datatype ParseResult = Failed(path: string) | Filtered(path: string) | Parsed(path: string, symbols: seq<Symbol>)

  datatype Summary = Summary(filtered: nat, parsed: nat, found: nat, written: nat, pruned: nat, errors: nat)

  function ToRecord(repo: string, path: string, s: Symbol): SymbolRecord {
    SymbolRecord(repo, path, s.language, s.kind, s.name, s.aliases, s.parentScope,
                 s.startByte, s.endByte, s.startLine, s.endLine, s.documentation, s.signature, s.source)
  }

  /* ---- the cycle as a fold over arriving results ---- */

  datatype Cycle = Cycle(db: Database, live: set<string>, sum: Summary)

  function Start(db: Database): Cycle { Cycle(db, {}, Summary(0, 0, 0, 0, 0, 0)) }

  // One symbol reaching the writer.
  function PutStep(c: Cycle, r: SymbolRecord): Cycle {
    Cycle(Stepped(c.db, r),
          if Acceptable(r) then c.live + {PrimaryKey(r)} else c.live,
          Tally(c.sum, Acceptable(r), Stored(c.db, r)))
  }

  function Stepped(db: Database, r: SymbolRecord): Database {
    if Acceptable(r) then Put(db, r) else db
  }

  function Tally(sum: Summary, accepted: bool, same: bool): Summary {
    if !accepted then sum.(errors := sum.errors + 1)
    else if same then sum
    else sum.(written := sum.written + 1)
  }

  function PutAll(c: Cycle, recs: seq<SymbolRecord>): Cycle {
    if recs == [] then c else PutStep(PutAll(c, recs[..|recs| - 1]), recs[|recs| - 1])
  }

  function RecordsOf(repo: string, res: ParseResult): seq<SymbolRecord> {
    if res.Parsed?
    then seq(|res.symbols|, i requires 0 <= i < |res.symbols| => ToRecord(repo, res.path, res.symbols[i]))
    else []
  }

  function Count(c: Cycle, res: ParseResult): Cycle {
    match res
    case Failed(_) => c.(sum := c.sum.(errors := c.sum.errors + 1))
    case Filtered(_) => c.(sum := c.sum.(filtered := c.sum.filtered + 1))
    case Parsed(_, symbols) => c.(sum := c.sum.(parsed := c.sum.parsed + 1, found := c.sum.found + |symbols|))
  }

  function Receive(c: Cycle, repo: string, res: ParseResult): Cycle {
    PutAll(Count(c, res), RecordsOf(repo, res))
  }

  function Crawl(c: Cycle, repo: string, results: seq<ParseResult>): Cycle {
    if results == [] then c else Receive(Crawl(c, repo, results[..|results| - 1]), repo, results[|results| - 1])
  }

  function Records(repo: string, results: seq<ParseResult>): seq<SymbolRecord> {
    if results == [] then [] else Records(repo, results[..|results| - 1]) + RecordsOf(repo, results[|results| - 1])
  }

  // The database a finished cycle leaves.
  function Cycled(db: Database, repo: string, results: seq<ParseResult>): Database {
    var c := Crawl(Start(db), repo, results);
    Prune(c.db, repo, c.live)
  }

  class Indexer {
    const store: Store

    constructor (store: Store)
      ensures this.store == store
    {
      this.store := store;
    }

    /** Puts everything the crawl produced, then prunes the rest of the repository; a cancelled
        cycle stops before pruning. */
    method IndexRepo(repo: string, results: seq<ParseResult>, cancelled: bool) returns (ok: bool, summary: Summary)
      requires store.Valid()
      modifies store
      ensures store.Valid() && ok == !cancelled
      ensures var c := Crawl(Start(old(store.db)), repo, results);
              if cancelled then store.db == c.db && summary == c.sum
              else store.db == Cycled(old(store.db), repo, results)
                   && summary == c.sum.(pruned := |Stale(c.db, repo, c.live)|)
      ensures Reflects(old(store.db), store.db, repo, results, !cancelled)
      ensures OneRecordPerKey(repo, results) ==>
                forall r | Described(repo, results, r) && Acceptable(r) :: Stored(store.db, r)
    {
      CrawlReflects(store.db, repo, results);
      summary := Summary(0, 0, 0, 0, 0, 0);
      var live: set<string> := {};
      ghost var start := Start(store.db);
      for i := 0 to |results|
        invariant store.Valid()
        invariant Cycle(store.db, live, summary) == Crawl(start, repo, results[..i])
      {
        CrawlNext(start, repo, results, i);
        live, summary := ReceiveResult(repo, results[i], live, summary);
      }
      assert results[..|results|] == results;
      if cancelled {
        return false, summary;
      }
      var pruned := store.PruneRepo(repo, live);
      return true, summary.(pruned := pruned);
    }

    // The body of IndexRepo's loop: one worker result.
    method ReceiveResult(repo: string, res: ParseResult, live0: set<string>, sum0: Summary)
      returns (live: set<string>, summary: Summary)
      requires store.Valid()
      modifies store
      ensures store.Valid()
      ensures Cycle(store.db, live, summary) == Receive(Cycle(old(store.db), live0, sum0), repo, res)
    {
      live, summary := live0, sum0;
      match res {
        case Failed(_) =>
          summary := summary.(errors := summary.errors + 1);
        case Filtered(_) =>
          summary := summary.(filtered := summary.filtered + 1);
        case Parsed(path, symbols) =>
          summary := summary.(parsed := summary.parsed + 1, found := summary.found + |symbols|);
          live, summary := PutSymbols(repo, path, symbols, live, summary);
      }
    }

    // The inner loop of IndexRepo: the symbols of one parsed file.
    method PutSymbols(repo: string, path: string, symbols: seq<Symbol>, live0: set<string>, sum0: Summary)
      returns (live: set<string>, summary: Summary)
      requires store.Valid()
      modifies store
      ensures store.Valid()
      ensures Cycle(store.db, live, summary) ==
              PutAll(Cycle(old(store.db), live0, sum0), RecordsOf(repo, Parsed(path, symbols)))
    {
      live, summary := live0, sum0;
      ghost var c := Cycle(store.db, live0, sum0);
      ghost var recs := RecordsOf(repo, Parsed(path, symbols));
      for j := 0 to |symbols|
        invariant store.Valid()
        invariant Cycle(store.db, live, summary) == PutAll(c, recs[..j])
      {
        assert recs[..j + 1][..j] == recs[..j];
        var put := store.PutSymbol(ToRecord(repo, path, symbols[j]));
        if put.Err? {
          summary := summary.(errors := summary.errors + 1);
          continue;
        }
        var (key, written) := put.value;
        live := live + {key};
        if written {
          summary := summary.(written := summary.written + 1);
        }
      }
      assert recs[..|recs|] == recs;
    }
  }

  lemma CrawlNext(c: Cycle, repo: string, results: seq<ParseResult>, i: nat)
    requires i < |results|
    ensures Crawl(c, repo, results[..i + 1]) == Receive(Crawl(c, repo, results[..i]), repo, results[i])
  {
    assert results[..i + 1][..i] == results[..i];
  }

  /* ---- arrival order does not matter ---- */

  // Two records that are not put over each other and claim no index slot of each other.
  predicate Apart(a: SymbolRecord, b: SymbolRecord) {
    a == b || !Acceptable(a) || !Acceptable(b) || !SamePlace(a, b)
  }

  lemma EntriesDisjoint(a: SymbolRecord, b: SymbolRecord)
    requires !SamePlace(a, b)
    ensures Entries(a).Keys !! Entries(b).Keys
  {
    hide Esc, Unesc, Join, Validate;
    forall k | k in Entries(a) ensures k !in Entries(b) {
      EntriesAt(a, k);
      EntriesAt(b, k);
      IndexKeysAreIndexes(a);
      IndexKeysAreIndexes(b);
      PrimaryKeyIdentity(a, b);
      Families("", a);
      Families("", b);
      PrefixesApart(k);
      FileKeyIdentity(a, b);
      if NameOrType(k) {
        NameKeysOf(a, k);
        NameKeysOf(b, k);
        if KeyOf(k, a) && KeyOf(k, b) {
          var n :| Named(a, n) && (k == NameKey(n, a) || k == TypeKey(n, a));
          SharedName(n, a, k, b);
        }
      } else {
        OtherKeys(a, k);
        OtherKeys(b, k);
      }
    }
  }

  lemma OtherKeys(r: SymbolRecord, k: string)
    requires !NameOrType(k)
    ensures k in IndexKeySet(r) <==> k == FileKey(r)
  {
    if n :| n in IndexedNames(r) && (k == NameKey(n, r) || k == TypeKey(n, r)) {
      Families(n, r);
    }
  }

  lemma PutsCommute(db: Database, a: SymbolRecord, b: SymbolRecord)
    requires !SamePlace(a, b)
    ensures Put(Put(db, a), b) == Put(Put(db, b), a)
    ensures Stored(Put(db, a), b) <==> Stored(db, b)
  {
    EntriesDisjoint(a, b);
    DisjointAdditions(db, Entries(a), Entries(b));
    PrimaryKeyIdentity(a, b);
    PutStored(db, a, b);
  }

  lemma DisjointAdditions<K, V>(m: map<K, V>, a: map<K, V>, b: map<K, V>)
    requires a.Keys !! b.Keys
    ensures m + a + b == m + b + a
  {
  }

  lemma TallyCommutes(sum: Summary, a: bool, x: bool, b: bool, y: bool)
    ensures Tally(Tally(sum, a, x), b, y) == Tally(Tally(sum, b, y), a, x)
  {
  }

  lemma StepsCommute(c: Cycle, a: SymbolRecord, b: SymbolRecord)
    requires !SamePlace(a, b)
    ensures PutStep(PutStep(c, a), b) == PutStep(PutStep(c, b), a)
  {
    hide Validate, PrimaryKey, Put;
    var x, y := Acceptable(a), Acceptable(b);
    PutsCommute(c.db, a, b);
    PutsCommute(c.db, b, a);
    assert Stored(Stepped(c.db, a), b) == Stored(c.db, b) && Stored(Stepped(c.db, b), a) == Stored(c.db, a);
    TallyCommutes(c.sum, x, Stored(c.db, a), y, Stored(c.db, b));
    assert c.live + {PrimaryKey(a)} + {PrimaryKey(b)} == c.live + {PrimaryKey(b)} + {PrimaryKey(a)};
    assert Stepped(Stepped(c.db, a), b) == Stepped(Stepped(c.db, b), a);
  }

  lemma RejectedCommutes(c: Cycle, a: SymbolRecord, b: SymbolRecord)
    requires !Acceptable(a)
    ensures PutStep(PutStep(c, a), b) == PutStep(PutStep(c, b), a)
  {
    hide Acceptable, Put, PrimaryKey;
    TallyCommutes(c.sum, false, Stored(c.db, a), Acceptable(b), Stored(c.db, b));
    TallyIgnores(c.sum, Stored(c.db, a), Stored(Stepped(c.db, b), a));
    TallyIgnores(Tally(c.sum, Acceptable(b), Stored(c.db, b)), Stored(c.db, a), Stored(Stepped(c.db, b), a));
  }

  lemma TallyIgnores(sum: Summary, x: bool, y: bool)
    ensures Tally(sum, false, x) == Tally(sum, false, y)
  {
  }

  // Two different accepted records at one place: the last one put wins its key or the file slot.
  lemma LastPutWins(db: Database, a: SymbolRecord, b: SymbolRecord)
    requires SamePlace(a, b) && a != b
    ensures Put(Put(db, a), b) != Put(Put(db, b), a)
  {
    hide Esc, Unesc, Join, PrimaryKey, NameKey, TypeKey, FileKey;
    FileKeyIdentity(a, b);
    EntriesAt(a, FileKey(a));
    EntriesAt(b, FileKey(b));
    EntriesAt(a, PrimaryKey(a));
    EntriesAt(b, PrimaryKey(b));
    assert Put(Put(db, a), b)[FileKey(a)] == Raw(PrimaryKey(b)) && Put(Put(db, b), a)[FileKey(a)] == Raw(PrimaryKey(a));
    assert Put(Put(db, a), b)[PrimaryKey(b)] == Json(b) && Put(Put(db, b), a)[PrimaryKey(a)] == Json(a);
  }

  // Two symbols reaching the writer commute if and only if they are apart.
  lemma StepsCommuteExactly(c: Cycle, a: SymbolRecord, b: SymbolRecord)
    ensures PutStep(PutStep(c, a), b) == PutStep(PutStep(c, b), a) <==> Apart(a, b)
  {
    hide Acceptable, PrimaryKey, Put, SamePlace;
    if !Acceptable(a) {
      RejectedCommutes(c, a, b);
    } else if !Acceptable(b) {
      RejectedCommutes(c, b, a);
    } else if !SamePlace(a, b) {
      StepsCommute(c, a, b);
    } else if a != b {
      LastPutWins(c.db, a, b);
    }
  }

  lemma {:induction false} StepPast(c: Cycle, a: SymbolRecord, bs: seq<SymbolRecord>)
    requires forall b | b in bs :: Apart(a, b)
    ensures PutAll(PutStep(c, a), bs) == PutStep(PutAll(c, bs), a)
  {
    if bs != [] {
      var init, b := bs[..|bs| - 1], bs[|bs| - 1];
      StepPast(c, a, init);
      StepsCommuteExactly(PutAll(c, init), a, b);
    }
  }

  lemma {:induction false} BatchesCommute(c: Cycle, xs: seq<SymbolRecord>, ys: seq<SymbolRecord>)
    requires forall a, b | a in xs && b in ys :: Apart(a, b)
    ensures PutAll(PutAll(c, xs), ys) == PutAll(PutAll(c, ys), xs)
  {
    if xs != [] {
      var init, a := xs[..|xs| - 1], xs[|xs| - 1];
      BatchesCommute(c, init, ys);
      StepPast(PutAll(c, init), a, ys);
    }
  }

  lemma {:induction false} CountPast(c: Cycle, res: ParseResult, recs: seq<SymbolRecord>)
    ensures Count(PutAll(c, recs), res) == PutAll(Count(c, res), recs)
  {
    if recs != [] {
      CountPast(c, res, recs[..|recs| - 1]);
      CountStep(PutAll(c, recs[..|recs| - 1]), res, recs[|recs| - 1]);
    }
  }

  lemma CountStep(c: Cycle, res: ParseResult, r: SymbolRecord)
    ensures Count(PutStep(c, r), res) == PutStep(Count(c, res), r)
  {
    TallyThenCount(c.sum, Acceptable(r), Stored(c.db, r), res, PutStep(c, r));
  }

  lemma TallyThenCount(sum: Summary, a: bool, x: bool, res: ParseResult, d: Cycle)
    requires d.sum == Tally(sum, a, x)
    ensures Count(d, res).sum == Tally(Count(d.(sum := sum), res).sum, a, x)
  {
  }

  // Two results whose symbols are apart.
  predicate ResultsApart(repo: string, x: ParseResult, y: ParseResult) {
    forall a, b | a in RecordsOf(repo, x) && b in RecordsOf(repo, y) :: Apart(a, b)
  }

  predicate AllApart(repo: string, results: seq<ParseResult>) {
    forall i, j | 0 <= i < j < |results| :: ResultsApart(repo, results[i], results[j])
  }

  // Results for files whose paths differ, %3A read as a colon, always are.
  lemma DifferentFilesApart(repo: string, x: ParseResult, y: ParseResult)
    requires Unesc(x.path) != Unesc(y.path)
    ensures ResultsApart(repo, x, y)
  {
  }

  lemma ReceivesCommute(c: Cycle, repo: string, x: ParseResult, y: ParseResult)
    requires ResultsApart(repo, x, y)
    ensures Receive(Receive(c, repo, x), repo, y) == Receive(Receive(c, repo, y), repo, x)
  {
    hide Apart, PutStep;
    var xs, ys := RecordsOf(repo, x), RecordsOf(repo, y);
    CountPast(Count(c, x), y, xs);
    CountPast(Count(c, y), x, ys);
    assert Count(Count(c, x), y) == Count(Count(c, y), x);
    BatchesCommute(Count(Count(c, x), y), xs, ys);
  }

  // A result can be received last instead of in the middle.
  lemma {:induction false} MoveLast(c: Cycle, repo: string, left: seq<ParseResult>, x: ParseResult,
                                    right: seq<ParseResult>)
    requires forall y | y in right :: ResultsApart(repo, x, y)
    ensures Crawl(c, repo, left + [x] + right) == Receive(Crawl(c, repo, left + right), repo, x)
  {
    hide Receive, ResultsApart;
    if right == [] {
      var all := left + [x] + right;
      assert all[..|all| - 1] == left == left + right;
    } else {
      var init, y := right[..|right| - 1], right[|right| - 1];
      var all := left + [x] + right;
      assert all[..|all| - 1] == left + [x] + init;
      assert (left + right)[..|left + right| - 1] == left + init;
      MoveLast(c, repo, left, x, init);
      ReceivesCommute(Crawl(c, repo, left + init), repo, x, y);
    }
  }

  // Taking one result out of an arrival order.
  lemma TakeOut(repo: string, ys: seq<ParseResult>, k: nat) returns (left: seq<ParseResult>, right: seq<ParseResult>)
    requires AllApart(repo, ys) && k < |ys|
    ensures ys == left + [ys[k]] + right && AllApart(repo, left + right)
    ensures forall y | y in right :: ResultsApart(repo, ys[k], y)
  {
    hide ResultsApart;
    left, right := ys[..k], ys[k + 1..];
    forall i, j | 0 <= i < j < |left + right|
      ensures ResultsApart(repo, (left + right)[i], (left + right)[j])
    {
      assert (left + right)[i] == ys[if i < k then i else i + 1];
      assert (left + right)[j] == ys[if j < k then j else j + 1];
    }
    forall y | y in right ensures ResultsApart(repo, ys[k], y) {
      var j :| 0 <= j < |right| && right[j] == y;
      assert ys[k + 1 + j] == y;
    }
  }

  lemma SameContents(xs: seq<ParseResult>, left: seq<ParseResult>, right: seq<ParseResult>)
    requires xs != [] && multiset(xs) == multiset(left + [xs[|xs| - 1]] + right)
    ensures multiset(xs[..|xs| - 1]) == multiset(left + right)
  {
    var init, x := xs[..|xs| - 1], xs[|xs| - 1];
    assert xs == init + [x];
    assert multiset(init) == multiset(xs) - multiset{x};
    assert multiset(left + right) == multiset(left + [x] + right) - multiset{x};
  }

  /** The crawl ends in the same database, live set and summary for every order in which the
      same results arrive. */
  lemma {:induction false} OrderIndependent(c: Cycle, repo: string, xs: seq<ParseResult>, ys: seq<ParseResult>)
    requires multiset(xs) == multiset(ys) && AllApart(repo, ys)
    ensures Crawl(c, repo, xs) == Crawl(c, repo, ys)
  {
    hide AllApart, ResultsApart, Receive;
    if xs == [] {
      assert |ys| == |multiset(ys)| == 0;
    } else {
      var init, x := xs[..|xs| - 1], xs[|xs| - 1];
      assert x in multiset(xs) && x in multiset(ys);
      var k :| 0 <= k < |ys| && ys[k] == x;
      var left, right := TakeOut(repo, ys, k);
      SameContents(xs, left, right);
      MoveLast(c, repo, left, x, right);
      OrderIndependent(c, repo, init, left + right);
    }
  }

  /* ---- the repository slice and the frame ---- */

  // A key that can belong to the repository.
  ghost predicate OfRepo(k: string, repo: string) {
    RepoPrefix(repo) <= k || exists r: SymbolRecord :: Unesc(r.repo) == Unesc(repo) && k in IndexKeySet(r)
  }

  predicate SameAt(a: Database, b: Database, k: string) {
    (k in a <==> k in b) && (k in a && k in b ==> a[k] == b[k])
  }

  predicate AllOf(repo: string, recs: seq<SymbolRecord>) { forall r | r in recs :: r.repo == repo }

  lemma {:induction false} RecordsAllOf(repo: string, results: seq<ParseResult>)
    ensures AllOf(repo, Records(repo, results))
  {
    if results != [] {
      RecordsAllOf(repo, results[..|results| - 1]);
    }
  }

  lemma {:induction false} PutAllConcat(c: Cycle, xs: seq<SymbolRecord>, ys: seq<SymbolRecord>)
    ensures PutAll(c, xs + ys) == PutAll(PutAll(c, xs), ys)
  {
    if ys == [] {
      assert xs + ys == xs;
    } else {
      var all := xs + ys;
      assert all[..|all| - 1] == xs + ys[..|ys| - 1];
      PutAllConcat(c, xs, ys[..|ys| - 1]);
    }
  }

  // Database and live set of a crawl depend on its records only.
  lemma {:induction false} CrawlIsPutAll(c: Cycle, repo: string, results: seq<ParseResult>)
    ensures var p := PutAll(c, Records(repo, results)); var q := Crawl(c, repo, results);
            q.db == p.db && q.live == p.live && q.sum.written == p.sum.written
  {
    if results != [] {
      var init, res := results[..|results| - 1], results[|results| - 1];
      CrawlIsPutAll(c, repo, init);
      PutAllConcat(c, Records(repo, init), RecordsOf(repo, res));
      PutAllSameDb(PutAll(c, Records(repo, init)), Count(Crawl(c, repo, init), res), RecordsOf(repo, res));
    }
  }

  lemma {:induction false} PutAllSameDb(c: Cycle, d: Cycle, recs: seq<SymbolRecord>)
    requires c.db == d.db && c.live == d.live && c.sum.written == d.sum.written
    ensures var p, q := PutAll(c, recs), PutAll(d, recs);
            p.db == q.db && p.live == q.live && p.sum.written == q.sum.written
  {
    if recs != [] {
      PutAllSameDb(c, d, recs[..|recs| - 1]);
    }
  }

  lemma PutFrame(db: Database, repo: string, r: SymbolRecord)
    requires r.repo == repo
    ensures RepoPrefix(repo) <= PrimaryKey(r) && db.Keys <= Put(db, r).Keys
    ensures forall k | !OfRepo(k, repo) :: SameAt(Put(db, r), db, k)
    ensures forall k | SYM <= k && k != PrimaryKey(r) :: SameAt(Put(db, r), db, k)
  {
    RepoPrefixSelects(repo, r);
    IndexKeysAreIndexes(r);
    forall k ensures !OfRepo(k, repo) ==> SameAt(Put(db, r), db, k)
             ensures SYM <= k && k != PrimaryKey(r) ==> SameAt(Put(db, r), db, k)
    {
      EntriesAt(r, k);
    }
  }

  // What puts leave: a valid database, with every live key in it and nothing else new.
  lemma {:induction false} PutAllFacts(db: Database, repo: string, recs: seq<SymbolRecord>)
    requires ValidDb(db) && AllOf(repo, recs)
    ensures var c := PutAll(Start(db), recs);
            && ValidDb(c.db) && db.Keys <= c.db.Keys && c.live <= c.db.Keys
            && (forall k | k in c.live :: RepoPrefix(repo) <= k)
            && (forall k | !OfRepo(k, repo) :: SameAt(c.db, db, k))
            && (forall k | k in c.db && SYM <= k && k !in c.live :: SameAt(c.db, db, k))
            && (forall k :: k in c.live <==> exists r :: r in recs && Acceptable(r) && k == PrimaryKey(r))
  {
    hide Esc, Unesc, Join, PrimaryKey, RepoPrefix, Put, Validate, IndexKeySet;
    if recs != [] {
      var init, r := recs[..|recs| - 1], recs[|recs| - 1];
      assert recs == init + [r];
      PutAllFacts(db, repo, init);
      var c, d := PutAll(Start(db), init), PutAll(Start(db), recs);
      if Acceptable(r) {
        PutValid(c.db, r);
        PutFrame(c.db, repo, r);
        assert d.db == Put(c.db, r) && d.live == c.live + {PrimaryKey(r)};
        forall k | k in d.db && SYM <= k && k !in d.live ensures SameAt(d.db, db, k) {
          assert SameAt(Put(c.db, r), c.db, k);
        }
      }
    }
  }

  lemma OtherRepoUntouched(repo: string, o: SymbolRecord, k: string)
    requires Unesc(o.repo) != Unesc(repo) && (k == PrimaryKey(o) || k in IndexKeySet(o))
    ensures !OfRepo(k, repo)
  {
    RepoPrefixSelects(repo, o);
    IndexKeysAreIndexes(o);
    Families("", o);
    PrefixesApart(k);
    RepoKeyIsPrimary(repo, k);
    forall r: SymbolRecord | Unesc(r.repo) == Unesc(repo) ensures k !in IndexKeySet(r) {
      IndexKeysAreIndexes(r);
      EntriesDisjoint(o, r);
      EntriesAt(o, k);
      EntriesAt(r, k);
    }
  }

  lemma RepoKeyIsPrimary(repo: string, k: string)
    ensures RepoPrefix(repo) <= k ==> SYM <= k
  {
    if RepoPrefix(repo) <= k {
      assert RepoPrefix(repo) == SYM + (Esc(repo) + ":");
      PrefixOfPrefix(SYM, Esc(repo) + ":", k);
    }
  }

  /** After a finished cycle the primary keys of the repository are exactly those of the
      records the crawl put, each still stored; keys of no other repository have changed. */
  lemma CycleSlicesRepository(db: Database, repo: string, results: seq<ParseResult>, k: string)
    requires ValidDb(db)
    ensures RepoPrefix(repo) <= k ==>
              (k in Cycled(db, repo, results) <==>
               exists r :: r in Records(repo, results) && Acceptable(r) && k == PrimaryKey(r))
    ensures !OfRepo(k, repo) ==> SameAt(Cycled(db, repo, results), db, k)
  {
    var recs := Records(repo, results);
    var c := PutAll(Start(db), recs);
    CrawlIsPutAll(Start(db), repo, results);
    RecordsAllOf(repo, results);
    PutAllFacts(db, repo, recs);
    RepoKeyIsPrimary(repo, k);
    DoomedOfRepo(c.db, repo, c.live, k);
    assert Cycled(db, repo, results) == c.db - Doomed(c.db, Stale(c.db, repo, c.live));
  }

  // What a prune deletes lies inside the repository, and no primary key but the stale ones.
  lemma DoomedOfRepo(db: Database, repo: string, keep: set<string>, k: string)
    requires ValidDb(db)
    ensures k in Doomed(db, Stale(db, repo, keep)) ==> OfRepo(k, repo)
    ensures SYM <= k ==> (k in Doomed(db, Stale(db, repo, keep)) <==> k in Stale(db, repo, keep))
  {
    forall p | p in Stale(db, repo, keep) && db[p].Json? && k in IndexKeySet(db[p].rec)
      ensures OfRepo(k, repo) && !(SYM <= k)
    {
      RepoPrefixSelects(repo, db[p].rec);
      IndexKeysAreIndexes(db[p].rec);
    }
  }

  // A cancelled cycle deletes nothing, and leaves other repositories alone too.
  lemma CancelledCycleDeletesNothing(db: Database, repo: string, results: seq<ParseResult>, k: string)
    requires ValidDb(db)
    ensures k in db ==> k in Crawl(Start(db), repo, results).db
    ensures !OfRepo(k, repo) ==> SameAt(Crawl(Start(db), repo, results).db, db, k)
  {
    CrawlIsPutAll(Start(db), repo, results);
    RecordsAllOf(repo, results);
    PutAllFacts(db, repo, Records(repo, results));
  }

  /* ---- reachability after a cycle ---- */

  // A record the cycle accepts.
  predicate Live(recs: seq<SymbolRecord>, r: SymbolRecord) { r in recs && Acceptable(r) }

  ghost predicate SharesName(a: SymbolRecord, b: SymbolRecord) {
    SamePlace(a, b) && exists m, n :: Named(a, m) && Named(b, n) && Unesc(m) == Unesc(n)
  }

  // No two different records of the crawl share a name at one place.
  ghost predicate NoClash(recs: seq<SymbolRecord>) {
    forall a, b | a in recs && b in recs && Acceptable(a) && Acceptable(b) && a != b :: !SharesName(a, b)
  }

  // No two different records of the crawl have one primary key.
  ghost predicate DistinctKeys(recs: seq<SymbolRecord>) {
    forall a, b | a in recs && b in recs && Acceptable(a) && Acceptable(b) && a != b :: PrimaryKey(a) != PrimaryKey(b)
  }

  ghost predicate NamesReach(db: Database, r: SymbolRecord) {
    forall n | Named(r, n) :: PointsTo(db, NameKey(n, r), r)
  }

  ghost predicate TypesReach(db: Database, r: SymbolRecord) {
    forall n | Named(r, n) :: PointsTo(db, TypeKey(n, r), r)
  }

  /* Which live record holds a key, and which live records hold all of theirs. */

  // Every other accepted record with the key is put before the last put of r.
  ghost predicate HeldLast(recs: seq<SymbolRecord>, r: SymbolRecord, k: string) {
    forall j | 0 <= j < |recs| && Acceptable(recs[j]) && KeyOf(k, recs[j]) && recs[j] != r :: r in recs[j + 1..]
  }

  // An accepted record that shares a name with r at its place is put after the last put of r.
  ghost predicate Overtaken(recs: seq<SymbolRecord>, r: SymbolRecord) {
    exists j :: 0 <= j < |recs| && Overtakes(recs, j, r)
  }

  // The same, by a record of the same kind.
  ghost predicate OvertakenInKind(recs: seq<SymbolRecord>, r: SymbolRecord) {
    exists j :: 0 <= j < |recs| && Overtakes(recs, j, r) && Unesc(recs[j].kind) == Unesc(r.kind)
  }

  ghost predicate Overtakes(recs: seq<SymbolRecord>, j: nat, r: SymbolRecord)
    requires j < |recs|
  {
    Acceptable(recs[j]) && recs[j] != r && SharesName(recs[j], r) && r !in recs[j + 1..]
  }

  lemma HeldLastSnoc(init: seq<SymbolRecord>, x: SymbolRecord, r: SymbolRecord, k: string)
    ensures HeldLast(init + [x], r, k) <==>
            x == r || (!(Acceptable(x) && KeyOf(k, x)) && HeldLast(init, r, k))
  {
    hide Acceptable, KeyOf;
    var recs, n := init + [x], |init|;
    forall j | 0 <= j < n ensures recs[j] == init[j] && (r in recs[j + 1..] <==> r in init[j + 1..] || x == r) {
      assert recs[j + 1..] == init[j + 1..] + [x];
    }
    assert recs[n] == x && recs[n + 1..] == [];
  }

  lemma {:induction false} PutAllHolds(c: Cycle, recs: seq<SymbolRecord>, r: SymbolRecord, k: string)
    requires DistinctKeys(recs) && Live(recs, r) && NameOrType(k) && KeyOf(k, r)
    ensures PointsTo(PutAll(c, recs).db, k, r) <==> HeldLast(recs, r, k)
  {
    hide Esc, Unesc, Join, PrimaryKey, Put, Acceptable, KeyOf, NameOrType, HeldLast;
    var init, x := recs[..|recs| - 1], recs[|recs| - 1];
    assert recs == init + [x];
    HeldLastSnoc(init, x, r, k);
    PutAt(PutAll(c, init).db, x, k);
    if x != r {
      PutAllHolds(c, init, r, k);
    }
  }

  lemma OvertakenKeys(recs: seq<SymbolRecord>, r: SymbolRecord)
    ensures Overtaken(recs, r) <==> exists n :: Named(r, n) && !HeldLast(recs, r, NameKey(n, r))
    ensures OvertakenInKind(recs, r) <==> exists n :: Named(r, n) && !HeldLast(recs, r, TypeKey(n, r))
  {
    hide Esc, Unesc, Join, NameKey, TypeKey, Acceptable, SharesName, KeyOf;
    forall j | 0 <= j < |recs| && Overtakes(recs, j, r)
      ensures exists n :: Named(r, n) && !HeldLast(recs, r, NameKey(n, r))
      ensures Unesc(recs[j].kind) == Unesc(r.kind) ==> exists n :: Named(r, n) && !HeldLast(recs, r, TypeKey(n, r))
    {
      SharesKey(recs[j], r);
      var n :| Named(r, n) && KeyOf(NameKey(n, r), recs[j]);
      assert !HeldLast(recs, r, NameKey(n, r));
    }
    forall n | Named(r, n)
      ensures !HeldLast(recs, r, NameKey(n, r)) ==> Overtaken(recs, r)
      ensures !HeldLast(recs, r, TypeKey(n, r)) ==> OvertakenInKind(recs, r)
    {
      forall j | 0 <= j < |recs|
        ensures KeyOf(NameKey(n, r), recs[j]) ==> SharesName(recs[j], r)
        ensures KeyOf(TypeKey(n, r), recs[j]) ==> SharesName(recs[j], r) && Unesc(recs[j].kind) == Unesc(r.kind)
      {
        SharesKey(recs[j], r);
      }
    }
  }

  function LastIndex(recs: seq<SymbolRecord>, r: SymbolRecord): (i: nat)
    requires r in recs
    ensures i < |recs| && recs[i] == r && r !in recs[i + 1..]
  {
    var n := |recs| - 1;
    if recs[n] == r then n
    else
      assert recs == recs[..n] + [recs[n]];
      var i := LastIndex(recs[..n], r);
      assert recs[i + 1..] == recs[..n][i + 1..] + [recs[n]];
      i
  }

  lemma StillLater(recs: seq<SymbolRecord>, i: nat, j: nat, r: SymbolRecord)
    requires i <= j <= |recs| && r !in recs[i..]
    ensures r !in recs[j..]
  {
    assert recs[i..] == recs[i..j] + recs[j..];
  }

  // No live record is overtaken if and only if no two share a name at one place.
  lemma NoClashExactly(recs: seq<SymbolRecord>)
    ensures (forall r | Live(recs, r) :: !Overtaken(recs, r)) <==> NoClash(recs)
  {
    hide Esc, Unesc, SharesName, Acceptable;
    if forall r | Live(recs, r) :: !Overtaken(recs, r) {
      forall a, b | a in recs && b in recs && Acceptable(a) && Acceptable(b) && a != b ensures !SharesName(a, b) {
        SharesNameSymmetric(a, b);
        var i, j := LastIndex(recs, a), LastIndex(recs, b);
        assert !Overtaken(recs, a) && !Overtaken(recs, b);
        assert !Overtakes(recs, i, b) && !Overtakes(recs, j, a);
        if i < j {
          StillLater(recs, i + 1, j + 1, a);
        } else {
          StillLater(recs, j + 1, i + 1, b);
        }
      }
    }
    if NoClash(recs) {
      forall r, j | Live(recs, r) && 0 <= j < |recs| ensures !Overtakes(recs, j, r) {
        assert recs[j] in recs;
      }
    }
  }

  lemma SharesNameSymmetric(a: SymbolRecord, b: SymbolRecord)
    ensures SharesName(a, b) <==> SharesName(b, a)
  {
  }

  // A record the cycle removes: stored before, of this repository, and not put again.
  ghost predicate Removed(db: Database, repo: string, recs: seq<SymbolRecord>, s: SymbolRecord) {
    Stored(db, s) && Unesc(s.repo) == Unesc(repo)
    && forall r | r in recs && Acceptable(r) :: PrimaryKey(r) != PrimaryKey(s)
  }

  lemma RemovedIsStale(db: Database, repo: string, recs: seq<SymbolRecord>, s: SymbolRecord)
    requires ValidDb(db) && AllOf(repo, recs)
    ensures var c := PutAll(Start(db), recs);
            Removed(db, repo, recs, s) <==> Stored(c.db, s) && PrimaryKey(s) in Stale(c.db, repo, c.live)
  {
    PutAllFacts(db, repo, recs);
    RepoPrefixSelects(repo, s);
    Families("", s);
    var c := PutAll(Start(db), recs);
    if PrimaryKey(s) !in c.live {
      assert PrimaryKey(s) in c.db ==> SameAt(c.db, db, PrimaryKey(s));
    }
  }

  // A name or type key of a live record is deleted exactly when a removed record has it too.
  lemma DeletedExactly(db: Database, repo: string, recs: seq<SymbolRecord>, k: string)
    requires ValidDb(db) && AllOf(repo, recs) && NameOrType(k)
    ensures var c := PutAll(Start(db), recs);
            k in Doomed(c.db, Stale(c.db, repo, c.live)) <==> exists s :: Removed(db, repo, recs, s) && KeyOf(k, s)
  {
    var c := PutAll(Start(db), recs);
    var stale := Stale(c.db, repo, c.live);
    PutAllFacts(db, repo, recs);
    PrefixesApart(k);
    RepoKeyIsPrimary(repo, k);
    if k in Doomed(c.db, stale) {
      var p :| p in stale && c.db[p].Json? && k in IndexKeySet(c.db[p].rec);
      var s := c.db[p].rec;
      NameKeysOf(s, k);
      RemovedIsStale(db, repo, recs, s);
      assert Removed(db, repo, recs, s) && KeyOf(k, s);
    }
    if s :| Removed(db, repo, recs, s) && KeyOf(k, s) {
      NameKeysOf(s, k);
      RemovedIsStale(db, repo, recs, s);
      assert PrimaryKey(s) in stale && c.db[PrimaryKey(s)] == Json(s);
    }
  }

  // One name or type key of a live record, after the cycle.
  lemma KeySurvivesExactly(db: Database, repo: string, results: seq<ParseResult>, r: SymbolRecord, k: string)
    requires ValidDb(db) && DistinctKeys(Records(repo, results)) && Live(Records(repo, results), r) && KeyOf(k, r)
    ensures PointsTo(Cycled(db, repo, results), k, r) <==>
            HeldLast(Records(repo, results), r, k)
            && !exists s :: Removed(db, repo, Records(repo, results), s) && KeyOf(k, s)
  {
    hide Esc, Unesc, Join, PrimaryKey, RepoPrefix, Put, Acceptable, Doomed, KeyOf, HeldLast;
    var recs := Records(repo, results);
    var c := PutAll(Start(db), recs);
    CrawlIsPutAll(Start(db), repo, results);
    RecordsAllOf(repo, results);
    NameKeysOf(r, k);
    PutAllHolds(Start(db), recs, r, k);
    DeletedExactly(db, repo, recs, k);
    assert Cycled(db, repo, results) == c.db - Doomed(c.db, Stale(c.db, repo, c.live));
  }

  lemma {:induction false} PutAllStores(c: Cycle, recs: seq<SymbolRecord>, o: SymbolRecord)
    requires DistinctKeys(recs) && o in recs && Acceptable(o)
    ensures Stored(PutAll(c, recs).db, o)
  {
    hide Esc, Unesc, Join, PrimaryKey, Put, Validate;
    var init, r := recs[..|recs| - 1], recs[|recs| - 1];
    assert recs == init + [r];
    var d := PutAll(c, init);
    if o in init {
      PutAllStores(c, init, o);
    }
    PutStored(d.db, r, o);
  }

  // Two records without a name in common at one place have different primary keys.
  lemma NoClashDistinct(recs: seq<SymbolRecord>)
    requires NoClash(recs)
    ensures DistinctKeys(recs)
  {
    hide Esc, Unesc, Join, PrimaryKey;
    forall a, b | a in recs && b in recs && Acceptable(a) && Acceptable(b) && a != b
      ensures PrimaryKey(a) != PrimaryKey(b)
    {
      PrimaryKeyIdentity(a, b);
      assert Named(a, a.name) && Named(b, b.name);
    }
  }

  // Nothing the crawl put is lost if and only if its records have different primary keys.
  lemma LiveStoredExactly(db: Database, repo: string, results: seq<ParseResult>)
    requires ValidDb(db)
    ensures (forall r | r in Records(repo, results) && Acceptable(r) :: Stored(Cycled(db, repo, results), r))
            <==> DistinctKeys(Records(repo, results))
  {
    hide PrimaryKey, Cycled;
    if DistinctKeys(Records(repo, results)) {
      forall r | r in Records(repo, results) && Acceptable(r) ensures Stored(Cycled(db, repo, results), r) {
        LiveStaysStored(db, repo, results, r);
      }
    }
  }

  lemma LiveStaysStored(db: Database, repo: string, results: seq<ParseResult>, r: SymbolRecord)
    requires ValidDb(db) && DistinctKeys(Records(repo, results))
    requires r in Records(repo, results) && Acceptable(r)
    ensures Stored(Cycled(db, repo, results), r)
  {
    hide Esc, Unesc, Join, PrimaryKey, Put, Validate;
    var recs := Records(repo, results);
    var c := PutAll(Start(db), recs);
    CrawlIsPutAll(Start(db), repo, results);
    RecordsAllOf(repo, results);
    PutAllFacts(db, repo, recs);
    PutAllStores(Start(db), recs, r);
    Families("", r);
    DoomedOfRepo(c.db, repo, c.live, PrimaryKey(r));
    assert Cycled(db, repo, results) == c.db - Doomed(c.db, Stale(c.db, repo, c.live));
  }

  /** After one cycle a live record is reachable by name exactly when no live record overtook it
      and no removed record shared a name with it at its place, whatever the kinds; and reachable
      in its type partition exactly when no record of its own kind did either. */
  lemma ReachableExactly(db: Database, repo: string, results: seq<ParseResult>, r: SymbolRecord)
    requires ValidDb(db) && DistinctKeys(Records(repo, results)) && Live(Records(repo, results), r)
    ensures NamesReach(Cycled(db, repo, results), r) <==>
            !Overtaken(Records(repo, results), r)
            && !exists s :: Removed(db, repo, Records(repo, results), s) && SharesName(s, r)
    ensures TypesReach(Cycled(db, repo, results), r) <==>
            !OvertakenInKind(Records(repo, results), r)
            && !exists s :: Removed(db, repo, Records(repo, results), s)
                            && SharesName(s, r) && Unesc(s.kind) == Unesc(r.kind)
  {
    NamesReachExactly(db, repo, results, r);
    TypesReachExactly(db, repo, results, r);
  }

  lemma NamesReachExactly(db: Database, repo: string, results: seq<ParseResult>, r: SymbolRecord)
    requires ValidDb(db) && DistinctKeys(Records(repo, results)) && Live(Records(repo, results), r)
    ensures NamesReach(Cycled(db, repo, results), r) <==>
            !Overtaken(Records(repo, results), r)
            && !exists s :: Removed(db, repo, Records(repo, results), s) && SharesName(s, r)
  {
    hide Esc, Unesc, Join, PrimaryKey, NameKey, TypeKey, Cycled, KeyOf, SharesName, Removed, HeldLast;
    hide Overtaken, Acceptable;
    var recs := Records(repo, results);
    OvertakenKeys(recs, r);
    forall n | Named(r, n)
      ensures PointsTo(Cycled(db, repo, results), NameKey(n, r), r) <==>
              HeldLast(recs, r, NameKey(n, r)) && !exists s :: Removed(db, repo, recs, s) && KeyOf(NameKey(n, r), s)
    {
      OwnKeys(r, n);
      KeySurvivesExactly(db, repo, results, r, NameKey(n, r));
    }
    forall s | Removed(db, repo, recs, s)
      ensures SharesName(s, r) <==> exists n :: Named(r, n) && KeyOf(NameKey(n, r), s)
    {
      SharesKey(s, r);
    }
  }

  lemma TypesReachExactly(db: Database, repo: string, results: seq<ParseResult>, r: SymbolRecord)
    requires ValidDb(db) && DistinctKeys(Records(repo, results)) && Live(Records(repo, results), r)
    ensures TypesReach(Cycled(db, repo, results), r) <==>
            !OvertakenInKind(Records(repo, results), r)
            && !exists s :: Removed(db, repo, Records(repo, results), s)
                            && SharesName(s, r) && Unesc(s.kind) == Unesc(r.kind)
  {
    hide Esc, Unesc, Join, PrimaryKey, NameKey, TypeKey, Cycled, KeyOf, SharesName, Removed, HeldLast;
    hide OvertakenInKind, Acceptable;
    var recs := Records(repo, results);
    OvertakenKeys(recs, r);
    forall n | Named(r, n)
      ensures PointsTo(Cycled(db, repo, results), TypeKey(n, r), r) <==>
              HeldLast(recs, r, TypeKey(n, r)) && !exists s :: Removed(db, repo, recs, s) && KeyOf(TypeKey(n, r), s)
    {
      OwnKeys(r, n);
      KeySurvivesExactly(db, repo, results, r, TypeKey(n, r));
    }
    forall s | Removed(db, repo, recs, s)
      ensures SharesName(s, r) && Unesc(s.kind) == Unesc(r.kind) <==>
              exists n :: Named(r, n) && KeyOf(TypeKey(n, r), s)
    {
      SharesKey(s, r);
    }
  }

  lemma SharesKey(s: SymbolRecord, r: SymbolRecord)
    ensures SharesName(s, r) <==> exists n :: Named(r, n) && KeyOf(NameKey(n, r), s)
    ensures SharesName(s, r) && Unesc(s.kind) == Unesc(r.kind) <==> exists n :: Named(r, n) && KeyOf(TypeKey(n, r), s)
  {
    hide Esc, Unesc, Join, NameKey, TypeKey;
    if SharesName(s, r) {
      var m, n :| Named(s, m) && Named(r, n) && Unesc(m) == Unesc(n);
      NameKeyIdentity(n, r, m, s);
      TypeKeyIdentity(n, r, m, s);
      assert KeyOf(NameKey(n, r), s);
      assert Unesc(s.kind) == Unesc(r.kind) ==> KeyOf(TypeKey(n, r), s);
    }
    if n :| Named(r, n) && KeyOf(NameKey(n, r), s) {
      SharedName(n, r, NameKey(n, r), s);
    }
    if n :| Named(r, n) && KeyOf(TypeKey(n, r), s) {
      SharedName(n, r, TypeKey(n, r), s);
      var m :| Named(s, m) && (TypeKey(n, r) == NameKey(m, s) || TypeKey(n, r) == TypeKey(m, s));
      Families(m, s);
      Families(n, r);
      PrefixesApart(TypeKey(n, r));
      TypeKeyIdentity(n, r, m, s);
    }
  }

  // A declaration that changes kind in place loses its name entry to its former self.
  lemma KindChangeLosesName(a: SymbolRecord, results: seq<ParseResult>, b: SymbolRecord)
    requires Acceptable(a) && Acceptable(b) && b.kind != a.kind && b == a.(kind := b.kind)
    requires Records(a.repo, results) == [b]
    ensures !NamesReach(Cycled(Put(map[], a), a.repo, results), b)
    ensures TypesReach(Cycled(Put(map[], a), a.repo, results), b)
  {
    hide Esc, Unesc, Join, PrimaryKey, Put, Validate, Blank, SharesName;
    var db := Put(map[], a);
    PutValid(map[], a);
    assert !OvertakenInKind([b], b);
    KindChangeRemoves(a, b);
    NamesReachExactly(db, a.repo, results, b);
    TypesReachExactly(db, a.repo, results, b);
    forall s | Removed(db, a.repo, [b], s) ensures s == a {
      PutStored(map[], a, s);
    }
  }

  lemma KindChangeRemoves(a: SymbolRecord, b: SymbolRecord)
    requires Acceptable(a) && Acceptable(b) && b.kind != a.kind && b == a.(kind := b.kind)
    ensures Unesc(a.kind) != Unesc(b.kind)
    ensures Removed(Put(map[], a), a.repo, [b], a) && SharesName(a, b)
  {
    hide Esc, Unesc, Join, PrimaryKey, Put, Validate, Blank;
    DistinctKinds(a, b);
    PutStored(map[], a, a);
    PrimaryKeyIdentity(a, b);
    OwnName(a);
    OwnName(b);
  }

  lemma OwnName(r: SymbolRecord)
    requires Acceptable(r)
    ensures Named(r, r.name)
  {
  }

  lemma DistinctKinds(a: SymbolRecord, b: SymbolRecord)
    requires Acceptable(a) && Acceptable(b) && b.kind != a.kind
    ensures Unesc(a.kind) != Unesc(b.kind)
  {
    if Unesc(a.kind) == Unesc(b.kind) {
      SameKind(a.kind, b);
    }
  }

  /* ---- the second cycle ---- */

  lemma PutAgain(db: Database, r: SymbolRecord, k: string)
    requires Stored(db, r) && SYM <= k
    ensures SameAt(Put(db, r), db, k)
  {
    EntriesAt(r, k);
    IndexKeysAreIndexes(r);
  }

  lemma StepAgain(c: Cycle, r: SymbolRecord)
    requires Acceptable(r) ==> Stored(c.db, r)
    ensures PutStep(c, r).sum.written == c.sum.written
    ensures forall k | SYM <= k :: SameAt(PutStep(c, r).db, c.db, k)
  {
    if Acceptable(r) {
      forall k | SYM <= k ensures SameAt(PutStep(c, r).db, c.db, k) {
        PutAgain(c.db, r, k);
      }
    }
  }

  // Putting what is already stored writes nothing.
  lemma {:induction false} NothingWritten(c: Cycle, recs: seq<SymbolRecord>)
    requires forall r | r in recs && Acceptable(r) :: Stored(c.db, r)
    ensures PutAll(c, recs).sum.written == c.sum.written
    ensures forall k | SYM <= k :: SameAt(PutAll(c, recs).db, c.db, k)
  {
    if recs != [] {
      var init, r := recs[..|recs| - 1], recs[|recs| - 1];
      assert recs == init + [r];
      NothingWritten(c, init);
      var d := PutAll(c, init);
      Families("", r);
      assert SameAt(d.db, c.db, PrimaryKey(r));
      StepAgain(d, r);
      forall k | SYM <= k ensures SameAt(PutStep(d, r).db, c.db, k) {
        assert SameAt(d.db, c.db, k) && SameAt(PutStep(d, r).db, d.db, k);
      }
    }
  }

  lemma SecondCycleQuiet(db: Database, repo: string, first: seq<ParseResult>, second: seq<ParseResult>)
    requires ValidDb(db) && DistinctKeys(Records(repo, first))
    requires forall o :: o in Records(repo, second) <==> o in Records(repo, first)
    ensures var c := Crawl(Start(Cycled(db, repo, first)), repo, second);
            c.sum.written == 0 && Stale(c.db, repo, c.live) == {}
  {
    var once, recs := Cycled(db, repo, first), Records(repo, second);
    var c := PutAll(Start(once), recs);
    CycledValid(db, repo, first);
    CrawlIsPutAll(Start(once), repo, second);
    RecordsAllOf(repo, second);
    PutAllFacts(once, repo, recs);
    forall o | o in recs && Acceptable(o) ensures Stored(once, o) {
      LiveStaysStored(db, repo, first, o);
    }
    NothingWritten(Start(once), recs);
    forall k | k in c.db && RepoPrefix(repo) <= k ensures k in c.live {
      RepoKeyIsPrimary(repo, k);
      assert SameAt(c.db, once, k);
      CycleSlicesRepository(db, repo, first, k);
    }
  }

  /** A second cycle over the same tree, its results in any order, writes no record and prunes
      none, and from then on a live record is reachable under all its names if and only if no other
      live record overtook it, whatever the first cycle had removed; and so in its type partition. */
  lemma SecondCycleRecovers(db: Database, repo: string, first: seq<ParseResult>, second: seq<ParseResult>,
                            r: SymbolRecord)
    requires ValidDb(db) && DistinctKeys(Records(repo, first)) && Live(Records(repo, first), r)
    requires forall o :: o in Records(repo, second) <==> o in Records(repo, first)
    ensures var after := Cycled(Cycled(db, repo, first), repo, second);
            && Stored(after, r)
            && (NamesReach(after, r) <==> !Overtaken(Records(repo, second), r))
            && (TypesReach(after, r) <==> !OvertakenInKind(Records(repo, second), r))
  {
    hide Esc, Unesc, Join, PrimaryKey, NameKey, TypeKey, Cycled, SharesName, Acceptable, Overtaken;
    hide OvertakenInKind, KeyOf;
    var once, recs := Cycled(db, repo, first), Records(repo, second);
    CycledValid(db, repo, first);
    LiveStaysStored(once, repo, second, r);
    ReachableExactly(once, repo, second, r);
    forall s ensures !Removed(once, repo, recs, s) {
      CycledStored(db, repo, first, s);
    }
  }

  // So all live records recover if and only if no two of them share a name at one place.
  lemma RecoveryExactly(db: Database, repo: string, first: seq<ParseResult>, second: seq<ParseResult>)
    requires ValidDb(db) && DistinctKeys(Records(repo, first))
    requires forall o :: o in Records(repo, second) <==> o in Records(repo, first)
    ensures (forall r | Live(Records(repo, first), r) ::
               NamesReach(Cycled(Cycled(db, repo, first), repo, second), r))
            <==> NoClash(Records(repo, first))
  {
    hide Cycled, NamesReach, Overtaken, SharesName, Acceptable, PrimaryKey;
    NoClashExactly(Records(repo, second));
    forall r | Live(Records(repo, first), r)
      ensures NamesReach(Cycled(Cycled(db, repo, first), repo, second), r) <==> !Overtaken(Records(repo, second), r)
    {
      SecondCycleRecovers(db, repo, first, second, r);
    }
  }

  lemma CycledValid(db: Database, repo: string, results: seq<ParseResult>)
    requires ValidDb(db)
    ensures ValidDb(Cycled(db, repo, results))
  {
    CrawlIsPutAll(Start(db), repo, results);
    RecordsAllOf(repo, results);
    PutAllFacts(db, repo, Records(repo, results));
  }

  /* ---- what a cycle stores, symbol by symbol ---- */

  // The record says of the symbol what the parser said, field by field.
  ghost predicate DescribedBy(r: SymbolRecord, repo: string, path: string, s: Symbol) {
    && r.repo == repo && r.file == path && r.language == s.language && r.kind == s.kind
    && r.name == s.name && r.aliases == s.aliases && r.parentScope == s.parentScope
    && r.startByte == s.startByte && r.endByte == s.endByte
    && r.startLine == s.startLine && r.endLine == s.endLine
    && r.documentation == s.documentation && r.signature == s.signature && r.source == s.source
  }

  // Some parsed file of the crawl has a symbol the record describes.
  ghost predicate Described(repo: string, results: seq<ParseResult>, r: SymbolRecord) {
    exists i, j :: 0 <= i < |results| && results[i].Parsed? && 0 <= j < |results[i].symbols|
                   && DescribedBy(r, repo, results[i].path, results[i].symbols[j])
  }

  /** How the records stored after a crawl reflect what was parsed.  Every accepted symbol is
      stored, or another accepted symbol is under its primary key; once the cycle is finished
      nothing else is stored for the repository; and other repositories are left as they were. */
  ghost predicate Reflects(before: Database, after: Database, repo: string, results: seq<ParseResult>, finished: bool) {
    && (forall r | Described(repo, results, r) && Acceptable(r) ::
          exists q :: Described(repo, results, q) && Acceptable(q)
                      && PrimaryKey(q) == PrimaryKey(r) && Stored(after, q))
    && (finished ==> forall q | Stored(after, q) && Unesc(q.repo) == Unesc(repo) ::
          Described(repo, results, q) && Acceptable(q))
    && (forall q: SymbolRecord | Unesc(q.repo) != Unesc(repo) :: Stored(after, q) <==> Stored(before, q))
  }

  // Different accepted symbols have different primary keys.
  ghost predicate OneRecordPerKey(repo: string, results: seq<ParseResult>) {
    forall a, b | Described(repo, results, a) && Described(repo, results, b) && Acceptable(a) && Acceptable(b) ::
      PrimaryKey(a) == PrimaryKey(b) ==> a == b
  }

  lemma {:induction false} DescribedExactly(repo: string, results: seq<ParseResult>, r: SymbolRecord)
    ensures Described(repo, results, r) <==> r in Records(repo, results)
  {
    if results != [] {
      var n := |results| - 1;
      var init, last := results[..n], results[n];
      DescribedExactly(repo, init, r);
      LastDescribes(repo, last, r);
      if Described(repo, init, r) {
        var i, j :| 0 <= i < n && init[i].Parsed? && 0 <= j < |init[i].symbols|
                    && DescribedBy(r, repo, init[i].path, init[i].symbols[j]);
        assert results[i] == init[i];
      }
      if Described(repo, results, r) {
        var i, j :| 0 <= i < |results| && results[i].Parsed? && 0 <= j < |results[i].symbols|
                    && DescribedBy(r, repo, results[i].path, results[i].symbols[j]);
        assert i < n ==> init[i] == results[i];
      }
    }
  }

  lemma LastDescribes(repo: string, res: ParseResult, r: SymbolRecord)
    ensures r in RecordsOf(repo, res) <==>
            res.Parsed? && exists j :: 0 <= j < |res.symbols| && DescribedBy(r, repo, res.path, res.symbols[j])
  {
    if res.Parsed? {
      forall j | 0 <= j < |res.symbols| ensures DescribedBy(r, repo, res.path, res.symbols[j])
                                              <==> r == RecordsOf(repo, res)[j] {
      }
    }
  }

  // The last accepted record put under a key is the one stored there.
  lemma {:induction false} PutAllLeaves(c: Cycle, recs: seq<SymbolRecord>, r: SymbolRecord)
    ensures Stored(PutAll(c, recs).db, r) ==>
              Live(recs, r) || (Stored(c.db, r) && forall q | Live(recs, q) :: PrimaryKey(q) != PrimaryKey(r))
    ensures Stored(c.db, r) && (forall q | Live(recs, q) :: PrimaryKey(q) != PrimaryKey(r)) ==>
              Stored(PutAll(c, recs).db, r)
    ensures Live(recs, r) ==>
              exists q :: Live(recs, q) && PrimaryKey(q) == PrimaryKey(r) && Stored(PutAll(c, recs).db, q)
  {
    hide PrimaryKey, Put, Acceptable, Stored;
    if recs != [] {
      var init, x := recs[..|recs| - 1], recs[|recs| - 1];
      assert recs == init + [x];
      PutAllLeaves(c, init, r);
      var d := PutAll(c, init);
      assert PutAll(c, recs).db == Stepped(d.db, x);
      if Acceptable(x) {
        assert Live(recs, x);
        PutStored(d.db, x, r);
        PutStored(d.db, x, x);
        if Live(recs, r) && PrimaryKey(x) != PrimaryKey(r) {
          var q :| Live(init, q) && PrimaryKey(q) == PrimaryKey(r) && Stored(d.db, q);
          PutStored(d.db, x, q);
          assert Live(recs, q);
        }
      }
    }
  }

  lemma CrawlReflects(db: Database, repo: string, results: seq<ParseResult>)
    requires ValidDb(db)
    ensures Reflects(db, Crawl(Start(db), repo, results).db, repo, results, false)
    ensures Reflects(db, Cycled(db, repo, results), repo, results, true)
  {
    hide PrimaryKey, Acceptable, Stored, Crawl, Cycled, Described, Unesc, Live, OfRepo;
    var recs := Records(repo, results);
    var c := Crawl(Start(db), repo, results).db;
    RecordsAllOf(repo, results);
    forall r ensures Described(repo, results, r) && Acceptable(r) <==> Live(recs, r)
    {
      DescribedLive(repo, results, r);
    }
    forall r ensures Stored(Cycled(db, repo, results), r) <==>
                     Stored(c, r) && (Unesc(r.repo) == Unesc(repo) ==> Described(repo, results, r) && Acceptable(r))
             ensures Unesc(r.repo) != Unesc(repo) ==> (Stored(c, r) <==> Stored(db, r))
             ensures Live(recs, r) ==> Unesc(r.repo) == Unesc(repo)
                                       && exists q :: Live(recs, q) && PrimaryKey(q) == PrimaryKey(r) && Stored(c, q)
    {
      CycleStores(db, repo, results, r);
    }
  }

  lemma DescribedLive(repo: string, results: seq<ParseResult>, r: SymbolRecord)
    ensures Described(repo, results, r) && Acceptable(r) <==> Live(Records(repo, results), r)
  {
    hide Described, Acceptable;
    DescribedExactly(repo, results, r);
  }

  lemma CycleStores(db: Database, repo: string, results: seq<ParseResult>, r: SymbolRecord)
    requires ValidDb(db)
    ensures var recs, c := Records(repo, results), Crawl(Start(db), repo, results).db;
            && (Stored(Cycled(db, repo, results), r)
                <==> Stored(c, r) && (Unesc(r.repo) == Unesc(repo) ==> Described(repo, results, r) && Acceptable(r)))
            && (Unesc(r.repo) != Unesc(repo) ==> (Stored(c, r) <==> Stored(db, r)))
            && (Live(recs, r) ==>
                  && Unesc(r.repo) == Unesc(repo)
                  && exists q :: Live(recs, q) && PrimaryKey(q) == PrimaryKey(r) && Stored(c, q))
  {
    hide Esc, Unesc, Join, PrimaryKey, RepoPrefix, Acceptable, OfRepo, Described;
    var recs := Records(repo, results);
    var c := PutAll(Start(db), recs);
    CrawlIsPutAll(Start(db), repo, results);
    RecordsAllOf(repo, results);
    PutAllFacts(db, repo, recs);
    PutAllLeaves(Start(db), recs, r);
    DescribedLive(repo, results, r);
    RepoPrefixSelects(repo, r);
    Families("", r);
    DoomedOfRepo(c.db, repo, c.live, PrimaryKey(r));
    assert Cycled(db, repo, results) == c.db - Doomed(c.db, Stale(c.db, repo, c.live));
    if Unesc(r.repo) != Unesc(repo) {
      OtherRepoUntouched(repo, r, PrimaryKey(r));
    }
  }

  /* ---- what the summary counts ---- */

  function FailedAt(results: seq<ParseResult>): set<nat> { set i: nat | i < |results| && results[i].Failed? }

  function FilteredAt(results: seq<ParseResult>): set<nat> { set i: nat | i < |results| && results[i].Filtered? }

  function ParsedAt(results: seq<ParseResult>): set<nat> { set i: nat | i < |results| && results[i].Parsed? }

  // The symbols parsed, as positions in the results.
  function SymbolsAt(results: seq<ParseResult>): set<(nat, nat)> {
    set i: nat, j: nat | i < |results| && results[i].Parsed? && j < |results[i].symbols| :: (i, j)
  }

  // The record a symbol stands for is not acceptable.
  ghost predicate Rejected(repo: string, res: ParseResult, j: nat)
    requires res.Parsed? && j < |res.symbols|
  {
    exists r :: DescribedBy(r, repo, res.path, res.symbols[j]) && !Acceptable(r)
  }

  ghost function RejectedAt(repo: string, results: seq<ParseResult>): set<(nat, nat)> {
    set p | p in SymbolsAt(results) && Rejected(repo, results[p.0], p.1)
  }

  function RejectedIn(recs: seq<SymbolRecord>): set<nat> { set j: nat | j < |recs| && !Acceptable(recs[j]) }

  function Row(i: nat, js: set<nat>): set<(nat, nat)> { set j | j in js :: (i, j) }

  lemma {:induction false} RowSize(i: nat, js: set<nat>)
    ensures |Row(i, js)| == |js|
  {
    if j :| j in js {
      RowSize(i, js - {j});
      assert Row(i, js) == Row(i, js - {j}) + {(i, j)};
    } else {
      assert Row(i, js) == {};
    }
  }

  lemma {:induction false} PutAllTally(c: Cycle, recs: seq<SymbolRecord>)
    ensures var sum := PutAll(c, recs).sum;
            sum == c.sum.(errors := c.sum.errors + |RejectedIn(recs)|, written := sum.written)
  {
    hide Acceptable, Put, PrimaryKey, Stored;
    if recs != [] {
      var init, r := recs[..|recs| - 1], recs[|recs| - 1];
      PutAllTally(c, init);
      assert RejectedIn(recs) == RejectedIn(init) + if Acceptable(r) then {} else {|init|};
    }
  }

  lemma RejectedRow(repo: string, init: seq<ParseResult>, res: ParseResult)
    ensures RejectedAt(repo, init + [res]) == RejectedAt(repo, init) + Row(|init|, RejectedIn(RecordsOf(repo, res)))
  {
    hide Acceptable;
    var all, n := init + [res], |init|;
    forall i: nat, j: nat
      ensures (i, j) in RejectedAt(repo, all) <==>
              (i, j) in RejectedAt(repo, init) || (i == n && j in RejectedIn(RecordsOf(repo, res)))
    {
      if i < n {
        assert all[i] == init[i];
      } else if i == n && res.Parsed? && j < |res.symbols| {
        assert forall r | DescribedBy(r, repo, res.path, res.symbols[j]) :: r == RecordsOf(repo, res)[j];
        assert DescribedBy(RecordsOf(repo, res)[j], repo, res.path, res.symbols[j]);
      }
    }
    assert forall p | p in RejectedAt(repo, all) :: p == (p.0, p.1);
    assert forall p | p in RejectedAt(repo, init) :: p == (p.0, p.1);
  }

  lemma SymbolsRow(init: seq<ParseResult>, res: ParseResult)
    ensures SymbolsAt(init + [res])
            == SymbolsAt(init) + if res.Parsed? then Row(|init|, Below(|res.symbols|)) else {}
  {
    var all := init + [res];
    assert forall i: nat | i < |init| :: all[i] == init[i];
    if res.Parsed? {
      BelowExactly(|res.symbols|);
    }
  }

  function Below(n: nat): set<nat> { if n == 0 then {} else Below(n - 1) + {n - 1} }

  lemma {:induction false} BelowExactly(n: nat)
    ensures |Below(n)| == n && forall j :: j in Below(n) <==> 0 <= j < n
  {
    if n > 0 {
      BelowExactly(n - 1);
    }
  }

  lemma NothingCounted(repo: string)
    ensures FailedAt([]) == {} && FilteredAt([]) == {} && ParsedAt([]) == {}
    ensures SymbolsAt([]) == {} && RejectedAt(repo, []) == {}
  {
  }

  lemma RowSizes(repo: string, init: seq<ParseResult>, res: ParseResult)
    ensures |SymbolsAt(init + [res])| == |SymbolsAt(init)| + if res.Parsed? then |res.symbols| else 0
    ensures |RejectedAt(repo, init + [res])| == |RejectedAt(repo, init)| + |RejectedIn(RecordsOf(repo, res))|
  {
    hide Acceptable, RecordsOf;
    var n := |init|;
    RejectedRow(repo, init, res);
    RowSize(n, RejectedIn(RecordsOf(repo, res)));
    SymbolsRow(init, res);
    if res.Parsed? {
      RowSize(n, Below(|res.symbols|));
      BelowExactly(|res.symbols|);
    }
  }

  lemma ReceiveTally(c: Cycle, repo: string, res: ParseResult)
    ensures var sum := Receive(c, repo, res).sum;
            && sum.filtered == c.sum.filtered + (if res.Filtered? then 1 else 0)
            && sum.parsed == c.sum.parsed + (if res.Parsed? then 1 else 0)
            && sum.found == c.sum.found + (if res.Parsed? then |res.symbols| else 0)
            && sum.errors == c.sum.errors + (if res.Failed? then 1 else 0) + |RejectedIn(RecordsOf(repo, res))|
  {
    hide RejectedIn, RecordsOf;
    PutAllTally(Count(c, res), RecordsOf(repo, res));
  }

  /** The summary counts the files by outcome, every symbol of every parsed file, and as errors
      the failed files and the rejected symbols. */
  lemma {:induction false} SummaryMeans(db: Database, repo: string, results: seq<ParseResult>)
    ensures var sum := Crawl(Start(db), repo, results).sum;
            && sum.filtered == |FilteredAt(results)| && sum.parsed == |ParsedAt(results)|
            && sum.found == |SymbolsAt(results)|
            && sum.errors == |FailedAt(results)| + |RejectedAt(repo, results)|
  {
    hide Count, RejectedAt, SymbolsAt, FailedAt, FilteredAt, ParsedAt;
    if results == [] {
      NothingCounted(repo);
    } else {
      var n := |results| - 1;
      var init, res := results[..n], results[n];
      assert results == init + [res];
      SummaryMeans(db, repo, init);
      ReceiveTally(Crawl(Start(db), repo, init), repo, res);
      OutcomeRow(init, res);
      RowSizes(repo, init, res);
    }
  }

  lemma OutcomeRow(init: seq<ParseResult>, res: ParseResult)
    ensures FailedAt(init + [res]) == FailedAt(init) + if res.Failed? then {|init|} else {}
    ensures FilteredAt(init + [res]) == FilteredAt(init) + if res.Filtered? then {|init|} else {}
    ensures ParsedAt(init + [res]) == ParsedAt(init) + if res.Parsed? then {|init|} else {}
    ensures |init| !in FailedAt(init) + FilteredAt(init) + ParsedAt(init)
  {
  }

  // Of the accepted records, the ones that were not stored before.
  function NewTo(db: Database, recs: seq<SymbolRecord>): set<SymbolRecord> {
    set r | r in recs && Acceptable(r) && !Stored(db, r)
  }

  lemma NewToSnoc(db: Database, init: seq<SymbolRecord>, x: SymbolRecord)
    ensures NewTo(db, init + [x]) == NewTo(db, init) + if Acceptable(x) && !Stored(db, x) then {x} else {}
  {
    hide Acceptable, Stored;
  }

  lemma {:induction false} PutAllWritten(db: Database, recs: seq<SymbolRecord>)
    requires DistinctKeys(recs)
    ensures PutAll(Start(db), recs).sum.written == |NewTo(db, recs)|
  {
    hide Acceptable, Put, PrimaryKey, Stored, Stepped;
    if recs != [] {
      var init, x := recs[..|recs| - 1], recs[|recs| - 1];
      assert recs == init + [x];
      PutAllWritten(db, init);
      NewToSnoc(db, init, x);
      if Acceptable(x) {
        PutAllLeaves(Start(db), init, x);
        if x in init {
          PutAllStores(Start(db), init, x);
        } else {
          assert forall q | Live(init, q) :: q in recs && PrimaryKey(q) != PrimaryKey(x);
        }
      }
    }
  }

  /** When different accepted records have different primary keys, the writes counted are the
      records that the store did not hold before the crawl, each once however often it arrived. */
  lemma WrittenMeans(db: Database, repo: string, results: seq<ParseResult>)
    requires DistinctKeys(Records(repo, results))
    ensures Crawl(Start(db), repo, results).sum.written == |NewTo(db, Records(repo, results))|
  {
    hide DistinctKeys, NewTo;
    CrawlIsPutAll(Start(db), repo, results);
    PutAllWritten(db, Records(repo, results));
  }

  /* ---- what a cycle does to a coherent index ---- */

  // A record the cycle puts a record over.
  ghost predicate Replaced(db: Database, recs: seq<SymbolRecord>, o: SymbolRecord) {
    Stored(db, o) && exists r :: Live(recs, r) && PrimaryKey(r) == PrimaryKey(o)
  }

  // r has the name n of o, at the same place and under the same kind.
  ghost predicate Carries(r: SymbolRecord, o: SymbolRecord, n: string) {
    SamePlace(r, o) && Unesc(r.kind) == Unesc(o.kind) && exists m :: Named(r, m) && Unesc(m) == Unesc(n)
  }

  // No removed record shares a name with a live one, and no name of a replaced record is dropped.
  ghost predicate CycleAdmissible(db: Database, repo: string, recs: seq<SymbolRecord>) {
    && (forall s, r | Removed(db, repo, recs, s) && Live(recs, r) :: !SharesName(s, r))
    && (forall o, n | Replaced(db, recs, o) && Named(o, n) :: exists r :: Live(recs, r) && Carries(r, o, n))
  }

  lemma CarriesKeys(r: SymbolRecord, o: SymbolRecord, n: string)
    requires Named(o, n)
    ensures KeyOf(TypeKey(n, o), r) <==> Carries(r, o, n)
    ensures Carries(r, o, n) ==> KeyOf(NameKey(n, o), r)
  {
    hide Esc, Unesc, Join, NameKey, TypeKey;
    Families(n, o);
    PrefixesApart(TypeKey(n, o));
    if m :| Named(r, m) && Unesc(m) == Unesc(n) && Carries(r, o, n) {
      NameKeyIdentity(n, o, m, r);
      TypeKeyIdentity(n, o, m, r);
    }
    if m :| Named(r, m) && (TypeKey(n, o) == NameKey(m, r) || TypeKey(n, o) == TypeKey(m, r)) {
      Families(m, r);
      TypeKeyIdentity(n, o, m, r);
    }
  }

  // Puts of records without a key leave the key alone.
  lemma {:induction false} PutAllAt(c: Cycle, recs: seq<SymbolRecord>, k: string)
    requires NameOrType(k) && forall r | Live(recs, r) :: !KeyOf(k, r)
    ensures SameAt(PutAll(c, recs).db, c.db, k)
  {
    hide KeyOf, Put, Validate, NameOrType;
    if recs != [] {
      var init, r := recs[..|recs| - 1], recs[|recs| - 1];
      assert recs == init + [r];
      PutAllAt(c, init, k);
      assert Acceptable(r) ==> Live(recs, r);
      PutAt(PutAll(c, init).db, r, k);
    }
  }

  // A name or type key no live record has survives a cycle unless a removed record has it.
  lemma OtherKeyExactly(db: Database, repo: string, results: seq<ParseResult>, k: string)
    requires ValidDb(db) && NameOrType(k) && forall r | Live(Records(repo, results), r) :: !KeyOf(k, r)
    ensures k in Cycled(db, repo, results) <==>
            k in db && !exists s :: Removed(db, repo, Records(repo, results), s) && KeyOf(k, s)
    ensures k in Cycled(db, repo, results) && k in db ==> Cycled(db, repo, results)[k] == db[k]
  {
    hide Esc, Unesc, Join, PrimaryKey, RepoPrefix, Put, Validate, Doomed, KeyOf;
    var recs := Records(repo, results);
    var c := PutAll(Start(db), recs);
    CrawlIsPutAll(Start(db), repo, results);
    RecordsAllOf(repo, results);
    PutAllAt(Start(db), recs, k);
    DeletedExactly(db, repo, recs, k);
    assert Cycled(db, repo, results) == c.db - Doomed(c.db, Stale(c.db, repo, c.live));
  }

  // What is stored after a cycle: the live records, and those of other repositories.
  lemma CycledStored(db: Database, repo: string, results: seq<ParseResult>, q: SymbolRecord)
    requires ValidDb(db) && DistinctKeys(Records(repo, results))
    ensures Stored(Cycled(db, repo, results), q) <==>
            Live(Records(repo, results), q) || (Stored(db, q) && Unesc(q.repo) != Unesc(repo))
  {
    hide Esc, Unesc, Join, PrimaryKey, RepoPrefix, Cycled, OfRepo;
    var recs := Records(repo, results);
    CycleSlicesRepository(db, repo, results, PrimaryKey(q));
    RepoPrefixSelects(repo, q);
    RecordsAllOf(repo, results);
    if Live(recs, q) {
      LiveStaysStored(db, repo, results, q);
    }
    if Unesc(q.repo) != Unesc(repo) {
      OtherRepoUntouched(repo, q, PrimaryKey(q));
    } else if Stored(Cycled(db, repo, results), q) {
      var r :| r in recs && Acceptable(r) && PrimaryKey(q) == PrimaryKey(r);
      LiveStaysStored(db, repo, results, r);
    }
  }

  lemma KeySharesName(n: string, q: SymbolRecord, k: string, s: SymbolRecord)
    requires Named(q, n) && (k == NameKey(n, q) || k == TypeKey(n, q))
    ensures KeyOf(k, s) ==> SharesName(s, q)
  {
    hide Esc, Unesc, Join, NameKey, TypeKey;
    if KeyOf(k, s) {
      SharedName(n, q, k, s);
    }
  }

  lemma ClashFreeHolds(recs: seq<SymbolRecord>, n: string, r: SymbolRecord, k: string)
    requires NoClash(recs) && Live(recs, r) && Named(r, n) && (k == NameKey(n, r) || k == TypeKey(n, r))
    ensures HeldLast(recs, r, k)
  {
    hide SharesName, KeyOf, NameKey, TypeKey;
    forall j | 0 <= j < |recs| && Acceptable(recs[j]) && recs[j] != r ensures !KeyOf(k, recs[j]) {
      KeySharesName(n, r, k, recs[j]);
    }
  }

  // Two live records of a complete index share no name: each would hold the key of it.
  lemma CoherentNoClash(db: Database, repo: string, results: seq<ParseResult>)
    requires ValidDb(db) && DistinctKeys(Records(repo, results)) && Complete(Cycled(db, repo, results))
    ensures NoClash(Records(repo, results))
  {
    hide Esc, Unesc, Join, PrimaryKey, Cycled, NameKey, TypeKey, Acceptable;
    var recs := Records(repo, results);
    forall a, b | a in recs && b in recs && Acceptable(a) && Acceptable(b) && a != b ensures !SharesName(a, b) {
      LiveStaysStored(db, repo, results, a);
      LiveStaysStored(db, repo, results, b);
      if m, n :| Named(a, m) && Named(b, n) && Unesc(m) == Unesc(n) {
        NameKeyIdentity(m, a, n, b);
        assert PointsTo(Cycled(db, repo, results), NameKey(m, a), a);
        assert PointsTo(Cycled(db, repo, results), NameKey(n, b), b);
      }
    }
  }

  lemma CycleKeepsComplete(db: Database, repo: string, results: seq<ParseResult>, q: SymbolRecord, k: string)
    requires ValidDb(db) && Coherent(db) && NoClash(Records(repo, results))
    requires forall s, r | Removed(db, repo, Records(repo, results), s) && Live(Records(repo, results), r) ::
            !SharesName(s, r)
    requires Stored(Cycled(db, repo, results), q) && KeyOf(k, q)
    ensures PointsTo(Cycled(db, repo, results), k, q)
  {
    hide Esc, Unesc, Join, PrimaryKey, Cycled, OfRepo, NameKey, TypeKey, SharesName, Removed;
    var recs := Records(repo, results);
    NoClashDistinct(recs);
    CycledStored(db, repo, results, q);
    var n :| Named(q, n) && (k == NameKey(n, q) || k == TypeKey(n, q));
    if Live(recs, q) {
      KeySurvivesExactly(db, repo, results, q, k);
      ClashFreeHolds(recs, n, q, k);
      forall s | Removed(db, repo, recs, s) ensures !KeyOf(k, s) {
        KeySharesName(n, q, k, s);
      }
    } else {
      NameKeysOf(q, k);
      OtherRepoUntouched(repo, q, k);
      CycleSlicesRepository(db, repo, results, k);
    }
  }

  lemma CycleKeepsSound(db: Database, repo: string, results: seq<ParseResult>, k: string)
    requires ValidDb(db) && Coherent(db) && NoClash(Records(repo, results))
            && CycleAdmissible(db, repo, Records(repo, results))
    requires k in Cycled(db, repo, results) && NameOrType(k)
    ensures exists q :: Stored(Cycled(db, repo, results), q) && KeyOf(k, q) && PointsTo(Cycled(db, repo, results), k, q)
  {
    hide Esc, Unesc, Join, PrimaryKey, Cycled, OfRepo, NameKey, TypeKey, KeyOf, SharesName, Carries;
    var recs := Records(repo, results);
    NoClashDistinct(recs);
    if q :| Live(recs, q) && KeyOf(k, q) {
      CycledStored(db, repo, results, q);
      CycleKeepsComplete(db, repo, results, q, k);
    } else {
      OtherKeyExactly(db, repo, results, k);
      var o :| Stored(db, o) && KeyOf(k, o) && PointsTo(db, k, o);
      CycledStored(db, repo, results, o);
      if Unesc(o.repo) == Unesc(repo) {
        HeldBySomeLive(db, repo, recs, o, k);
      }
    }
  }

  // A key of a replaced record is a key of a live one.
  lemma HeldBySomeLive(db: Database, repo: string, recs: seq<SymbolRecord>, o: SymbolRecord, k: string)
    requires CycleAdmissible(db, repo, recs) && Stored(db, o) && KeyOf(k, o) && Unesc(o.repo) == Unesc(repo)
    requires !Removed(db, repo, recs, o)
    ensures exists r :: Live(recs, r) && KeyOf(k, r)
  {
    hide Esc, Unesc, Join, PrimaryKey, NameKey, TypeKey, Carries, SharesName;
    var p :| p in recs && Acceptable(p) && PrimaryKey(p) == PrimaryKey(o);
    assert Live(recs, p) && Replaced(db, recs, o);
    var n :| Named(o, n) && (k == NameKey(n, o) || k == TypeKey(n, o));
    var r :| Live(recs, r) && Carries(r, o, n);
    CarriesKeys(r, o, n);
  }

  lemma CoherentCarries(db: Database, repo: string, results: seq<ParseResult>, o: SymbolRecord, n: string)
    requires ValidDb(db) && Coherent(db) && NoClash(Records(repo, results)) && Coherent(Cycled(db, repo, results))
    requires Replaced(db, Records(repo, results), o) && Named(o, n)
    ensures exists r :: Live(Records(repo, results), r) && Carries(r, o, n)
  {
    hide Esc, Unesc, Join, PrimaryKey, Cycled, NameKey, TypeKey, Carries, SharesName;
    var recs := Records(repo, results);
    var k := TypeKey(n, o);
    Families(n, o);
    NoClashDistinct(recs);
    if r :| Live(recs, r) && KeyOf(k, r) {
      CarriesKeys(r, o, n);
    } else {
      OtherKeyExactly(db, repo, results, k);
      forall s | Removed(db, repo, recs, s) ensures !KeyOf(k, s) {
        assert KeyOf(k, s) ==> PointsTo(db, k, s);
      }
      var q :| Stored(Cycled(db, repo, results), q) && KeyOf(k, q) && PointsTo(Cycled(db, repo, results), k, q);
      var p :| Live(recs, p) && PrimaryKey(p) == PrimaryKey(o);
      CycledStored(db, repo, results, p);
    }
  }

  /** From a coherent index a cycle leads to a coherent index if and only if no two live records
      share a name at one place, no removed record shares one with a live one, and every name of a
      record put over is still a name of a live record of that kind there. */
  lemma CycleCoherentExactly(db: Database, repo: string, results: seq<ParseResult>)
    requires ValidDb(db) && Coherent(db) && DistinctKeys(Records(repo, results))
    ensures Coherent(Cycled(db, repo, results)) <==>
            NoClash(Records(repo, results)) && CycleAdmissible(db, repo, Records(repo, results))
  {
    hide Esc, Unesc, Join, PrimaryKey, Cycled, NameKey, TypeKey, Carries, SharesName, KeyOf;
    if NoClash(Records(repo, results)) && CycleAdmissible(db, repo, Records(repo, results)) {
      AdmissibleCoherent(db, repo, results);
    }
    if Coherent(Cycled(db, repo, results)) {
      CoherentAdmissible(db, repo, results);
    }
  }

  lemma AdmissibleCoherent(db: Database, repo: string, results: seq<ParseResult>)
    requires ValidDb(db) && Coherent(db) && NoClash(Records(repo, results))
    requires CycleAdmissible(db, repo, Records(repo, results))
    ensures Coherent(Cycled(db, repo, results))
  {
    hide Esc, Unesc, Join, PrimaryKey, Cycled, NameKey, TypeKey, Carries, SharesName, KeyOf, NoClash;
    var after := Cycled(db, repo, results);
    forall q, n | Stored(after, q) && Named(q, n)
      ensures PointsTo(after, NameKey(n, q), q) && PointsTo(after, TypeKey(n, q), q)
    {
      OwnKeys(q, n);
      CycleKeepsComplete(db, repo, results, q, NameKey(n, q));
      CycleKeepsComplete(db, repo, results, q, TypeKey(n, q));
    }
    forall k | k in after && NameOrType(k)
      ensures exists q :: Stored(after, q) && KeyOf(k, q) && PointsTo(after, k, q)
    {
      CycleKeepsSound(db, repo, results, k);
    }
  }

  lemma CoherentAdmissible(db: Database, repo: string, results: seq<ParseResult>)
    requires ValidDb(db) && Coherent(db) && DistinctKeys(Records(repo, results)) && Coherent(Cycled(db, repo, results))
    ensures NoClash(Records(repo, results)) && CycleAdmissible(db, repo, Records(repo, results))
  {
    hide Esc, Unesc, Join, PrimaryKey, Cycled, NameKey, TypeKey, Carries, SharesName, KeyOf, NoClash;
    var recs := Records(repo, results);
    CoherentNoClash(db, repo, results);
    forall s, r | Removed(db, repo, recs, s) && Live(recs, r) ensures !SharesName(s, r) {
      CycledStored(db, repo, results, r);
      NamesReachExactly(db, repo, results, r);
    }
    forall o, n | Replaced(db, recs, o) && Named(o, n) ensures exists r :: Live(recs, r) && Carries(r, o, n) {
      CoherentCarries(db, repo, results, o, n);
    }
  }

  lemma OwnKeys(q: SymbolRecord, n: string)
    requires Named(q, n)
    ensures KeyOf(NameKey(n, q), q) && KeyOf(TypeKey(n, q), q)
  {
  }

  // A first cycle over an empty store leads to a coherent index if and only if no two live records
  // share a name at one place.
  lemma FirstCycleCoherent(repo: string, results: seq<ParseResult>)
    requires DistinctKeys(Records(repo, results))
    ensures ValidDb(Cycled(map[], repo, results))
    ensures Coherent(Cycled(map[], repo, results)) <==> NoClash(Records(repo, results))
  {
    hide Cycled, NoClash;
    CycledValid(map[], repo, results);
    CycleCoherentExactly(map[], repo, results);
  }
}
