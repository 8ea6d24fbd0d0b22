# A verified model of the symbol store, the LSP session layer and result compaction

This Dafny project models the three parts of the server in which a mistake is silent: the
embedded symbol store with its indexing cycle, the pool of language-server sessions with the
JSON-RPC client behind it, and the loops that compact a language server's answer. Each part is a
model of what the Go code does, branch by branch, with the properties the rest of the program
relies on proved for all inputs, all runs or all reachable states. Nothing was executed.

`dafny verify dfyconfig.toml` checks everything.

| file | models |
|---|---|
| `Text.dfy` | decimal numerals, zero padding, byte order of strings, `TrimSpace`, cutting at a colon |
| `Runs.dfy` | runs of a transition system, shared by the two session models |
| `Model.dfy` | `internal/ast/model.go`: the record, `Validate`, the bytes `Fingerprint` hashes |
| `Keys.dfy` | key layout of `internal/ast/store/store.go`: `esc`, `offsetToken`, the four key families, `matchedName` |
| `Order.dfy` | `sortRecords` |
| `Store.dfy` | the store as a class over a map: `PutSymbol`, `Lookup`, `PruneRepo` and their loops |
| `Coherence.dfy` | when the secondary indexes tell the truth, and what `Lookup` then answers |
| `Indexer.dfy` | `IndexRepo`: arrival order, the repository slice, recovery by a second cycle |
| `Manager.dfy` | `internal/lsp/manager.go`: `ClientSession` and `Close` as a transition system, and their critical sections as methods |
| `Client.dfy` | `internal/lsp/client.go`: `Call`, `dispatch` and `fail` as a transition system, and their critical sections as methods |
| `Stdio.dfy` | `internal/lsp/stdio.go`: writing, reading and answering frames |
| `Headers.dfy` | the header of a frame as any server may write it |
| `Uri.dfy` | `PathToURI` and `DocumentURI.Path` of `internal/lsp/protocol.go` |
| `Compact.dfy` | `internal/xref/compact.go` and the call-hierarchy loops of `internal/xref/service.go` |

## How to read it

**The store.** The database is a map from keys to values; one assignment is one committed
transaction. A value that decodes is kept decoded, one that does not is `Raw`. `Put`, `Prune`,
`Stored` and `Hit` are the specification; the methods of class `Store` do the loops of the
program and are proved equal to it, and the lemmas are about the specification. SHA-256 is taken
to be collision free, so comparing digests is comparing the hashed streams. In these files a
string is a sequence of Unicode scalars, that is, valid UTF-8.

`Lookup` never re-checks a record's name or kind; its correctness rests on an index invariant.
Two levels are kept apart. `WellIndexed` holds after every run of puts and prunes, and already
gives that a typed lookup never returns another kind. `Coherent` (every record reachable under
each of its names, every entry telling the truth) is kept by a put exactly when the put drops no
name of the record it replaces and shares no name with another record at the same place
(`PutCoherentExactly`); `CoherentRunExactly` says the same of whole runs, `CycleCoherentExactly` of
a whole indexing cycle, and `DroppedAliasStillAnswers` shows what goes wrong otherwise.

On every store the answer of `Lookup` is a function of database, query and filter, tied records
included (`FullAnswer`, over an ordered scan and a stable sort). It comes arranged: the records of
that very name, then those with such an alias, then the rest, each of the three by name, repository,
file and offset (`Arranged`, which is what the comparator amounts to by `SortedExactly`). On every coherent store, for every
query, it is the records one of whose names *spells* the query: an exact query is compared with the
name read back from the key, a prefix query in escaped form (`HitExactly`, `LookupSpells`). That is
a search over the records' own names when the names are free of the literal `%3A` and a prefix query
does not end in `%` or `%3` (`LookupRefinesSearch`); repositories and paths may contain anything.

The escaping is not injective: `a:b` and `a%3Ab` share a key component. So the key theorems are
stated for all strings, up to reading `%3A` back (`EscCollision`, `PrimaryKeyIdentity`). The two
conditions of `LookupRefinesSearch` are exact where they bite: exact lookups see a record under its
own names if and only if those names a trimmed query can equal are clean (`ExactLookupExactly`), a prefix scan takes a name
for itself under every safe query if and only if the name is clean (`NameScanExactly`), and a query
selects just the clean names it is a prefix of if and only if the query is safe (`PrefixSafeExact`).

**The cycle.** What a cycle stores is said of the parsed symbols field by field (`DescribedBy`,
`Reflects`): every accepted symbol is stored, or another accepted symbol is under its primary key;
after a finished cycle nothing else is stored for the repository. The summary's counters are sizes of
sets of files and symbols (`SummaryMeans`, `WrittenMeans`). Two symbols reaching the writer commute if and only if they are *apart*: equal, or one
of them rejected, or at different places (`StepsCommuteExactly`). `OrderIndependent` asks that the
symbols of different results are apart; results for files whose paths differ once `%3A` is read as a
colon always are (`DifferentFilesApart`), while `a:b.c` and `a%3Ab.c` may hold declarations at one
place, and then the last put wins. Nor do a file's own symbols always have names to themselves: in
`struct foo { int x; } foo(void);` a struct and a function share name and start byte, and the one put
last *overtakes* the other under the name. `ReachableExactly` and `SecondCycleRecovers` say so record
by record; all live records are reachable in the end if and only if no two of them clash
(`RecoveryExactly`), and only then is the index coherent (`CycleCoherentExactly`).

**The session layer.** Calls, closers and the reading goroutine are an unbounded number of
threads with program counters; a step is one critical section, one channel operation, or one
outcome chosen by the outside (a spawn that fails, a daemon that dies, a context that is
cancelled). `Apply` gives the state after a step, `Exec` after a run, and `Reachable` is what
some run reaches. Each module has a class with the program's fields whose methods are the
critical sections; they are proved equal to the functions the steps use. The attempt's owner, the
session's spawner, the Close call that closed the pool, the order in which ids were issued, the
channel's owner and send count, and the responses that have arrived are history the program holds
only implicitly.

What a call returns has a reason in the run that led there: `ReturnsForAReason` of both modules lists
them outcome by outcome, `EnterOutcome`, `WaiterOutcome` and `SelectExactly` say what the choice
points choose, and `CallsBlockExactly` which calls are held up. In `Client` a call's own steps are
always the one path through `Call` that ends where it is (`MovesArePath`).

"Live" means session-live: the read loop still runs and nobody has called Shutdown.

**Strings in `Stdio`, `Uri` and `Compact`** are byte strings, one character per byte, except the source
lines of `Compact`, which are sequences of runes. The header of a frame is parsed the way
`net/textproto` does, continuation lines included; `Headers` reads back any header made of lines with
blanks around the value and either line end. `Uri.PathOfURL` and `Uri.OnlyLocalFiles` say which URIs
name a path.

## Where the code and its comments differ

- `fail` says no new calls are added once the read loop has exited (internal/lsp/client.go:161-162).
  Exactly those calls can still register that are past the Alive check and, until `done` is closed,
  those that have not reached it (`RegistersExactly`). A call that registers after `fail` has taken
  the table gets no message over any further run; it is released by `done` (`LateCallsGetNothing`).
  `LateRegistration` exhibits the schedule and `NoStuckCall` covers it.
- `Close` may be called more than once (internal/lsp/manager.go:213), but in a closed pool a Close
  returns at its first step, and whatever was live still is (`FurtherCloseReturnsEarly`). With no call
  in progress, that can only be what the Close that closed the pool has yet to shut down
  (`LeftToClose`), so the guarantee that nothing leaks is that Close's own (`NoLeak`);
  `SecondCloseReturnsEarly` exhibits the leak.
- The fixed-width offset is there so that ranges sort in key order (internal/ast/store/store.go:117-119).
  That holds for all offsets below n exactly when n is at most 10^8 (`OffsetOrderExactly`); the token
  stays injective everywhere.
- `read` hands io.EOF on so that a clean exit can be told from a broken stream
  (internal/lsp/stdio.go:97-98). A frame that breaks off also gives the bare io.EOF, exactly when
  nothing of it got through, or it was cut in its first line after the colon, or right after that
  line's end (`CutReadsAsEndExactly`). The read loop tests for less (internal/lsp/stdio.go:41): it also
  takes io.ErrUnexpectedEOF and wrapped errors for a closed pipe, and so every cut in the payload;
  only a cut before the colon, or between the two bytes of a line end, shows as a broken stream
  (`CutTakenForCloseExactly`). No cut is ever mistaken for a frame (`CutFrame`).
- `PathToURI` is documented for absolute paths. The round trip also fails for a rooted path whose
  third byte is a colon, and holds for unrooted paths whose second byte is one: `RoundTripExactly`.

## Model

| member | source | states |
|---|---|---|
| Text.BlankExactly | internal/ast/store/store.go:160-162 | the blank test used for names agrees with "TrimSpace gives the empty string" |
| Text.TrimSpaceMeaning | internal/ast/store/store.go:237 | what TrimSpace leaves is a middle part of the string with blanks on both sides and none at its ends |
| Text.SpaceExactly | internal/ast/store/store.go:237 | the scalars taken for space are those of unicode.IsSpace, listed one by one |
| Text.LowerExactly | internal/lsp/protocol.go:97 | folding case maps each capital letter to the small one at the same place in the alphabet and changes nothing else |
| Text.LexMeaning | internal/ast/store/store.go:359-366 | one string sorts before another exactly when it is a proper prefix or has the smaller character at the first difference |
| Text.ParseDec | internal/ast/model.go:144 | a printed length reads back as the same number |
| Text.IntDecInjective | internal/ast/model.go:146 | printed integers, negative ones included, determine the integer |
| Model.ValidateExactly | internal/ast/model.go:105-131 | a record is rejected for the first of eight faults, stated on its fields with the two languages and ten kinds by name, and accepted exactly when it has none |
| Model.Utf8WidthExactly | internal/ast/model.go:144 | the length prefix counts bytes: a scalar takes one more from 2^7, 2^11 and 2^16 on |
| Model.Fingerprint | internal/ast/model.go:135-148 | the loop feeds the hash exactly the stream Stream(r) |
| Model.StreamInjective | internal/ast/model.go:135-147 | two records with the same hashed stream are the same record, whatever their numbers of aliases |
| Model.FramesPeel | internal/ast/model.go:141-146 | the number of length-prefixed parts, which is not encoded, is recovered from the tail's three colons |
| Keys.EscCollision | internal/ast/store/store.go:113-115 | two components escape to the same text exactly when they agree after reading %3A as a colon |
| Keys.EscIsReplaceAll | internal/ast/store/store.go:113-115 | escaping replaces each colon by %3A where it stands and leaves every other character |
| Keys.EscRoundTrip | internal/ast/store/store.go:113-115 | unescaping inverts esc exactly on strings without the literal %3A |
| Keys.EscPrefix | internal/ast/store/store.go:246-253 | for a safe query and a clean name, escaped prefix and plain prefix are the same thing |
| Keys.PrefixSafeExact | internal/ast/store/store.go:246-253 | the condition on the query is exact: any other query matches some clean name it is no prefix of |
| Keys.NameScanExactly | internal/ast/store/store.go:246-253 | the condition on the name is exact: a scan takes a name for itself under every safe query if and only if the name is free of %3A |
| Keys.OffsetInjective | internal/ast/store/store.go:117-119 | different offsets have different tokens, beyond eight digits and below zero too |
| Keys.OffsetOrder | internal/ast/store/store.go:117-119 | tokens sort in source order for offsets below 10^8 |
| Keys.OffsetOrderExactly | internal/ast/store/store.go:117-119 | all offsets below n sort in source order if and only if n is at most 10^8 |
| Keys.KeyLayouts | internal/ast/store/store.go:121-142 | the text of the four key families, component by component |
| Keys.PrimaryKeyIdentity | internal/ast/store/store.go:121-125 | a primary key determines repository, file, kind, name and offset, and nothing more, up to %3A |
| Keys.NameKeyIdentity | internal/ast/store/store.go:127-131 | a name key determines the name and the place, and says nothing of the kind |
| Keys.TypeKeyIdentity | internal/ast/store/store.go:133-137 | a type key determines the kind, the name and the place |
| Keys.FileKeyIdentity | internal/ast/store/store.go:139-142 | a file key has one slot per offset of a file |
| Keys.PrefixesApart | internal/ast/store/store.go:121-142 | the four key families are disjoint |
| Keys.RepoPrefixSelects | internal/ast/store/store.go:144-146 | the repository prefix selects the primary keys of that repository and no others |
| Keys.MatchedNameOfKey | internal/ast/store/store.go:317-339 | matchedName recovers the name a key was built from |
| Keys.NamePrefixSelects | internal/ast/store/store.go:246-249 | the name scan meets exactly the keys whose escaped name starts with the escaped query |
| Keys.TypePrefixSelects | internal/ast/store/store.go:249-253 | a type scan meets exactly the keys of that kind whose escaped name starts with the escaped query |
| Order.StableSortCorrect | internal/ast/store/store.go:341-370 | the answer has exact names first, then alias hits, then the rest, each group by name, repository, file and offset; it neither drops nor repeats a record, and keeps records the comparator cannot tell apart in the order they came |
| Order.SortedExactly | internal/ast/store/store.go:344-369 | a sequence is sorted by the comparator if and only if it is arranged that way |
| Order.StableSortUnique | internal/ast/store/store.go:355 | these three properties leave one sequence, so any stable sort gives this one |
| Order.SortedUnique | internal/ast/store/store.go:341-370 | without ties the order and the contents leave one answer only, so repeated calls agree |
| SymbolStore.Store.Scan | internal/ast/store/store.go:261-264 | an iterator yields exactly the keys under the prefix, once each, in key order, and so one sequence only |
| SymbolStore.Store.IndexKeys | internal/ast/store/store.go:153-170 | the loop yields the name and type key of every non-blank name and alias, and the file key |
| SymbolStore.Store.WriteIndexes | internal/ast/store/store.go:217-224 | every index key of the record, and no other key, now points to the primary key |
| SymbolStore.Store.PutSymbol | internal/ast/store/store.go:172-215 | an invalid record changes nothing; a valid one is stored with its entries, and a write is reported exactly when the stored record differed |
| SymbolStore.Store.Prefixes | internal/ast/store/store.go:246-253 | a key lies in one of the scanned ranges exactly when the query and the types select it |
| SymbolStore.Store.ScanRange | internal/ast/store/store.go:260-285 | one range adds the primary keys behind its kept entries and keeps the list free of repetition |
| SymbolStore.Store.Candidates | internal/ast/store/store.go:257-285 | the candidates are the distinct primary keys behind the kept index entries, all of them |
| SymbolStore.Store.Lookup | internal/ast/store/store.go:233-315 | an empty query fails, an undecodable candidate fails, and otherwise the answer is the first 25 records (or as many as the filter says) of the full answer, which is arranged with exact names first, holds records of the asked repository only, and is determined by database, query and filter, ties included |
| SymbolStore.FullAnswerFound | internal/ast/store/store.go:255-311 | the full answer is arranged, exact names first, and lists every stored record of the repository that a kept index entry leads to, once, and nothing else |
| SymbolStore.Store.StaleRecords | internal/ast/store/store.go:412-434 | the scan finds exactly the repository's keys outside keep, each with its record if it decodes |
| SymbolStore.Store.DeleteBatch | internal/ast/store/store.go:440-460 | one batch deletes its records and their index entries and nothing else |
| SymbolStore.Store.DeleteRecord | internal/ast/store/store.go:446-457 | deletes the key and, for a readable record, each of its index keys |
| SymbolStore.Store.PruneRepo | internal/ast/store/store.go:405-467 | all batches together delete exactly the stale records and their entries; the count is the number of stale records |
| SymbolStore.PutValid | internal/ast/store/store.go:175-215 | a put keeps records under their own primary keys and leaves the record stored |
| SymbolStore.PrunedTotal | internal/ast/store/store.go:440-465 | deleting record after record equals deleting the whole set at once |
| Coherence.PutCoherentExactly | internal/ast/store/store.go:175-224 | a put keeps the index coherent if and only if it drops no name of the record it replaces and shares no name with another record at the same place |
| Coherence.DroppedAliasStillAnswers | internal/ast/store/store.go:202-207 | after a put that drops an alias, an exact lookup of that alias still hits a record that does not have it |
| Coherence.RemovalKeepsCoherent | internal/ast/store/store.go:441-464 | removing any set of records with their entries keeps the index coherent, so it holds after every batch |
| Coherence.PruneKeepsCoherent | internal/ast/store/store.go:405-467 | PruneRepo keeps the index coherent, whatever keep is |
| Coherence.HitExactly | internal/ast/store/store.go:260-285 | on every coherent store, for every query and filter, a record is hit exactly when one of its names spells the query and its kind is asked for |
| Coherence.LookupSpells | internal/ast/store/store.go:233-315 | on every coherent store the full answer is exactly the records of the repository that spell the query, each once and arranged with exact names first, and no lookup meets an undecodable record |
| Coherence.SpellsExactly | internal/ast/store/store.go:246-253 | for clean names and a safe query, spelling is starting with (or, exact, equalling) the query |
| Coherence.ExactLookupExactly | internal/ast/store/store.go:237-272 | over all names a caller can pass, exact lookups see a record under its own names and no others if and only if each of them without surrounding space is free of %3A |
| Coherence.LookupRefinesSearch | internal/ast/store/store.go:233-315 | on a coherent store with clean names the full answer is the one list of the matching records, each once, exact names first, then alias hits, then the rest, each group by name, repository, file and offset; and no lookup fails |
| Coherence.EveryRunWellIndexed | internal/ast/store/store.go:175-224 | after any run of puts and prunes each name or type entry points to the primary key of a record that sits where the key says |
| Coherence.TypedLookupNeverLeaks | internal/ast/store/store.go:249-285 | after any run a lookup restricted to some types returns records of those types only |
| Coherence.CoherentRunExactly | internal/ast/store/store.go:175-224 | the index is coherent at every point of a run if and only if every put was admissible at its time |
| Indexer.Indexer.IndexRepo | internal/ast/indexer/indexer.go:151-256 | every accepted symbol is stored with its fields as parsed, or another one is under its primary key, and when they all differ in key, all are stored; a finished cycle leaves nothing else of the repository; other repositories stay as they were; and the loop, the cancellation check and the prune compute the specified cycle, summary included |
| Indexer.Indexer.ReceiveResult | internal/ast/indexer/indexer.go:203-231 | one worker result is counted as failed, filtered or parsed, and its symbols are put |
| Indexer.Indexer.PutSymbols | internal/ast/indexer/indexer.go:217-231 | the inner loop puts one record for each symbol in order, and computes the specified live set and counters |
| Indexer.CrawlReflects | internal/ast/indexer/indexer.go:202-242 | what a crawl and a finished cycle store of the parsed symbols, field by field, for all results and databases |
| Indexer.DescribedExactly | internal/ast/indexer/indexer.go:258-277 | the records put are exactly those that agree with some parsed symbol in all its fields, in this repository and the file of the result |
| Indexer.SummaryMeans | internal/ast/indexer/indexer.go:203-231 | the counters are the numbers of filtered files, of parsed files, of symbols in them, and of failed files and rejected symbols together |
| Indexer.WrittenMeans | internal/ast/indexer/indexer.go:228-230 | when different accepted records have different primary keys, the writes counted are the accepted records that the store did not hold, each once |
| Indexer.StepsCommuteExactly | internal/ast/indexer/indexer.go:217-231 | two symbols reaching the writer commute in database, live set and summary if and only if they are equal, or one is rejected, or they sit at different places |
| Indexer.DifferentFilesApart | internal/ast/indexer/indexer.go:200-218 | symbols of files whose paths differ, %3A read as a colon, sit at different places |
| Indexer.OrderIndependent | internal/ast/indexer/indexer.go:200-232 | when the symbols of different results are apart, the crawl ends in the same database, live set and summary for every order in which the results arrive |
| Indexer.CycleSlicesRepository | internal/ast/indexer/indexer.go:202-242 | after a cycle the repository's primary keys are exactly those of the records put in it, and no key outside the repository has changed |
| Indexer.OtherRepoUntouched | internal/ast/indexer/indexer.go:238 | no record or index entry of another repository counts as a key of this one |
| Indexer.CancelledCycleDeletesNothing | internal/ast/indexer/indexer.go:234-236 | a cancelled cycle deletes no key and leaves other repositories alone |
| Indexer.LiveStoredExactly | internal/ast/indexer/indexer.go:217-242 | every accepted record of the crawl is stored after the cycle if and only if different accepted records have different primary keys |
| Indexer.ReachableExactly | internal/ast/store/store.go:453-457 | a live record is reachable by name after one cycle if and only if no live record overtook it and no removed record shared a name with it at its place, and by type if and only if none of its own kind did |
| Indexer.KindChangeLosesName | internal/ast/store/store.go:453-457 | a declaration that changes kind in place loses its name entry to its former self, and keeps its type entry |
| Indexer.SecondCycleQuiet | internal/ast/indexer/indexer.go:217-242 | a second cycle over the same tree writes no record and prunes none, as soon as different records have different primary keys |
| Indexer.SecondCycleRecovers | internal/ast/store/store.go:187-209 | after the second cycle every live record is stored, and reachable under all its names (in its type partition) if and only if no live record (of its kind) overtook it, whatever the first removed |
| Indexer.RecoveryExactly | internal/ast/store/store.go:187-209 | after the second cycle all live records are reachable under all their names if and only if no two of them share a name at one place |
| Indexer.CycleCoherentExactly | internal/ast/indexer/indexer.go:202-242 | from a coherent index a cycle leads to a coherent index if and only if no two live records share a name at one place, no removed record shares one with a live one, and every name of a replaced record is still a name of a live record of its kind there |
| Indexer.FirstCycleCoherent | internal/ast/indexer/indexer.go:202-242 | a first cycle over an empty store leads to a coherent index if and only if no two live records share a name at one place |
| Manager.KeyExactly | internal/lsp/manager.go:72 | the pool's key determines the repository and the language |
| Manager.Manager.Enter | internal/lsp/manager.go:77-112 | only a closed pool refuses; a live session is kept and handed out, a crashed one dropped; an attempt is registered only where nobody serves or spawns; served and pending keys stay disjoint |
| Manager.EnterExactly | internal/lsp/manager.go:77-112 | these promises fix the decision and the pool, and the step of the transition system is the one they fix |
| Manager.Manager.Publish | internal/lsp/manager.go:117-129 | a spawned session is held exactly once, by an open pool or as an orphan of a closed one; the outcome is a session or an error; a closed pool still serves nothing |
| Manager.PublishExactly | internal/lsp/manager.go:117-129 | these promises fix the outcome, and the step of the transition system is the one they fix |
| Manager.Manager.Close | internal/lsp/manager.go:214-226 | whether first or not, every session the pool still served is handed to the caller and a closed pool serves nothing |
| Manager.CloseExactly | internal/lsp/manager.go:214-226 | the step of the transition system hands over the same sessions and leaves the same pool, first or not |
| Manager.InvStep | internal/lsp/manager.go:71-142 | every step of every call, closer and daemon keeps the invariant of the pool |
| Manager.StepEvolves | internal/lsp/manager.go:71-142 | no step changes a published outcome, revives a daemon, reopens a channel or the pool |
| Manager.PoolShape | internal/lsp/manager.go:50-53 | no key is both served and pending, a closed pool serves nothing, and a pending attempt has no outcome yet |
| Manager.AtMostOneLive | internal/lsp/manager.go:41-45 | two live sessions for one (repository, language) are the same session, in every reachable state |
| Manager.SingleFlight | internal/lsp/manager.go:32-39 | at most one call spawns for a key, its attempt is the one registered, and the pool does not serve the key meanwhile |
| Manager.LeftToClose | internal/lsp/manager.go:116-139 | in a closed pool with no call in progress, a session still live is one the Close that closed the pool has yet to shut down |
| Manager.NoLeak | internal/lsp/manager.go:116-139 | when the Close that closed the pool has returned and no call is in progress, every session ever started is dead or has been shut down |
| Manager.FurtherCloseReturnsEarly | internal/lsp/manager.go:213-219 | in every closed pool a further Close returns at its first step and whatever was live still is |
| Manager.SecondCloseReturnsEarly | internal/lsp/manager.go:213-219 | so a Close can have returned, with no call in progress, while a session is live |
| Manager.RightSession | internal/lsp/manager.go:70-142 | a call returns a session or an error, never both or neither, and the session is for the key asked for |
| Manager.CrashIsReplaced | internal/lsp/manager.go:82-112 | the first call to find a crashed session drops it and owns the new spawn |
| Manager.DeathThenSpawn | internal/lsp/manager.go:82-112 | a served daemon can die in any reachable state, and the call that comes next spawns its replacement |
| Manager.ReturnsForAReason | internal/lsp/manager.go:70-142 | in every run: a session returned came out of an attempt for the key whose handshake succeeded; a failed spawn is the outcome of an attempt for the key that did not start or failed its handshake; "closed" means the pool is closed; "cancelled" means the call was; "daemon exited" comes after three entries, when a spawn for the key brought up a daemon that is dead |
| Manager.EnterOutcome | internal/lsp/manager.go:77-112 | a closed pool turns a call away, a live session for its key is returned, an attempt in flight is waited for, and otherwise the call owns a new one |
| Manager.WaiterOutcome | internal/lsp/manager.go:95-106 | a waiter whose attempt is done returns its error, or its session if that is alive, and otherwise starts over, twice at most; the third time it gives up |
| Manager.CancelOutcome | internal/lsp/manager.go:97-98 | only a waiting call heeds its context, and it changes nothing but that call |
| Manager.CallsBlockExactly | internal/lsp/manager.go:70-142 | a call has no step but to be cancelled if and only if it has returned or waits for an attempt still open |
| Manager.SharedOutcome | internal/lsp/manager.go:93-130 | over any further run a finished attempt keeps its fields, and they are a session or an error; what a waiter returns of them is WaiterOutcome |
| Manager.OwnerSharesOutcome | internal/lsp/manager.go:128-138 | the owner returns what it published, and the channel it closes is still open |
| Manager.CallsAreBounded | internal/lsp/manager.go:74-76 | in no run does one call take more than 29 steps; when it has used its bound it has returned |
| Manager.NoLostWakeup | internal/lsp/manager.go:93-99 | a waiting call's attempt is done, or has exactly one owner, which still is on the path to closing it and can take a step |
| Manager.WakeupComes | internal/lsp/manager.go:114-130 | five steps of the owner close done, in any run and whatever the others do |
| Client.Client.TrackCall | internal/lsp/client.go:246-256 | the id was never given out before, its channel waits under it, and every call that waited still waits |
| Client.Client.ForgetCall | internal/lsp/client.go:258-263 | the call's channel can no longer be found in the table, and every other call that waited still waits |
| Client.Client.Take | internal/lsp/client.go:141-144 | a channel is found exactly for a waiting id, can never be taken again, and every other call that waited still waits |
| Client.Client.Swap | internal/lsp/client.go:163-166 | every waiting channel is handed over, once, and none can be taken from the table any more |
| Client.FirstMeaning | internal/lsp/client.go:141-150 | the specified answer is the first response after registration that carries the id |
| Client.InvStep | internal/lsp/client.go:134-224 | every step of every call and of the reader keeps the session invariant |
| Client.NoStuckCall | internal/lsp/client.go:153-224 | a waiting call has its id in the table, a message in its channel or the reader holding its reply; once fail has taken the table, done is closed or closed by the reader's next step |
| Client.ReaderNeverBlocks | internal/lsp/client.go:150-172 | every send the reader owes, in dispatch and in fail, finds room in the channel |
| Client.DeathReleases | internal/lsp/client.go:153-173 | once the read loop has returned, two steps of the reader close done in any run, and then every waiting call can leave; that none leaves so before is SelectExactly |
| Client.SelectExactly | internal/lsp/client.go:201-224 | a waiting call can give up on its context, leave exactly when done is closed, and receive exactly when a message is there; it can do nothing else |
| Client.CallsBlockExactly | internal/lsp/client.go:184-224 | a call has no step but to be cancelled if and only if it has returned, or waits while done is open and its channel is empty |
| Client.MovesArePath | internal/lsp/client.go:184-224 | in every run the steps a call has taken are the one path through Call that ends where it is |
| Client.ReturnsForAReason | internal/lsp/client.go:184-224 | in every run a call reports a failed encode, a failed write, a cancellation, the end of the session or a message if and only if that happened to it, and the session has ended if it says so or was refused |
| Client.CallsAreBounded | internal/lsp/client.go:184-224 | a call takes at most six steps in any run, and has none left exactly when it has returned |
| Client.IdsNeverReused | internal/lsp/client.go:251-254 | no two calls of a run, finished ones included, share an id or a channel |
| Client.HistoryStays | internal/lsp/client.go:184-224 | over any run a tracked call keeps its id, channel and registration point, and a finished one what it returned |
| Client.OneMessagePerChannel | internal/lsp/client.go:150-171 | each reply channel receives at most one message over any run |
| Client.ReplyRouting | internal/lsp/client.go:134-151 | a reply returned is the first response with the call's id that arrived after it registered; a call is aborted only if there was none |
| Client.DroppedResponse | internal/lsp/client.go:145-149 | a response for an unknown, finished or already answered id changes nothing but the record that it arrived |
| Client.PendingConserved | internal/lsp/client.go:246-263 | the table holds ids of unfinished calls only, each with its own channel, and is empty when no call is in flight |
| Client.PendingExactly | internal/lsp/client.go:141-144 | while the read loop runs, a call that expects a reply is in the table if and only if no response for it has arrived |
| Client.RegistersExactly | internal/lsp/client.go:161-189 | an untracked call can still register in some run if and only if it is past the Alive check, or done is open and it has not reached it |
| Client.LateCallsGetNothing | internal/lsp/client.go:161-172 | a call in the table after fail has taken it is sent nothing over any further run |
| Client.LateRegistration | internal/lsp/client.go:161-168 | a call can wait after fail has taken the table, its id alone in the new table, its channel empty and never served |
| Client.EarlyResponse | internal/lsp/client.go:145-149 | a response that carries an id before the call with that id registers is dropped |
| Stdio.Stdio.Write | internal/lsp/stdio.go:124-143 | exactly the text Content-Length, the length in decimal, an empty line and the payload are appended |
| Stdio.Stdio.Read | internal/lsp/stdio.go:97-122 | header, length and size checks compute the specified frame or the specified error |
| Stdio.Stdio.Handle | internal/lsp/stdio.go:47-60 | a frame that does not parse does nothing; a message without a method name is handed on and nothing written; one with a name and an id gets exactly one answer; one with a name only does nothing |
| Stdio.Stdio.ReadLoop | internal/lsp/stdio.go:36-62 | the messages dispatched are exactly those of the frames read that have no method name, in order of arrival, and the answers written exactly those to the frames with a name and an id, in order, until the error that ends the stream |
| Stdio.AtoiExactly | internal/lsp/stdio.go:109-112 | a length is a number exactly when it is an optional sign and digits and fits 64 bits |
| Headers.HeaderReads | internal/lsp/stdio.go:99-103 | a header that starts with a blank is refused; any header of names, blanks and values with either line end reads back as its fields |
| Headers.FoldedLine | internal/lsp/stdio.go:99-103 | a line that starts with a blank continues the value before it |
| Headers.HeaderDecides | internal/lsp/stdio.go:99-122 | for any such header the first length field in upper or lower case decides: beyond 64 bits malformed, beyond 64 MiB refused, more than follows a short read, and else exactly that many bytes; without one there is no frame |
| Stdio.ReadEncoded | internal/lsp/stdio.go:99-122 | a whole frame gives back its payload and what follows; one cut inside its payload reads short |
| Stdio.FrameRoundTrip | internal/lsp/stdio.go:99-143 | frames written one after the other read back as the same payloads and then end of stream |
| Stdio.CutFrame | internal/lsp/stdio.go:99-122 | no proper prefix of a frame is read as a frame |
| Stdio.CutFrameError | internal/lsp/stdio.go:99-122 | for every point at which a frame can break off, the error it reads as |
| Stdio.CutReadsAsEndExactly | internal/lsp/stdio.go:97-103 | read returns the bare io.EOF for a broken frame if and only if nothing of it got through, or it was cut in its first line after the colon, or right after that line's end |
| Stdio.CutTakenForCloseExactly | internal/lsp/stdio.go:39-45 | the read loop takes a broken frame for a closed pipe unless it was cut before the colon of its first line or between the two bytes of a line end, and exactly then not |
| Stdio.WholeAndLeft | internal/lsp/stdio.go:36-46 | any number of bytes of a stream is a number of whole frames and a proper part of the next |
| Stdio.CutStream | internal/lsp/stdio.go:36-46 | from any prefix of a stream of frames the read loop gets exactly the whole frames in it, and ends with the error of the frame that broke |
| Uri.PathToURI | internal/lsp/protocol.go:63-81 | the loop over segments escapes every byte but the separators |
| Uri.EscapeByteExactly | internal/lsp/protocol.go:79 | which bytes are left alone, listed one by one, and that any other becomes a percent sign and two hexadecimal digits |
| Uri.UnescapeEscape | internal/lsp/protocol.go:74-79 | percent-decoding inverts the encoding on every byte string |
| Uri.UnescapeExactly | internal/lsp/protocol.go:90 | a text decodes if and only if every percent sign is followed by two hexadecimal digits in either case |
| Uri.PathOfURI | internal/lsp/protocol.go:83-112 | reading a URI back gives the rooted path, less the slash before a volume name |
| Uri.PathOfURL | internal/lsp/protocol.go:83-112 | for any scheme, plain host, path, query and fragment: other schemes, other hosts and a missing path are refused in this order, and otherwise the path is given back, less the slash before a volume name |
| Uri.OnlyLocalFiles | internal/lsp/protocol.go:83-112 | every URI that gives a path has scheme "file", an empty or local host, no control character, and that path percent-encoded after the host |
| Uri.RoundTripExactly | internal/lsp/protocol.go:63-112 | PathToURI(p).Path() is p if and only if p is rooted and its third byte is no colon, or unrooted and its second byte is one |
| Uri.URIInjective | internal/lsp/protocol.go:63-81 | two paths share a URI only if they differ in the leading slash alone |
| Compact.IdentifierAt | internal/xref/compact.go:51-81 | the two loops compute the run of identifier runes around the caret |
| Compact.IdentRuneExactly | internal/xref/compact.go:153-158 | the identifier runes are the ASCII letters and digits and the underscore, listed one by one |
| Compact.IdentifierMaximal | internal/xref/compact.go:51-81 | the name is a maximal run the caret touches, and empty exactly when it touches none |
| Compact.KeyIsPlace | internal/xref/compact.go:133 | two hits share a dedupe key exactly when they share file and line, colons in paths or not |
| Compact.DistinctIsFirsts | internal/xref/compact.go:124-149 | what the loops keep before the cap is the hits at the first indices, in order |
| Compact.FirstIndicesExactly | internal/xref/compact.go:133-137 | an index is kept exactly when no earlier hit is at the same place |
| Compact.FirstIndicesIncrease | internal/xref/compact.go:128-149 | kept hits stay in input order |
| Compact.DistinctCounts | internal/xref/compact.go:137-138 | the total is the number of distinct (file, line) pairs among the usable locations |
| Compact.SourceCache.Lines | internal/xref/compact.go:19-40 | the lines of a file are the file's, and it is read at most once per answer |
| Compact.Service.Resolve | internal/xref/compact.go:101-118 | a location becomes the specified hit, or nothing when its URI is not a local file |
| Compact.Service.CompactLocations | internal/xref/compact.go:120-151 | the hits are for the first locations at their file and line, in order and up to the limit, each with repository, path, one-based line and column, evidence and, if asked, the name under it; the total is the number of such locations |
| Compact.Service.Incoming | internal/xref/service.go:230-273 | the same over the flattened call sites, a caller without ranges standing for itself, with the caller's name |
| Compact.Service.Outgoing | internal/xref/service.go:275-311 | the same over the callees' definitions, with the callee's name |
| Compact.CompactedExactly | internal/xref/compact.go:124-151 | deduplicating by key, counting and capping give exactly what a caller is promised, field by field, for all sites, workspaces and limits |
| Compact.LoopsAgree | internal/xref/service.go:244-271 | incoming counts and keeps the same places with the same evidence as compactLocations on the flattened call sites |

## Left out

- BadgerDB itself (transaction conflicts and size limits, I/O errors, value-log GC), JSON coding and SHA-256: an atomic ordered map, records kept decoded, and a collision-free hash take their place. JSON of fields that are not valid UTF-8 is not modelled, nor is a payload that decodes in part before failing.
- Coherence.LookupRefinesSearch: asks for names without the literal `%3A` and, for prefix queries, a query not ending in `%` or `%3`, because the program's answer is another one without; `LookupSpells` says what it is then, for every coherent store and query.
- Indexer.ReachableExactly: asks that different accepted records have different primary keys, that is, differ in place, kind or name; `LiveStoredExactly` says what is lost otherwise. The same goes for Indexer.SecondCycleRecovers, Indexer.CycleCoherentExactly and Indexer.WrittenMeans.
- A parse failure makes `IndexRepo` prune every record of the file, because the file contributes no live key (internal/ast/indexer/indexer.go:205-208); the model does the same.
- Indexer.OrderIndependent: asks that the symbols of different results are apart, because the order shows otherwise.
- The file index is written and deleted but not read by any modelled operation; it has one slot per offset, so it is not claimed to be complete. `FileSymbols`, `RepoSymbolKeys`, `Stats` and `scanRecords` are not modelled.
- `candidate.matched` is collected by the program and never used; the model does not carry it.
- The summary's per-type counts and durations, logging, `SafeRepoPath`, `collectFiles`, file walking and the parsers. The parse workers appear as the sequence of results in arrival order.
- `SearchLive` is a second writer; the cycle theorems are for a single writer. `IndexAll` runs cycles one after the other.
- In the session layer goroutines interleave at critical sections and channel operations; the Go memory model is not modelled. Timeouts and context cancellation are steps that may happen at any time. `Shutdown` of a session is one step that marks it; its handshake, `sync.Once`, signals and the reaping of the process are not modelled, so nothing is said about processes that outlive their session.
- Manager.CallsAreBounded: counts the call's own steps; the time spent inside a spawn or a handshake is the environment's.
- Client's ids are unbounded naturals, the program's are int64. Encoding and writing a request are steps with two outcomes; what the frames contain and how concurrent writers interleave is not modelled, because the header is written before the write lock is taken (internal/lsp/stdio.go:133-139) and atomic frames are not guaranteed. Notifications and `EnsureOpen` are left out; `didOpen` is check-then-act and may be sent twice.
- In `Stdio` what a frame's JSON says is a parameter (`decode`, `reply`), and a write never fails. After an error the stream is not read again, as in the program.
- `Uri` takes Unix separators. A host with user information, a port, brackets, percent signs or non-ASCII letters is compared as plain text with "localhost", where the program would first parse it.
- Uri.PathOfURL: asks for a host of letters, digits, dots and hyphens, a printable query and a fragment that decodes; `OnlyLocalFiles` is about every URI that gives a path.
- Headers.HeaderDecides: asks for field names that are tokens and for unfolded values; a folded value is `FoldedLine`, one line at a time.
- In `Compact` mapping an absolute path to a repository (`locate`, `elide`) and trimming and shortening a line of evidence are parameters, and the disk does not change during one answer. The key omits the repository, so hits of two repositories with the same relative path and line are merged, as in the program. Line numbers are unbounded integers. `relatives`, `decodeLocations`, `resolve` and the tool layer are not modelled.
