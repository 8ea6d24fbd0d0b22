/** sortRecords in internal/ast/store/store.go: exact hits first, then a fixed order. */
module Order {
  import opened Text
  import opened Model

  function Rank(r: SymbolRecord, query: string): nat {
    if r.name == query then 0 else if query in r.aliases then 1 else 2
  }

  // The comparator handed to sort.SliceStable.
  predicate Before(a: SymbolRecord, b: SymbolRecord, query: string) {
    if Rank(a, query) != Rank(b, query) then Rank(a, query) < Rank(b, query)
    else if a.name != b.name then LexLess(a.name, b.name)
    else if a.repo != b.repo then LexLess(a.repo, b.repo)
    else if a.file != b.file then LexLess(a.file, b.file)
    else a.startByte < b.startByte
  }

  // The comparator cannot tell two records of one name at one place apart.
  predicate Tied(a: SymbolRecord, b: SymbolRecord, query: string) {
    Rank(a, query) == Rank(b, query) && a.name == b.name && a.repo == b.repo
    && a.file == b.file && a.startByte == b.startByte
  }

  lemma BeforeTrichotomy(a: SymbolRecord, b: SymbolRecord, query: string)
    ensures Before(a, b, query) || Before(b, a, query) || Tied(a, b, query)
    ensures !(Before(a, b, query) && Before(b, a, query))
    ensures Tied(a, b, query) ==> !Before(a, b, query)
  {
    LexTotal(a.name, b.name);
    LexTotal(a.repo, b.repo);
    LexTotal(a.file, b.file);
  }

  lemma BeforeTransitive(a: SymbolRecord, b: SymbolRecord, c: SymbolRecord, query: string)
    requires Before(a, b, query) && Before(b, c, query)
    ensures Before(a, c, query)
  {
    if Rank(a, query) == Rank(b, query) == Rank(c, query) {
      LexTotal(a.name, b.name);
      LexTotal(a.repo, b.repo);
      LexTotal(a.file, b.file);
      if a.name != b.name && b.name != c.name {
        LexTransitive(a.name, b.name, c.name);
      } else if a.name == b.name == c.name {
        if a.repo != b.repo && b.repo != c.repo {
          LexTransitive(a.repo, b.repo, c.repo);
        } else if a.repo == b.repo == c.repo && a.file != b.file && b.file != c.file {
          LexTransitive(a.file, b.file, c.file);
        }
      }
    }
  }

  lemma NotBeforeTransitive(a: SymbolRecord, b: SymbolRecord, c: SymbolRecord, query: string)
    requires !Before(b, a, query) && !Before(c, b, query)
    ensures !Before(c, a, query)
  {
    BeforeTrichotomy(a, b, query);
    BeforeTrichotomy(b, c, query);
    BeforeTrichotomy(a, c, query);
    if Before(a, b, query) && Before(b, c, query) {
      BeforeTransitive(a, b, c, query);
    }
  }

  predicate Sorted(s: seq<SymbolRecord>, query: string) {
    forall i, j | 0 <= i < j < |s| :: !Before(s[j], s[i], query)
  }

  // The order of two records that match equally well: by name, repository, file and place.
  predicate Earlier(a: SymbolRecord, b: SymbolRecord) {
    || LexLess(a.name, b.name)
    || (a.name == b.name && LexLess(a.repo, b.repo))
    || (a.name == b.name && a.repo == b.repo && LexLess(a.file, b.file))
    || (a.name == b.name && a.repo == b.repo && a.file == b.file && a.startByte < b.startByte)
  }

  predicate MatchEqually(a: SymbolRecord, b: SymbolRecord, query: string) {
    (a.name == query <==> b.name == query) && (a.name == query || (query in a.aliases <==> query in b.aliases))
  }

  /** What a caller sees of the order: the records of that very name first, then those with such
      an alias, then the rest, and each of the three groups by name, repository, file and place. */
  ghost predicate Arranged(s: seq<SymbolRecord>, query: string) {
    forall i, j | 0 <= i < j < |s| ::
      && (s[j].name == query ==> s[i].name == query)
      && (query in s[j].aliases ==> s[i].name == query || query in s[i].aliases)
      && (MatchEqually(s[i], s[j], query) ==> !Earlier(s[j], s[i]))
  }

  lemma NotBeforeExactly(a: SymbolRecord, b: SymbolRecord, query: string)
    ensures !Before(b, a, query)
            <==> (b.name == query ==> a.name == query)
                 && (query in b.aliases ==> a.name == query || query in a.aliases)
                 && (MatchEqually(a, b, query) ==> !Earlier(b, a))
  {
    LexTotal(a.name, b.name);
    LexTotal(a.repo, b.repo);
    LexTotal(a.file, b.file);
  }

  // The comparator arranges records that way, and nothing that is arranged otherwise is sorted.
  lemma SortedExactly(s: seq<SymbolRecord>, query: string)
    ensures Sorted(s, query) <==> Arranged(s, query)
  {
    hide Before, Earlier, MatchEqually;
    forall i, j | 0 <= i < j < |s|
      ensures !Before(s[j], s[i], query)
              <==> (s[j].name == query ==> s[i].name == query)
                   && (query in s[j].aliases ==> s[i].name == query || query in s[i].aliases)
                   && (MatchEqually(s[i], s[j], query) ==> !Earlier(s[j], s[i]))
    {
      NotBeforeExactly(s[i], s[j], query);
    }
  }

  predicate NoDup<T(==)>(s: seq<T>) {
    forall i, j | 0 <= i < j < |s| :: s[i] != s[j]
  }

  function Insert(r: SymbolRecord, s: seq<SymbolRecord>, query: string): seq<SymbolRecord> {
    if s == [] || Before(r, s[0], query) then [r] + s
    else [s[0]] + Insert(r, s[1..], query)
  }

  function StableSort(s: seq<SymbolRecord>, query: string): seq<SymbolRecord> {
    if s == [] then []
    else Insert(s[|s| - 1], StableSort(s[..|s| - 1], query), query)
  }

  lemma {:induction false} InsertContents(r: SymbolRecord, s: seq<SymbolRecord>, query: string)
    ensures multiset(Insert(r, s, query)) == multiset(s) + multiset{r}
  {
    if s == [] || Before(r, s[0], query) {
    } else {
      InsertContents(r, s[1..], query);
      assert s == [s[0]] + s[1..];
    }
  }

  lemma {:induction false} InsertSorted(r: SymbolRecord, s: seq<SymbolRecord>, query: string)
    requires Sorted(s, query)
    ensures Sorted(Insert(r, s, query), query)
  {
    var t := Insert(r, s, query);
    if s == [] {
    } else if Before(r, s[0], query) {
      forall j | 1 <= j < |t| ensures !Before(t[j], t[0], query) {
        BeforeTrichotomy(r, s[0], query);
        if j > 1 {
          NotBeforeTransitive(r, s[0], s[j - 1], query);
        }
      }
      assert t[1..] == s;
      SortedCons(t, query);
    } else {
      InsertSorted(r, s[1..], query);
      var u := Insert(r, s[1..], query);
      InsertContents(r, s[1..], query);
      forall j | 1 <= j < |t| ensures !Before(t[j], t[0], query) {
        assert t[j] == u[j - 1] && u[j - 1] in multiset(u);
        assert u[j - 1] == r || u[j - 1] in s[1..];
      }
      assert t[1..] == u;
      SortedCons(t, query);
    }
  }

  lemma SortedCons(t: seq<SymbolRecord>, query: string)
    requires t != [] && Sorted(t[1..], query)
    requires forall j | 1 <= j < |t| :: !Before(t[j], t[0], query)
    ensures Sorted(t, query)
  {
    forall i, j | 0 <= i < j < |t| ensures !Before(t[j], t[i], query) {
      if i > 0 {
        assert t[1..][i - 1] == t[i] && t[1..][j - 1] == t[j];
      }
    }
  }

  // The records the comparator cannot tell from x, in the order they have in s.
  function TiedWith(s: seq<SymbolRecord>, x: SymbolRecord, query: string): seq<SymbolRecord> {
    if s == [] then [] else (if Tied(s[0], x, query) then [s[0]] else []) + TiedWith(s[1..], x, query)
  }

  ghost predicate SameTies(s: seq<SymbolRecord>, t: seq<SymbolRecord>, query: string) {
    forall x :: TiedWith(s, x, query) == TiedWith(t, x, query)
  }

  lemma {:induction false} TiedWithSnoc(s: seq<SymbolRecord>, r: SymbolRecord, x: SymbolRecord, query: string)
    ensures TiedWith(s + [r], x, query) == TiedWith(s, x, query) + if Tied(r, x, query) then [r] else []
  {
    hide Tied;
    if s == [] {
      assert s + [r] == [r] && [r][1..] == [];
    } else {
      assert (s + [r])[1..] == s[1..] + [r];
      TiedWithSnoc(s[1..], r, x, query);
    }
  }

  lemma {:induction false} NothingTied(s: seq<SymbolRecord>, x: SymbolRecord, query: string)
    requires forall i | 0 <= i < |s| :: !Tied(s[i], x, query)
    ensures TiedWith(s, x, query) == []
  {
    hide Tied;
    if s != [] {
      NothingTied(s[1..], x, query);
    }
  }

  // An insertion puts a record behind every one it is tied with.
  lemma {:induction false} InsertStable(r: SymbolRecord, s: seq<SymbolRecord>, x: SymbolRecord, query: string)
    requires Sorted(s, query)
    ensures TiedWith(Insert(r, s, query), x, query) == TiedWith(s, x, query) + if Tied(r, x, query) then [r] else []
  {
    hide Tied, Before;
    if s == [] {
      assert [r][1..] == [];
    } else if Before(r, s[0], query) {
      assert ([r] + s)[1..] == s;
      if Tied(r, x, query) {
        BeforeTrichotomy(s[0], s[0], query);
        forall i | 0 <= i < |s| ensures !Tied(s[i], x, query) {
          TiedApart(r, s[0], s[i], x, query);
        }
        NothingTied(s, x, query);
      }
    } else {
      assert ([s[0]] + Insert(r, s[1..], query))[1..] == Insert(r, s[1..], query);
      InsertStable(r, s[1..], x, query);
    }
  }

  // What comes after something r precedes is not tied with what r is tied with.
  lemma TiedApart(r: SymbolRecord, first: SymbolRecord, later: SymbolRecord, x: SymbolRecord, query: string)
    requires Tied(r, x, query) && Before(r, first, query) && !Before(later, first, query)
    ensures !Tied(later, x, query)
  {
    BeforeTrichotomy(first, later, query);
    if Before(first, later, query) {
      BeforeTransitive(r, first, later, query);
    }
    BeforeTrichotomy(r, later, query);
    assert Tied(later, x, query) ==> Tied(r, later, query);
  }

  // Sorting orders the records, neither drops nor repeats one, and leaves records the comparator
  // cannot tell apart in the order they came.
  lemma {:induction false} StableSortCorrect(s: seq<SymbolRecord>, query: string)
    ensures Sorted(StableSort(s, query), query) && Arranged(StableSort(s, query), query)
    ensures multiset(StableSort(s, query)) == multiset(s)
    ensures SameTies(StableSort(s, query), s, query)
  {
    hide Tied, Before, Insert, Sorted, Arranged;
    SortedExactly(StableSort(s, query), query);
    if s == [] {
      EmptySorted(query);
    } else {
      var n := |s| - 1;
      var t := StableSort(s[..n], query);
      StableSortCorrect(s[..n], query);
      InsertSorted(s[n], t, query);
      InsertContents(s[n], t, query);
      assert s == s[..n] + [s[n]];
      forall x ensures TiedWith(StableSort(s, query), x, query) == TiedWith(s, x, query) {
        InsertStable(s[n], t, x, query);
        TiedWithSnoc(s[..n], s[n], x, query);
      }
    }
  }

  // These three properties leave one sequence, so they say all there is to say of a stable sort.
  lemma {:induction false} StableSortUnique(s: seq<SymbolRecord>, t: seq<SymbolRecord>, query: string)
    requires Sorted(s, query) && Sorted(t, query) && multiset(s) == multiset(t) && SameTies(s, t, query)
    ensures s == t
  {
    hide SameTies, Before, Sorted;
    assert |t| == |multiset(t)| == |multiset(s)| == |s|;
    if s != [] {
      TiedHead(s, t, query);
      SortedTail(s, query);
      SortedTail(t, query);
      assert s == [s[0]] + s[1..] && t == [t[0]] + t[1..];
      assert multiset(s[1..]) == multiset(s) - multiset{s[0]} == multiset(t[1..]);
      TiedTails(s, t, query);
      StableSortUnique(s[1..], t[1..], query);
    }
  }

  lemma SortedTail(s: seq<SymbolRecord>, query: string)
    requires s != [] && Sorted(s, query)
    ensures Sorted(s[1..], query)
  {
    hide Before;
  }

  lemma TiedTails(s: seq<SymbolRecord>, t: seq<SymbolRecord>, query: string)
    requires s != [] && t != [] && s[0] == t[0] && SameTies(s, t, query)
    ensures SameTies(s[1..], t[1..], query)
  {
    forall x ensures TiedWith(s[1..], x, query) == TiedWith(t[1..], x, query) {
      TiedTail(s, t, x, query);
    }
  }

  lemma TiedTail(s: seq<SymbolRecord>, t: seq<SymbolRecord>, x: SymbolRecord, query: string)
    requires s != [] && t != [] && s[0] == t[0] && TiedWith(s, x, query) == TiedWith(t, x, query)
    ensures TiedWith(s[1..], x, query) == TiedWith(t[1..], x, query)
  {
    hide Tied;
    var head := if Tied(s[0], x, query) then [s[0]] else [];
    assert (head + TiedWith(s[1..], x, query))[|head|..] == TiedWith(s[1..], x, query);
    assert (head + TiedWith(t[1..], x, query))[|head|..] == TiedWith(t[1..], x, query);
  }

  lemma TiedHead(s: seq<SymbolRecord>, t: seq<SymbolRecord>, query: string)
    requires s != [] && t != [] && Sorted(s, query) && Sorted(t, query) && multiset(s) == multiset(t)
    requires SameTies(s, t, query)
    ensures s[0] == t[0]
  {
    assert s[0] in multiset(s) && t[0] in multiset(t);
    if Tied(t[0], s[0], query) {
      BeforeTrichotomy(s[0], s[0], query);
      assert TiedWith(s, s[0], query)[0] == s[0] && TiedWith(t, s[0], query)[0] == t[0];
    } else {
      SameHead(s, t, query);
    }
  }

  lemma EmptySorted(query: string)
    ensures Sorted([], query)
  {
  }

  lemma {:induction false} NoDupMultiset<T>(s: seq<T>)
    requires NoDup(s)
    ensures forall x :: x in s ==> multiset(s)[x] == 1
  {
    if s != [] {
      var t := s[..|s| - 1];
      NoDupMultiset(t);
      assert s == t + [s[|s| - 1]];
    }
  }

  lemma PermutationNoDup<T>(s: seq<T>, t: seq<T>)
    requires multiset(s) == multiset(t) && NoDup(s)
    ensures NoDup(t)
    ensures forall x :: x in t <==> x in s
  {
    NoDupMultiset(s);
    forall x ensures x in t <==> x in s {
      assert x in t <==> x in multiset(t);
      assert x in s <==> x in multiset(s);
    }
    forall i, j | 0 <= i < j < |t| ensures t[i] != t[j] {
      assert t == t[..i] + [t[i]] + t[i + 1..];
      assert t[j] in t[i + 1..] by {
        assert t[i + 1..][j - i - 1] == t[j];
      }
      assert t[i] == t[j] ==> multiset(t)[t[i]] >= 2;
      assert t[i] in s && multiset(s)[t[i]] == 1;
    }
  }

  // Without ties there is only one answer: order and contents determine the sequence.
  lemma {:induction false} SortedUnique(s: seq<SymbolRecord>, t: seq<SymbolRecord>, query: string)
    requires Sorted(s, query) && Sorted(t, query) && NoDup(s) && NoDup(t)
    requires forall r :: r in s <==> r in t
    requires forall a, b | a in s && b in s && a != b :: !Tied(a, b, query)
    ensures s == t
  {
    assert |t| > 0 ==> t[0] in s;
    if s != [] {
      assert s[0] in s;
      SameHead(s, t, query);
      NoDupTail(s);
      NoDupTail(t);
      SortedUnique(s[1..], t[1..], query);
      assert s == [s[0]] + s[1..] && t == [t[0]] + t[1..];
    }
  }

  lemma SameHead(s: seq<SymbolRecord>, t: seq<SymbolRecord>, query: string)
    requires s != [] && t != [] && Sorted(s, query) && Sorted(t, query)
    requires s[0] in t && t[0] in s
    requires s[0] != t[0] ==> !Tied(s[0], t[0], query)
    ensures s[0] == t[0]
  {
    var k :| 0 <= k < |t| && t[k] == s[0];
    var m :| 0 <= m < |s| && s[m] == t[0];
    BeforeTrichotomy(s[0], t[0], query);
  }

  lemma NoDupTail<T>(s: seq<T>)
    requires s != [] && NoDup(s)
    ensures NoDup(s[1..])
    ensures forall r :: r in s[1..] <==> r in s && r != s[0]
  {
    assert s == [s[0]] + s[1..];
    forall i | 0 <= i < |s[1..]| ensures s[1..][i] != s[0] {
      assert s[1..][i] == s[i + 1];
    }
  }
}
