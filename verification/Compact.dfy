/** internal/xref: compact.go and the call-hierarchy half of service.go.

    Three loops deduplicate hits by file and line, count them and cap them; one specification
    covers all three. */
module Compact {
  import opened Text
  import Uri

  // MaxResults.
  const MAX_RESULTS := 20

  /* ---- protocol values ---- */

  // Zero-based.
  datatype Position = Position(line: int, character: int)

  datatype Location = Location(uri: string, start: Position)

  // A callHierarchy/incomingCalls entry: the caller and where in it the calls are.
  datatype IncomingCall = IncomingCall(name: string, uri: string, selection: Position, fromRanges: seq<Position>)

  datatype OutgoingCall = OutgoingCall(name: string, uri: string, selection: Position)

  // One-based.
  datatype Reference = Reference(
    name: string, repo: string, filePath: string, line: int, character: int, snippet: string)

  datatype Call = Call(
    callerName: string, calleeName: string, repo: string, filePath: string, line: int, snippet: string)

  /* ---- identifiers ---- */

  predicate IdentRune(c: char) { c == '_' || Letter(c) || IsDigit(c) }

  lemma IdentRuneExactly(c: char)
    ensures IdentRune(c) <==> c in LOWER + UPPER + "0123456789" + "_"
  {
    hide UPPER, LOWER, Letter, IsDigit;
    LetterExactly(c);
    DigitExactly(c);
  }

  function RunStart(text: string, i: nat): (start: nat)
    requires i < |text|
    ensures start <= i
  {
    if i > 0 && IdentRune(text[i - 1]) then RunStart(text, i - 1) else i
  }

  function RunEnd(text: string, i: nat): (end: nat)
    requires i < |text|
    ensures i < end <= |text|
    decreases |text| - i
  {
    if i + 1 < |text| && IdentRune(text[i + 1]) then RunEnd(text, i + 1) else i + 1
  }

  // Where the identifier under a one-based caret is found: under it, or right before it.
  function Anchor(text: string, character: int): Option<nat> {
    var i := character - 1;
    if i < 0 || i > |text| then None
    else if i < |text| && IdentRune(text[i]) then Some(i)
    else if i > 0 && IdentRune(text[i - 1]) then Some(i - 1)
    else None
  }

  function Identifier(text: string, character: int): string {
    match Anchor(text, character)
    case None => ""
    case Some(i) => text[RunStart(text, i)..RunEnd(text, i)]
  }

  predicate AllIdent(s: string) { forall i | 0 <= i < |s| :: IdentRune(s[i]) }

  lemma {:induction false} RunStartMaximal(text: string, i: nat)
    requires i < |text| && IdentRune(text[i])
    ensures var a := RunStart(text, i);
            (forall k | a <= k <= i :: IdentRune(text[k])) && (a > 0 ==> !IdentRune(text[a - 1]))
  {
    if i > 0 && IdentRune(text[i - 1]) {
      RunStartMaximal(text, i - 1);
    }
  }

  lemma {:induction false} RunEndMaximal(text: string, i: nat)
    requires i < |text| && IdentRune(text[i])
    ensures var b := RunEnd(text, i);
            (forall k | i <= k < b :: IdentRune(text[k])) && (b < |text| ==> !IdentRune(text[b]))
    decreases |text| - i
  {
    if i + 1 < |text| && IdentRune(text[i + 1]) {
      RunEndMaximal(text, i + 1);
    }
  }

  // The name is a maximal run of identifier runes that the caret touches, and it is empty only
  // when the caret touches none.
  lemma IdentifierMaximal(text: string, character: int)
    ensures Identifier(text, character) != "" ==>
              exists a: nat, b: nat :: a < b <= |text|
                                       && Identifier(text, character) == text[a..b] && AllIdent(text[a..b])
                                       && a <= character - 1 <= b
                                       && (a == 0 || !IdentRune(text[a - 1])) && (b == |text| || !IdentRune(text[b]))
    ensures Identifier(text, character) == "" <==>
            forall k: nat | k < |text| && (k == character - 1 || k == character - 2) && character - 1 <= |text| ::
              !IdentRune(text[k])
  {
    var i := Anchor(text, character);
    if i.Some? {
      RunStartMaximal(text, i.value);
      RunEndMaximal(text, i.value);
      assert IdentRune(text[i.value]);
    }
  }

  // identifierAt on one line of text.
  method IdentifierAt(text: string, character: int) returns (name: string)
    ensures name == Identifier(text, character)
  {
    var idx := character - 1;
    if idx < 0 || idx > |text| {
      return "";
    }
    if idx == |text| || !IdentRune(text[idx]) {
      if idx == 0 || !IdentRune(text[idx - 1]) {
        return "";
      }
      idx := idx - 1;
    }
    var start := idx;
    while start > 0 && IdentRune(text[start - 1])
      invariant 0 <= start <= idx && RunStart(text, start) == RunStart(text, idx)
    {
      start := start - 1;
    }
    var end := idx;
    while end < |text| - 1 && IdentRune(text[end + 1])
      invariant idx <= end < |text| && RunEnd(text, end) == RunEnd(text, idx)
      decreases |text| - end
    {
      end := end + 1;
    }
    return text[start..end + 1];
  }

  /* ---- first occurrences by file and line ---- */

  predicate SamePlace(r: Reference, q: Reference) { r.filePath == q.filePath && r.line == q.line }

  predicate Listed(refs: seq<Reference>, r: Reference) { exists i :: 0 <= i < |refs| && SamePlace(refs[i], r) }

  // The first reference to each place, in order.
  function Distinct(refs: seq<Reference>): seq<Reference> {
    if refs == [] then []
    else
      var n := |refs| - 1;
      var d := Distinct(refs[..n]);
      if Listed(d, refs[n]) then d else d + [refs[n]]
  }

  function Cap(refs: seq<Reference>, limit: nat): seq<Reference> { if |refs| <= limit then refs else refs[..limit] }

  // No earlier reference is to the same place.
  predicate FirstAt(refs: seq<Reference>, i: nat)
    requires i < |refs|
  {
    forall j | 0 <= j < i :: !SamePlace(refs[j], refs[i])
  }

  function FirstIndices(refs: seq<Reference>): (r: seq<nat>)
    ensures forall k | 0 <= k < |r| :: r[k] < |refs|
  {
    if refs == [] then []
    else
      var n := |refs| - 1;
      FirstIndices(refs[..n]) + if FirstAt(refs, n) then [n] else []
  }

  lemma {:induction false} FirstIndicesExactly(refs: seq<Reference>, i: nat)
    requires i < |refs|
    ensures i in FirstIndices(refs) <==> FirstAt(refs, i)
  {
    var n := |refs| - 1;
    if i < n {
      FirstIndicesExactly(refs[..n], i);
      assert FirstAt(refs[..n], i) <==> FirstAt(refs, i);
    } else {
      assert forall k | 0 <= k < |FirstIndices(refs[..n])| :: FirstIndices(refs[..n])[k] < n;
    }
  }

  lemma {:induction false} FirstIndicesIncrease(refs: seq<Reference>, j: nat, k: nat)
    requires j < k < |FirstIndices(refs)|
    ensures FirstIndices(refs)[j] < FirstIndices(refs)[k]
  {
    var before := FirstIndices(refs[..|refs| - 1]);
    if k < |before| {
      FirstIndicesIncrease(refs[..|refs| - 1], j, k);
    } else {
      assert before[j] < |refs| - 1;
    }
  }

  lemma {:induction false} DistinctListed(refs: seq<Reference>, r: Reference)
    ensures Listed(Distinct(refs), r) <==> Listed(refs, r)
  {
    if refs != [] {
      var n := |refs| - 1;
      var d := Distinct(refs[..n]);
      DistinctListed(refs[..n], r);
      if SamePlace(refs[n], r) {
        if Listed(d, refs[n]) {
          var i :| 0 <= i < |d| && SamePlace(d[i], refs[n]);
          assert SamePlace(d[i], r);
        } else {
          assert Distinct(refs)[|d|] == refs[n];
        }
      } else {
        assert Listed(refs, r) <==> Listed(refs[..n], r) by {
          assert forall i | 0 <= i < n :: refs[..n][i] == refs[i];
        }
        assert Listed(d, r) ==> Listed(Distinct(refs), r) by {
          assert forall i | 0 <= i < |d| :: Distinct(refs)[i] == d[i];
        }
        assert Listed(Distinct(refs), r) ==> Listed(d, r);
      }
    }
  }

  // The loops' Distinct is the references at the first indices, in order.
  lemma {:induction false} DistinctIsFirsts(refs: seq<Reference>)
    ensures |Distinct(refs)| == |FirstIndices(refs)|
    ensures forall k | 0 <= k < |FirstIndices(refs)| :: Distinct(refs)[k] == refs[FirstIndices(refs)[k]]
  {
    if refs != [] {
      var n := |refs| - 1;
      DistinctIsFirsts(refs[..n]);
      DistinctListed(refs[..n], refs[n]);
      assert Listed(refs[..n], refs[n]) <==> !FirstAt(refs, n) by {
        assert forall i | 0 <= i < n :: refs[..n][i] == refs[i];
      }
    }
  }

  function Places(refs: seq<Reference>): set<(string, int)> {
    set i | 0 <= i < |refs| :: (refs[i].filePath, refs[i].line)
  }

  // The total is the number of distinct (file, line) pairs.
  lemma {:induction false} DistinctCounts(refs: seq<Reference>)
    ensures |Distinct(refs)| == |Places(refs)|
  {
    if refs != [] {
      var n := |refs| - 1;
      DistinctCounts(refs[..n]);
      DistinctListed(refs[..n], refs[n]);
      var place := (refs[n].filePath, refs[n].line);
      assert Places(refs) == Places(refs[..n]) + {place} by {
        assert forall i | 0 <= i < n :: refs[..n][i] == refs[i];
      }
      assert Listed(refs[..n], refs[n]) <==> place in Places(refs[..n]);
    } else {
      assert Places(refs) == {};
    }
  }

  /* ---- the dedupe key ---- */

  // "%s:%d"
  function Key(r: Reference): string { r.filePath + ":" + IntDec(r.line) }

  // Two references share a key exactly when they are to the same place, colons in paths or not.
  lemma KeyIsPlace(r: Reference, q: Reference)
    ensures Key(r) == Key(q) <==> SamePlace(r, q)
  {
    if Key(r) == Key(q) {
      assert r.filePath + [':'] + IntDec(r.line) == Key(r) == Key(q) == q.filePath + [':'] + IntDec(q.line);
      LastCutUnique(r.filePath, IntDec(r.line), q.filePath, IntDec(q.line), ':');
      IntDecInjective(r.line, q.line);
    }
  }

  function Keys(refs: seq<Reference>): set<string> { set i | 0 <= i < |refs| :: Key(refs[i]) }

  lemma KeysSnoc(refs: seq<Reference>, r: Reference)
    ensures Keys(refs + [r]) == Keys(refs) + {Key(r)}
  {
    hide Key;
    var more := refs + [r];
    assert forall i | 0 <= i < |refs| :: more[i] == refs[i];
    assert more[|refs|] == r;
  }

  lemma KeyListed(refs: seq<Reference>, r: Reference)
    ensures Key(r) in Keys(refs) <==> Listed(refs, r)
  {
    hide Key;
    forall i | 0 <= i < |refs| ensures Key(refs[i]) == Key(r) <==> SamePlace(refs[i], r) {
      KeyIsPlace(refs[i], r);
    }
  }

  // One more reference: what the seen set, the count and the kept hits have to become.
  lemma OneMore(refs: seq<Reference>, r: Reference, limit: nat)
    ensures Keys(refs + [r]) == Keys(refs) + {Key(r)}
    ensures var d := Distinct(refs);
            var e := Distinct(refs + [r]);
            if Key(r) in Keys(refs) then e == d
            else |e| == |d| + 1
                 && Cap(e, limit) == if |Cap(d, limit)| >= limit then Cap(d, limit) else Cap(d, limit) + [r]
  {
    hide Key, Keys, Listed;
    KeysSnoc(refs, r);
    KeyListed(refs, r);
    DistinctListed(refs, r);
    assert (refs + [r])[..|refs|] == refs && (refs + [r])[|refs|] == r;
  }

  // What a loop holds after the references refs.
  ghost predicate Tally(refs: seq<Reference>, limit: nat, seen: set<string>, total: nat, kept: seq<Reference>) {
    seen == Keys(refs) && total == |Distinct(refs)| && kept == Cap(Distinct(refs), limit)
  }

  lemma TallyNone(limit: nat)
    ensures Tally([], limit, {}, 0, [])
  {
  }

  lemma TallyResult(refs: seq<Reference>, limit: nat, seen: set<string>, total: nat, kept: seq<Reference>)
    requires Tally(refs, limit, seen, total, kept)
    ensures total == |Distinct(refs)| && kept == Cap(Distinct(refs), limit)
  {
  }

  lemma TallyStep(refs: seq<Reference>, r: Reference, limit: nat, seen: set<string>, total: nat, kept: seq<Reference>)
    requires Tally(refs, limit, seen, total, kept)
    ensures if Key(r) in seen then Tally(refs + [r], limit, seen, total, kept)
            else Tally(refs + [r], limit, seen + {Key(r)}, total + 1, if |kept| >= limit then kept else kept + [r])
  {
    hide Key, Keys, Distinct, Cap;
    OneMore(refs, r, limit);
    assert Key(r) in seen ==> seen + {Key(r)} == seen;
  }

  /* ---- resolving protocol locations ---- */

  // Where the name of a hit comes from.
  datatype NameFrom = Unnamed | FromSource | Given(name: string)

  datatype Site = Site(uri: string, start: Position, name: NameFrom)

  // The workspace: which repository a path is in, the lines of a file ([] when it cannot be
  // read), and how a source line is trimmed and shortened.
  datatype Workspace = Workspace(
    locate: string -> (string, string), disk: string -> seq<string>, snippet: string -> string)
  {
    function Snippet(abs: string, line: int): string {
      if line < 1 || line > |disk(abs)| then "" else snippet(disk(abs)[line - 1])
    }

    function NameAt(abs: string, line: int, character: int): string {
      if line < 1 || line > |disk(abs)| then "" else Identifier(disk(abs)[line - 1], character)
    }

    // A hit, or nothing for a URI that is not a local file.
    function Hit(site: Site): seq<Reference> {
      match Uri.Path(site.uri)
      case PathErr(_) => []
      case PathOk(abs) =>
        var (repo, rel) := locate(abs);
        var line, character := site.start.line + 1, site.start.character + 1;
        var name := match site.name
          case Unnamed => ""
          case FromSource => NameAt(abs, line, character)
          case Given(n) => n;
        [Reference(name, repo, rel, line, character, Snippet(abs, line))]
    }

    function Hits(sites: seq<Site>): seq<Reference> {
      if sites == [] then [] else Hits(sites[..|sites| - 1]) + Hit(sites[|sites| - 1])
    }
  }

  lemma NoHits(w: Workspace)
    ensures w.Hits([]) == []
  {
  }

  lemma HitsSnoc(w: Workspace, sites: seq<Site>, site: Site)
    ensures w.Hits(sites + [site]) == w.Hits(sites) + w.Hit(site)
  {
    assert (sites + [site])[..|sites|] == sites;
  }

  // Only the name of a hit depends on where names come from.
  lemma HitName(w: Workspace, uri: string, start: Position, from: NameFrom)
    ensures var plain := w.Hit(Site(uri, start, Unnamed));
            var hit := w.Hit(Site(uri, start, from));
            |hit| == |plain| <= 1
            && (|plain| == 1 ==>
                  && Uri.Path(uri).PathOk? && hit == [hit[0]]
                  && hit[0] == plain[0].(name := hit[0].name) && Key(hit[0]) == Key(plain[0])
                  && hit[0].name == match from
                       case Unnamed => ""
                       case FromSource => w.NameAt(Uri.Path(uri).path, plain[0].line, plain[0].character)
                       case Given(n) => n)
  {
    hide Uri.Path, Identifier;
  }

  function LocationSites(locs: seq<Location>, named: bool): (r: seq<Site>)
    ensures |r| == |locs|
  {
    seq(|locs|, i requires 0 <= i < |locs| => Site(locs[i].uri, locs[i].start, if named then FromSource else Unnamed))
  }

  // The call sites of one caller; its own selection when the server lists none.
  function Ranges(call: IncomingCall): seq<Position> {
    if call.fromRanges == [] then [call.selection] else call.fromRanges
  }

  function CallSites(call: IncomingCall): (r: seq<Site>)
    ensures |r| == |Ranges(call)|
  {
    seq(|Ranges(call)|, i requires 0 <= i < |Ranges(call)| => Site(call.uri, Ranges(call)[i], Given(call.name)))
  }

  function IncomingSites(calls: seq<IncomingCall>): seq<Site> {
    if calls == [] then [] else IncomingSites(calls[..|calls| - 1]) + CallSites(calls[|calls| - 1])
  }

  lemma IncomingSitesAt(calls: seq<IncomingCall>, i: nat)
    requires i < |calls|
    ensures IncomingSites(calls[..i + 1]) == IncomingSites(calls[..i]) + CallSites(calls[i])
  {
    assert calls[..i + 1][..i] == calls[..i];
  }

  lemma NoSites()
    ensures IncomingSites([]) == []
  {
  }

  lemma RangesOf(call: IncomingCall)
    ensures Ranges(call) == if |call.fromRanges| == 0 then [call.selection] else call.fromRanges
  {
  }

  lemma CallSitesAt(call: IncomingCall, j: nat)
    requires j < |Ranges(call)|
    ensures CallSites(call)[j] == Site(call.uri, Ranges(call)[j], Given(call.name))
    ensures CallSites(call)[..j + 1] == CallSites(call)[..j] + [CallSites(call)[j]]
  {
  }

  function OutgoingSites(calls: seq<OutgoingCall>): (r: seq<Site>)
    ensures |r| == |calls|
  {
    seq(|calls|, i requires 0 <= i < |calls| => Site(calls[i].uri, calls[i].selection, Given(calls[i].name)))
  }

  /* ---- what an answer says, site by site ---- */

  // The hit says where the site is and what the line there reads, field by field.
  predicate Says(w: Workspace, site: Site, r: Reference) {
    var found := Uri.Path(site.uri);
    && found.PathOk?
    && var lines, at := w.disk(found.path), site.start.line;
       && (r.repo, r.filePath) == w.locate(found.path)
       && r.line == at + 1 && r.character == site.start.character + 1
       && r.snippet == (if 0 <= at < |lines| then w.snippet(lines[at]) else "")
       && r.name == (match site.name
                     case Unnamed => ""
                     case FromSource => if 0 <= at < |lines| then Identifier(lines[at], r.character) else ""
                     case Given(n) => n)
  }

  // A site at a local path that no earlier one shares file and line with.
  predicate FirstThere(w: Workspace, sites: seq<Site>, i: nat)
    requires i < |sites|
  {
    var here := Uri.Path(sites[i].uri);
    here.PathOk?
    && forall j | 0 <= j < i ::
         var there := Uri.Path(sites[j].uri);
         there.PathOk? && w.locate(there.path).1 == w.locate(here.path).1 ==> sites[j].start.line != sites[i].start.line
  }

  // Hit k is for site at[k]; no site that is the first at its place is passed over but for the cap.
  ghost predicate CompactedAt(w: Workspace, limit: nat, sites: seq<Site>, out: seq<Reference>, at: seq<nat>) {
    && |at| == |out| <= limit
    && (forall j, k | 0 <= j < k < |at| :: at[j] < at[k])
    && (forall k | 0 <= k < |at| :: at[k] < |sites| && FirstThere(w, sites, at[k]) && Says(w, sites[at[k]], out[k]))
    && (forall i: nat | i < |sites| && FirstThere(w, sites, i) ::
          i in at || (|at| == limit && forall k | 0 <= k < |at| :: at[k] < i))
  }

  /** What a caller gets for some sites: the first limit places in order, one hit each, and the
      number of places. */
  ghost predicate Compacted(w: Workspace, limit: nat, sites: seq<Site>, out: seq<Reference>, total: nat) {
    && (exists at: seq<nat> :: CompactedAt(w, limit, sites, out, at))
    && total == |(set i: nat | i < |sites| && FirstThere(w, sites, i))|
  }

  // The sites at local paths.
  function UsableAt(sites: seq<Site>): (r: seq<nat>)
    ensures forall k | 0 <= k < |r| :: r[k] < |sites|
  {
    if sites == [] then []
    else
      var n := |sites| - 1;
      UsableAt(sites[..n]) + if Uri.Path(sites[n].uri).PathOk? then [n] else []
  }

  lemma HitSays(w: Workspace, site: Site)
    ensures if Uri.Path(site.uri).PathOk? then |w.Hit(site)| == 1 && Says(w, site, w.Hit(site)[0])
            else w.Hit(site) == []
  {
    hide Uri.Path, Identifier;
  }

  lemma {:induction false} HitsAt(w: Workspace, sites: seq<Site>)
    ensures |w.Hits(sites)| == |UsableAt(sites)|
    ensures forall k | 0 <= k < |UsableAt(sites)| :: Says(w, sites[UsableAt(sites)[k]], w.Hits(sites)[k])
  {
    hide Uri.Path, Says, Workspace.Hit;
    if sites != [] {
      var n := |sites| - 1;
      HitsAt(w, sites[..n]);
      HitSays(w, sites[n]);
      var usable, hits := UsableAt(sites[..n]), w.Hits(sites[..n]);
      forall k | 0 <= k < |UsableAt(sites)| ensures Says(w, sites[UsableAt(sites)[k]], w.Hits(sites)[k]) {
        if k < |usable| {
          assert UsableAt(sites)[k] == usable[k] && w.Hits(sites)[k] == hits[k];
          assert sites[..n][usable[k]] == sites[usable[k]];
        }
      }
    }
  }

  lemma {:induction false} UsableExactly(sites: seq<Site>)
    ensures forall j, k | 0 <= j < k < |UsableAt(sites)| :: UsableAt(sites)[j] < UsableAt(sites)[k]
    ensures forall i: nat | i < |sites| :: i in UsableAt(sites) <==> Uri.Path(sites[i].uri).PathOk?
  {
    hide Uri.Path;
    if sites != [] {
      var n := |sites| - 1;
      var usable := UsableAt(sites[..n]);
      UsableExactly(sites[..n]);
      forall i: nat | i < |sites| ensures i in UsableAt(sites) <==> Uri.Path(sites[i].uri).PathOk? {
        if i < n {
          assert sites[..n][i] == sites[i];
          assert i in UsableAt(sites) <==> i in usable;
        }
      }
    }
  }

  // The sites of the first references to their places are the first sites there.
  lemma FirstSites(w: Workspace, sites: seq<Site>, k: nat)
    requires k < |w.Hits(sites)|
    ensures |w.Hits(sites)| == |UsableAt(sites)|
    ensures FirstThere(w, sites, UsableAt(sites)[k]) <==> FirstAt(w.Hits(sites), k)
  {
    hide Uri.Path, Identifier, Workspace.Hits, UsableAt;
    HitsAt(w, sites);
    UsableExactly(sites);
    var hits, at := w.Hits(sites), UsableAt(sites);
    var i := at[k];
    if FirstAt(hits, k) {
      forall j | 0 <= j < i && Uri.Path(sites[j].uri).PathOk?
        ensures w.locate(Uri.Path(sites[j].uri).path).1 == w.locate(Uri.Path(sites[i].uri).path).1
                ==> sites[j].start.line != sites[i].start.line
      {
        assert j in at;
        var m :| 0 <= m < |at| && at[m] == j;
        assert m < k;
        assert Says(w, sites[j], hits[m]) && Says(w, sites[i], hits[k]);
      }
    }
    if FirstThere(w, sites, i) {
      forall m | 0 <= m < k ensures !SamePlace(hits[m], hits[k]) {
        assert at[m] < i && Says(w, sites[at[m]], hits[m]) && Says(w, sites[i], hits[k]);
      }
    }
  }

  function Members(at: seq<nat>): set<nat> { set i | i in at }

  lemma {:induction false} IncreasingSize(at: seq<nat>)
    requires forall j, k | 0 <= j < k < |at| :: at[j] < at[k]
    ensures |Members(at)| == |at|
  {
    if at == [] {
      assert Members(at) == {};
    } else {
      var n := |at| - 1;
      var init := at[..n];
      IncreasingSize(init);
      assert at == init + [at[n]];
      MembersSnoc(init, at[n]);
    }
  }

  lemma MembersSnoc(at: seq<nat>, i: nat)
    ensures Members(at + [i]) == Members(at) + {i}
  {
  }

  // The sites at[k] are the first ones at their places, all of them and in order.
  ghost predicate AreFirst(w: Workspace, sites: seq<Site>, at: seq<nat>) {
    && (forall j, k | 0 <= j < k < |at| :: at[j] < at[k])
    && (forall k | 0 <= k < |at| :: at[k] < |sites| && FirstThere(w, sites, at[k]))
    && (forall i: nat | i < |sites| && FirstThere(w, sites, i) :: i in at)
  }

  // The places of all the first sites, in order.
  lemma FirstSitesAt(w: Workspace, sites: seq<Site>) returns (at: seq<nat>)
    ensures AreFirst(w, sites, at) && |at| == |Distinct(w.Hits(sites))|
    ensures forall k | 0 <= k < |at| :: Says(w, sites[at[k]], Distinct(w.Hits(sites))[k])
  {
    hide Uri.Path, Workspace.Hits, UsableAt, FirstAt, Says, FirstIndices, Distinct, FirstThere;
    var hits, usable := w.Hits(sites), UsableAt(sites);
    var firsts := FirstIndices(hits);
    HitsAt(w, sites);
    UsableExactly(sites);
    DistinctIsFirsts(hits);
    at := seq(|firsts|, k requires 0 <= k < |firsts| => usable[firsts[k]]);
    forall k | 0 <= k < |at| ensures FirstThere(w, sites, at[k]) {
      FirstIndicesExactly(hits, firsts[k]);
      FirstSites(w, sites, firsts[k]);
    }
    forall j, k | 0 <= j < k < |at| ensures at[j] < at[k] {
      FirstIndicesIncrease(hits, j, k);
    }
    forall i: nat | i < |sites| && FirstThere(w, sites, i) ensures i in at {
      FirstUsable(w, sites, i);
      var m :| 0 <= m < |usable| && usable[m] == i;
      FirstSites(w, sites, m);
      FirstIndicesExactly(hits, m);
      var k :| 0 <= k < |firsts| && firsts[k] == m;
      assert at[k] == i;
    }
  }

  lemma FirstUsable(w: Workspace, sites: seq<Site>, i: nat)
    requires i < |sites| && FirstThere(w, sites, i)
    ensures i in UsableAt(sites)
  {
    hide UsableAt;
    UsableExactly(sites);
  }

  lemma FirstCount(w: Workspace, sites: seq<Site>, at: seq<nat>)
    requires AreFirst(w, sites, at)
    ensures |(set i: nat | i < |sites| && FirstThere(w, sites, i))| == |at|
  {
    hide FirstThere;
    IncreasingSize(at);
    assert Members(at) == (set i: nat | i < |sites| && FirstThere(w, sites, i));
  }

  // Cutting the indices off where the hits are cut off.
  lemma CapAt(w: Workspace, limit: nat, sites: seq<Site>, hits: seq<Reference>, at: seq<nat>)
    requires AreFirst(w, sites, at) && |at| == |hits|
    requires forall k | 0 <= k < |at| :: Says(w, sites[at[k]], hits[k])
    ensures exists kept: seq<nat> :: CompactedAt(w, limit, sites, Cap(hits, limit), kept)
  {
    hide FirstThere, Says;
    var kept := if |at| <= limit then at else at[..limit];
    CapPassesOver(limit, at, kept);
    forall k | 0 <= k < |kept|
      ensures kept[k] < |sites| && FirstThere(w, sites, kept[k]) && Says(w, sites[kept[k]], Cap(hits, limit)[k])
    {
      assert kept[k] == at[k] && Cap(hits, limit)[k] == hits[k];
    }
    assert forall j, k | 0 <= j < k < |kept| :: kept[j] < kept[k];
    assert CompactedAt(w, limit, sites, Cap(hits, limit), kept);
  }

  // What the cap leaves out comes after all it keeps.
  lemma CapPassesOver(limit: nat, at: seq<nat>, kept: seq<nat>)
    requires kept == (if |at| <= limit then at else at[..limit])
    requires forall j, k | 0 <= j < k < |at| :: at[j] < at[k]
    ensures forall i | i in at && i !in kept :: |kept| == limit && forall k | 0 <= k < |kept| :: kept[k] < i
  {
    forall i | i in at && i !in kept ensures |kept| == limit && forall k | 0 <= k < |kept| :: kept[k] < i {
      var m :| 0 <= m < |at| && at[m] == i;
      assert forall k | 0 <= k < |kept| :: kept[k] in kept && kept[k] == at[k];
      assert m >= |kept|;
    }
  }

  // The references a loop keeps, and their number, are what a caller is promised.
  lemma CompactedExactly(w: Workspace, limit: nat, sites: seq<Site>)
    ensures var d := Distinct(w.Hits(sites)); Compacted(w, limit, sites, Cap(d, limit), |d|)
  {
    hide FirstThere, Says, Workspace.Hits, Distinct, AreFirst, Cap, CompactedAt;
    var at := FirstSitesAt(w, sites);
    FirstCount(w, sites, at);
    CapAt(w, limit, sites, Distinct(w.Hits(sites)), at);
  }

  /* ---- the loops agree ---- */

  function Bare(r: Reference): Reference { r.(name := "") }

  predicate SameButNames(a: seq<Reference>, b: seq<Reference>) {
    |a| == |b| && forall k | 0 <= k < |a| :: Bare(a[k]) == Bare(b[k])
  }

  lemma {:induction false} HitsRename(w: Workspace, a: seq<Site>, b: seq<Site>)
    requires |a| == |b| && forall k | 0 <= k < |a| :: a[k].uri == b[k].uri && a[k].start == b[k].start
    ensures SameButNames(w.Hits(a), w.Hits(b))
  {
    hide Workspace.Hit;
    if a != [] {
      var n := |a| - 1;
      HitsRename(w, a[..n], b[..n]);
      HitName(w, a[n].uri, a[n].start, a[n].name);
      HitName(w, b[n].uri, b[n].start, b[n].name);
    }
  }

  lemma ListedRename(d: seq<Reference>, e: seq<Reference>, r: Reference, q: Reference)
    requires SameButNames(d, e) && Bare(r) == Bare(q)
    ensures Listed(d, r) <==> Listed(e, q)
    ensures SameButNames(d + [r], e + [q])
  {
    assert forall i | 0 <= i < |d| :: Bare(d[i]) == Bare(e[i]) && (SamePlace(d[i], r) <==> SamePlace(e[i], q));
  }

  lemma {:induction false} DistinctRename(a: seq<Reference>, b: seq<Reference>)
    requires SameButNames(a, b)
    ensures SameButNames(Distinct(a), Distinct(b))
  {
    if a != [] {
      var n := |a| - 1;
      DistinctRename(a[..n], b[..n]);
      var d, e := Distinct(a[..n]), Distinct(b[..n]);
      ListedRename(d, e, a[n], b[n]);
    }
  }

  function Locations(sites: seq<Site>): (r: seq<Location>)
    ensures |r| == |sites|
  {
    seq(|sites|, i requires 0 <= i < |sites| => Location(sites[i].uri, sites[i].start))
  }

  // incoming counts and keeps the same places, with the same lines of evidence, as
  // compactLocations does on the flattened list of call sites; only the names differ.
  lemma LoopsAgree(w: Workspace, calls: seq<IncomingCall>, named: bool, limit: nat)
    ensures var a := Distinct(w.Hits(IncomingSites(calls)));
            var b := Distinct(w.Hits(LocationSites(Locations(IncomingSites(calls)), named)));
            |a| == |b| && SameButNames(Cap(a, limit), Cap(b, limit))
  {
    var sites := IncomingSites(calls);
    var flat := LocationSites(Locations(sites), named);
    HitsRename(w, sites, flat);
    DistinctRename(w.Hits(sites), w.Hits(flat));
  }

  function CallerEdge(r: Reference): Call { Call(r.name, "", r.repo, r.filePath, r.line, r.snippet) }

  function CalleeEdge(r: Reference): Call { Call("", r.name, r.repo, r.filePath, r.line, r.snippet) }

  function Edges(edge: Reference -> Call, refs: seq<Reference>): (r: seq<Call>)
    ensures |r| == |refs|
  {
    seq(|refs|, i requires 0 <= i < |refs| => edge(refs[i]))
  }

  lemma OutgoingSiteAt(calls: seq<OutgoingCall>, i: nat)
    requires i < |calls|
    ensures OutgoingSites(calls)[i] == Site(calls[i].uri, calls[i].selection, Given(calls[i].name))
    ensures OutgoingSites(calls)[..i + 1] == OutgoingSites(calls)[..i] + [OutgoingSites(calls)[i]]
  {
  }

  lemma EdgeOf(r: Reference)
    ensures CallerEdge(r) == Call(r.name, "", r.repo, r.filePath, r.line, r.snippet)
    ensures CalleeEdge(r) == Call("", r.name, r.repo, r.filePath, r.line, r.snippet)
  {
  }

  lemma NoEdges(edge: Reference -> Call)
    ensures Edges(edge, []) == []
  {
  }

  lemma EdgesSnoc(edge: Reference -> Call, refs: seq<Reference>, r: Reference)
    ensures Edges(edge, refs + [r]) == Edges(edge, refs) + [edge(r)]
  {
  }

  // The files touched while compacting one answer; fetched is the history of disk reads.
  class SourceCache {
    const disk: string -> seq<string>
    var files: map<string, seq<string>>
    ghost var fetched: seq<string>

    ghost predicate Valid()
      reads this
    {
      && (forall p | p in files :: files[p] == disk(p))
      && (forall p :: p in files <==> p in fetched)
      && (forall i, j | 0 <= i < j < |fetched| :: fetched[i] != fetched[j])
    }

    constructor (disk: string -> seq<string>)
      ensures Valid() && this.disk == disk && fetched == []
    {
      this.disk, files, fetched := disk, map[], [];
    }

    // A file is read at most once, however many hits it has.
    method Lines(path: string) returns (lines: seq<string>)
      requires Valid()
      modifies this
      ensures Valid() && lines == disk(path)
      ensures fetched == if path in old(files) then old(fetched) else old(fetched) + [path]
    {
      if path in files {
        return files[path];
      }
      lines := disk(path);
      files := files[path := lines];
      fetched := fetched + [path];
    }
  }

  class Service {
    const w: Workspace
    const limit: nat

    constructor (w: Workspace)
      ensures this.w == w && limit == 20
    {
      this.w := w;
      limit := MAX_RESULTS;
    }

    // reference, for a hit that is not named yet.
    method Resolve(uri: string, pos: Position, src: SourceCache) returns (r: Option<Reference>)
      requires src.Valid() && src.disk == w.disk
      modifies src
      ensures src.Valid()
      ensures w.Hit(Site(uri, pos, Unnamed)) == if r.Some? then [r.value] else []
    {
      hide Uri.Path;
      var path := Uri.Path(uri);
      if path.PathErr? {
        return None;
      }
      var (repo, rel) := w.locate(path.path);
      var line := pos.line + 1;
      var lines := src.Lines(path.path);
      var snippet := if line < 1 || line > |lines| then "" else w.snippet(lines[line - 1]);
      return Some(Reference("", repo, rel, line, pos.character + 1, snippet));
    }

    method NameAt(abs: string, line: int, character: int, src: SourceCache) returns (name: string)
      requires src.Valid() && src.disk == w.disk
      modifies src
      ensures src.Valid() && name == w.NameAt(abs, line, character)
    {
      var lines := src.Lines(abs);
      if line < 1 || line > |lines| {
        return "";
      }
      name := IdentifierAt(lines[line - 1], character);
    }

    // compactLocations: the first limit places in order, and the number of places.
    method CompactLocations(locs: seq<Location>, src: SourceCache, named: bool)
      returns (out: seq<Reference>, total: nat)
      requires src.Valid() && src.disk == w.disk
      modifies src
      ensures src.Valid()
      ensures var d := Distinct(w.Hits(LocationSites(locs, named))); total == |d| && out == Cap(d, limit)
      ensures Compacted(w, limit, LocationSites(locs, named), out, total)
    {
      CompactedExactly(w, limit, LocationSites(locs, named));
      hide Tally, Uri.Path, Key, Workspace.Hit, Workspace.Hits, Workspace.NameAt;
      var seen: set<string> := {};
      out, total := [], 0;
      ghost var sites: seq<Site> := [];
      NoHits(w);
      TallyNone(limit);
      for i := 0 to |locs|
        invariant src.Valid() && sites == LocationSites(locs, named)[..i]
        invariant Tally(w.Hits(sites), limit, seen, total, out)
      {
        var loc := locs[i];
        ghost var site := LocationSites(locs, named)[i];
        ghost var hits := w.Hits(sites);
        HitsSnoc(w, sites, site);
        HitName(w, loc.uri, loc.start, site.name);
        sites := sites + [site];
        var ref := Resolve(loc.uri, loc.start, src);
        if ref.None? {
          assert hits + [] == hits;
          continue;
        }
        TallyStep(hits, w.Hit(site)[0], limit, seen, total, out);
        var key := Key(ref.value);
        if key in seen {
          continue;
        }
        seen := seen + {key};
        total := total + 1;
        if |out| >= limit {
          continue;
        }
        var r := ref.value;
        if named {
          var path := Uri.Path(loc.uri);
          if path.PathOk? {
            var name := NameAt(path.path, r.line, r.character, src);
            r := r.(name := name);
          }
        }
        out := out + [r];
      }
      assert LocationSites(locs, named)[..|locs|] == LocationSites(locs, named);
      TallyResult(w.Hits(sites), limit, seen, total, out);
    }

    // incoming: the same over the call sites of every caller.
    method Incoming(calls: seq<IncomingCall>, src: SourceCache) returns (out: seq<Call>, total: nat)
      requires src.Valid() && src.disk == w.disk
      modifies src
      ensures src.Valid()
      ensures var d := Distinct(w.Hits(IncomingSites(calls))); total == |d| && out == Edges(CallerEdge, Cap(d, limit))
      ensures exists refs :: Compacted(w, limit, IncomingSites(calls), refs, total) && out == Edges(CallerEdge, refs)
    {
      hide *;
      CompactedExactly(w, limit, IncomingSites(calls));
      NoSites();
      NoEdges(CallerEdge);
      var seen: set<string> := {};
      out, total := [], 0;
      ghost var sites: seq<Site> := [];
      ghost var kept: seq<Reference> := [];
      NoHits(w);
      TallyNone(limit);
      for i := 0 to |calls|
        invariant src.Valid() && sites == IncomingSites(calls[..i])
        invariant Tally(w.Hits(sites), limit, seen, total, kept) && out == Edges(CallerEdge, kept)
      {
        var call := calls[i];
        var ranges := call.fromRanges;
        if |ranges| == 0 {
          ranges := [call.selection];
        }
        RangesOf(call);
        ghost var before := sites;
        for j := 0 to |ranges|
          invariant src.Valid() && sites == before + CallSites(call)[..j]
          invariant Tally(w.Hits(sites), limit, seen, total, kept) && out == Edges(CallerEdge, kept)
        {
          ghost var site := CallSites(call)[j];
          CallSitesAt(call, j);
          ghost var hits := w.Hits(sites);
          HitsSnoc(w, sites, site);
          HitName(w, call.uri, ranges[j], site.name);
          sites := sites + [site];
          var ref := Resolve(call.uri, ranges[j], src);
          if ref.None? {
            assert hits + [] == hits;
            continue;
          }
          TallyStep(hits, w.Hit(site)[0], limit, seen, total, kept);
          var key := Key(ref.value);
          if key in seen {
            continue;
          }
          seen := seen + {key};
          total := total + 1;
          if |out| >= limit {
            continue;
          }
          out := out + [Call(call.name, "", ref.value.repo, ref.value.filePath, ref.value.line, ref.value.snippet)];
          EdgeOf(w.Hit(site)[0]);
          EdgesSnoc(CallerEdge, kept, w.Hit(site)[0]);
          kept := kept + [w.Hit(site)[0]];
        }
        IncomingSitesAt(calls, i);
        assert CallSites(call)[..|ranges|] == CallSites(call);
      }
      assert calls[..|calls|] == calls;
      TallyResult(w.Hits(sites), limit, seen, total, kept);
    }

    // outgoing: the same over the callees' definitions.
    method Outgoing(calls: seq<OutgoingCall>, src: SourceCache) returns (out: seq<Call>, total: nat)
      requires src.Valid() && src.disk == w.disk
      modifies src
      ensures src.Valid()
      ensures var d := Distinct(w.Hits(OutgoingSites(calls))); total == |d| && out == Edges(CalleeEdge, Cap(d, limit))
      ensures exists refs :: Compacted(w, limit, OutgoingSites(calls), refs, total) && out == Edges(CalleeEdge, refs)
    {
      hide *;
      CompactedExactly(w, limit, OutgoingSites(calls));
      NoEdges(CalleeEdge);
      var seen: set<string> := {};
      out, total := [], 0;
      ghost var sites: seq<Site> := [];
      ghost var kept: seq<Reference> := [];
      NoHits(w);
      TallyNone(limit);
      for i := 0 to |calls|
        invariant src.Valid() && sites == OutgoingSites(calls)[..i]
        invariant Tally(w.Hits(sites), limit, seen, total, kept) && out == Edges(CalleeEdge, kept)
      {
        var call := calls[i];
        ghost var site := OutgoingSites(calls)[i];
        OutgoingSiteAt(calls, i);
        ghost var hits := w.Hits(sites);
        HitsSnoc(w, sites, site);
        HitName(w, call.uri, call.selection, site.name);
        sites := sites + [site];
        var ref := Resolve(call.uri, call.selection, src);
        if ref.None? {
          assert hits + [] == hits;
          continue;
        }
        TallyStep(hits, w.Hit(site)[0], limit, seen, total, kept);
        var key := Key(ref.value);
        if key in seen {
          continue;
        }
        seen := seen + {key};
        total := total + 1;
        if |out| >= limit {
          continue;
        }
        out := out + [Call("", call.name, ref.value.repo, ref.value.filePath, ref.value.line, ref.value.snippet)];
        EdgeOf(w.Hit(site)[0]);
        EdgesSnoc(CalleeEdge, kept, w.Hit(site)[0]);
        kept := kept + [w.Hit(site)[0]];
      }
      assert OutgoingSites(calls)[..|calls|] == OutgoingSites(calls);
      TallyResult(w.Hits(sites), limit, seen, total, kept);
    }
  }
}
