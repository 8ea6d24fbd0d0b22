/** internal/ast/store/store.go, key layout: four families of colon-separated keys whose
    variable components have their own colons escaped. */
module Keys {
  import opened Text
  import opened Model

  const SYM := "sym:"
  const NAME := "idx:name:"
  const TYPE := "idx:type:"
  const FILE := "idx:file:"
  const IDX := "idx:"
  const ESCAPED := "%3A"

  /* ---- esc and its inverse ---- */

  // strings.ReplaceAll(s, ":", "%3A")
  function Esc(s: string): (r: string)
    ensures ':' !in r
  {
    if s == "" then ""
    else if s[0] == ':' then ESCAPED + Esc(s[1..])
    else [s[0]] + Esc(s[1..])
  }

  // strings.ReplaceAll(s, "%3A", ":")
  function Unesc(s: string): string {
    if ESCAPED <= s then ":" + Unesc(s[3..])
    else if s == "" then ""
    else [s[0]] + Unesc(s[1..])
  }

  // strings.Contains(s, "%3A") is false.
  predicate Clean(s: string) {
    s == "" || (!(ESCAPED <= s) && Clean(s[1..]))
  }

  function EscChar(c: char): string { if c == ':' then ESCAPED else [c] }

  lemma EscUnfold(s: string)
    requires s != ""
    ensures Esc(s) == EscChar(s[0]) + Esc(s[1..])
    ensures Esc(s) != "" && Esc(s)[0] == EscChar(s[0])[0]
  {
  }

  lemma EscapedChars(s: string)
    ensures ESCAPED <= s <==> |s| >= 3 && s[0] == '%' && s[1] == '3' && s[2] == 'A'
  {
    if |s| >= 3 {
      assert s[..3] == [s[0], s[1], s[2]];
    }
  }

  lemma EscNothing()
    ensures Esc("") == ""
  {
  }

  // Replacing the colons one by one, and nothing else, is all escaping does.
  lemma {:induction false} EscIsReplaceAll(a: string, c: char, b: string)
    ensures Esc(a + [c] + b) == Esc(a) + ((if c == ':' then "%3A" else [c]) + Esc(b))
  {
    hide Esc;
    var s := a + [c] + b;
    EscUnfold(s);
    if a == "" {
      EscNothing();
      assert s == [c] + b && s[0] == c && s[1..] == b;
    } else {
      EscUnfold(a);
      EscIsReplaceAll(a[1..], c, b);
      assert s[0] == a[0] && s[1..] == a[1..] + [c] + b;
    }
  }

  // Escaping creates no new occurrence of the escape sequence at the front.
  lemma EscHead(s: string)
    ensures ESCAPED <= Esc(s) <==> (s != "" && s[0] == ':') || ESCAPED <= s
  {
    EscapedChars(s);
    EscapedChars(Esc(s));
    if s != "" && s[0] != ':' {
      var t := s[1..];
      assert Esc(s) == [s[0]] + Esc(t);
      if t != "" {
        EscUnfold(t);
        if t[0] != ':' && t[1..] != "" {
          EscUnfold(t[1..]);
          assert t[1..][0] == s[2];
        }
      }
    }
  }

  lemma EscOfEscaped(s: string)
    requires ESCAPED <= s
    ensures Esc(s) == ESCAPED + Esc(s[3..])
  {
    assert s[1..][0] == '3' && s[1..][1..] == s[2..] && s[2..][0] == 'A' && s[2..][1..] == s[3..];
    EscUnfold(s);
    EscUnfold(s[1..]);
    EscUnfold(s[2..]);
  }

  lemma {:induction false} UnescEsc(s: string)
    ensures Unesc(Esc(s)) == Unesc(s)
    decreases |s|
  {
    EscHead(s);
    if s == "" {
    } else if s[0] == ':' {
      UnescEsc(s[1..]);
      assert Esc(s)[3..] == Esc(s[1..]);
    } else if ESCAPED <= s {
      EscOfEscaped(s);
      assert Esc(s)[3..] == Esc(s[3..]);
      UnescEsc(s[3..]);
    } else {
      assert Esc(s)[1..] == Esc(s[1..]);
      UnescEsc(s[1..]);
    }
  }

  lemma {:induction false} EscUnesc(s: string)
    ensures Esc(Unesc(s)) == Esc(s)
    decreases |s|
  {
    if ESCAPED <= s {
      EscUnesc(s[3..]);
      EscOfEscaped(s);
      assert Unesc(s)[1..] == Unesc(s[3..]);
    } else if s != "" {
      EscUnesc(s[1..]);
      assert Unesc(s)[1..] == Unesc(s[1..]);
    }
  }

  // Exactly which components collide: those that agree once "%3A" is read as ':'.
  lemma EscCollision(a: string, b: string)
    ensures Esc(a) == Esc(b) <==> Unesc(a) == Unesc(b)
  {
    UnescEsc(a);
    UnescEsc(b);
    EscUnesc(a);
    EscUnesc(b);
  }

  lemma {:induction false} UnescLength(s: string)
    ensures |Unesc(s)| <= |s|
    ensures |Unesc(s)| == |s| <==> Clean(s)
    ensures Clean(s) ==> Unesc(s) == s
    decreases |s|
  {
    if ESCAPED <= s {
      UnescLength(s[3..]);
    } else if s != "" {
      UnescLength(s[1..]);
    }
  }

  // The round trip loses nothing exactly on components free of the literal "%3A".
  lemma EscRoundTrip(s: string)
    ensures Unesc(Esc(s)) == s <==> Clean(s)
  {
    UnescEsc(s);
    UnescLength(s);
  }

  lemma UnescIsClean(s: string)
    ensures Clean(Unesc(s))
  {
    EscRoundTrip(Unesc(s));
    EscUnesc(s);
    UnescEsc(s);
  }

  lemma {:induction false} EscConcat(a: string, b: string)
    ensures Esc(a + b) == Esc(a) + Esc(b)
  {
    if a == "" {
      assert a + b == b;
    } else {
      assert (a + b)[1..] == a[1..] + b;
      EscConcat(a[1..], b);
    }
  }

  /* ---- prefixes under escaping ---- */

  predicate EndsWith(s: string, t: string) { |t| <= |s| && s[|s| - |t|..] == t }

  // A query whose escaped form is a prefix of an escaped name only when it is one itself.
  predicate PrefixSafe(q: string) {
    Clean(q) && !EndsWith(q, "%") && !EndsWith(q, "%3")
  }

  lemma PrefixStrip(h: string, a: string, b: string)
    ensures h + a <= h + b <==> a <= b
  {
    assert (h + a)[|h|..] == a && (h + b)[|h|..] == b;
    if h + a <= h + b {
      assert a == (h + b)[|h|..][..|a|];
    }
    if a <= b {
      assert h + b == h + a + b[|a|..];
    }
  }

  lemma PrefixSafeTail(q: string)
    requires q != "" && PrefixSafe(q)
    ensures PrefixSafe(q[1..])
  {
    hide Clean, EndsWith;
    CleanTail(q);
    EndsWithTail(q, "%");
    EndsWithTail(q, "%3");
  }

  lemma CleanTail(q: string)
    requires q != "" && Clean(q)
    ensures Clean(q[1..])
  {
  }

  lemma EndsWithTail(q: string, t: string)
    requires q != ""
    ensures EndsWith(q[1..], t) ==> EndsWith(q, t)
  {
    if |t| < |q| {
      assert q[1..][|q[1..]| - |t|..] == q[|q| - |t|..];
    }
  }

  lemma {:induction false} EscPrefix(q: string, n: string)
    requires PrefixSafe(q) && Clean(n)
    ensures Esc(q) <= Esc(n) <==> q <= n
  {
    if q == "" {
    } else if n == "" {
      EscUnfold(q);
    } else if q[0] == n[0] {
      PrefixSafeTail(q);
      EscPrefix(q[1..], n[1..]);
      EscPrefixStep(q, n);
    } else {
      EscPrefixMismatch(q, n);
    }
  }

  lemma EscPrefixStep(q: string, n: string)
    requires q != "" && n != "" && q[0] == n[0]
    ensures Esc(q) <= Esc(n) <==> Esc(q[1..]) <= Esc(n[1..])
    ensures q <= n <==> q[1..] <= n[1..]
  {
    EscUnfold(q);
    EscUnfold(n);
    PrefixStrip(EscChar(q[0]), Esc(q[1..]), Esc(n[1..]));
    PrefixStrip([q[0]], q[1..], n[1..]);
    assert q == [q[0]] + q[1..] && n == [n[0]] + n[1..];
  }

  // Different first characters stay different, even when one of them is the colon.
  lemma EscPrefixMismatch(q: string, n: string)
    requires q != "" && n != "" && q[0] != n[0] && PrefixSafe(q) && Clean(n)
    ensures !(Esc(q) <= Esc(n))
  {
    hide Esc, PrefixSafe, Clean, Unesc;
    EscUnfold(q);
    EscUnfold(n);
    if q[0] == '%' && n[0] == ':' {
      PercentStaysPercent(q);
      EscapeStart(n);
    } else if q[0] == ':' && n[0] == '%' {
      EscHead(n);
      CleanHead(n);
      EscapeStart(q);
      EscapedChars(Esc(n));
    }
  }

  lemma CleanHead(s: string)
    requires Clean(s)
    ensures !(ESCAPED <= s)
  {
  }

  // An escaped colon is three characters.
  lemma EscapeStart(s: string)
    requires s != "" && s[0] == ':'
    ensures |Esc(s)| >= 3 && Esc(s)[0] == '%' && Esc(s)[1] == '3' && Esc(s)[2] == 'A'
  {
    EscUnfold(s);
  }

  // A safe query that starts with a percent sign does not start with an escaped colon.
  lemma PercentStaysPercent(q: string)
    requires q != "" && q[0] == '%' && PrefixSafe(q)
    ensures |Esc(q)| >= 2 && !(Esc(q)[1] == '3' && |Esc(q)| == 2)
    ensures !(|Esc(q)| >= 3 && Esc(q)[1] == '3' && Esc(q)[2] == 'A')
  {
    hide Esc;
    SafeLength(q);
    var t := q[1..];
    EscUnfold(q);
    EscUnfold(t);
    if t[0] == '3' {
      SafeLength(q);
      EscUnfold(t[1..]);
      assert t[1..][0] == q[2];
      SafeThird(q);
    }
  }

  lemma SafeLength(q: string)
    requires q != "" && q[0] == '%' && PrefixSafe(q)
    ensures |q| >= 2 && (q[1] == '3' ==> |q| >= 3)
  {
    assert q[|q| - 1..] == [q[|q| - 1]];
    assert |q| >= 2 ==> q[|q| - 2..] == [q[|q| - 2], q[|q| - 1]];
  }

  lemma SafeThird(q: string)
    requires |q| >= 3 && q[0] == '%' && q[1] == '3' && PrefixSafe(q)
    ensures q[2] != 'A'
  {
    EscapedChars(q);
  }

  // A query that is not prefix safe matches a clean name it is no prefix of.
  lemma UnsafeWitness(q: string) returns (n: string)
    requires !PrefixSafe(q)
    ensures Clean(n) && Esc(q) <= Esc(n) && !(q <= n)
  {
    hide Esc, Clean, Unesc;
    if !Clean(q) {
      n := Unesc(q);
      EscUnesc(q);
      UnescIsClean(q);
      UnescLength(q);
    } else if EndsWith(q, "%") {
      n := TailWitness(q, 1);
    } else {
      n := TailWitness(q, 2);
    }
  }

  // A colon in place of the start of an escape at the end.
  lemma TailWitness(q: string, k: nat) returns (n: string)
    requires Clean(q) && (k == 1 || k == 2) && EndsWith(q, ESCAPED[..k])
    ensures Clean(n) && Esc(q) <= Esc(n) && !(q <= n)
  {
    hide Esc, Clean;
    var p := q[..|q| - k];
    n := p + ":";
    assert q == p + ESCAPED[..k];
    EscConcat(p, ESCAPED[..k]);
    EscConcat(p, ":");
    EscOfEscapePrefix(k);
    assert ESCAPED == ESCAPED[..k] + ESCAPED[k..];
    assert Esc(n) == Esc(q) + ESCAPED[k..];
    assert q[|p|] == '%' && n[|p|] == ':';
    CleanThenColon(p, ESCAPED[..k]);
  }

  lemma EscOfEscapePrefix(k: nat)
    requires k == 1 || k == 2
    ensures Esc(ESCAPED[..k]) == ESCAPED[..k] && Esc(":") == ESCAPED
  {
    assert ESCAPED[..1] == "%" && ESCAPED[..2] == "%3" && "%3"[1..] == "3";
    EscUnfold("%");
    EscUnfold("%3");
    EscUnfold("3");
    EscUnfold(":");
  }

  lemma {:induction false} CleanThenColon(p: string, t: string)
    requires Clean(p + t)
    ensures Clean(p + ":")
  {
    if p == "" {
      assert p + ":" == ":" && ":"[1..] == "";
    } else {
      assert (p + t)[1..] == p[1..] + t && (p + ":")[1..] == p[1..] + ":";
      CleanThenColon(p[1..], t);
      EscapedChars(p + ":");
      EscapedChars(p + t);
    }
  }

  // The condition is exact.
  lemma PrefixSafeExact(q: string)
    ensures PrefixSafe(q) <==> forall n :: Clean(n) ==> (Esc(q) <= Esc(n) <==> q <= n)
  {
    if PrefixSafe(q) {
      forall n | Clean(n) ensures Esc(q) <= Esc(n) <==> q <= n {
        EscPrefix(q, n);
      }
    } else {
      var n := UnsafeWitness(q);
    }
  }

  /** The same for names: a scan takes a name for itself, for every safe query, if and only if the
      name is free of the escape sequence. */
  lemma NameScanExactly(n: string)
    ensures (forall q | PrefixSafe(q) :: Esc(q) <= Esc(n) <==> q <= n) <==> Clean(n)
  {
    hide Esc, PrefixSafe;
    if Clean(n) {
      forall q | PrefixSafe(q) ensures Esc(q) <= Esc(n) <==> q <= n {
        EscPrefix(q, n);
      }
    } else {
      var q := MistakenPrefix(n);
    }
  }

  // A prefix of the name with one colon more.
  predicate ColonAfter(q: string, n: string) { q != "" && q[|q| - 1] == ':' && q[..|q| - 1] <= n }

  // Reading the first "%3A" of a name as a colon gives a safe prefix of its escaped form only.
  lemma {:induction false} MistakenPrefix(n: string) returns (q: string)
    requires !Clean(n)
    ensures PrefixSafe(q) && Esc(q) <= Esc(n) && !(q <= n) && ColonAfter(q, n)
  {
    hide Esc, ColonAfter;
    if ESCAPED <= n {
      q := ":";
      EscOfEscaped(n);
      EscOfEscapePrefix(1);
      ColonSafe(q);
      ColonAfterNothing(n);
    } else {
      hide PrefixSafe;
      var tail := MistakenPrefix(n[1..]);
      q := [n[0]] + tail;
      assert q[1..] == tail;
      EscPrefixStep(q, n);
      ColonAfterMore(tail, n);
    }
  }

  lemma ColonAfterNothing(n: string)
    ensures ColonAfter(":", n)
  {
  }

  lemma ColonAfterMore(tail: string, n: string)
    requires n != "" && !(ESCAPED <= n) && ColonAfter(tail, n[1..]) && PrefixSafe(tail)
    ensures ColonAfter([n[0]] + tail, n) && PrefixSafe([n[0]] + tail)
  {
    hide Clean, PrefixSafe;
    var q := [n[0]] + tail;
    assert q[|q| - 1] == tail[|tail| - 1];
    assert n == [n[0]] + n[1..] && q[..|q| - 1] == [n[0]] + tail[..|tail| - 1];
    assert q[1..] == tail;
    NoEscapeBeforeColon(q, n);
    SafeClean(tail);
    ColonSafe(q);
  }

  lemma SafeClean(q: string)
    requires PrefixSafe(q)
    ensures Clean(q)
  {
  }

  // A name that does not start with the escape has no prefix that, with a colon more, does.
  lemma NoEscapeBeforeColon(q: string, n: string)
    requires ColonAfter(q, n) && !(ESCAPED <= n)
    ensures !(ESCAPED <= q)
  {
    EscapedChars(q);
    EscapedChars(n);
    assert forall i | 0 <= i < |q| - 1 :: q[i] == q[..|q| - 1][i] == n[i];
  }

  lemma ColonSafe(q: string)
    requires q != "" && q[|q| - 1] == ':' && !(ESCAPED <= q) && Clean(q[1..])
    ensures PrefixSafe(q)
  {
  }

  /* ---- the keys ---- */

  function OffsetToken(off: int): (r: string)
    ensures ':' !in r
  {
    if off < 0 then "-" + ZeroPad(Dec(-off), 7) else ZeroPad(Dec(off), 8)
  }

  lemma OffsetInjective(a: int, b: int)
    requires OffsetToken(a) == OffsetToken(b)
    ensures a == b
  {
    var pa, pb := if a < 0 then -a else a, if b < 0 then -b else b;
    var wa, wb := if a < 0 then 7 else 8, if b < 0 then 7 else 8;
    assert ZeroPad(Dec(pa), wa)[0] != '-' && ZeroPad(Dec(pb), wb)[0] != '-';
    assert a < 0 <==> b < 0;
    if a < 0 {
      assert OffsetToken(a)[1..] == ZeroPad(Dec(pa), 7) && OffsetToken(b)[1..] == ZeroPad(Dec(pb), 7);
    }
    ParseZeroPad(Dec(pa), wa);
    ParseZeroPad(Dec(pb), wb);
    ParseDec(pa);
    ParseDec(pb);
  }

  // Eight digits keep source order in the key order up to 10^8.
  lemma OffsetOrder(a: nat, b: nat)
    requires a < 100_000_000 && b < 100_000_000
    ensures LexLess(OffsetToken(a), OffsetToken(b)) <==> a < b
  {
    assert Pow10(8) == 100_000_000;
    DecLength(a, 8);
    DecLength(b, 8);
    LexIsNumeric(ZeroPad(Dec(a), 8), ZeroPad(Dec(b), 8));
    ParseZeroPad(Dec(a), 8);
    ParseZeroPad(Dec(b), 8);
    ParseDec(a);
    ParseDec(b);
  }

  // Beyond that the order breaks: a ninth digit sorts by its leading one.
  lemma OffsetOrderBreaks()
    ensures LexLess(OffsetToken(100_000_000), OffsetToken(99_999_999))
  {
    assert OffsetToken(100_000_000)[0] == '1';
    assert OffsetToken(99_999_999)[0] == '9';
  }

  // The bound is exact: all offsets below n sort in source order if and only if n is at most 10^8.
  lemma OffsetOrderExactly(n: nat)
    ensures (forall a: nat, b: nat | a < n && b < n :: LexLess(OffsetToken(a), OffsetToken(b)) <==> a < b)
            <==> n <= 100_000_000
  {
    hide OffsetToken, LexLess;
    if n <= 100_000_000 {
      forall a: nat, b: nat | a < n && b < n ensures LexLess(OffsetToken(a), OffsetToken(b)) <==> a < b {
        OffsetOrder(a, b);
      }
    } else {
      OffsetOrderBreaks();
    }
  }

  // Components separated by colons.
  function Join(parts: seq<string>): string
    requires parts != []
  {
    if |parts| == 1 then parts[0] else parts[0] + ":" + Join(parts[1..])
  }

  predicate ColonFree(parts: seq<string>) {
    forall i | 0 <= i < |parts| :: ':' !in parts[i]
  }

  lemma {:induction false} JoinInjective(ps: seq<string>, qs: seq<string>)
    requires |ps| == |qs| > 0 && ColonFree(ps) && ColonFree(qs)
    requires Join(ps) == Join(qs)
    ensures ps == qs
  {
    if |ps| == 1 {
      assert ps == [ps[0]] && qs == [qs[0]];
    } else {
      CutUnique(ps[0], Join(ps[1..]), qs[0], Join(qs[1..]));
      JoinInjective(ps[1..], qs[1..]);
      assert ps == [ps[0]] + ps[1..] && qs == [qs[0]] + qs[1..];
    }
  }

  lemma JoinExact(family: string, ps: seq<string>, qs: seq<string>)
    requires |ps| == |qs| > 0 && ColonFree(ps) && ColonFree(qs)
    ensures family + Join(ps) == family + Join(qs) <==> ps == qs
  {
    if family + Join(ps) == family + Join(qs) {
      assert (family + Join(ps))[|family|..] == Join(ps) && (family + Join(qs))[|family|..] == Join(qs);
      JoinInjective(ps, qs);
    }
  }

  // Where a declaration sits: repository, file and start byte.
  function Place(r: SymbolRecord): seq<string> { [Esc(r.repo), Esc(r.file), OffsetToken(r.startByte)] }

  function PrimaryParts(r: SymbolRecord): seq<string> {
    [Esc(r.repo), Esc(r.file), Esc(r.kind), Esc(r.name), OffsetToken(r.startByte)]
  }

  function PrimaryKey(r: SymbolRecord): string { SYM + Join(PrimaryParts(r)) }

  function NameKey(n: string, r: SymbolRecord): string { NAME + Join([Esc(n)] + Place(r)) }

  function TypeKey(n: string, r: SymbolRecord): string { TYPE + Join([Esc(r.kind), Esc(n)] + Place(r)) }

  function FileKey(r: SymbolRecord): string { FILE + Join(Place(r)) }

  function RepoPrefix(repo: string): string { SYM + Esc(repo) + ":" }

  lemma JoinThree(a: string, b: string, c: string)
    ensures Join([a, b, c]) == a + ":" + (b + ":" + c)
  {
    assert [a, b, c][1..] == [b, c] && [b, c][1..] == [c];
    assert Join([c]) == c;
    assert Join([b, c]) == b + ":" + c;
  }

  lemma JoinMore(a: string, parts: seq<string>)
    requires parts != []
    ensures Join([a] + parts) == a + ":" + Join(parts)
  {
    assert ([a] + parts)[1..] == parts;
  }

  // The four layouts, component by component.
  lemma KeyLayouts(n: string, r: SymbolRecord)
    ensures PrimaryKey(r) == "sym:" + (Esc(r.repo) + ":" + (Esc(r.file) + ":" + (Esc(r.kind) + ":" + (Esc(r.name) + ":"
                                       + OffsetToken(r.startByte)))))
    ensures NameKey(n, r) == "idx:name:" + (Esc(n) + ":" + (Esc(r.repo) + ":" + (Esc(r.file) + ":"
                                            + OffsetToken(r.startByte))))
    ensures TypeKey(n, r) == "idx:type:" + (Esc(r.kind) + ":" + (Esc(n) + ":" + (Esc(r.repo) + ":" + (Esc(r.file) + ":"
                                            + OffsetToken(r.startByte)))))
    ensures FileKey(r) == "idx:file:" + (Esc(r.repo) + ":" + (Esc(r.file) + ":" + OffsetToken(r.startByte)))
  {
    hide Esc, OffsetToken, Join;
    var place, token := Place(r), OffsetToken(r.startByte);
    JoinThree(Esc(r.repo), Esc(r.file), token);
    JoinMore(Esc(n), place);
    JoinMore(Esc(r.kind), [Esc(n)] + place);
    assert [Esc(r.kind)] + ([Esc(n)] + place) == [Esc(r.kind), Esc(n)] + place;
    JoinThree(Esc(r.kind), Esc(r.name), token);
    JoinMore(Esc(r.file), [Esc(r.kind), Esc(r.name), token]);
    JoinMore(Esc(r.repo), [Esc(r.file)] + [Esc(r.kind), Esc(r.name), token]);
    assert [Esc(r.repo)] + ([Esc(r.file)] + [Esc(r.kind), Esc(r.name), token]) == PrimaryParts(r);
  }

  /* ---- what a key determines ---- */

  predicate SamePlace(a: SymbolRecord, b: SymbolRecord) {
    Unesc(a.repo) == Unesc(b.repo) && Unesc(a.file) == Unesc(b.file) && a.startByte == b.startByte
  }

  lemma PlaceIdentity(a: SymbolRecord, b: SymbolRecord)
    ensures Place(a) == Place(b) <==> SamePlace(a, b)
  {
    EscCollision(a.repo, b.repo);
    EscCollision(a.file, b.file);
    if Place(a) == Place(b) {
      assert Place(a)[0] == Place(b)[0] && Place(a)[1] == Place(b)[1] && Place(a)[2] == Place(b)[2];
      OffsetInjective(a.startByte, b.startByte);
    }
  }

  lemma PrimaryKeyIdentity(a: SymbolRecord, b: SymbolRecord)
    ensures PrimaryKey(a) == PrimaryKey(b) <==>
            SamePlace(a, b) && Unesc(a.kind) == Unesc(b.kind) && Unesc(a.name) == Unesc(b.name)
  {
    PlaceIdentity(a, b);
    EscCollision(a.kind, b.kind);
    EscCollision(a.name, b.name);
    var pa, pb := PrimaryParts(a), PrimaryParts(b);
    JoinExact(SYM, pa, pb);
    assert pa == pb <==> pa[0] == pb[0] && pa[1] == pb[1] && pa[2] == pb[2] && pa[3] == pb[3] && pa[4] == pb[4];
  }

  lemma NameKeyIdentity(m: string, a: SymbolRecord, n: string, b: SymbolRecord)
    ensures NameKey(m, a) == NameKey(n, b) <==> SamePlace(a, b) && Unesc(m) == Unesc(n)
  {
    hide Join, Esc, Unesc, SamePlace;
    PlaceIdentity(a, b);
    EscCollision(m, n);
    JoinHead(NAME, Esc(m), Place(a), Esc(n), Place(b));
  }

  lemma TypeKeyIdentity(m: string, a: SymbolRecord, n: string, b: SymbolRecord)
    ensures TypeKey(m, a) == TypeKey(n, b) <==>
            SamePlace(a, b) && Unesc(a.kind) == Unesc(b.kind) && Unesc(m) == Unesc(n)
  {
    hide Join, Esc, Unesc, SamePlace;
    PlaceIdentity(a, b);
    EscCollision(a.kind, b.kind);
    EscCollision(m, n);
    JoinTwoHeads(TYPE, Esc(a.kind), Esc(m), Place(a), Esc(b.kind), Esc(n), Place(b));
  }

  lemma JoinHead(family: string, x: string, p: seq<string>, y: string, q: seq<string>)
    requires |p| == |q| > 0 && ColonFree(p) && ColonFree(q) && ':' !in x && ':' !in y
    ensures family + Join([x] + p) == family + Join([y] + q) <==> x == y && p == q
  {
    assert ([x] + p)[0] == x && ([x] + p)[1..] == p && ([y] + q)[0] == y && ([y] + q)[1..] == q;
    JoinExact(family, [x] + p, [y] + q);
  }

  lemma JoinTwoHeads(family: string, w: string, x: string, p: seq<string>, v: string, y: string, q: seq<string>)
    requires |p| == |q| > 0 && ColonFree(p) && ColonFree(q) && ColonFree([w, x, v, y])
    ensures family + Join([w, x] + p) == family + Join([v, y] + q) <==> w == v && x == y && p == q
  {
    assert ':' !in [w, x, v, y][0] && ':' !in [w, x, v, y][1] && ':' !in [w, x, v, y][2] && ':' !in [w, x, v, y][3];
    assert ([w, x] + p)[0] == w && ([w, x] + p)[1] == x && ([w, x] + p)[2..] == p;
    assert ([v, y] + q)[0] == v && ([v, y] + q)[1] == y && ([v, y] + q)[2..] == q;
    JoinExact(family, [w, x] + p, [v, y] + q);
  }

  lemma FileKeyIdentity(a: SymbolRecord, b: SymbolRecord)
    ensures FileKey(a) == FileKey(b) <==> SamePlace(a, b)
  {
    PlaceIdentity(a, b);
    JoinExact(FILE, Place(a), Place(b));
  }

  // The four families never share a key: each key starts with its own family's prefix.
  lemma Families(n: string, r: SymbolRecord)
    ensures SYM <= PrimaryKey(r) && NAME <= NameKey(n, r) && TYPE <= TypeKey(n, r) && FILE <= FileKey(r)
    ensures IDX <= NameKey(n, r) && IDX <= TypeKey(n, r) && IDX <= FileKey(r)
  {
  }

  lemma PrefixesApart(k: string)
    ensures !(SYM <= k && IDX <= k)
    ensures NAME <= k || TYPE <= k || FILE <= k ==> IDX <= k
    ensures !(NAME <= k && TYPE <= k) && !(NAME <= k && FILE <= k) && !(TYPE <= k && FILE <= k)
  {
    assert SYM <= k ==> k[0] == 's';
    assert IDX <= k ==> k[0] == 'i';
    assert NAME[..4] == TYPE[..4] == FILE[..4] == IDX;
    assert NAME <= k ==> k[4] == 'n' && k[..4] == NAME[..4];
    assert TYPE <= k ==> k[4] == 't' && k[..4] == TYPE[..4];
    assert FILE <= k ==> k[4] == 'f' && k[..4] == FILE[..4];
  }

  // A scan prefix ending in a colon pins the component before it.
  lemma PinnedComponent(family: string, c: string, d: string, tail: string, rest: string)
    requires ':' !in c && ':' !in d
    ensures family + c + ":" + tail <= family + (d + ":" + rest) <==> c == d && tail <= rest
  {
    var p, k := c + ":" + tail, d + ":" + rest;
    assert family + c + ":" + tail == family + p;
    PrefixStrip(family, p, k);
    if p <= k {
      assert k == c + ":" + (tail + k[|p|..]);
      CutUnique(c, tail + k[|p|..], d, rest);
    }
    if c == d {
      assert p == (c + ":") + tail && k == (c + ":") + rest;
      PrefixStrip(c + ":", tail, rest);
    }
  }

  // "sym:<repo>:" selects exactly the primary keys of that repository.
  lemma RepoPrefixSelects(repo: string, r: SymbolRecord)
    ensures RepoPrefix(repo) <= PrimaryKey(r) <==> Unesc(repo) == Unesc(r.repo)
  {
    var rest := Join(PrimaryParts(r)[1..]);
    assert Join(PrimaryParts(r)) == Esc(r.repo) + ":" + rest;
    EscCollision(repo, r.repo);
    PinnedComponent(SYM, Esc(repo), Esc(r.repo), "", rest);
    assert RepoPrefix(repo) == SYM + Esc(repo) + ":" + "";
  }

  /* ---- reading a key back ---- */

  // The identifier component of a secondary key.
  function MatchedName(key: string, typed: bool): Option<string> {
    if typed && TYPE <= key then
      match CutColon(key[|TYPE|..])
      case None => None
      case Some(p) => Component(p.1)
    else if !typed && NAME <= key then Component(key[|NAME|..])
    else None
  }

  function Component(rest: string): Option<string> {
    match CutColon(rest)
    case None => None
    case Some(p) => Some(Unesc(p.0))
  }

  lemma MatchedNameOfKey(n: string, r: SymbolRecord)
    ensures MatchedName(NameKey(n, r), false) == Some(Unesc(n))
    ensures MatchedName(TypeKey(n, r), true) == Some(Unesc(n))
  {
    var body := NameBody(n, r);
    CutColonAt(Esc(n), Join(Place(r)));
    assert NameKey(n, r)[|NAME|..] == body;
    CutColonAt(Esc(r.kind), body);
    assert TypeKey(n, r)[|TYPE|..] == Esc(r.kind) + ":" + body;
    UnescEsc(n);
  }

  lemma NameBody(n: string, r: SymbolRecord) returns (body: string)
    ensures body == Esc(n) + ":" + Join(Place(r))
    ensures NameKey(n, r) == NAME + body
    ensures TypeKey(n, r) == TYPE + (Esc(r.kind) + ":" + body)
  {
    body := Esc(n) + ":" + Join(Place(r));
    var ps := [Esc(n)] + Place(r);
    assert ps[1..] == Place(r) && |ps| == 4;
    var qs := [Esc(r.kind), Esc(n)] + Place(r);
    assert qs[1..] == ps && |qs| == 5;
  }

  // A scan prefix for query q selects the keys whose escaped name starts with the escaped q.
  lemma NamePrefixSelects(q: string, n: string, r: SymbolRecord)
    ensures NAME + Esc(q) <= NameKey(n, r) <==> Esc(q) <= Esc(n)
  {
    var body := NameBody(n, r);
    PrefixStrip(NAME, Esc(q), body);
    PrefixBeforeColon(Esc(q), Esc(n), Join(Place(r)));
  }

  lemma TypePrefixSelects(t: string, q: string, n: string, r: SymbolRecord)
    ensures TYPE + Esc(t) + ":" + Esc(q) <= TypeKey(n, r) <==> Unesc(t) == Unesc(r.kind) && Esc(q) <= Esc(n)
  {
    var body := NameBody(n, r);
    EscCollision(t, r.kind);
    PinnedComponent(TYPE, Esc(t), Esc(r.kind), Esc(q), body);
    PrefixBeforeColon(Esc(q), Esc(n), Join(Place(r)));
  }

  lemma PrefixBeforeColon(q: string, n: string, rest: string)
    requires ':' !in q
    ensures q <= n + ":" + rest <==> q <= n
  {
    var body := n + ":" + rest;
    assert body[|n|] == ':' && body[..|n|] == n;
    assert forall i :: 0 <= i < |q| ==> q[i] != ':';
    assert q <= body ==> |q| <= |n|;
    if |q| <= |n| {
      assert body[..|q|] == n[..|q|];
    }
  }
}
