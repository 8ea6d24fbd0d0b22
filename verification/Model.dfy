/** internal/ast/model.go: the persisted record, its validation and its fingerprint. */
module Model {
  import opened Text

  const SYMBOL_TYPES := ["function", "method", "struct", "interface", "macro",
                         "macro_function", "enum", "typedef", "constant", "type_alias"]
  const LANGUAGES := ["c", "go"]

  predicate OneOf(s: string, options: seq<string>) {
    options != [] && (s == options[0] || OneOf(s, options[1..]))
  }

  datatype SymbolRecord = SymbolRecord(
    repo: string, file: string, language: string, kind: string, name: string,
    aliases: seq<string>, parentScope: string,
    startByte: int, endByte: int, startLine: int, endLine: int,
    documentation: string, signature: string, source: string)

  datatype RecordError =
    | MissingRepo | MissingFile | MissingName | UnsupportedLanguage | UnsupportedType
    | MissingSource | InvertedBytes | InvertedLines

  function Validate(r: SymbolRecord): Option<RecordError> {
    if Blank(r.repo) then Some(MissingRepo)
    else if Blank(r.file) then Some(MissingFile)
    else if Blank(r.name) then Some(MissingName)
    else if !OneOf(r.language, LANGUAGES) then Some(UnsupportedLanguage)
    else if !OneOf(r.kind, SYMBOL_TYPES) then Some(UnsupportedType)
    else if Blank(r.source) then Some(MissingSource)
    else if r.startByte < 0 || r.endByte < r.startByte then Some(InvertedBytes)
    else if r.startLine <= 0 || r.endLine < r.startLine then Some(InvertedLines)
    else None
  }

  predicate Acceptable(r: SymbolRecord) { Validate(r).None? }

  lemma {:induction false} OneOfExactly(s: string, options: seq<string>)
    ensures OneOf(s, options) <==> s in options
  {
    if options != [] {
      OneOfExactly(s, options[1..]);
      assert options == [options[0]] + options[1..];
    }
  }

  // The errors in the order in which they are looked for.
  const ERRORS := [MissingRepo, MissingFile, MissingName, UnsupportedLanguage,
                   UnsupportedType, MissingSource, InvertedBytes, InvertedLines]

  // What is wrong with a record, one condition for each error.
  function Faults(r: SymbolRecord): seq<bool> {
    [TrimSpace(r.repo) == "", TrimSpace(r.file) == "", TrimSpace(r.name) == "", r.language !in {"c", "go"},
     r.kind !in {"function", "method", "struct", "interface", "macro",
                 "macro_function", "enum", "typedef", "constant", "type_alias"},
     TrimSpace(r.source) == "", !(0 <= r.startByte <= r.endByte), !(1 <= r.startLine <= r.endLine)]
  }

  // A record is rejected for the first of its faults, and accepted exactly when it has none.
  lemma ValidateExactly(r: SymbolRecord)
    ensures |ERRORS| == |Faults(r)|
    ensures Acceptable(r) <==> forall i | 0 <= i < |Faults(r)| :: !Faults(r)[i]
    ensures forall i | 0 <= i < |ERRORS| ::
              Validate(r) == Some(ERRORS[i]) <==> Faults(r)[i] && forall j | 0 <= j < i :: !Faults(r)[j]
  {
    hide OneOf, TrimSpace, Blank;
    BlankExactly(r.repo);
    BlankExactly(r.file);
    BlankExactly(r.name);
    BlankExactly(r.source);
    OneOfExactly(r.language, LANGUAGES);
    OneOfExactly(r.kind, SYMBOL_TYPES);
    assert r.language in LANGUAGES <==> r.language in {"c", "go"};
    var f := Faults(r);
    assert r.kind in SYMBOL_TYPES <==> !f[4];
    forall i | 0 <= i < 8 ensures Validate(r) == Some(ERRORS[i]) <==> f[i] && forall j | 0 <= j < i :: !f[j] {
      FirstFault(r, f, i);
    }
    assert Acceptable(r) <==> !(f[0] || f[1] || f[2] || f[3] || f[4] || f[5] || f[6] || f[7]);
  }

  lemma FirstFault(r: SymbolRecord, f: seq<bool>, i: nat)
    requires |f| == 8 && i < 8
    requires f == [Blank(r.repo), Blank(r.file), Blank(r.name), !OneOf(r.language, LANGUAGES),
                   !OneOf(r.kind, SYMBOL_TYPES), Blank(r.source), r.startByte < 0 || r.endByte < r.startByte,
                   r.startLine <= 0 || r.endLine < r.startLine]
    ensures Validate(r) == Some(ERRORS[i]) <==> f[i] && forall j | 0 <= j < i :: !f[j]
  {
    hide OneOf, Blank;
    assert Validate(r) == if f[0] then Some(ERRORS[0]) else if f[1] then Some(ERRORS[1])
                          else if f[2] then Some(ERRORS[2]) else if f[3] then Some(ERRORS[3])
                          else if f[4] then Some(ERRORS[4]) else if f[5] then Some(ERRORS[5])
                          else if f[6] then Some(ERRORS[6]) else if f[7] then Some(ERRORS[7]) else None;
    assert forall j, k | 0 <= j < k < 8 :: ERRORS[j] != ERRORS[k];
  }

  /* ---- the bytes fed to the hash ---- */

  // Width of one scalar in UTF-8; Go's len counts bytes.
  function Utf8Width(c: char): nat {
    var u := c as int;
    if u < 0x80 then 1 else if u < 0x800 then 2 else if u < 0x1_0000 then 3 else 4
  }

  // One more byte is needed from 2^7, 2^11 and 2^16 on, section 3 of RFC 3629.
  lemma Utf8WidthExactly(c: char)
    ensures Utf8Width(c) <= 1 <==> c as int < 128
    ensures Utf8Width(c) <= 2 <==> c as int < 2048
    ensures Utf8Width(c) <= 3 <==> c as int < 65536
    ensures 1 <= Utf8Width(c) <= 4
  {
  }

  function ByteLen(s: string): nat {
    if s == "" then 0 else Utf8Width(s[0]) + ByteLen(s[1..])
  }

  function Parts(r: SymbolRecord): seq<string> {
    [r.repo, r.file, r.language, r.kind, r.name, r.parentScope,
     r.documentation, r.signature, r.source] + r.aliases
  }

  function Frame(part: string): string { Dec(ByteLen(part)) + ":" + part }

  function Frames(parts: seq<string>): string {
    if parts == [] then "" else Frame(parts[0]) + Frames(parts[1..])
  }

  function Tail(r: SymbolRecord): string {
    IntDec(r.startByte) + ":" + (IntDec(r.endByte) + ":" + (IntDec(r.startLine) + ":" + IntDec(r.endLine)))
  }

  /** What Fingerprint hashes.  SHA-256 is taken to be collision free, so comparing two
      digests is comparing two streams. */
  function Stream(r: SymbolRecord): string { Frames(Parts(r)) + Tail(r) }

  lemma {:induction false} FramesSnoc(parts: seq<string>, p: string)
    ensures Frames(parts + [p]) == Frames(parts) + Frame(p)
  {
    if parts == [] {
      assert parts + [p] == [p];
      assert Frames([p]) == Frame(p) + Frames([]);
    } else {
      assert (parts + [p])[1..] == parts[1..] + [p];
      FramesSnoc(parts[1..], p);
    }
  }

  method Fingerprint(r: SymbolRecord) returns (hashed: string)
    ensures hashed == Stream(r)
  {
    var parts := [r.repo, r.file, r.language, r.kind, r.name, r.parentScope,
                  r.documentation, r.signature, r.source];
    parts := parts + r.aliases;
    hashed := "";
    for i := 0 to |parts|
      invariant hashed == Frames(parts[..i])
    {
      FramesSnoc(parts[..i], parts[i]);
      assert parts[..i + 1] == parts[..i] + [parts[i]];
      hashed := hashed + (Dec(ByteLen(parts[i])) + ":" + parts[i]);
    }
    assert parts[..|parts|] == parts == Parts(r);
    hashed := hashed + (IntDec(r.startByte) + ":" + (IntDec(r.endByte) + ":" +
                       (IntDec(r.startLine) + ":" + IntDec(r.endLine))));
  }

  /* ---- the stream determines the record ---- */

  function Colons(s: string): nat {
    if s == "" then 0 else (if s[0] == ':' then 1 else 0) + Colons(s[1..])
  }

  lemma {:induction false} ColonsConcat(a: string, b: string)
    ensures Colons(a + b) == Colons(a) + Colons(b)
  {
    if a == "" {
      assert a + b == b;
    } else {
      assert (a + b)[1..] == a[1..] + b;
      ColonsConcat(a[1..], b);
    }
  }

  lemma {:induction false} NoColons(s: string)
    requires ':' !in s
    ensures Colons(s) == 0
  {
    if s != "" {
      NoColons(s[1..]);
    }
  }

  lemma ColonsJoin(a: string, b: string)
    requires ':' !in a
    ensures Colons(a + ":" + b) == 1 + Colons(b)
  {
    ColonsConcat(a + ":", b);
    ColonsConcat(a, ":");
    NoColons(a);
  }

  lemma TailColons(r: SymbolRecord)
    ensures Colons(Tail(r)) == 3
  {
    var c := IntDec(r.startLine) + ":" + IntDec(r.endLine);
    NoColons(IntDec(r.endLine));
    ColonsJoin(IntDec(r.startLine), IntDec(r.endLine));
    ColonsJoin(IntDec(r.endByte), c);
    ColonsJoin(IntDec(r.startByte), IntDec(r.endByte) + ":" + c);
  }

  // Two heads of one string with equal byte lengths are the same head.
  lemma {:induction false} ByteLenHead(p: string, q: string, x: string, y: string)
    requires p + x == q + y && ByteLen(p) == ByteLen(q)
    ensures p == q && x == y
  {
    if p == "" || q == "" {
      assert p == q == "";
      assert p + x == x && q + y == y;
    } else {
      assert p[0] == (p + x)[0] == (q + y)[0] == q[0];
      assert p[1..] + x == (p + x)[1..] == (q + y)[1..] == q[1..] + y;
      ByteLenHead(p[1..], q[1..], x, y);
      assert p == [p[0]] + p[1..] && q == [q[0]] + q[1..];
    }
  }

  lemma FramePeel(p: string, q: string, x: string, y: string)
    requires Frame(p) + x == Frame(q) + y
    ensures p == q && x == y
  {
    var m, n := Dec(ByteLen(p)), Dec(ByteLen(q));
    assert m + ":" + (p + x) == Frame(p) + x == Frame(q) + y == n + ":" + (q + y);
    CutUnique(m, p + x, n, q + y);
    ParseDec(ByteLen(p));
    ParseDec(ByteLen(q));
    ByteLenHead(p, q, x, y);
  }

  // The number of frames is not encoded.  It is recovered because what follows the frames
  // has exactly three colons, and one more frame would add at least one.
  lemma {:induction false} FramesPeel(ps: seq<string>, qs: seq<string>, x: string, y: string)
    requires Frames(ps) + x == Frames(qs) + y
    requires Colons(x) == Colons(y)
    ensures ps == qs && x == y
  {
    if ps != [] && qs != [] {
      var u, v := Frames(ps[1..]) + x, Frames(qs[1..]) + y;
      assert Frame(ps[0]) + u == Frames(ps) + x == Frames(qs) + y == Frame(qs[0]) + v;
      FramePeel(ps[0], qs[0], u, v);
      FramesPeel(ps[1..], qs[1..], x, y);
      assert ps == [ps[0]] + ps[1..] && qs == [qs[0]] + qs[1..];
    } else {
      FramesColons(ps, x);
      FramesColons(qs, y);
      assert Frames([]) + x == x && Frames([]) + y == y;
    }
  }

  lemma FramesColons(ps: seq<string>, x: string)
    ensures ps != [] ==> Colons(Frames(ps) + x) > Colons(x)
  {
    if ps != [] {
      var n := Dec(ByteLen(ps[0]));
      assert Frames(ps) + x == n + ":" + (ps[0] + Frames(ps[1..]) + x);
      ColonsJoin(n, ps[0] + Frames(ps[1..]) + x);
      ColonsConcat(ps[0] + Frames(ps[1..]), x);
    }
  }

  // Equal hash input, equal record: for every pair of records, any number of aliases.
  lemma StreamInjective(a: SymbolRecord, b: SymbolRecord)
    requires Stream(a) == Stream(b)
    ensures a == b
  {
    TailColons(a);
    TailColons(b);
    FramesPeel(Parts(a), Parts(b), Tail(a), Tail(b));
    var pa, pb := Parts(a), Parts(b);
    assert pa[9..] == a.aliases && pb[9..] == b.aliases;
    assert forall i :: 0 <= i < 9 ==> pa[i] == pb[i];
    assert pa[0] == a.repo && pa[1] == a.file && pa[2] == a.language && pa[3] == a.kind && pa[4] == a.name;
    assert pa[5] == a.parentScope && pa[6] == a.documentation && pa[7] == a.signature && pa[8] == a.source;
    assert pb[0] == b.repo && pb[1] == b.file && pb[2] == b.language && pb[3] == b.kind && pb[4] == b.name;
    assert pb[5] == b.parentScope && pb[6] == b.documentation && pb[7] == b.signature && pb[8] == b.source;
    TailInjective(a, b);
  }

  lemma TailInjective(a: SymbolRecord, b: SymbolRecord)
    requires Tail(a) == Tail(b)
    ensures a.startByte == b.startByte && a.endByte == b.endByte
    ensures a.startLine == b.startLine && a.endLine == b.endLine
  {
    var a3, b3 := IntDec(a.startLine) + ":" + IntDec(a.endLine), IntDec(b.startLine) + ":" + IntDec(b.endLine);
    CutUnique(IntDec(a.startByte), IntDec(a.endByte) + ":" + a3, IntDec(b.startByte), IntDec(b.endByte) + ":" + b3);
    CutUnique(IntDec(a.endByte), a3, IntDec(b.endByte), b3);
    CutUnique(IntDec(a.startLine), IntDec(a.endLine), IntDec(b.startLine), IntDec(b.endLine));
    IntDecInjective(a.startByte, b.startByte);
    IntDecInjective(a.endByte, b.endByte);
    IntDecInjective(a.startLine, b.startLine);
    IntDecInjective(a.endLine, b.endLine);
  }
}
