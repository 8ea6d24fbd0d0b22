/** internal/lsp/protocol.go: filesystem paths as file:// URIs and back.

    Strings here are byte strings, one character per byte, and the separator is "/". */
module Uri {
  import opened Text

  predicate Bytes(s: string) { forall i | 0 <= i < |s| :: s[i] as int < 256 }

  /* ---- percent-encoding, section 2.1 of RFC 3986 ---- */

  function HexDigit(n: nat): char
    requires n < 16
  {
    if n < 10 then (48 + n) as char else (55 + n) as char
  }

  function HexValue(c: char): Option<nat> {
    if '0' <= c <= '9' then Some(c as nat - 48)
    else if 'A' <= c <= 'F' then Some(c as nat - 55)
    else if 'a' <= c <= 'f' then Some(c as nat - 87)
    else None
  }

  // The bytes url.PathEscape leaves alone.
  predicate Plain(c: char) {
    Letter(c) || IsDigit(c) || c == '-' || c == '_' || c == '.' || c == '~'
    || c == '$' || c == '&' || c == '+' || c == '=' || c == ':' || c == '@'
  }

  function EscapeByte(c: char): string
    requires c as int < 256
  {
    if Plain(c) then [c] else ['%', HexDigit(c as nat / 16), HexDigit(c as nat % 16)]
  }

  function PathEscape(segment: string): string
    requires Bytes(segment)
  {
    if segment == "" then "" else EscapeByte(segment[0]) + PathEscape(segment[1..])
  }

  // url's unescape for paths and fragments; None is a malformed escape.
  function Unescape(s: string): Option<string> {
    if s == "" then Some("")
    else if s[0] != '%' then
      var rest := Unescape(s[1..]);
      if rest.Some? then Some([s[0]] + rest.value) else None
    else if |s| < 3 || HexValue(s[1]).None? || HexValue(s[2]).None? then None
    else
      var rest := Unescape(s[3..]);
      if rest.Some? then Some([(16 * HexValue(s[1]).value + HexValue(s[2]).value) as char] + rest.value) else None
  }

  const HEX := "0123456789ABCDEF"
  const UNESCAPED := UPPER + LOWER + "0123456789" + "-_.~$&+=:@"

  // Which bytes are escaped, and how: a percent sign and two hexadecimal digits.
  lemma EscapeByteExactly(c: char)
    requires c as int < 256
    ensures EscapeByte(c) == if c in UNESCAPED then [c] else ['%', HEX[c as int / 16], HEX[c as int % 16]]
  {
    assert forall n: nat | n < 16 :: HEX[n] == HexDigit(n);
    PlainExactly(c);
  }

  lemma PlainExactly(c: char)
    ensures Plain(c) <==> c in UNESCAPED
  {
    hide UPPER, LOWER, Letter, IsDigit;
    LetterExactly(c);
    DigitExactly(c);
  }

  /* ---- PathToURI ---- */

  // On Unix ToSlash changes nothing; a path that is not rooted gains a slash.
  function Slashed(path: string): string { if path != "" && path[0] == '/' then path else "/" + path }

  // Every byte but the separator is escaped.
  function EscapePath(p: string): string
    requires Bytes(p)
  {
    if p == "" then "" else (if p[0] == '/' then "/" else EscapeByte(p[0])) + EscapePath(p[1..])
  }

  const FILE := "file://"

  function PathURI(path: string): string
    requires Bytes(path)
  {
    FILE + EscapePath(Slashed(path))
  }

  function Split(s: string): (r: seq<string>)
    ensures |r| > 0
  {
    if s == "" then [""]
    else if s[0] == '/' then [""] + Split(s[1..])
    else var r := Split(s[1..]); [[s[0]] + r[0]] + r[1..]
  }

  function Join(segments: seq<string>): string
    requires segments != []
  {
    if |segments| == 1 then segments[0] else segments[0] + "/" + Join(segments[1..])
  }

  predicate Segment(s: string) { Bytes(s) && '/' !in s }

  lemma {:induction false} JoinSplit(s: string)
    requires Bytes(s)
    ensures Join(Split(s)) == s && forall i | 0 <= i < |Split(s)| :: Segment(Split(s)[i])
  {
    if s != "" {
      JoinSplit(s[1..]);
      var r := Split(s[1..]);
      if s[0] == '/' {
        assert ([""] + r)[1..] == r;
      } else if |r| > 1 {
        assert Split(s)[1..] == r[1..];
        assert [s[0]] + (r[0] + "/" + Join(r[1..])) == ([s[0]] + r[0]) + "/" + Join(r[1..]);
      }
    }
  }

  lemma {:induction false} JoinSnoc(segments: seq<string>, s: string)
    requires segments != []
    ensures Join(segments + [s]) == Join(segments) + "/" + s
  {
    if |segments| == 1 {
      assert (segments + [s])[1..] == [s];
    } else {
      assert (segments + [s])[1..] == segments[1..] + [s];
      JoinSnoc(segments[1..], s);
      assert segments[0] + "/" + (Join(segments[1..]) + "/" + s) == (segments[0] + "/" + Join(segments[1..])) + "/" + s;
    }
  }

  lemma {:induction false} EscapePathAppend(a: string, b: string)
    requires Bytes(a) && Bytes(b)
    ensures EscapePath(a + b) == EscapePath(a) + EscapePath(b)
  {
    if a == "" {
      assert a + b == b;
    } else {
      assert (a + b)[1..] == a[1..] + b;
      EscapePathAppend(a[1..], b);
    }
  }

  lemma {:induction false} SegmentEscape(s: string)
    requires Segment(s)
    ensures PathEscape(s) == EscapePath(s)
  {
    if s != "" {
      SegmentEscape(s[1..]);
    }
  }

  // What the loop has written after i segments.
  function Written(segments: seq<string>, i: nat): string
    requires i <= |segments| && forall k | 0 <= k < |segments| :: Segment(segments[k])
  {
    if i == 0 then FILE else Written(segments, i - 1) + (if i > 1 then "/" else "") + PathEscape(segments[i - 1])
  }

  lemma {:induction false} JoinBytes(segments: seq<string>)
    requires segments != [] && forall k | 0 <= k < |segments| :: Segment(segments[k])
    ensures Bytes(Join(segments))
  {
    if |segments| > 1 {
      JoinBytes(segments[1..]);
    }
  }

  lemma JoinOne(s: string)
    ensures Join([s]) == s
  {
  }

  lemma EscapeSlash()
    ensures EscapePath("/") == "/"
  {
    assert "/"[1..] == "";
  }

  lemma {:induction false} WrittenIsEscaped(segments: seq<string>, i: nat)
    requires 1 <= i <= |segments| && forall k | 0 <= k < |segments| :: Segment(segments[k])
    ensures Bytes(Join(segments[..i])) && Written(segments, i) == FILE + EscapePath(Join(segments[..i]))
  {
    hide EscapePath, PathEscape, Join;
    var s := segments[i - 1];
    assert Segment(s);
    JoinBytes(segments[..i]);
    SegmentEscape(s);
    if i == 1 {
      JoinOne(s);
      assert segments[..1] == [s];
      assert Written(segments, 0) == FILE;
    } else {
      WrittenIsEscaped(segments, i - 1);
      var before := Join(segments[..i - 1]);
      assert segments[..i] == segments[..i - 1] + [s];
      JoinSnoc(segments[..i - 1], s);
      EscapePathAppend(before, "/");
      EscapePathAppend(before + "/", s);
      EscapeSlash();
      assert Join(segments[..i]) == (before + "/") + s;
    }
  }

  // The loop escapes segment by segment; the result escapes every byte but the separators.
  method PathToURI(path: string) returns (uri: string)
    requires Bytes(path)
    ensures uri == PathURI(path)
  {
    var slashed := path;
    if path == "" || path[0] != '/' {
      slashed := "/" + slashed;
    }
    var segments := Split(slashed);
    JoinSplit(slashed);
    uri := FILE;
    for i := 0 to |segments|
      invariant uri == Written(segments, i)
    {
      if i > 0 {
        uri := uri + "/";
      }
      uri := uri + PathEscape(segments[i]);
    }
    WrittenIsEscaped(segments, |segments|);
    assert segments[..|segments|] == segments;
  }

  /* ---- DocumentURI.Path ---- */

  datatype PathError = EmptyURI | Malformed | UnsupportedScheme | Remote | NoPath

  datatype PathResult = PathOk(path: string) | PathErr(error: PathError)

  // The text before the first c, and the text after it.
  function Cut(s: string, c: char): (r: (string, string))
    ensures r.0 <= s
  {
    if s == "" then ("", "")
    else if s[0] == c then ("", s[1..])
    else var r := Cut(s[1..], c); ([s[0]] + r.0, r.1)
  }

  lemma {:induction false} CutAbsent(s: string, c: char)
    requires c !in s
    ensures Cut(s, c) == (s, "")
  {
    if s != "" {
      CutAbsent(s[1..], c);
      assert [s[0]] + s[1..] == s;
    }
  }

  predicate HasControl(s: string) { exists i :: 0 <= i < |s| && (s[i] < ' ' || s[i] == 127 as char) }

  predicate SchemeChar(c: char) { Letter(c) || IsDigit(c) || c == '+' || c == '-' || c == '.' }

  // The scheme before the first colon; ("", s) when s does not start with one, None for ":...".
  function GetScheme(s: string, i: nat): Option<(string, string)>
    requires i <= |s|
    decreases |s| - i
  {
    if i == |s| then Some(("", s))
    else if s[i] == ':' then if i == 0 then None else Some((s[..i], s[i + 1..]))
    else if !SchemeChar(s[i]) || (i == 0 && !Letter(s[i])) then Some(("", s))
    else GetScheme(s, i + 1)
  }

  datatype URL = URL(scheme: string, host: string, path: string)

  // The host and the path of what follows "scheme:".
  function Hierarchy(scheme: string, rest: string): (string, string) {
    if "//" <= rest && (scheme != "" || !("///" <= rest)) then
      var host := Cut(rest[2..], '/').0;
      (host, rest[2 + |host|..])
    else ("", rest)
  }

  // url.Parse, as far as Path looks at its result; None is an error.
  function Parse(raw: string): Option<URL> {
    var (u, fragment) := Cut(raw, '#');
    if HasControl(u) || GetScheme(u, 0).None? || Unescape(fragment).None? then None
    else
      var (scheme, tail) := GetScheme(u, 0).value;
      var rest := Cut(tail, '?').0;
      if !("/" <= rest) && scheme != "" then Some(URL(Lower(scheme), "", ""))
      else if !("/" <= rest) && ':' in Cut(rest, '/').0 then None
      else
        var (host, path) := Hierarchy(scheme, rest);
        if Unescape(path).None? then None else Some(URL(Lower(scheme), host, Unescape(path).value))
  }

  function Path(raw: string): PathResult {
    if raw == "" then PathErr(EmptyURI)
    else
      match Parse(raw)
      case None => PathErr(Malformed)
      case Some(url) =>
        if url.scheme != "file" then PathErr(UnsupportedScheme)
        else if url.host != "" && Lower(url.host) != "localhost" then PathErr(Remote)
        else if url.path == "" then PathErr(NoPath)
        else if |url.path| > 2 && url.path[0] == '/' && url.path[2] == ':' then PathOk(url.path[1..])
        else PathOk(url.path)
  }

  /* ---- the round trip ---- */

  lemma HexRoundTrip(c: char)
    requires c as int < 256
    ensures HexValue(HexDigit(c as nat / 16)) == Some(c as nat / 16)
    ensures HexValue(HexDigit(c as nat % 16)) == Some(c as nat % 16)
  {
  }

  lemma {:induction false} UnescapeEscape(p: string)
    requires Bytes(p)
    ensures Unescape(EscapePath(p)) == Some(p)
  {
    if p != "" {
      UnescapeEscape(p[1..]);
      UnescapeNext(p[0], EscapePath(p[1..]));
      assert [p[0]] + p[1..] == p;
    }
  }

  lemma UnescapeNext(c: char, rest: string)
    requires c as int < 256 && Unescape(rest).Some?
    ensures Unescape((if c == '/' then "/" else EscapeByte(c)) + rest) == Some([c] + Unescape(rest).value)
  {
    hide HexDigit, HexValue;
    var e := if c == '/' then "/" else EscapeByte(c);
    assert (e + rest)[|e|..] == rest;
    HexRoundTrip(c);
  }

  // What a URI from PathToURI is made of: nothing that ends a path or needs escaping.
  predicate Safe(c: char) { Plain(c) || c == '%' || c == '/' }

  lemma {:induction false} EscapeSafe(p: string)
    requires Bytes(p)
    ensures forall i | 0 <= i < |EscapePath(p)| :: Safe(EscapePath(p)[i])
  {
    if p != "" {
      EscapeSafe(p[1..]);
    }
  }

  lemma SchemeOfFile(e: string)
    ensures GetScheme(FILE + e, 0) == Some(("file", "//" + e))
  {
    var raw := FILE + e;
    assert raw[0] == 'f' && raw[1] == 'i' && raw[2] == 'l' && raw[3] == 'e' && raw[4] == ':';
    assert raw[..4] == "file" && raw[5..] == "//" + e;
    assert GetScheme(raw, 4) == Some((raw[..4], raw[5..]));
    assert GetScheme(raw, 2) == GetScheme(raw, 3) == GetScheme(raw, 4);
    assert GetScheme(raw, 0) == GetScheme(raw, 1) == GetScheme(raw, 2);
  }

  // No safe byte is a control, a fragment or a query mark.
  lemma SafeByte(c: char)
    requires Safe(c)
    ensures ' ' <= c && c != 127 as char && c != '#' && c != '?'
  {
  }

  lemma SafeText(s: string)
    requires forall i | 0 <= i < |s| :: Safe(s[i])
    ensures !HasControl(s) && Cut(s, '#') == (s, "") && Cut(s, '?') == (s, "")
  {
    hide Safe, Cut;
    forall i | 0 <= i < |s| ensures ' ' <= s[i] && s[i] != 127 as char && s[i] != '#' && s[i] != '?' {
      SafeByte(s[i]);
    }
    CutAbsent(s, '#');
    CutAbsent(s, '?');
  }

  lemma FileHierarchy(e: string)
    requires e != "" && e[0] == '/'
    ensures Hierarchy("file", "//" + e) == ("", e)
  {
    assert ("//" + e)[2..] == e;
  }

  lemma UnescapeNothing()
    ensures Unescape("") == Some("")
  {
  }

  lemma ParseParts(raw: string, scheme: string, tail: string, rest: string, host: string, path: string)
    requires var (u, fragment) := Cut(raw, '#');
             !HasControl(u) && GetScheme(u, 0) == Some((scheme, tail)) && Unescape(fragment).Some?
    requires Cut(tail, '?').0 == rest && rest != "" && rest[0] == '/' && Hierarchy(scheme, rest) == (host, path)
    requires Unescape(path).Some?
    ensures Parse(raw) == Some(URL(Lower(scheme), host, Unescape(path).value))
  {
    hide GetScheme, Unescape, HasControl, Cut, Hierarchy, Lower;
  }

  lemma ParseFile(e: string)
    requires e != "" && e[0] == '/' && (forall i | 0 <= i < |e| :: Safe(e[i])) && Unescape(e).Some?
    ensures Parse(FILE + e) == Some(URL("file", "", Unescape(e).value))
  {
    hide GetScheme, Unescape, HasControl, Cut, Hierarchy, Parse;
    SafeText(FILE + e);
    SafeText("//" + e);
    SchemeOfFile(e);
    FileHierarchy(e);
    UnescapeNothing();
    ParseParts(FILE + e, "file", "//" + e, "//" + e, "", e);
    assert Lower("file") == "file";
  }

  // Reading back what PathToURI wrote gives the slashed path, less the slash before a volume name.
  lemma PathOfURI(path: string)
    requires Bytes(path)
    ensures var p := Slashed(path);
            Path(PathURI(path)) == PathOk(if |p| > 2 && p[2] == ':' then p[1..] else p)
  {
    hide Parse, Unescape;
    var p := Slashed(path);
    UnescapeEscape(p);
    EscapeSafe(p);
    ParseFile(EscapePath(p));
  }

  // PathToURI(p).Path() == p, exactly: rooted paths whose third byte is not a colon, and
  // unrooted ones whose second byte is.
  lemma RoundTripExactly(path: string)
    requires Bytes(path)
    ensures Path(PathURI(path)) == PathOk(path)
            <==> if "/" <= path then !(|path| > 2 && path[2] == ':') else |path| >= 2 && path[1] == ':'
  {
    hide Path, PathURI;
    PathOfURI(path);
    if "/" <= path {
      assert Slashed(path) == path;
    } else {
      assert Slashed(path)[1..] == path;
      assert |path| >= 2 ==> Slashed(path)[2] == path[1];
    }
  }

  /* ---- which URIs are paths ---- */

  lemma {:induction false} GetSchemeAt(scheme: string, rest: string, i: nat)
    requires i <= |scheme| && scheme != "" && Letter(scheme[0])
    requires forall k | 0 <= k < |scheme| :: SchemeChar(scheme[k])
    ensures GetScheme(scheme + ":" + rest, i) == Some((scheme, rest))
    decreases |scheme| - i
  {
    var s := scheme + ":" + rest;
    if i == |scheme| {
      assert s[..i] == scheme && s[i + 1..] == rest;
    } else {
      assert s[i] == scheme[i] && SchemeChar(scheme[i]);
      GetSchemeAt(scheme, rest, i + 1);
    }
  }

  lemma {:induction false} CutAt(s: string, c: char, rest: string)
    requires c !in s
    ensures Cut(s + [c] + rest, c) == (s, rest)
  {
    if s == "" {
      assert s + [c] + rest == [c] + rest;
    } else {
      assert (s + [c] + rest)[1..] == s[1..] + [c] + rest;
      CutAt(s[1..], c, rest);
      assert [s[0]] + s[1..] == s;
    }
  }

  // What may follow a path: a query, a fragment.
  function After(mark: char, text: Option<string>): string { if text.Some? then [mark] + text.value else "" }

  lemma CutAfter(s: string, c: char, text: Option<string>)
    requires c !in s
    ensures Cut(s + After(c, text), c) == (s, if text.Some? then text.value else "")
  {
    if text.Some? {
      assert s + ([c] + text.value) == s + [c] + text.value;
      CutAt(s, c, text.value);
    } else {
      assert s + "" == s;
      CutAbsent(s, c);
    }
  }

  // A host without anything url.Parse would look into.
  predicate PlainHost(host: string) {
    forall i | 0 <= i < |host| :: Letter(host[i]) || IsDigit(host[i]) || host[i] == '-' || host[i] == '.'
  }

  predicate SchemeOk(scheme: string) {
    scheme != "" && Letter(scheme[0]) && forall i | 0 <= i < |scheme| :: SchemeChar(scheme[i])
  }

  lemma HostHierarchy(scheme: string, host: string, e: string)
    requires scheme != "" && PlainHost(host) && (e == "" || e[0] == '/')
    ensures Hierarchy(scheme, "//" + host + e) == (host, e)
  {
    assert ("//" + host + e)[2..] == host + e;
    assert '/' !in host;
    if e == "" {
      CutAbsent(host, '/');
      assert host + e == host;
    } else {
      CutAt(host, '/', e[1..]);
      assert host + e == host + ['/'] + e[1..];
    }
  }

  predicate Printable(s: string) { forall i | 0 <= i < |s| :: ' ' <= s[i] && s[i] != 127 as char }

  lemma HeadText(scheme: string, rest: string)
    requires SchemeOk(scheme) && Printable(rest) && '#' !in rest
    ensures var u := scheme + ":" + rest; !HasControl(u) && '#' !in u
  {
    var u := scheme + ":" + rest;
    forall i | 0 <= i < |u| ensures ' ' <= u[i] && u[i] != 127 as char && u[i] != '#' {
      if i < |scheme| {
        assert SchemeChar(scheme[i]) && u[i] == scheme[i];
      } else if i > |scheme| {
        assert u[i] == rest[i - |scheme| - 1];
      }
    }
  }

  // Nothing in a host and an escaped path ends them early.
  lemma HostText(host: string, e: string, query: Option<string>)
    requires PlainHost(host) && forall i | 0 <= i < |e| :: Safe(e[i])
    requires query.Some? ==> Printable(query.value) && '#' !in query.value
    ensures var rest := "//" + host + e;
            '?' !in rest && Printable(rest + After('?', query)) && '#' !in rest + After('?', query)
  {
    hide Safe;
    var rest := "//" + host + e;
    forall i | 0 <= i < |rest|
      ensures ' ' <= rest[i] && rest[i] != 127 as char && rest[i] != '#' && rest[i] != '?'
    {
      if i >= 2 + |host| {
        SafeByte(e[i - 2 - |host|]);
        assert rest[i] == e[i - 2 - |host|];
      } else if i >= 2 {
        assert rest[i] == host[i - 2];
      }
    }
  }

  lemma ParseURL(scheme: string, host: string, e: string, query: Option<string>, fragment: Option<string>)
    requires SchemeOk(scheme) && PlainHost(host) && (e == "" || e[0] == '/') && (forall i | 0 <= i < |e| :: Safe(e[i]))
    requires query.Some? ==> Printable(query.value) && '#' !in query.value
    requires fragment.Some? ==> Unescape(fragment.value).Some?
    requires Unescape(e).Some?
    ensures Parse(scheme + ":" + ("//" + host + e + After('?', query)) + After('#', fragment))
            == Some(URL(Lower(scheme), host, Unescape(e).value))
  {
    hide Unescape, Cut, GetScheme, Hierarchy, Safe, PlainHost, SchemeOk, Lower, Parse, HasControl, After, Printable;
    var rest := "//" + host + e;
    var tail := rest + After('?', query);
    HostText(host, e, query);
    HeadText(scheme, tail);
    CutAfter(scheme + ":" + tail, '#', fragment);
    SchemeSplits(scheme, tail);
    CutAfter(rest, '?', query);
    HostHierarchy(scheme, host, e);
    UnescapeNothing();
    ParseParts(scheme + ":" + tail + After('#', fragment), scheme, tail, rest, host, e);
  }

  lemma SchemeSplits(scheme: string, rest: string)
    requires SchemeOk(scheme)
    ensures scheme != "" && GetScheme(scheme + ":" + rest, 0) == Some((scheme, rest))
  {
    GetSchemeAt(scheme, rest, 0);
  }

  // What Path makes of a parsed URI.
  lemma PathOfParsed(raw: string, url: URL)
    requires raw != "" && Parse(raw) == Some(url) && (url.path == "" || url.path[0] == '/')
    ensures Path(raw) == if url.scheme != "file" then PathErr(UnsupportedScheme)
                         else if url.host != "" && Lower(url.host) != "localhost" then PathErr(Remote)
                         else if url.path == "" then PathErr(NoPath)
                         else if |url.path| > 2 && url.path[2] == ':' then PathOk(url.path[1..])
                         else PathOk(url.path)
  {
    hide Parse, Lower;
  }

  /** Which URIs name a local path: the scheme is "file" and the host empty or "localhost", in
      upper or lower case, and there is a path; a query and a fragment are ignored.  Anything
      else is refused, for the first of these reasons. */
  lemma PathOfURL(scheme: string, host: string, path: string, query: Option<string>, fragment: Option<string>)
    requires SchemeOk(scheme) && PlainHost(host) && Bytes(path) && (path == "" || path[0] == '/')
    requires query.Some? ==> Printable(query.value) && '#' !in query.value
    requires fragment.Some? ==> Unescape(fragment.value).Some?
    ensures Path(scheme + ":" + ("//" + host + EscapePath(path) + After('?', query)) + After('#', fragment))
            == if Lower(scheme) != "file" then PathErr(UnsupportedScheme)
               else if host != "" && Lower(host) != "localhost" then PathErr(Remote)
               else if path == "" then PathErr(NoPath)
               else if |path| > 2 && path[2] == ':' then PathOk(path[1..])
               else PathOk(path)
  {
    hide Parse, Path, Unescape, SchemeOk, PlainHost, Lower, After, Safe, Printable, EscapePath;
    UnescapeEscape(path);
    EscapeSafe(path);
    EscapeRooted(path);
    ParseURL(scheme, host, EscapePath(path), query, fragment);
    PathOfParsed(scheme + ":" + ("//" + host + EscapePath(path) + After('?', query)) + After('#', fragment),
                 URL(Lower(scheme), host, path));
  }

  lemma EscapeRooted(path: string)
    requires Bytes(path) && (path == "" || path[0] == '/')
    ensures EscapePath(path) == "" || EscapePath(path)[0] == '/'
  {
  }

  lemma {:induction false} CutJoins(s: string, c: char)
    ensures c !in Cut(s, c).0 && s == Cut(s, c).0 + After(c, if c in s then Some(Cut(s, c).1) else None)
  {
    if s != "" {
      assert s == [s[0]] + s[1..];
      if s[0] != c {
        CutJoins(s[1..], c);
        var r := Cut(s[1..], c);
        var after := After(c, if c in s[1..] then Some(r.1) else None);
        assert c in s <==> c in s[1..];
        assert s == [s[0]] + (r.0 + after) == ([s[0]] + r.0) + after;
      }
    }
  }

  lemma {:induction false} GetSchemeJoins(s: string, i: nat)
    requires i <= |s| && (forall k | 0 <= k < i :: SchemeChar(s[k])) && (i > 0 ==> Letter(s[0]))
    ensures GetScheme(s, i).Some? ==>
              var (scheme, tail) := GetScheme(s, i).value;
              if scheme == "" then tail == s else SchemeOk(scheme) && s == scheme + ":" + tail
    decreases |s| - i
  {
    if i < |s| && s[i] != ':' && SchemeChar(s[i]) && (i > 0 || Letter(s[i])) {
      GetSchemeJoins(s, i + 1);
    }
  }

  // The parts of a URI that has been parsed.
  datatype Parts = Parts(scheme: string, host: Option<string>, path: string, query: Option<string>,
                         fragment: Option<string>)

  function Assembled(p: Parts): string {
    p.scheme + ":" + ((if p.host.Some? then "//" + p.host.value else "") + p.path + After('?', p.query))
    + After('#', p.fragment)
  }

  lemma HierarchyJoins(scheme: string, rest: string) returns (host: Option<string>, path: string)
    requires scheme != "" && "/" <= rest
    ensures Hierarchy(scheme, rest) == (if host.Some? then host.value else "", path)
    ensures rest == (if host.Some? then "//" + host.value else "") + path && (path == "" || path[0] == '/')
  {
    hide Cut, After;
    if "//" <= rest {
      var tail := rest[2..];
      CutJoins(tail, '/');
      var h := Cut(tail, '/').0;
      host, path := Some(h), After('/', if '/' in tail then Some(Cut(tail, '/').1) else None);
      AfterStarts('/', if '/' in tail then Some(Cut(tail, '/').1) else None);
      HostSlice(rest, h, path);
    } else {
      host, path := None, rest;
      assert "" + rest == rest;
    }
  }

  lemma AfterStarts(mark: char, text: Option<string>)
    ensures After(mark, text) == "" || After(mark, text)[0] == mark
  {
  }

  lemma HostSlice(rest: string, h: string, path: string)
    requires "//" <= rest && rest[2..] == h + path
    ensures |rest| == 2 + |h| + |path| && rest[2 + |h|..] == path && rest == "//" + h + path
  {
    assert rest[2 + |h|..] == rest[2..][|h|..];
    assert rest == rest[..2] + rest[2..] == "//" + (h + path) == "//" + h + path;
  }

  // What a parsed URI with a path is made of.
  lemma ParsedParts(raw: string) returns (p: Parts)
    requires Parse(raw).Some? && Parse(raw).value.scheme != "" && Parse(raw).value.path != ""
    ensures raw == Assembled(p) && SchemeOk(p.scheme) && (p.path == "" || p.path[0] == '/')
    ensures !HasControl(Cut(raw, '#').0) && (p.fragment.Some? ==> Unescape(p.fragment.value).Some?)
    ensures Parse(raw).value.scheme == Lower(p.scheme) && Unescape(p.path) == Some(Parse(raw).value.path)
    ensures Parse(raw).value.host == if p.host.Some? then p.host.value else ""
  {
    hide Cut, GetScheme, Hierarchy, HasControl, Unescape, SchemeOk, Lower, After;
    var (u, fragment) := Cut(raw, '#');
    CutJoins(raw, '#');
    GetSchemeJoins(u, 0);
    var (scheme, tail) := GetScheme(u, 0).value;
    LowerLength(scheme);
    CutJoins(tail, '?');
    var (rest, query) := Cut(tail, '?');
    var host, path := HierarchyJoins(scheme, rest);
    p := Parts(scheme, host, path, if '?' in tail then Some(query) else None,
               if '#' in raw then Some(fragment) else None);
  }

  lemma LowerLength(s: string)
    ensures |Lower(s)| == |s|
  {
  }

  // Every URI that names a path is a local file's: its scheme is "file", its host is empty or
  // "localhost", and the path is the decoded one, less the slash before a volume name.
  lemma OnlyLocalFiles(raw: string)
    requires Path(raw).PathOk?
    ensures exists p :: raw == Assembled(p) && LocalFile(p, Path(raw).path)
    ensures Printable(Cut(raw, '#').0)
  {
    hide Parse, Lower, Assembled, Cut, Unescape;
    var url := Parse(raw).value;
    var p := ParsedParts(raw);
    UnescapeFirst(p.path);
    assert LocalFile(p, Path(raw).path);
  }

  predicate LocalFile(p: Parts, path: string) {
    && Lower(p.scheme) == "file" && (p.host.Some? ==> p.host.value == "" || Lower(p.host.value) == "localhost")
    && p.path != "" && p.path[0] == '/' && Unescape(p.path).Some?
    && var decoded := Unescape(p.path).value;
       path == if |decoded| > 2 && decoded[2] == ':' then decoded[1..] else decoded
  }

  lemma UnescapeFirst(s: string)
    ensures s != "" && s[0] == '/' && Unescape(s).Some? ==> Unescape(s).value != "" && Unescape(s).value[0] == '/'
    ensures s == "" ==> Unescape(s) == Some("")
  {
  }

  predicate Hex(c: char) { c in HEX || c in "abcdef" }

  // Both cases of the hexadecimal letters count, and each digit has its own value.
  lemma HexExactly(c: char)
    ensures Hex(c) <==> HexValue(c).Some?
    ensures Hex(c) ==> c != '%' && (c == HEX[HexValue(c).value] || c == LowerChar(HEX[HexValue(c).value]))
  {
    assert forall n: nat | n < 16 :: HEX[n] == HexDigit(n);
    assert forall k | 0 <= k < 6 :: "abcdef"[k] as int == 97 + k;
    if '0' <= c <= '9' {
      assert HEX[c as int - 48] == c;
    } else if 'A' <= c <= 'F' {
      assert HEX[c as int - 55] == c;
    } else if 'a' <= c <= 'f' {
      assert "abcdef"[c as int - 97] == c;
    }
  }

  // A text decodes exactly when each percent sign is followed by two hexadecimal digits.
  lemma {:induction false} UnescapeExactly(s: string)
    ensures Unescape(s).Some? <==>
            forall i | 0 <= i < |s| && s[i] == '%' :: i + 2 < |s| && Hex(s[i + 1]) && Hex(s[i + 2])
    decreases |s|
  {
    if s != "" {
      if s[0] != '%' {
        UnescapeExactly(s[1..]);
        assert forall i | 0 < i < |s| :: s[i] == s[1..][i - 1];
      } else if |s| >= 3 {
        HexExactly(s[1]);
        HexExactly(s[2]);
        UnescapeExactly(s[3..]);
        assert forall i | 3 <= i < |s| :: s[i] == s[3..][i - 3];
      }
    }
  }

  // Two paths share a URI only when they differ in the leading slash alone.
  lemma URIInjective(p: string, q: string)
    requires Bytes(p) && Bytes(q)
    ensures PathURI(p) == PathURI(q) <==> Slashed(p) == Slashed(q)
  {
    UnescapeEscape(Slashed(p));
    UnescapeEscape(Slashed(q));
    assert PathURI(p) == PathURI(q) ==> EscapePath(Slashed(p)) == EscapePath(Slashed(q)) by {
      assert PathURI(p)[|FILE|..] == EscapePath(Slashed(p));
      assert PathURI(q)[|FILE|..] == EscapePath(Slashed(q));
    }
  }
}
