/** The MIME header in front of a frame, as any server may write it: fields in any order, names in
    any case, blanks around values, bare line feeds, and values folded over several lines. */
module Headers {
  import opened Text
  import opened Stdio

  predicate Blanks(s: string) { forall i | 0 <= i < |s| :: s[i] == ' ' || s[i] == '\t' }

  const TOKENS := LOWER + UPPER + "0123456789" + "!#$%&'*+-.^_`|~"

  lemma TokenCharExactly(c: char)
    ensures TokenChar(c) <==> c in TOKENS
  {
    hide UPPER, LOWER, Letter, IsDigit;
    LetterExactly(c);
    DigitExactly(c);
  }

  // A header line: a name, and a value between blanks; lf says the line ends in a bare line feed.
  datatype Line = Line(key: string, left: string, value: string, right: string, lf: bool)

  predicate LineOk(l: Line) {
    && l.key != "" && (forall i | 0 <= i < |l.key| :: l.key[i] in TOKENS)
    && Blanks(l.left) && Blanks(l.right)
    && (forall i | 0 <= i < |l.value| :: l.value[i] == '\t' || (l.value[i] >= ' ' && l.value[i] as int != 127))
    && (l.value != "" ==> !Blanks([l.value[0]]) && !Blanks([l.value[|l.value| - 1]]))
  }

  function Written(l: Line): string { l.key + ":" + (l.left + l.value + l.right) }

  function Render(lines: seq<Line>): string {
    if lines == [] then CRLF
    else Written(lines[0]) + ((if lines[0].lf then "\n" else CRLF) + Render(lines[1..]))
  }

  function Fields(lines: seq<Line>): (r: seq<Field>)
    ensures |r| == |lines|
  {
    seq(|lines|, i requires 0 <= i < |lines| => Field(lines[i].key, lines[i].value))
  }

  /* ---- one line ---- */

  lemma {:induction false} SkipBlanks(blanks: string, s: string)
    requires Blanks(blanks) && (s != "" ==> !Gap(s[0]))
    ensures SkipGap(blanks + s) == s
  {
    if blanks == "" {
      assert blanks + s == s;
    } else {
      assert (blanks + s)[1..] == blanks[1..] + s;
      SkipBlanks(blanks[1..], s);
    }
  }

  lemma {:induction false} DropBlanks(s: string, blanks: string)
    requires Blanks(blanks) && (s != "" ==> !Gap(s[|s| - 1]))
    ensures DropGap(s + blanks) == s
  {
    if blanks == "" {
      assert s + blanks == s;
    } else {
      var t := s + blanks;
      assert t[..|t| - 1] == s + blanks[..|blanks| - 1];
      DropBlanks(s, blanks[..|blanks| - 1]);
    }
  }

  lemma {:induction false} ReadBareLine(line: string, rest: string)
    requires PlainLine(line)
    ensures ReadLine(line + ("\n" + rest)) == (line, rest)
  {
    var s := line + ("\n" + rest);
    if line == "" {
      assert s == "\n" + rest && s[1..] == rest;
    } else {
      assert s[1..] == line[1..] + ("\n" + rest) && s[0] == line[0];
      ReadBareLine(line[1..], rest);
      assert [line[0]] + line[1..] == line;
      assert !(CRLF <= s);
    }
  }

  lemma TokenPlain(c: char)
    requires c in TOKENS
    ensures TokenChar(c) && !Gap(c) && c != ':' && c != '\n' && c != '\r'
  {
    hide TOKENS;
    TokenCharExactly(c);
  }

  lemma KeyPlain(key: string)
    requires key != "" && forall i | 0 <= i < |key| :: key[i] in TOKENS
    ensures KeyOk(key) && ':' !in key && PlainLine(key) && !Gap(key[0])
  {
    hide TOKENS, Gap, TokenChar;
    forall i | 0 <= i < |key| ensures TokenChar(key[i]) && key[i] != ':' && key[i] != '\n' && key[i] != '\r' {
      TokenPlain(key[i]);
    }
    TokenPlain(key[0]);
  }

  // What is left of a line once its end and the blanks behind its value are gone.
  function Kept(l: Line): string { l.key + ":" + (if l.value == "" then "" else l.left + l.value) }

  lemma WrittenPlain(l: Line)
    requires LineOk(l)
    ensures PlainLine(Written(l)) && ':' in Written(l) && !Gap(Written(l)[0])
  {
    hide TOKENS;
    KeyPlain(l.key);
    var w := Written(l);
    assert w[|l.key|] == ':' && w[0] == l.key[0];
    assert '\n' !in l.value && '\r' !in l.value && '\n' !in l.left + l.right && '\r' !in l.left + l.right;
  }

  lemma WrittenTrim(l: Line)
    requires LineOk(l)
    ensures Trim(Written(l)) == Kept(l)
  {
    hide TOKENS, DropGap;
    KeyPlain(l.key);
    var w := Written(l);
    assert w[0] == l.key[0];
    assert SkipGap(w) == w;
    if l.value == "" {
      assert w == (l.key + ":") + (l.left + l.right);
      DropBlanks(l.key + ":", l.left + l.right);
      assert l.key + ":" + "" == l.key + ":";
    } else {
      var kept := Kept(l);
      assert kept[|kept| - 1] == l.value[|l.value| - 1];
      assert w == kept + l.right;
      DropBlanks(kept, l.right);
    }
  }

  lemma KeptValue(l: Line)
    requires LineOk(l)
    ensures var value := if l.value == "" then "" else l.left + l.value; ValueOk(value) && SkipGap(value) == l.value
  {
    hide TOKENS;
    if l.value != "" {
      SkipBlanks(l.left, l.value);
    }
  }

  // A written line reads back as its name and value.
  lemma ReadOne(l: Line, rest: string, fields: seq<Field>)
    requires LineOk(l) && rest != "" && !Gap(rest[0])
    ensures ReadFields(Written(l) + ((if l.lf then "\n" else CRLF) + rest), fields)
            == ReadFields(rest, fields + [Field(l.key, l.value)])
  {
    hide Trim, ValueOk, CutColon, PlainLine, ReadLine, SkipGap, TOKENS, Written, KeyOk, Blanks;
    var value := if l.value == "" then "" else l.left + l.value;
    KeyPlain(l.key);
    WrittenPlain(l);
    WrittenTrim(l);
    KeptValue(l);
    if l.lf {
      ReadBareLine(Written(l), rest);
    } else {
      ReadLineAt(Written(l), rest);
    }
    assert Continue(Kept(l), rest) == (Kept(l), rest);
    CutColonAt(l.key, value);
  }

  /* ---- the whole header ---- */

  lemma RenderStarts(lines: seq<Line>)
    requires forall i | 0 <= i < |lines| :: LineOk(lines[i])
    ensures Render(lines) != "" && !Gap(Render(lines)[0])
  {
    hide LineOk, Gap, Written;
    if lines != [] {
      WrittenPlain(lines[0]);
      NotEmpty(lines[0]);
      assert Render(lines)[0] == Written(lines[0])[0];
    } else {
      BlankStarts();
    }
  }

  lemma NotEmpty(l: Line)
    ensures Written(l) != ""
  {
  }

  lemma BlankStarts()
    ensures !Gap(CRLF[0])
  {
  }

  lemma {:induction false} ReadRendered(lines: seq<Line>, rest: string, before: seq<Field>)
    requires forall i | 0 <= i < |lines| :: LineOk(lines[i])
    ensures ReadFields(Render(lines) + rest, before) == Header(before + Fields(lines), rest)
    decreases |lines|
  {
    hide ReadFields, LineOk, Written;
    if lines == [] {
      BlankEnds(rest, before);
      assert before + Fields(lines) == before;
    } else {
      var l := lines[0];
      var more := Render(lines[1..]) + rest;
      assert Render(lines) + rest == Written(l) + ((if l.lf then "\n" else CRLF) + more);
      RenderStarts(lines[1..]);
      ReadOne(l, more, before);
      ReadRendered(lines[1..], rest, before + [Field(l.key, l.value)]);
      assert before + [Field(l.key, l.value)] + Fields(lines[1..]) == before + Fields(lines);
    }
  }

  lemma BlankEnds(rest: string, fields: seq<Field>)
    ensures ReadFields(CRLF + rest, fields) == Header(fields, rest)
  {
    ReadBlankLine(rest);
  }

  // A header that starts with a blank is refused; any other reads back as its fields.
  lemma HeaderReads(lines: seq<Line>, rest: string, blank: char)
    requires forall i | 0 <= i < |lines| :: LineOk(lines[i])
    requires blank == ' ' || blank == '\t'
    ensures ReadMIMEHeader(Render(lines) + rest) == Header(Fields(lines), rest)
    ensures ReadMIMEHeader([blank] + rest) == HeaderFail(BadHeader)
  {
    hide ReadFields, Render, LineOk, Fields;
    RenderStarts(lines);
    ReadRendered(lines, rest, []);
    assert [] + Fields(lines) == Fields(lines) && (Render(lines) + rest)[0] == Render(lines)[0];
  }

  // A line that starts with a blank continues the value of the one before it.
  lemma FoldedLine(kept: string, blank: char, next: string, rest: string)
    requires blank == ' ' || blank == '\t'
    requires PlainLine(next) && !Blanks(next) && rest != "" && !Gap(rest[0])
    ensures Continue(kept, [blank] + (next + (CRLF + rest))) == (kept + " " + Trim(next), rest)
  {
    hide ReadLine, DropGap;
    var after := next + (CRLF + rest);
    assert ([blank] + after)[1..] == after;
    SkipGapPrefix(next, CRLF + rest);
    SkipGapPlain(next);
    ReadLineAt(SkipGap(next), rest);
    SkipTwice(next);
    assert Continue(kept + " " + Trim(next), rest) == (kept + " " + Trim(next), rest);
  }

  lemma {:induction false} SkipGapPrefix(s: string, t: string)
    requires !Blanks(s)
    ensures SkipGap(s + t) == SkipGap(s) + t && SkipGap(s) != ""
  {
    if Gap(s[0]) {
      assert (s + t)[1..] == s[1..] + t;
      SkipGapPrefix(s[1..], t);
    }
  }

  lemma {:induction false} SkipGapPlain(s: string)
    requires PlainLine(s)
    ensures PlainLine(SkipGap(s))
  {
    if s != "" && Gap(s[0]) {
      SkipGapPlain(s[1..]);
    }
  }

  lemma {:induction false} SkipTwice(s: string)
    ensures SkipGap(SkipGap(s)) == SkipGap(s)
  {
    if s != "" && Gap(s[0]) {
      SkipTwice(s[1..]);
    }
  }

  /* ---- the length ---- */

  predicate NamesLength(l: Line) { Lower(l.key) == "content-length" }

  lemma {:induction false} FirstLength(before: seq<Line>, l: Line, after: seq<Line>)
    requires forall i | 0 <= i < |before| :: !NamesLength(before[i])
    ensures GetLength(Fields(before)) == ""
    ensures NamesLength(l) ==> GetLength(Fields(before + [l] + after)) == l.value
  {
    LengthKeyLower();
    if before == [] {
      assert before + [l] + after == [l] + after;
    } else {
      assert (before + [l] + after)[1..] == before[1..] + [l] + after;
      FieldsTail(before);
      FieldsTail(before + [l] + after);
      FirstLength(before[1..], l, after);
    }
  }

  lemma FieldsTail(lines: seq<Line>)
    requires lines != []
    ensures Fields(lines)[1..] == Fields(lines[1..])
  {
  }

  lemma LengthKeyLower()
    ensures Lower(LENGTH_KEY) == "content-length"
  {
    var lower := Lower(LENGTH_KEY);
    assert |lower| == 14 && lower[0] == 'c' && lower[1] == 'o' && lower[2] == 'n' && lower[3] == 't';
    assert lower[4] == 'e' && lower[5] == 'n' && lower[6] == 't' && lower[7] == '-' && lower[8] == 'l';
    assert lower[9] == 'e' && lower[10] == 'n' && lower[11] == 'g' && lower[12] == 't' && lower[13] == 'h';
  }

  /** Any header, its fields in any order and the length under any spelling of its name in upper
      or lower case: the first such field decides, a length of more than 64 MiB is refused, and
      without such a field there is no frame. */
  lemma HeaderDecides(before: seq<Line>, l: Line, n: nat, after: seq<Line>, rest: string)
    requires forall i | 0 <= i < |before| :: LineOk(before[i]) && !NamesLength(before[i])
    requires forall i | 0 <= i < |after| :: LineOk(after[i])
    requires LineOk(l) && NamesLength(l) && l.value == Dec(n)
    ensures ReadFrame(Render(before + [l] + after) + rest)
            == if n > 9223372036854775807 then FrameFail(BadLength)
               else if n > 67108864 then FrameFail(TooLarge)
               else if |rest| < n then FrameFail(ShortRead)
               else Frame(rest[..n], rest[n..])
    ensures ReadFrame(Render(before) + rest) == FrameFail(MissingLength)
  {
    hide ReadFields, Render, LineOk, NamesLength, GetLength, Atoi, Dec, Fields;
    FirstLength(before, l, after);
    HeaderReads(before + [l] + after, rest, ' ');
    HeaderReads(before, rest, ' ');
    AtoiDecExactly(n);
  }
}
