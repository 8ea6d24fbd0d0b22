/** Text helpers the whole model shares.

    A string value is a sequence of Unicode scalar values, that is, a string the
    Go program holds as valid UTF-8.  Prefix tests and lexicographic comparisons give the
    same answer on the scalars as on the encoded bytes. */
module Text {

  datatype Option<+T> = None | Some(value: T)

  /* ---- decimal numerals: fmt's %d ---- */

  function Digit(d: nat): char
    requires d < 10
  {
    (48 + d) as char
  }

  predicate IsDigit(c: char) { '0' <= c <= '9' }

  predicate AllDigits(s: string) { forall i | 0 <= i < |s| :: IsDigit(s[i]) }

  function Dec(n: nat): (s: string)
    ensures |s| > 0 && AllDigits(s)
  {
    if n < 10 then [Digit(n)] else Dec(n / 10) + [Digit(n % 10)]
  }

  function ParseDigits(s: string): nat
    requires AllDigits(s)
  {
    if s == "" then 0
    else 10 * ParseDigits(s[..|s| - 1]) + (s[|s| - 1] as int - 48)
  }

  // Reading a printed numeral gives the number back.
  lemma {:induction false} ParseDec(n: nat)
    ensures ParseDigits(Dec(n)) == n
  {
    if n >= 10 {
      ParseDec(n / 10);
      var s := Dec(n);
      assert s[..|s| - 1] == Dec(n / 10);
    }
  }

  function IntDec(i: int): (s: string)
    ensures |s| > 0 && ':' !in s
  {
    if i < 0 then "-" + Dec(-i) else Dec(i)
  }

  lemma IntDecInjective(i: int, j: int)
    requires IntDec(i) == IntDec(j)
    ensures i == j
  {
    assert Dec(if i < 0 then -i else i)[0] != '-' && Dec(if j < 0 then -j else j)[0] != '-';
    if i < 0 {
      assert IntDec(i)[1..] == Dec(-i) && IntDec(j)[1..] == Dec(-j);
      ParseDec(-i);
      ParseDec(-j);
    } else {
      ParseDec(i);
      ParseDec(j);
    }
  }

  /* ---- zero padding: fmt's %0<w>d ---- */

  function ZeroPad(s: string, w: nat): (r: string)
    ensures |r| == if |s| >= w then |s| else w
    ensures AllDigits(s) ==> AllDigits(r)
    ensures ':' !in s ==> ':' !in r
    decreases w - |s|
  {
    if |s| >= w then s else ZeroPad("0" + s, w)
  }

  lemma {:induction false} ParseLeadingZero(s: string)
    requires AllDigits(s)
    ensures ParseDigits("0" + s) == ParseDigits(s)
  {
    if s != "" {
      var t := "0" + s;
      assert t[..|t| - 1] == "0" + s[..|s| - 1];
      ParseLeadingZero(s[..|s| - 1]);
    } else {
      assert "0" + s == "0";
      assert ParseDigits("0") == 10 * ParseDigits("0"[..0]) + 0;
    }
  }

  lemma {:induction false} ParseZeroPad(s: string, w: nat)
    requires AllDigits(s)
    ensures ParseDigits(ZeroPad(s, w)) == ParseDigits(s)
    decreases w - |s|
  {
    if |s| < w {
      ParseLeadingZero(s);
      ParseZeroPad("0" + s, w);
    }
  }

  function Pow10(k: nat): nat {
    if k == 0 then 1 else 10 * Pow10(k - 1)
  }

  lemma {:induction false} DecLength(n: nat, k: nat)
    requires k > 0 && n < Pow10(k)
    ensures |Dec(n)| <= k
  {
    if n >= 10 {
      assert k > 1;
      DecLength(n / 10, k - 1);
    }
  }

  /* ---- lexicographic order: Go's < on strings, BadgerDB's key order ---- */

  predicate LexLess(a: string, b: string) {
    if b == "" then false
    else if a == "" then true
    else a[0] < b[0] || (a[0] == b[0] && LexLess(a[1..], b[1..]))
  }

  // a and b agree on their first n characters, and there a ends or has the smaller one.
  predicate LessAt(a: string, b: string, n: nat) {
    n <= |a| && n < |b| && a[..n] == b[..n] && (n == |a| || a[n] < b[n])
  }

  lemma LessAtTail(a: string, b: string, n: nat)
    requires a != "" && b != "" && a[0] == b[0]
    ensures LessAt(a, b, n + 1) <==> LessAt(a[1..], b[1..], n)
  {
    if n < |a| && n < |b| {
      assert a[..n + 1] == [a[0]] + a[1..][..n] && b[..n + 1] == [b[0]] + b[1..][..n];
      assert a[1..][..n] == a[..n + 1][1..] && b[1..][..n] == b[..n + 1][1..];
    }
  }

  // A proper prefix, or a smaller character at the first difference.
  lemma {:induction false} LexMeaning(a: string, b: string)
    ensures LexLess(a, b) <==> exists n: nat :: LessAt(a, b, n)
  {
    if a == "" && b != "" {
      assert LessAt(a, b, 0);
    } else if a != "" && b != "" && a[0] == b[0] {
      LexMeaning(a[1..], b[1..]);
      forall n: nat ensures LessAt(a, b, n + 1) <==> LessAt(a[1..], b[1..], n) {
        LessAtTail(a, b, n);
      }
      forall n: nat | LessAt(a, b, n) ensures n > 0 && LessAt(a[1..], b[1..], n - 1) {
        assert n > 0;
        assert LessAt(a, b, (n - 1) + 1);
      }
    } else if a != "" && b != "" {
      assert forall n: nat | LessAt(a, b, n) && n > 0 :: a[..n][0] == a[0] && b[..n][0] == b[0];
      assert LexLess(a, b) ==> LessAt(a, b, 0);
    }
  }

  lemma {:induction false} LexTotal(a: string, b: string)
    ensures a == b || LexLess(a, b) || LexLess(b, a)
    ensures !(LexLess(a, b) && LexLess(b, a))
    ensures !LexLess(a, a)
  {
    if a != "" {
      LexTotal(a[1..], a[1..]);
    }
    if a != "" && b != "" && a[0] == b[0] {
      LexTotal(a[1..], b[1..]);
      assert a == [a[0]] + a[1..] && b == [b[0]] + b[1..];
    }
  }

  lemma {:induction false} LexTransitive(a: string, b: string, c: string)
    requires LexLess(a, b) && LexLess(b, c)
    ensures LexLess(a, c)
  {
    if a != "" && a[0] == b[0] == c[0] {
      LexTransitive(a[1..], b[1..], c[1..]);
    }
  }

  // On digit strings of one length, dictionary order is numeric order.
  lemma {:induction false} LexIsNumeric(a: string, b: string)
    requires AllDigits(a) && AllDigits(b) && |a| == |b|
    ensures LexLess(a, b) <==> ParseDigits(a) < ParseDigits(b)
    ensures LexLess(b, a) <==> ParseDigits(b) < ParseDigits(a)
  {
    if a != "" {
      var n := |a| - 1;
      LexSnoc(a[..n], b[..n], a[n], b[n]);
      LexSnoc(b[..n], a[..n], b[n], a[n]);
      assert a == a[..n] + [a[n]] && b == b[..n] + [b[n]];
      LexIsNumeric(a[..n], b[..n]);
      LexTotal(a[..n], b[..n]);
    }
  }

  lemma {:induction false} LexSnoc(a: string, b: string, c: char, d: char)
    requires |a| == |b|
    ensures LexLess(a + [c], b + [d]) <==> LexLess(a, b) || (a == b && c < d)
  {
    if a != "" {
      assert (a + [c])[1..] == a[1..] + [c] && (b + [d])[1..] == b[1..] + [d];
      LexSnoc(a[1..], b[1..], c, d);
      assert a == [a[0]] + a[1..] && b == [b[0]] + b[1..];
    }
  }

  /* ---- ASCII letters ---- */

  predicate Letter(c: char) { 'a' <= c <= 'z' || 'A' <= c <= 'Z' }

  function LowerChar(c: char): char { if 'A' <= c <= 'Z' then (c as int + 32) as char else c }

  function Lower(s: string): string { seq(|s|, i requires 0 <= i < |s| => LowerChar(s[i])) }

  lemma DigitExactly(c: char)
    ensures IsDigit(c) <==> c in "0123456789"
  {
    assert forall k | 0 <= k < 10 :: "0123456789"[k] as int == 48 + k;
    if IsDigit(c) {
      assert "0123456789"[c as int - 48] == c;
    }
  }

  const UPPER := "ABCDEFGHIJKLMNOPQRSTUVWXYZ"
  const LOWER := "abcdefghijklmnopqrstuvwxyz"

  lemma Alphabets()
    ensures |UPPER| == |LOWER| == 26
    ensures forall k | 0 <= k < 26 :: UPPER[k] as int == 65 + k
    ensures forall k | 0 <= k < 26 :: LOWER[k] as int == 97 + k
  {
  }

  lemma LetterExactly(c: char)
    ensures Letter(c) <==> c in UPPER || c in LOWER
  {
    hide UPPER, LOWER;
    Alphabets();
    if 'A' <= c <= 'Z' {
      assert UPPER[c as int - 65] == c;
    } else if 'a' <= c <= 'z' {
      assert LOWER[c as int - 97] == c;
    }
  }

  // Each capital becomes the small letter at the same place in the alphabet, and nothing else changes.
  lemma LowerExactly(s: string, i: nat)
    requires i < |s|
    ensures |Lower(s)| == |s|
    ensures s[i] !in UPPER ==> Lower(s)[i] == s[i]
    ensures forall k | 0 <= k < |UPPER| && s[i] == UPPER[k] :: k < |LOWER| && Lower(s)[i] == LOWER[k]
  {
    hide UPPER, LOWER;
    Alphabets();
    if 'A' <= s[i] <= 'Z' {
      assert UPPER[s[i] as int - 65] == s[i];
    }
  }

  /* ---- strings.TrimSpace ---- */

  predicate IsSpace(c: char) {
    '\t' <= c <= '\r' || c == ' ' || c == '\U{85}' || c == '\U{A0}' || c == '\U{1680}'
    || '\U{2000}' <= c <= '\U{200A}' || c == '\U{2028}' || c == '\U{2029}'
    || c == '\U{202F}' || c == '\U{205F}' || c == '\U{3000}'
  }

  // unicode.IsSpace, scalar by scalar.
  lemma SpaceExactly(c: char)
    ensures IsSpace(c) <==>
            c as int in {0x9, 0xA, 0xB, 0xC, 0xD, 0x20, 0x85, 0xA0, 0x1680, 0x2000, 0x2001, 0x2002, 0x2003, 0x2004,
                         0x2005, 0x2006, 0x2007, 0x2008, 0x2009, 0x200A, 0x2028, 0x2029, 0x202F, 0x205F, 0x3000}
  {
  }

  function TrimLeft(s: string): string {
    if s != "" && IsSpace(s[0]) then TrimLeft(s[1..]) else s
  }

  function TrimRight(s: string): string {
    if s != "" && IsSpace(s[|s| - 1]) then TrimRight(s[..|s| - 1]) else s
  }

  function TrimSpace(s: string): string { TrimRight(TrimLeft(s)) }

  // strings.TrimSpace(s) == "", see BlankExactly.
  predicate Blank(s: string) { forall i | 0 <= i < |s| :: IsSpace(s[i]) }

  lemma BlankExactly(s: string)
    ensures Blank(s) <==> TrimSpace(s) == ""
  {
    TrimLeftBlank(s);
    TrimLeftStart(s);
    if TrimLeft(s) != "" {
      TrimRightStart(TrimLeft(s));
    }
  }

  // TrimSpace takes blanks off both ends and leaves none there.
  lemma TrimSpaceMeaning(s: string)
    ensures exists a: nat, b: nat :: a <= b <= |s| && TrimSpace(s) == s[a..b] && Blank(s[..a]) && Blank(s[b..])
    ensures TrimSpace(s) != "" ==> !IsSpace(TrimSpace(s)[0]) && !IsSpace(TrimSpace(s)[|TrimSpace(s)| - 1])
  {
    TrimSpaceTrimmed(s);
    TrimLeftCuts(s);
    var l := TrimLeft(s);
    TrimRightCuts(l);
    var a, b := |s| - |l|, |s| - |l| + |TrimRight(l)|;
    assert s[a..b] == l[..|TrimRight(l)|] && s[b..] == l[|TrimRight(l)|..];
  }

  lemma {:induction false} TrimLeftCuts(s: string)
    ensures |TrimLeft(s)| <= |s| && TrimLeft(s) == s[|s| - |TrimLeft(s)|..] && Blank(s[..|s| - |TrimLeft(s)|])
  {
    if s != "" && IsSpace(s[0]) {
      TrimLeftCuts(s[1..]);
      var n := |s| - |TrimLeft(s)|;
      assert s[..n] == [s[0]] + s[1..][..n - 1];
    }
  }

  lemma {:induction false} TrimRightCuts(s: string)
    ensures |TrimRight(s)| <= |s| && TrimRight(s) == s[..|TrimRight(s)|] && Blank(s[|TrimRight(s)|..])
  {
    if s != "" && IsSpace(s[|s| - 1]) {
      var n := |s| - 1;
      TrimRightCuts(s[..n]);
      var k := |TrimRight(s)|;
      assert s[k..] == s[..n][k..] + [s[n]];
    }
  }

  lemma {:induction false} TrimLeftBlank(s: string)
    ensures Blank(s) <==> TrimLeft(s) == ""
  {
    if s != "" && IsSpace(s[0]) {
      TrimLeftBlank(s[1..]);
      assert forall i | 0 <= i < |s[1..]| :: s[1..][i] == s[i + 1];
      assert forall i | 1 <= i < |s| :: s[i] == s[1..][i - 1];
    }
  }

  // What TrimSpace leaves starts with no space, so a blank string never starts with it.
  lemma TrimSpaceStart(s: string, t: string)
    requires TrimSpace(s) != "" && TrimSpace(s) <= t
    ensures !Blank(t)
  {
    TrimLeftStart(s);
    TrimRightStart(TrimLeft(s));
    assert t[0] == TrimSpace(s)[0];
  }

  // Nothing to trim at either end.
  predicate Trimmed(s: string) { s != "" && !IsSpace(s[0]) && !IsSpace(s[|s| - 1]) }

  lemma TrimmedExactly(s: string)
    ensures Trimmed(s) <==> s != "" && TrimSpace(s) == s
  {
    TrimShorter(s);
    TrimShorter(TrimLeft(s));
  }

  lemma TrimSpaceTrimmed(s: string)
    ensures TrimSpace(s) != "" ==> Trimmed(TrimSpace(s))
  {
    TrimLeftStart(s);
    if TrimLeft(s) != "" {
      TrimRightStart(TrimLeft(s));
      TrimRightEnd(TrimLeft(s));
    }
  }

  lemma {:induction false} TrimRightEnd(s: string)
    ensures TrimRight(s) != "" ==> !IsSpace(TrimRight(s)[|TrimRight(s)| - 1])
  {
    if s != "" && IsSpace(s[|s| - 1]) {
      TrimRightEnd(s[..|s| - 1]);
    }
  }

  lemma {:induction false} TrimShorter(s: string)
    ensures |TrimLeft(s)| <= |s| && |TrimRight(s)| <= |s|
    ensures s != "" && IsSpace(s[0]) ==> |TrimLeft(s)| < |s|
    ensures s != "" && IsSpace(s[|s| - 1]) ==> |TrimRight(s)| < |s|
  {
    if s != "" {
      TrimShorter(s[1..]);
      TrimShorter(s[..|s| - 1]);
    }
  }

  lemma {:induction false} TrimLeftStart(s: string)
    ensures TrimLeft(s) != "" ==> !IsSpace(TrimLeft(s)[0])
  {
    if s != "" && IsSpace(s[0]) {
      TrimLeftStart(s[1..]);
    }
  }

  lemma {:induction false} TrimRightStart(s: string)
    requires s != "" && !IsSpace(s[0])
    ensures TrimRight(s) != "" && TrimRight(s)[0] == s[0]
  {
    if IsSpace(s[|s| - 1]) {
      TrimRightStart(s[..|s| - 1]);
    }
  }

  /* ---- cutting at the first colon ---- */

  function CutColon(s: string): (r: Option<(string, string)>)
    ensures r.Some? ==> ':' !in r.value.0 && s == r.value.0 + ":" + r.value.1
    ensures r.None? <==> ':' !in s
  {
    if s == "" then None
    else if s[0] == ':' then Some(("", s[1..]))
    else
      match CutColon(s[1..])
      case None => None
      case Some(p) => Some(([s[0]] + p.0, p.1))
  }

  // The cut is unique: a colon-free head followed by a colon determines both halves.
  lemma {:induction false} CutUnique(a: string, b: string, c: string, d: string)
    requires a + ":" + b == c + ":" + d
    requires ':' !in a && ':' !in c
    ensures a == c && b == d
  {
    var s := a + ":" + b;
    assert s[|a|] == ':' && s[|c|] == ':';
    assert forall i :: 0 <= i < |a| ==> s[i] == a[i] && s[i] != ':';
    assert forall i :: 0 <= i < |c| ==> s[i] == c[i] && s[i] != ':';
    assert |a| == |c|;
    assert s[..|a|] == a && s[..|c|] == c;
    assert s[|a| + 1..] == b && s[|c| + 1..] == d;
  }

  // So is the cut at the last occurrence of a separator.
  lemma LastCutUnique(a: string, b: string, c: string, d: string, sep: char)
    requires a + [sep] + b == c + [sep] + d && sep !in b && sep !in d
    ensures a == c && b == d
  {
    var s := a + [sep] + b;
    assert s[|a|] == sep && s[|c|] == sep;
    assert forall i | |a| < i < |s| :: s[i] == b[i - |a| - 1] && s[i] != sep;
    assert forall i | |c| < i < |s| :: s[i] == d[i - |c| - 1] && s[i] != sep;
    assert |a| == |c|;
    assert s[..|a|] == a && s[..|c|] == c && s[|a| + 1..] == b && s[|c| + 1..] == d;
  }

  lemma CutColonAt(a: string, b: string)
    requires ':' !in a
    ensures CutColon(a + ":" + b) == Some((a, b))
  {
    var s := a + ":" + b;
    assert s[|a|] == ':';
    var p := CutColon(s).value;
    CutUnique(a, b, p.0, p.1);
  }
}
