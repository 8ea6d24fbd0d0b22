/** internal/lsp/stdio.go: the Content-Length frames of the LSP base protocol.

    Strings here are byte strings, one character per byte.  The header is parsed the way
    net/textproto parses a MIME header. */
module Stdio {
  import opened Text

  const MAX_MESSAGE_BYTES := 67108864   // 64 MiB

  const MAX_INT64 := 0x7FFF_FFFF_FFFF_FFFF

  /* ---- lines ---- */

  // The next line without its end, and what follows it; the last line may lack its end.
  function ReadLine(input: string): (r: (string, string))
    requires input != ""
    ensures |r.1| < |input|
    decreases |input|
  {
    if input[0] == '\n' then ("", input[1..])
    else if "\r\n" <= input then ("", input[2..])
    else if |input| == 1 then (input, "")
    else var r := ReadLine(input[1..]); ([input[0]] + r.0, r.1)
  }

  predicate Gap(c: char) { c == ' ' || c == '\t' }

  function SkipGap(s: string): (r: string)
    ensures |r| <= |s|
  {
    if s != "" && Gap(s[0]) then SkipGap(s[1..]) else s
  }

  function DropGap(s: string): string { if s != "" && Gap(s[|s| - 1]) then DropGap(s[..|s| - 1]) else s }

  function Trim(s: string): string { DropGap(SkipGap(s)) }

  // Lines that start with a gap continue the header line before them.
  function Continue(line: string, input: string): (r: (string, string))
    ensures |r.1| <= |input| && line <= r.0
    decreases |input|
  {
    if input == "" || !Gap(input[0]) then (line, input)
    else
      var s := SkipGap(input[1..]);
      if s == "" then (line + " ", "")
      else var (next, rest) := ReadLine(s); Continue(line + " " + Trim(next), rest)
  }

  /* ---- the header ---- */

  predicate TokenChar(c: char) {
    Letter(c) || IsDigit(c) || c == '!' || c == '#' || c == '$' || c == '%' || c == '&' || c == '\'' || c == '*'
    || c == '+' || c == '-' || c == '.' || c == '^' || c == '_' || c == '`' || c == '|' || c == '~'
  }

  predicate KeyOk(key: string) { key != "" && forall i | 0 <= i < |key| :: TokenChar(key[i]) || key[i] == ' ' }

  predicate ValueOk(value: string) {
    forall i | 0 <= i < |value| :: Gap(value[i]) || (value[i] > ' ' && value[i] as int != 127)
  }

  datatype Field = Field(key: string, value: string)

  datatype ReadError = EndOfStream | BadHeader | MissingLength | BadLength | TooLarge | ShortRead

  datatype Header = Header(fields: seq<Field>, rest: string) | HeaderFail(error: ReadError)

  // The fields up to the blank line; fields holds the ones read before.
  function ReadFields(input: string, fields: seq<Field>): (h: Header)
    ensures h.Header? ==> |h.rest| < |input| && fields <= h.fields
    decreases |input|
  {
    if input == "" then HeaderFail(EndOfStream)
    else
      var (line, after) := ReadLine(input);
      if line == "" then Header(fields, after)
      else if ':' !in line then HeaderFail(BadHeader)
      else
        var (kv, rest) := Continue(Trim(line), after);
        match CutColon(kv)
        case None => HeaderFail(BadHeader)
        case Some((key, value)) =>
          if !KeyOk(key) || !ValueOk(value) then HeaderFail(BadHeader)
          else ReadFields(rest, fields + [Field(key, SkipGap(value))])
  }

  function ReadMIMEHeader(input: string): Header {
    if input != "" && Gap(input[0]) then HeaderFail(BadHeader) else ReadFields(input, [])
  }

  const LENGTH_KEY := "Content-Length"

  // header.Get: the first value under the key whatever its case, "" when there is none.
  function GetLength(fields: seq<Field>): string {
    if fields == [] then ""
    else if Lower(fields[0].key) == Lower(LENGTH_KEY) then fields[0].value
    else GetLength(fields[1..])
  }

  // strconv.Atoi on a 64-bit platform.
  function Atoi(s: string): Option<int> {
    var digits := if s != "" && (s[0] == '+' || s[0] == '-') then s[1..] else s;
    if digits == "" || !AllDigits(digits) then None
    else
      var size: int := ParseDigits(digits);
      var n := if s[0] == '-' then -size else size;
      if -MAX_INT64 - 1 <= n <= MAX_INT64 then Some(n) else None
  }

  /* ---- frames ---- */

  datatype Frame = Frame(payload: string, rest: string) | FrameFail(error: ReadError)

  function ReadFrame(input: string): (f: Frame)
    ensures f.Frame? ==> |f.rest| < |input|
  {
    match ReadMIMEHeader(input)
    case HeaderFail(error) => FrameFail(error)
    case Header(fields, rest) =>
      var raw := GetLength(fields);
      if raw == "" then FrameFail(MissingLength)
      else
        match Atoi(raw)
        case None => FrameFail(BadLength)
        case Some(size) =>
          if size < 0 || size > MAX_MESSAGE_BYTES then FrameFail(TooLarge)
          else if |rest| < size then FrameFail(ShortRead)
          else Frame(rest[..size], rest[size..])
  }

  // Everything the read loop gets before the error that ends it.
  function ReadAll(input: string): (seq<string>, ReadError)
    decreases |input|
  {
    match ReadFrame(input)
    case FrameFail(error) => ([], error)
    case Frame(payload, rest) => var (payloads, error) := ReadAll(rest); ([payload] + payloads, error)
  }

  const CRLF := "\r\n"

  function LengthLine(n: nat): string { LENGTH_KEY + ": " + Dec(n) }

  function Encode(payload: string): string { LengthLine(|payload|) + (CRLF + (CRLF + payload)) }

  function Stream(payloads: seq<string>): string {
    if payloads == [] then "" else Encode(payloads[0]) + Stream(payloads[1..])
  }

  lemma StreamHead(payloads: seq<string>)
    requires payloads != []
    ensures Stream(payloads) == Encode(payloads[0]) + Stream(payloads[1..])
  {
  }

  lemma {:induction false} StreamAppend(a: seq<string>, b: seq<string>)
    ensures Stream(a + b) == Stream(a) + Stream(b)
  {
    hide Encode;
    if a == [] {
      assert a + b == b;
    } else {
      assert (a + b)[1..] == a[1..] + b;
      StreamAppend(a[1..], b);
    }
  }

  /* ---- messages from the daemon ---- */

  // The fields of an unmarshalled frame that decide what becomes of it; "" is an absent one.
  datatype Inbound = Inbound(id: string, name: string, body: string)

  function Response(decode: string -> Option<Inbound>, payload: string): seq<Inbound> {
    var m := decode(payload);
    if m.Some? && m.value.name == "" then [m.value] else []
  }

  function Answer(decode: string -> Option<Inbound>, reply: Inbound -> string, payload: string): seq<string> {
    var m := decode(payload);
    if m.Some? && m.value.name != "" && m.value.id != "" then [reply(m.value)] else []
  }

  // The responses among the frames, in order; a frame that does not parse is discarded.
  function Responses(decode: string -> Option<Inbound>, payloads: seq<string>): seq<Inbound> {
    if payloads == [] then [] else Response(decode, payloads[0]) + Responses(decode, payloads[1..])
  }

  // The answers to the requests among the frames, in order.
  function Answers(decode: string -> Option<Inbound>, reply: Inbound -> string, payloads: seq<string>): seq<string> {
    if payloads == [] then [] else Answer(decode, reply, payloads[0]) + Answers(decode, reply, payloads[1..])
  }

  // The messages without a method name, in the order in which their frames arrived, and no others.
  ghost predicate AreResponses(decode: string -> Option<Inbound>, payloads: seq<string>, messages: seq<Inbound>) {
    exists at: seq<nat> :: IndexResponses(decode, payloads, messages, at)
  }

  // Message k came in frame at[k].
  ghost predicate IndexResponses(decode: string -> Option<Inbound>, payloads: seq<string>, messages: seq<Inbound>,
                                 at: seq<nat>) {
    && |at| == |messages| && (forall j, k | 0 <= j < k < |at| :: at[j] < at[k])
    && (forall k | 0 <= k < |at| :: at[k] < |payloads| && decode(payloads[at[k]]) == Some(messages[k]))
    && (forall i: nat | i < |payloads| ::
          i in at <==> decode(payloads[i]).Some? && decode(payloads[i]).value.name == "")
  }

  // The answers to the messages with a method name and an id, in order of arrival, and no others.
  ghost predicate AreAnswers(decode: string -> Option<Inbound>, reply: Inbound -> string, payloads: seq<string>,
                             answers: seq<string>) {
    exists at: seq<nat> :: IndexAnswers(decode, reply, payloads, answers, at)
  }

  // Answer k is to the message in frame at[k].
  ghost predicate IndexAnswers(decode: string -> Option<Inbound>, reply: Inbound -> string, payloads: seq<string>,
                               answers: seq<string>, at: seq<nat>) {
    && |at| == |answers| && (forall j, k | 0 <= j < k < |at| :: at[j] < at[k])
    && (forall k | 0 <= k < |at| :: at[k] < |payloads| && decode(payloads[at[k]]).Some?
                                    && answers[k] == reply(decode(payloads[at[k]]).value))
    && (forall i: nat | i < |payloads| ::
          i in at <==>
          decode(payloads[i]).Some? && decode(payloads[i]).value.name != "" && decode(payloads[i]).value.id != "")
  }

  lemma IndexResponsesSnoc(decode: string -> Option<Inbound>, init: seq<string>, last: string,
                           messages: seq<Inbound>, at: seq<nat>)
    requires IndexResponses(decode, init, messages, at)
    ensures IndexResponses(decode, init + [last], messages + Response(decode, last),
                           at + if Response(decode, last) == [] then [] else [|init|])
  {
    var all, n := init + [last], |init|;
    var more := at + if Response(decode, last) == [] then [] else [n];
    assert forall i: nat | i < n :: all[i] == init[i];
    assert forall i | i in at :: i < n;
    forall i: nat | i < n ensures i in more <==> i in at {
    }
  }

  lemma IndexAnswersSnoc(decode: string -> Option<Inbound>, reply: Inbound -> string, init: seq<string>, last: string,
                         answers: seq<string>, at: seq<nat>)
    requires IndexAnswers(decode, reply, init, answers, at)
    ensures IndexAnswers(decode, reply, init + [last], answers + Answer(decode, reply, last),
                         at + if Answer(decode, reply, last) == [] then [] else [|init|])
  {
    var all, n := init + [last], |init|;
    var more := at + if Answer(decode, reply, last) == [] then [] else [n];
    assert forall i: nat | i < n :: all[i] == init[i];
    assert forall i | i in at :: i < n;
    forall i: nat | i < n ensures i in more <==> i in at {
    }
  }

  lemma {:induction false} ResponsesExactly(decode: string -> Option<Inbound>, payloads: seq<string>)
    ensures AreResponses(decode, payloads, Responses(decode, payloads))
  {
    hide Response;
    if payloads == [] {
      assert IndexResponses(decode, payloads, [], []);
    } else {
      var n := |payloads| - 1;
      var init := payloads[..n];
      assert payloads == init + [payloads[n]];
      ResponsesExactly(decode, init);
      ResponsesSnoc(decode, init, payloads[n]);
      var at: seq<nat> :| IndexResponses(decode, init, Responses(decode, init), at);
      IndexResponsesSnoc(decode, init, payloads[n], Responses(decode, init), at);
    }
  }

  lemma {:induction false} AnswersExactly(decode: string -> Option<Inbound>, reply: Inbound -> string,
                                          payloads: seq<string>)
    ensures AreAnswers(decode, reply, payloads, Answers(decode, reply, payloads))
  {
    hide Answer;
    if payloads == [] {
      assert IndexAnswers(decode, reply, payloads, [], []);
    } else {
      var n := |payloads| - 1;
      var init := payloads[..n];
      assert payloads == init + [payloads[n]];
      AnswersExactly(decode, reply, init);
      AnswersSnoc(decode, reply, init, payloads[n]);
      var at: seq<nat> :| IndexAnswers(decode, reply, init, Answers(decode, reply, init), at);
      IndexAnswersSnoc(decode, reply, init, payloads[n], Answers(decode, reply, init), at);
    }
  }

  lemma NothingHandled(decode: string -> Option<Inbound>, reply: Inbound -> string)
    ensures Responses(decode, []) == [] && Stream(Answers(decode, reply, [])) == ""
  {
  }

  lemma {:induction false} ResponsesSnoc(decode: string -> Option<Inbound>, payloads: seq<string>, payload: string)
    ensures Responses(decode, payloads + [payload]) == Responses(decode, payloads) + Response(decode, payload)
  {
    hide Response;
    if payloads == [] {
      assert payloads + [payload] == [payload] && [payload][1..] == [];
    } else {
      assert (payloads + [payload])[1..] == payloads[1..] + [payload];
      ResponsesSnoc(decode, payloads[1..], payload);
    }
  }

  lemma {:induction false} AnswersSnoc(decode: string -> Option<Inbound>, reply: Inbound -> string,
                                       payloads: seq<string>, payload: string)
    ensures Answers(decode, reply, payloads + [payload])
            == Answers(decode, reply, payloads) + Answer(decode, reply, payload)
  {
    hide Answer;
    if payloads == [] {
      assert payloads + [payload] == [payload] && [payload][1..] == [];
    } else {
      assert (payloads + [payload])[1..] == payloads[1..] + [payload];
      AnswersSnoc(decode, reply, payloads[1..], payload);
    }
  }

  lemma HandledAs(decode: string -> Option<Inbound>, reply: Inbound -> string, payload: string)
    ensures decode(payload).None? ==> Response(decode, payload) == [] && Stream(Answer(decode, reply, payload)) == ""
    ensures decode(payload).Some? ==>
              var m := decode(payload).value;
              && Response(decode, payload) == (if m.name == "" then [m] else [])
              && Stream(Answer(decode, reply, payload))
                 == if m.name != "" && m.id != "" then Encode(reply(m)) else ""
  {
    hide Encode;
    var m := decode(payload);
    if m.Some? && Answer(decode, reply, payload) != [] {
      StreamHead([reply(m.value)]);
      assert Stream([]) == "" && [reply(m.value)][1..] == [];
    }
  }

  // The two pipes of a daemon.
  class Stdio {
    var input: string     // what the daemon has written and nobody has read
    var output: string    // what has been written to the daemon

    const decode: string -> Option<Inbound>   // json.Unmarshal of a frame
    const reply: Inbound -> string            // the marshalled answer to a request

    constructor (stdout: string, decode: string -> Option<Inbound>, reply: Inbound -> string)
      ensures input == stdout && output == "" && this.decode == decode && this.reply == reply
    {
      input, output := stdout, "";
      this.decode, this.reply := decode, reply;
    }

    // write, for a body that has been marshalled.
    method Write(payload: string)
      modifies this`output
      ensures output == old(output) + Encode(payload)
      ensures output == old(output) + "Content-Length: " + Dec(|payload|) + "\r\n\r\n" + payload
    {
      output := output + LENGTH_KEY + ": " + Dec(|payload|) + CRLF + CRLF;
      output := output + payload;
      assert old(output) + LENGTH_KEY + ": " + Dec(|payload|) + CRLF + CRLF + payload == old(output) + Encode(payload);
    }

    // read; after an error the stream is not read again.
    method Read() returns (payload: string, error: Option<ReadError>)
      modifies this`input
      ensures error.None? ==> ReadFrame(old(input)) == Frame(payload, input)
      ensures error.Some? ==> ReadFrame(old(input)) == FrameFail(error.value)
    {
      var header := ReadMIMEHeader(input);
      if header.HeaderFail? {
        return "", Some(header.error);
      }
      input := header.rest;
      var raw := GetLength(header.fields);
      if raw == "" {
        return "", Some(MissingLength);
      }
      var size := Atoi(raw);
      if size.None? {
        return "", Some(BadLength);
      }
      if size.value < 0 || size.value > MAX_MESSAGE_BYTES {
        return "", Some(TooLarge);
      }
      if |input| < size.value {
        return "", Some(ShortRead);
      }
      payload, error := input[..size.value], None;
      input := input[size.value..];
    }

    // One frame: a message without a method name is handed on, one with a name and an id is
    // answered, and nothing happens to any other or to a frame that does not parse.
    method Handle(payload: string) returns (response: seq<Inbound>)
      modifies this`output
      ensures decode(payload).None? ==> response == [] && output == old(output)
      ensures decode(payload).Some? ==>
                var m := decode(payload).value;
                && response == (if m.name == "" then [m] else [])
                && output == old(output) + (if m.name != "" && m.id != "" then Encode(reply(m)) else "")
    {
      response := [];
      var m := decode(payload);
      if m.Some? {
        if m.value.name != "" && m.value.id != "" {
          Write(reply(m.value));
        } else if m.value.name == "" {
          response := [m.value];
        }
      }
    }

    // readLoop: every response is dispatched and every request answered once, in order of
    // arrival, until the stream ends or breaks.
    method ReadLoop() returns (dispatched: seq<Inbound>, error: ReadError)
      modifies this
      ensures var (payloads, failure) := ReadAll(old(input));
              && error == failure && AreResponses(decode, payloads, dispatched)
              && exists answers ::
                   AreAnswers(decode, reply, payloads, answers) && output == old(output) + Stream(answers)
    {
      hide ReadFrame, ReadAll, Encode, Stream, Responses, Answers, Response, Answer;
      dispatched := [];
      ghost var payloads: seq<string> := [];
      assert payloads + ReadAll(input).0 == ReadAll(input).0;
      NothingHandled(decode, reply);
      while true
        invariant ReadAll(old(input)) == (payloads + ReadAll(input).0, ReadAll(input).1)
        invariant dispatched == Responses(decode, payloads)
        invariant output == old(output) + Stream(Answers(decode, reply, payloads))
        decreases |input|
      {
        ghost var before := input;
        var payload, failed := Read();
        if failed.Some? {
          ReadAllEnd(before, failed.value);
          assert payloads + [] == payloads;
          ResponsesExactly(decode, payloads);
          AnswersExactly(decode, reply, payloads);
          return dispatched, failed.value;
        }
        ReadAllStep(before, payload, input);
        assert payloads + ([payload] + ReadAll(input).0) == (payloads + [payload]) + ReadAll(input).0;
        ResponsesSnoc(decode, payloads, payload);
        AnswersSnoc(decode, reply, payloads, payload);
        StreamAppend(Answers(decode, reply, payloads), Answer(decode, reply, payload));
        HandledAs(decode, reply, payload);
        payloads := payloads + [payload];
        var response := Handle(payload);
        dispatched := dispatched + response;
      }
    }
  }

  /* ---- reading back a frame ---- */

  // A line's end: nothing in it is a line feed, and it does not end in a carriage return.
  predicate PlainLine(s: string) { '\n' !in s && '\r' !in s }

  lemma {:induction false} ReadLineAt(line: string, rest: string)
    requires PlainLine(line)
    ensures ReadLine(line + (CRLF + rest)) == (line, rest)
  {
    var s := line + (CRLF + rest);
    if line == "" {
      assert s == CRLF + rest && s[0] == '\r' && CRLF <= s && s[2..] == rest;
    } else {
      assert s[1..] == line[1..] + (CRLF + rest);
      ReadLineAt(line[1..], rest);
      assert s[0] == line[0] && !(CRLF <= s);
      assert [line[0]] + line[1..] == line;
    }
  }

  lemma ReadBlankLine(rest: string)
    ensures ReadLine(CRLF + rest) == ("", rest)
  {
    ReadLineAt("", rest);
    assert "" + (CRLF + rest) == CRLF + rest;
  }

  lemma DecPlain(n: nat)
    ensures PlainLine(Dec(n)) && ValueOk(" " + Dec(n)) && SkipGap(" " + Dec(n)) == Dec(n) && DropGap(Dec(n)) == Dec(n)
  {
    var d := Dec(n);
    assert forall i | 0 <= i < |d| :: IsDigit(d[i]);
    assert (" " + d)[1..] == d;
  }

  lemma LengthKey()
    ensures PlainLine(LENGTH_KEY) && KeyOk(LENGTH_KEY) && ':' !in LENGTH_KEY && |LENGTH_KEY| > 0 && !Gap(LENGTH_KEY[0])
  {
  }

  lemma LengthCut(n: nat)
    ensures CutColon(LengthLine(n)) == Some((LENGTH_KEY, " " + Dec(n)))
  {
    hide CutColon, LENGTH_KEY, Dec;
    LengthKey();
    assert LengthLine(n) == LENGTH_KEY + ":" + (" " + Dec(n));
    CutColonAt(LENGTH_KEY, " " + Dec(n));
  }

  lemma LengthTrim(n: nat)
    ensures Trim(LengthLine(n)) == LengthLine(n)
  {
    hide LENGTH_KEY, Dec;
    LengthKey();
    var d := Dec(n);
    assert IsDigit(d[|d| - 1]);
    var l := LengthLine(n);
    assert l[0] == LENGTH_KEY[0] && l[|l| - 1] == d[|d| - 1];
  }

  // The line write puts in the header is one field: the key and the number.
  lemma LengthField(n: nat)
    ensures PlainLine(LengthLine(n)) && Trim(LengthLine(n)) == LengthLine(n)
    ensures CutColon(LengthLine(n)) == Some((LENGTH_KEY, " " + Dec(n))) && KeyOk(LENGTH_KEY)
  {
    hide KeyOk, LENGTH_KEY, Dec, CutColon, Trim;
    DecPlain(n);
    LengthKey();
    LengthCut(n);
    LengthTrim(n);
  }

  // After the first line comes the blank one, and then the payload.
  lemma LengthHeader(n: nat, rest: string)
    ensures ReadMIMEHeader(LengthLine(n) + (CRLF + (CRLF + rest))) == Header([Field(LENGTH_KEY, Dec(n))], rest)
  {
    hide CutColon, Trim, KeyOk, ValueOk, PlainLine, ReadLine, SkipGap;
    var line := LengthLine(n);
    var input := line + (CRLF + (CRLF + rest));
    LengthField(n);
    DecPlain(n);
    ReadLineAt(line, CRLF + rest);
    assert Continue(line, CRLF + rest) == (line, CRLF + rest);
    ReadBlankLine(rest);
    assert ReadFields(CRLF + rest, [Field(LENGTH_KEY, Dec(n))]) == Header([Field(LENGTH_KEY, Dec(n))], rest);
    assert input[0] == 'C' && ':' in line;
    assert [] + [Field(LENGTH_KEY, Dec(n))] == [Field(LENGTH_KEY, Dec(n))];
  }

  // A frame whose payload got cut reads short; a whole one gives its payload and what follows.
  lemma ReadEncoded(payload: string, rest: string, n: nat)
    requires |payload| <= MAX_MESSAGE_BYTES && n <= |payload|
    ensures ReadFrame(Encode(payload) + rest) == Frame(payload, rest)
    ensures n < |payload| ==> ReadFrame(LengthLine(|payload|) + (CRLF + (CRLF + payload[..n]))) == FrameFail(ShortRead)
  {
    hide ReadMIMEHeader, Atoi, LengthLine;
    LengthHeader(|payload|, payload + rest);
    LengthHeader(|payload|, payload[..n]);
    AtoiDecExactly(|payload|);
    var line := LengthLine(|payload|);
    assert Encode(payload) + rest == line + (CRLF + (CRLF + (payload + rest)));
    assert (payload + rest)[..|payload|] == payload && (payload + rest)[|payload|..] == rest;
  }

  // A sign and digits, nothing else, and within 64 bits.
  lemma AtoiExactly(sign: string, digits: string)
    requires sign in {"", "+", "-"} && (digits != "" ==> digits[0] != '+' && digits[0] != '-')
    ensures var size: int := if AllDigits(digits) then ParseDigits(digits) else 0;
            var n := if sign == "-" then -size else size;
            Atoi(sign + digits)
            == if digits == "" || !AllDigits(digits) || n < -9223372036854775808 || n > 9223372036854775807
               then None else Some(n)
  {
    var s := sign + digits;
    if sign != "" {
      assert s[1..] == digits && s[0] == sign[0];
    } else {
      assert s == digits;
    }
  }

  lemma AtoiDecExactly(n: nat)
    ensures Dec(n) != "" && Atoi(Dec(n)) == if n > 9223372036854775807 then None else Some(n)
  {
    ParseDec(n);
    assert IsDigit(Dec(n)[0]);
    AtoiExactly("", Dec(n));
    assert "" + Dec(n) == Dec(n);
  }

  lemma ReadAllStep(input: string, payload: string, rest: string)
    requires ReadFrame(input) == Frame(payload, rest)
    ensures ReadAll(input) == ([payload] + ReadAll(rest).0, ReadAll(rest).1)
  {
    hide ReadFrame;
  }

  lemma ReadAllEnd(input: string, error: ReadError)
    requires ReadFrame(input) == FrameFail(error)
    ensures ReadAll(input) == ([], error)
  {
    hide ReadFrame;
  }

  // Frames written one after the other read back as the same payloads, then end of stream.
  lemma {:induction false} FrameRoundTrip(payloads: seq<string>)
    requires forall i | 0 <= i < |payloads| :: |payloads[i]| <= MAX_MESSAGE_BYTES
    ensures ReadAll(Stream(payloads)) == (payloads, EndOfStream)
  {
    if payloads == [] {
      assert ReadFrame("") == FrameFail(EndOfStream);
    } else {
      hide *;
      StreamHead(payloads);
      ReadEncoded(payloads[0], Stream(payloads[1..]), 0);
      FrameRoundTrip(payloads[1..]);
      ReadAllStep(Stream(payloads), payloads[0], Stream(payloads[1..]));
      assert [payloads[0]] + payloads[1..] == payloads;
    }
  }

  /* ---- a stream that ends early ---- */

  // The error for a frame with a payload of n bytes of which only the first bytes got through.
  function CutError(n: nat, bytes: nat): ReadError {
    var line := |LengthLine(n)|;
    if bytes == 0 || |LENGTH_KEY| < bytes <= line || bytes == line + 2 then EndOfStream
    else if bytes < line + 4 then BadHeader
    else ShortRead
  }

  lemma {:induction false} ReadLastLine(line: string)
    requires PlainLine(line) && line != ""
    ensures ReadLine(line) == (line, "") && ReadLine(line + "\r") == (line + "\r", "")
  {
    var s := line + "\r";
    assert s[1..] == line[1..] + "\r" && s[0] == line[0];
    if |line| == 1 {
      assert s[1..] == "\r" && line == [line[0]];
    } else {
      ReadLastLine(line[1..]);
      assert [line[0]] + line[1..] == line && [line[0]] + (line[1..] + "\r") == s;
    }
  }

  lemma FieldsAtEnd(fields: seq<Field>)
    ensures ReadFields("", fields) == HeaderFail(EndOfStream) && ReadFields("\r", fields) == HeaderFail(BadHeader)
  {
  }

  // One field line; after is what follows its end.
  lemma OneField(input: string, line: string, after: string, key: string, value: string)
    requires input != "" && !Gap(input[0]) && ReadLine(input) == (line, after) && line != "" && ':' in line
    requires Trim(line) == key + ":" + value && ':' !in key && KeyOk(key)
    requires after == "" || after == "\r"
    ensures ReadMIMEHeader(input) == HeaderFail(if ValueOk(value) && after == "" then EndOfStream else BadHeader)
  {
    hide KeyOk, ValueOk, CutColon, Trim, ReadLine;
    CutColonAt(key, value);
    assert Continue(Trim(line), after) == (Trim(line), after);
    FieldsAtEnd([] + [Field(key, SkipGap(value))]);
  }

  // What the length line is cut to after its colon.
  lemma CutLine(n: nat, bytes: nat) returns (value: string)
    requires |LENGTH_KEY| < bytes <= |LengthLine(n)|
    ensures Trim(LengthLine(n)[..bytes]) == LENGTH_KEY + ":" + value && ValueOk(value)
  {
    hide LENGTH_KEY, Dec, Trim, TokenChar;
    LengthKey();
    DecPlain(n);
    var cut := LengthLine(n)[..bytes];
    var k := |LENGTH_KEY|;
    if bytes <= k + 2 {
      value := "";
      TrimCut(LENGTH_KEY + ":", bytes == k + 2);
      assert cut == (LENGTH_KEY + ":") + if bytes == k + 2 then " " else "";
      assert LENGTH_KEY + ":" + "" == LENGTH_KEY + ":";
    } else {
      var d := Dec(n)[..bytes - k - 2];
      value := " " + d;
      assert Dec(n)[|d| - 1] == d[|d| - 1] && IsDigit(d[|d| - 1]);
      assert cut == LENGTH_KEY + ":" + value;
      assert forall i | 0 <= i < |value| :: value[i] == (" " + Dec(n))[i];
      TrimCut(cut, false);
      assert cut + "" == cut;
    }
  }

  lemma TrimCut(s: string, gap: bool)
    requires s != "" && !Gap(s[0]) && !Gap(s[|s| - 1])
    ensures Trim(s + if gap then " " else "") == s
  {
    var t := s + if gap then " " else "";
    assert SkipGap(t) == t && DropGap(s) == s;
    if gap {
      assert t[|t| - 1] == ' ' && t[..|t| - 1] == s;
    } else {
      assert t == s;
    }
  }

  // A cut inside the length line: no field before the colon, a field without an end after it.
  lemma CutInLine(n: nat, bytes: nat)
    requires bytes <= |LengthLine(n)|
    ensures ReadFrame(LengthLine(n)[..bytes]) == FrameFail(CutError(n, bytes))
  {
    hide LENGTH_KEY, KeyOk, ValueOk, Trim, ReadLine, CutColon, Dec;
    var cut := LengthLine(n)[..bytes];
    LengthKey();
    LengthField(n);
    if bytes > 0 {
      PlainPrefix(LengthLine(n), bytes);
      ReadLastLine(cut);
      assert cut[0] == LENGTH_KEY[0];
      if bytes <= |LENGTH_KEY| {
        assert cut == LENGTH_KEY[..bytes] && ':' !in cut;
      } else {
        assert cut[|LENGTH_KEY|] == ':';
        var value := CutLine(n, bytes);
        OneField(cut, cut, "", LENGTH_KEY, value);
      }
    }
  }

  lemma PlainPrefix(line: string, bytes: nat)
    requires PlainLine(line) && bytes <= |line|
    ensures PlainLine(line[..bytes])
  {
  }

  // A cut inside one of the two line ends.
  lemma CutInLineEnd(n: nat, rest: string)
    requires rest == "\r" || rest == CRLF || rest == CRLF + "\r"
    ensures ReadFrame(LengthLine(n) + rest) == FrameFail(CutError(n, |LengthLine(n)| + |rest|))
  {
    hide LENGTH_KEY, KeyOk, ValueOk, Trim, ReadLine, CutColon, Dec;
    var line := LengthLine(n);
    var input := line + rest;
    LengthKey();
    LengthField(n);
    LengthTrim(n);
    assert line[|LENGTH_KEY|] == ':' && input[0] == LENGTH_KEY[0];
    var value := CutLine(n, |line|);
    assert line[..|line|] == line;
    if rest == "\r" {
      ReadLastLine(line);
      TrimReturn(line);
      assert line + "\r" == LENGTH_KEY + ":" + (value + "\r");
      ReturnNotOk(value);
      OneField(input, line + "\r", "", LENGTH_KEY, value + "\r");
    } else {
      var after := rest[2..];
      assert rest == CRLF + after;
      ReadLineAt(line, after);
      OneField(input, line, after, LENGTH_KEY, value);
    }
  }

  lemma TrimReturn(line: string)
    requires line != "" && !Gap(line[0])
    ensures Trim(line + "\r") == line + "\r"
  {
  }

  lemma ReturnNotOk(value: string)
    ensures !ValueOk(value + "\r")
  {
    assert (value + "\r")[|value|] == '\r';
  }

  /** A frame of which only a part got through reads as exactly this error, wherever it was cut. */
  lemma CutFrameError(payload: string, bytes: nat)
    requires |payload| <= MAX_MESSAGE_BYTES && bytes < |Encode(payload)|
    ensures ReadFrame(Encode(payload)[..bytes]) == FrameFail(CutError(|payload|, bytes))
  {
    hide ReadFrame, LengthLine;
    var line := LengthLine(|payload|);
    var cut := Encode(payload)[..bytes];
    LengthField(|payload|);
    if bytes <= |line| {
      assert cut == line[..bytes];
      CutInLine(|payload|, bytes);
    } else if bytes < |line| + 4 {
      var rest := (CRLF + CRLF)[..bytes - |line|];
      assert cut == line + rest;
      assert rest == "\r" || rest == CRLF || rest == CRLF + "\r";
      CutInLineEnd(|payload|, rest);
    } else {
      var n := bytes - |line| - 4;
      assert cut == line + (CRLF + (CRLF + payload[..n]));
      ReadEncoded(payload, "", n);
      KeyBeforeEnd(|payload|);
    }
  }

  lemma KeyBeforeEnd(n: nat)
    ensures |LENGTH_KEY| < |LengthLine(n)|
  {
  }

  // A frame that was cut anywhere is never mistaken for a frame.
  lemma CutFrame(payload: string, cut: string)
    requires |payload| <= MAX_MESSAGE_BYTES && cut <= Encode(payload) && cut != Encode(payload)
    ensures ReadFrame(cut).FrameFail?
  {
    hide ReadFrame, Encode;
    assert cut == Encode(payload)[..|cut|];
    CutFrameError(payload, |cut|);
  }

  /** When a broken frame reads as a clean end of stream: exactly when nothing of it got through,
      or it was cut in its first line after the colon, or right after that line's end. */
  lemma CutReadsAsEndExactly(payload: string, cut: string)
    requires |payload| <= MAX_MESSAGE_BYTES && cut <= Encode(payload) && cut != Encode(payload)
    ensures var line := LengthLine(|payload|);
            ReadFrame(cut) == FrameFail(EndOfStream)
            <==> cut == "" || |LENGTH_KEY| < |cut| <= |line| || |cut| == |line| + 2
  {
    hide ReadFrame, LengthLine, Encode;
    assert cut == Encode(payload)[..|cut|];
    CutFrameError(payload, |cut|);
  }

  // What the read loop takes for a closed pipe rather than a broken stream: io.EOF and
  // io.ErrUnexpectedEOF, wrapped or not, and a short read wraps one of the two.
  predicate ClosedPipe(error: ReadError) { error.EndOfStream? || error.ShortRead? }

  /** When the read loop takes a broken frame for a closed pipe: unless it was cut before the colon
      of its first line, or between the two bytes of one of its line ends. */
  lemma CutTakenForCloseExactly(payload: string, bytes: nat)
    requires |payload| <= MAX_MESSAGE_BYTES && bytes < |Encode(payload)|
    ensures var line := |LengthLine(|payload|)|;
            var f := ReadFrame(Encode(payload)[..bytes]);
            f.FrameFail?
            && (ClosedPipe(f.error)
                <==> bytes == 0 || |LENGTH_KEY| < bytes <= line || bytes == line + 2 || bytes >= line + 4)
  {
    hide ReadFrame, LengthLine, Encode;
    CutFrameError(payload, bytes);
  }

  // How many whole frames the first n bytes of the stream hold.
  function Whole(payloads: seq<string>, n: nat): (k: nat)
    ensures k <= |payloads|
  {
    if payloads == [] || n < |Encode(payloads[0])| then 0 else 1 + Whole(payloads[1..], n - |Encode(payloads[0])|)
  }

  // How many bytes of the frame after those got through.
  function Left(payloads: seq<string>, n: nat): nat {
    if payloads == [] || n < |Encode(payloads[0])| then n else Left(payloads[1..], n - |Encode(payloads[0])|)
  }

  lemma {:induction false} WholeAndLeft(payloads: seq<string>, n: nat)
    ensures n == |Stream(payloads[..Whole(payloads, n)])| + Left(payloads, n)
    ensures Whole(payloads, n) < |payloads| ==> Left(payloads, n) < |Encode(payloads[Whole(payloads, n)])|
    ensures n <= |Stream(payloads)| && Whole(payloads, n) == |payloads| ==> Left(payloads, n) == 0
  {
    hide Encode;
    if payloads != [] && n >= |Encode(payloads[0])| {
      var m := n - |Encode(payloads[0])|;
      var k := Whole(payloads[1..], m);
      WholeAndLeft(payloads[1..], m);
      assert payloads[..k + 1][1..] == payloads[1..][..k];
    }
  }

  // The error that ends a stream cut after n bytes.
  function CutStreamError(payloads: seq<string>, n: nat): ReadError {
    var k := Whole(payloads, n);
    if k == |payloads| then EndOfStream else CutError(|payloads[k]|, Left(payloads, n))
  }

  /** A daemon that dies while writing: whatever prefix of its stream got through, the read loop
      hands on exactly the whole frames in it and ends with the error of the frame that broke. */
  lemma {:induction false} CutStream(payloads: seq<string>, n: nat)
    requires forall i | 0 <= i < |payloads| :: |payloads[i]| <= MAX_MESSAGE_BYTES
    requires n <= |Stream(payloads)|
    ensures ReadAll(Stream(payloads)[..n]) == (payloads[..Whole(payloads, n)], CutStreamError(payloads, n))
  {
    hide ReadFrame, ReadAll, Encode, CutError;
    var text := Stream(payloads)[..n];
    if payloads == [] {
      FrameRoundTrip([]);
    } else if n < |Encode(payloads[0])| {
      assert text == Encode(payloads[0])[..n];
      CutFrameError(payloads[0], n);
      ReadAllEnd(text, CutError(|payloads[0]|, n));
    } else {
      var e := Encode(payloads[0]);
      var m := n - |e|;
      var rest := Stream(payloads[1..]);
      assert text == e + rest[..m];
      CutStream(payloads[1..], m);
      ReadEncoded(payloads[0], rest[..m], 0);
      ReadAllStep(text, payloads[0], rest[..m]);
      assert payloads[..1 + Whole(payloads[1..], m)] == [payloads[0]] + payloads[1..][..Whole(payloads[1..], m)];
    }
  }
}
