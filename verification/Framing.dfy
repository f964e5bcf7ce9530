/** Messages on a byte stream: a header block that gives the length, an empty line, the payload. One
    `char` stands for one byte. */
module Framing {
  import opened Wrappers
  import Scanners

  const MAX_MESSAGE_BYTES := 64 * 1024 * 1024
  const MAX_INT := 0x7fff_ffff_ffff_ffff
  const MIN_INT := -0x8000_0000_0000_0000

  // ----- Decimal numbers -----

  function Digit(d: nat): char
    requires d < 10
  {
    '0' + d as char
  }

  function Decimal(n: nat): string {
    if n < 10 then [Digit(n)] else Decimal(n / 10) + [Digit(n % 10)]
  }

  predicate IsDigit(c: char) {
    '0' <= c <= '9'
  }

  function Digits(s: string): Option<nat> {
    if s == [] || !IsDigit(s[|s| - 1]) then None
    else
      var last := (s[|s| - 1] - '0') as nat;
      if |s| == 1 then Some(last)
      else match Digits(s[..|s| - 1])
        case None => None
        case Some(n) => Some(10 * n + last)
  }

  /** Decimal digits with an optional sign, in the range of a 64-bit integer. */
  function Atoi(s: string): Option<int> {
    var negative := s != [] && s[0] == '-';
    var digits := if s != [] && (s[0] == '-' || s[0] == '+') then s[1..] else s;
    match Digits(digits)
    case None => None
    case Some(n) =>
      var value: int := if negative then -(n as int) else n;
      if MIN_INT <= value <= MAX_INT then Some(value) else None
  }

  lemma {:induction false} DecimalRoundTrip(n: nat)
    ensures Digits(Decimal(n)) == Some(n)
    ensures Decimal(n) != [] && forall i :: 0 <= i < |Decimal(n)| ==> IsDigit(Decimal(n)[i])
  {
    if n >= 10 {
      DecimalRoundTrip(n / 10);
      var s := Decimal(n);
      assert s[..|s| - 1] == Decimal(n / 10) && s[|s| - 1] == Digit(n % 10);
    }
  }

  // ----- Text -----

  predicate Ascii(s: string) {
    forall i :: 0 <= i < |s| ==> s[i] < 128 as char
  }

  predicate IsSpace(c: char) {
    c == ' ' || 9 as char <= c <= 13 as char
  }

  function TrimLeft(s: string): string {
    if s != [] && IsSpace(s[0]) then TrimLeft(s[1..]) else s
  }

  function TrimEnd(s: string): string {
    if s != [] && IsSpace(s[|s| - 1]) then TrimEnd(s[..|s| - 1]) else s
  }

  /** Trimming of Unicode white space, of which only the behaviour on ASCII text is used. */
  ghost predicate TrimsAscii(trim: string -> string) {
    forall s :: Ascii(s) ==> trim(s) == TrimEnd(TrimLeft(s))
  }

  predicate LineEnd(c: char) {
    c == '\r' || c == '\n'
  }

  function TrimLineEnd(s: string): string {
    if s != [] && LineEnd(s[|s| - 1]) then TrimLineEnd(s[..|s| - 1]) else s
  }

  /** The first position of `c`, or the length. */
  function Index(s: string, c: char): (i: nat)
    ensures i <= |s|
    ensures i < |s| ==> s[i] == c
    ensures c !in s[..i]
  {
    if s == [] || s[0] == c then 0 else 1 + Index(s[1..], c)
  }

  lemma {:induction false} IndexSkips(a: string, c: char, b: string)
    requires c !in a
    ensures Index(a + [c] + b, c) == |a|
  {
    if a == [] {
      assert a + [c] + b == [c] + b;
    } else {
      IndexSkips(a[1..], c, b);
      assert a[0] in a;
      assert (a + [c] + b)[1..] == a[1..] + [c] + b;
    }
  }

  // ----- Reading -----

  datatype ReadError = EndOfStream | BadNumber | MissingLength | TooLong | Truncated

  /** What a read returns and what it leaves on the stream. */
  datatype Reading = Reading(result: Result<string, ReadError>, rest: string)

  datatype Header = Header(length: Result<int, ReadError>, rest: string)

  const CONTENT_LENGTH := "Content-Length"

  /** The effect of one header line on the length read so far. The name is compared without regard to
      case; no character outside ASCII folds to a letter of it. */
  function LineEffect(line: string, length: int, trim: string -> string): Result<int, ReadError> {
    var colon := Index(line, ':');
    if colon == |line| || !Scanners.EqualFold(trim(line[..colon]), CONTENT_LENGTH) then Ok(length)
    else match Atoi(trim(line[colon + 1..]))
      case None => Err(BadNumber)
      case Some(n) => Ok(n)
  }

  function ReadHeader(stream: string, length: int, trim: string -> string): Header
    decreases |stream|
  {
    var i := Index(stream, '\n');
    if i == |stream| then Header(Err(EndOfStream), "")
    else
      var line := TrimLineEnd(stream[..i + 1]);
      var after := stream[i + 1..];
      if line == "" then Header(Ok(length), after)
      else match LineEffect(line, length, trim)
        case Err(e) => Header(Err(e), after)
        case Ok(n) => ReadHeader(after, n, trim)
  }

  function ReadBody(length: int, stream: string): Reading {
    if length < 0 then Reading(Err(MissingLength), stream)
    else if length > MAX_MESSAGE_BYTES then Reading(Err(TooLong), stream)
    else if |stream| < length then Reading(Err(Truncated), "")
    else Reading(Ok(stream[..length]), stream[length..])
  }

  function Read(stream: string, trim: string -> string): Reading {
    var header := ReadHeader(stream, -1, trim);
    match header.length
    case Err(e) => Reading(Err(e), header.rest)
    case Ok(length) => ReadBody(length, header.rest)
  }

  /** A buffered reader; `data` is what it has not handed out yet. */
  class Reader {
    var data: string

    constructor (data: string)
      ensures this.data == data
    {
      this.data := data;
    }

    /** A line with its newline, or nothing when the stream ends first. */
    method ReadLine() returns (line: Option<string>)
      modifies this
      ensures var i := Index(old(data), '\n');
              if i == |old(data)| then line == None && data == "" else line == Some(old(data)[..i + 1]) && data == old(data)[i + 1..]
    {
      var i := Index(data, '\n');
      if i == |data| {
        data := "";
        return None;
      }
      line := Some(data[..i + 1]);
      data := data[i + 1..];
    }

    method ReadFull(n: nat) returns (payload: Option<string>)
      modifies this
      ensures if |old(data)| < n then payload == None && data == "" else payload == Some(old(data)[..n]) && data == old(data)[n..]
    {
      if |data| < n {
        data := "";
        return None;
      }
      payload := Some(data[..n]);
      data := data[n..];
    }
  }

  /** The length after one header line. */
  method ReadHeaderLine(line: string, length: int, trim: string -> string) returns (r: Result<int, ReadError>)
    ensures r == LineEffect(line, length, trim)
  {
    var colon := Index(line, ':');
    if colon == |line| {
      return Ok(length);
    }
    if Scanners.EqualFold(trim(line[..colon]), CONTENT_LENGTH) {
      var parsed := Atoi(trim(line[colon + 1..]));
      if parsed.None? {
        return Err(BadNumber);
      }
      return Ok(parsed.value);
    }
    return Ok(length);
  }

  method ReadMessage(reader: Reader, trim: string -> string) returns (r: Result<string, ReadError>)
    modifies reader
    ensures Reading(r, reader.data) == Read(old(reader.data), trim)
  {
    var contentLength := -1;
    while true
      invariant ReadHeader(reader.data, contentLength, trim) == ReadHeader(old(reader.data), -1, trim)
      decreases |reader.data|
    {
      var next := reader.ReadLine();
      if next.None? {
        return Err(EndOfStream);
      }
      var line := TrimLineEnd(next.value);
      if line == "" {
        break;
      }
      var parsed := ReadHeaderLine(line, contentLength, trim);
      if parsed.Err? {
        return Err(parsed.error);
      }
      contentLength := parsed.value;
    }
    if contentLength < 0 {
      return Err(MissingLength);
    }
    if contentLength > MAX_MESSAGE_BYTES {
      return Err(TooLong);
    }
    var payload := reader.ReadFull(contentLength);
    r := if payload.Some? then Ok(payload.value) else Err(Truncated);
  }

  // ----- Writing -----

  function LengthLine(payload: string): string {
    CONTENT_LENGTH + ": " + Decimal(|payload|)
  }

  function Framed(payload: string): string {
    LengthLine(payload) + "\r\n" + "\r\n" + payload
  }

  class Writer {
    var data: string

    constructor ()
      ensures data == ""
    {
      data := "";
    }
  }

  method WriteMessage(out: Writer, payload: string)
    modifies out
    ensures out.data == old(out.data) + Framed(payload)
    ensures out.data == old(out.data) + ("Content-Length: " + Decimal(|payload|) + "\r\n\r\n" + payload)
  {
    out.data := out.data + CONTENT_LENGTH + ": " + Decimal(|payload|) + "\r\n\r\n" + payload;
    assert "\r\n\r\n" == "\r\n" + "\r\n";
  }

  // ----- What is written is read back -----

  /** A line of a header block: not empty, without line ends of its own. */
  predicate IsLine(line: string) {
    line != "" && forall i :: 0 <= i < |line| ==> !LineEnd(line[i])
  }

  lemma TrimmedLine(line: string)
    requires forall i :: 0 <= i < |line| ==> !LineEnd(line[i])
    ensures TrimLineEnd(line + "\r\n") == line
  {
    var whole := line + "\r\n";
    assert whole[..|whole| - 1] == line + "\r" && (line + "\r")[..|line|] == line;
    assert TrimLineEnd(whole) == TrimLineEnd(line + "\r") == TrimLineEnd(line);
  }

  /** Reading past one header line. */
  lemma ReadLineOff(line: string, more: string, length: int, trim: string -> string)
    requires forall i :: 0 <= i < |line| ==> !LineEnd(line[i])
    ensures ReadHeader(line + "\r\n" + more, length, trim) ==
            if line == "" then Header(Ok(length), more)
            else if LineEffect(line, length, trim).Err? then Header(Err(LineEffect(line, length, trim).error), more)
            else ReadHeader(more, LineEffect(line, length, trim).value, trim)
  {
    var stream := line + "\r\n" + more;
    assert stream == (line + "\r") + ['\n'] + more;
    IndexSkips(line + "\r", '\n', more);
    assert stream[..|line| + 2] == line + "\r\n" && stream[|line| + 2..] == more;
    TrimmedLine(line);
  }

  lemma {:induction false} TrimsNothing(s: string)
    requires s != [] && !IsSpace(s[0]) && !IsSpace(s[|s| - 1])
    ensures TrimEnd(TrimLeft(s)) == s && TrimEnd(TrimLeft(" " + s)) == s
  {
    assert (" " + s)[1..] == s;
  }

  /** The length line sets the length of the payload, whatever was read before. */
  lemma LengthLineEffect(payload: string, length: int, trim: string -> string)
    requires TrimsAscii(trim)
    ensures IsLine(LengthLine(payload))
    ensures LineEffect(LengthLine(payload), length, trim) == if |payload| <= MAX_INT then Ok(|payload|) else Err(BadNumber)
  {
    LengthLineParts(payload);
    TrimmedParts(|payload|, trim);
    AtoiOfDecimal(|payload|);
  }

  lemma LengthLineParts(payload: string)
    ensures IsLine(LengthLine(payload)) && |LengthLine(payload)| > 15 && Index(LengthLine(payload), ':') == 14
    ensures LengthLine(payload)[..14] == CONTENT_LENGTH && LengthLine(payload)[15..] == " " + Decimal(|payload|)
  {
    DecimalRoundTrip(|payload|);
    assert LengthLine(payload) == CONTENT_LENGTH + [':'] + (" " + Decimal(|payload|));
    IndexSkips(CONTENT_LENGTH, ':', " " + Decimal(|payload|));
  }

  lemma TrimmedParts(n: nat, trim: string -> string)
    requires TrimsAscii(trim)
    ensures trim(CONTENT_LENGTH) == CONTENT_LENGTH && trim(" " + Decimal(n)) == Decimal(n)
  {
    DecimalRoundTrip(n);
    assert Ascii(CONTENT_LENGTH) && Ascii(" " + Decimal(n));
    TrimsNothing(CONTENT_LENGTH);
    TrimsNothing(Decimal(n));
  }

  /** The decimal form of a length is read back as that length, up to the largest 64-bit integer. */
  lemma AtoiOfDecimal(n: nat)
    ensures Atoi(Decimal(n)) == if n <= MAX_INT then Some(n) else None
  {
    DecimalRoundTrip(n);
    assert IsDigit(Decimal(n)[0]);
  }

  /** A sign is read, and the least 64-bit integer is the smallest number that is. */
  lemma AtoiOfSigned(n: nat, plus: string, minus: string)
    requires plus == "+" + Decimal(n) && minus == "-" + Decimal(n)
    ensures Atoi(plus) == if n < 0x8000_0000_0000_0000 then Some(n) else None
    ensures Atoi(minus) == if n <= 0x8000_0000_0000_0000 then Some(-(n as int)) else None
  {
    DecimalRoundTrip(n);
    SignedAtoi('+', Decimal(n), plus, n);
    SignedAtoi('-', Decimal(n), minus, n);
  }

  lemma SignedAtoi(sign: char, digits: string, text: string, n: nat)
    requires (sign == '+' || sign == '-') && text == [sign] + digits && Digits(digits) == Some(n)
    ensures var value: int := if sign == '-' then -(n as int) else n;
            Atoi(text) == if -0x8000_0000_0000_0000 <= value < 0x8000_0000_0000_0000 then Some(value) else None
  {
    assert text[0] == sign && text[1..] == digits;
  }

  /** White space of ASCII that ends no line. */
  predicate Blank(c: char) {
    c as int in {9, 11, 12, 13, 32}
  }

  lemma {:induction false} LeadingBlanks(before: string, s: string)
    requires (forall k :: 0 <= k < |before| ==> Blank(before[k])) && s != "" && !IsSpace(s[0])
    ensures TrimLeft(before + s) == s
  {
    if before == "" {
      assert before + s == s;
    } else {
      LeadingBlanks(before[1..], s);
      assert (before + s)[1..] == before[1..] + s;
    }
  }

  lemma {:induction false} TrailingBlanks(s: string, after: string)
    requires (forall k :: 0 <= k < |after| ==> Blank(after[k])) && s != "" && !IsSpace(s[|s| - 1])
    ensures TrimEnd(s + after) == s
    decreases |after|
  {
    if after == "" {
      assert s + after == s;
    } else {
      TrailingBlanks(s, after[..|after| - 1]);
      assert (s + after)[..|s + after| - 1] == s + after[..|after| - 1];
    }
  }

  /** White space around a number does not matter. */
  lemma BlanksAreTrimmed(before: string, n: nat, after: string, trim: string -> string)
    requires TrimsAscii(trim) && (forall k :: 0 <= k < |before| ==> Blank(before[k])) && (forall k :: 0 <= k < |after| ==> Blank(after[k]))
    ensures trim(before + (Decimal(n) + after)) == Decimal(n)
  {
    DecimalRoundTrip(n);
    TrimmedBoth(before, Decimal(n), after, trim, before + (Decimal(n) + after));
  }

  lemma TrimmedBoth(before: string, number: string, after: string, trim: string -> string, text: string)
    requires TrimsAscii(trim) && (forall k :: 0 <= k < |before| ==> Blank(before[k])) && (forall k :: 0 <= k < |after| ==> Blank(after[k]))
    requires number != "" && (forall k :: 0 <= k < |number| ==> IsDigit(number[k])) && text == before + (number + after)
    ensures trim(text) == number
  {
    LeadingBlanks(before, number + after);
    TrailingBlanks(number, after);
    AsciiParts(before, number, after, text);
  }

  lemma AsciiParts(before: string, number: string, after: string, text: string)
    requires (forall k :: 0 <= k < |before| ==> Blank(before[k])) && (forall k :: 0 <= k < |after| ==> Blank(after[k]))
    requires (forall k :: 0 <= k < |number| ==> IsDigit(number[k])) && text == before + (number + after)
    ensures Ascii(text)
  {
  }

  /** The header of a framed payload gives its length, whatever was read before. */
  lemma FramedHeader(payload: string, tail: string, length: int, trim: string -> string)
    requires TrimsAscii(trim) && |payload| <= MAX_INT
    ensures ReadHeader(Framed(payload) + tail, length, trim) == Header(Ok(|payload|), payload + tail)
  {
    LengthLineEffect(payload, length, trim);
    assert Framed(payload) + tail == LengthLine(payload) + "\r\n" + ("" + "\r\n" + (payload + tail));
    ReadLineOff(LengthLine(payload), "" + "\r\n" + (payload + tail), length, trim);
    ReadLineOff("", payload + tail, |payload|, trim);
  }

  /** One framed payload: read back unchanged when it is no longer than 64 MiB, and refused otherwise. */
  lemma ReadOne(payload: string, tail: string, trim: string -> string)
    requires TrimsAscii(trim) && |payload| <= MAX_INT
    ensures Read(Framed(payload) + tail, trim) ==
            if |payload| <= 67_108_864 then Reading(Ok(payload), tail) else Reading(Err(TooLong), payload + tail)
  {
    FramedHeader(payload, tail, -1, trim);
    assert (payload + tail)[..|payload|] == payload && (payload + tail)[|payload|..] == tail;
  }

  function FramedAll(payloads: seq<string>): string {
    if payloads == [] then "" else Framed(payloads[0]) + FramedAll(payloads[1..])
  }

  /** `n` reads in a row. */
  function ReadMany(stream: string, n: nat, trim: string -> string): (seq<Result<string, ReadError>>, string)
    decreases n
  {
    if n == 0 then ([], stream)
    else
      var first := Read(stream, trim);
      var later := ReadMany(first.rest, n - 1, trim);
      ([first.result] + later.0, later.1)
  }

  function AllOk(payloads: seq<string>): seq<Result<string, ReadError>> {
    if payloads == [] then [] else [Ok(payloads[0])] + AllOk(payloads[1..])
  }

  /** Any payloads, framed one after the other, are read back in order whatever bytes they hold, and
      the reads stop exactly where the last one ends. */
  lemma {:induction false} RoundTrip(payloads: seq<string>, tail: string, trim: string -> string)
    requires TrimsAscii(trim) && forall i :: 0 <= i < |payloads| ==> |payloads[i]| <= MAX_MESSAGE_BYTES
    ensures ReadMany(FramedAll(payloads) + tail, |payloads|, trim) == (AllOk(payloads), tail)
  {
    if payloads == [] {
      assert FramedAll(payloads) + tail == tail;
    } else {
      var more := FramedAll(payloads[1..]) + tail;
      assert FramedAll(payloads) + tail == Framed(payloads[0]) + more;
      ReadOne(payloads[0], more, trim);
      RoundTrip(payloads[1..], tail, trim);
    }
  }

  /** One more read after all the payloads reports the end of the stream, and nothing earlier does. */
  lemma {:induction false} ReadToTheEnd(payloads: seq<string>, trim: string -> string)
    requires TrimsAscii(trim) && forall i :: 0 <= i < |payloads| ==> |payloads[i]| <= MAX_MESSAGE_BYTES
    ensures ReadMany(FramedAll(payloads), |payloads| + 1, trim) == (AllOk(payloads) + [Err(EndOfStream)], "")
  {
    if payloads == [] {
      assert Read("", trim) == Reading(Err(EndOfStream), "");
      assert FramedAll(payloads) == "" && |payloads| + 1 == 1;
      assert ReadMany("", 0, trim).0 == [];
      assert ReadMany("", 1, trim).0 == [Err(EndOfStream)] == AllOk(payloads) + [Err(EndOfStream)];
    } else {
      ReadOne(payloads[0], FramedAll(payloads[1..]), trim);
      ReadToTheEnd(payloads[1..], trim);
      assert [Ok(payloads[0])] + (AllOk(payloads[1..]) + [Err(EndOfStream)]) == AllOk(payloads) + [Err(EndOfStream)];
    }
  }

  ghost predicate InAnyCase(name: string) {
    |name| == 14 && forall k :: 0 <= k < 14 ==> name[k] == "content-length"[k] || name[k] == "CONTENT-LENGTH"[k]
  }

  lemma AnyCaseLine(name: string, n: nat, line: string, trim: string -> string)
    requires TrimsAscii(trim) && InAnyCase(name) && line == name + [':'] + (" " + Decimal(n))
    ensures IsLine(line) && LineEffect(line, -1, trim) == if n <= MAX_INT then Ok(n) else Err(BadNumber)
  {
    var number := Decimal(n);
    NameFolds(name);
    DecimalRoundTrip(n);
    AnyCaseParts(name, number, line);
    assert Ascii(name) && Ascii(" " + number);
    TrimsNothing(name);
    TrimsNothing(number);
    AtoiOfDecimal(n);
  }

  lemma AnyCaseParts(name: string, number: string, line: string)
    requires |name| == 14 && line == name + [':'] + (" " + number) && (forall k :: 0 <= k < 14 ==> name[k] != ':' && !LineEnd(name[k]))
    requires forall k :: 0 <= k < |number| ==> IsDigit(number[k])
    ensures IsLine(line) && Index(line, ':') == 14 && line[..14] == name && line[15..] == " " + number
  {
    IndexSkips(name, ':', " " + number);
  }

  /** The name of the length header is read in any case. */
  lemma AnyCaseIsRead(name: string, line: string, payload: string, tail: string, trim: string -> string)
    requires TrimsAscii(trim) && |payload| <= MAX_MESSAGE_BYTES && InAnyCase(name)
    requires line == name + [':'] + (" " + Decimal(|payload|))
    ensures Read(line + "\r\n" + ("" + "\r\n" + (payload + tail)), trim) == Reading(Ok(payload), tail)
  {
    AnyCaseLine(name, |payload|, line, trim);
    ReadLineOff(line, "" + "\r\n" + (payload + tail), -1, trim);
    ReadLineOff("", payload + tail, |payload|, trim);
    assert (payload + tail)[..|payload|] == payload && (payload + tail)[|payload|..] == tail;
  }

  lemma NameFolds(name: string)
    requires InAnyCase(name)
    ensures Scanners.EqualFold(name, CONTENT_LENGTH)
    ensures forall k :: 0 <= k < 14 ==> name[k] != ':' && !IsSpace(name[k]) && !LineEnd(name[k]) && name[k] < 128 as char
  {
  }

  // ----- Other headers -----

  function Block(lines: seq<string>): string {
    if lines == [] then "" else lines[0] + "\r\n" + Block(lines[1..])
  }

  /** The lines leave the length alone: they have no colon, or another name before it. */
  ghost predicate OtherHeaders(lines: seq<string>, trim: string -> string) {
    forall i :: 0 <= i < |lines| ==>
      IsLine(lines[i]) && (':' in lines[i] ==> !Scanners.EqualFold(trim(lines[i][..Index(lines[i], ':')]), CONTENT_LENGTH))
  }

  lemma {:induction false} OtherHeadersSkipped(lines: seq<string>, more: string, length: int, trim: string -> string)
    requires OtherHeaders(lines, trim)
    ensures ReadHeader(Block(lines) + more, length, trim) == ReadHeader(more, length, trim)
  {
    if lines == [] {
      assert Block(lines) + more == more;
    } else {
      var line, later := lines[0], Block(lines[1..]) + more;
      assert Block(lines) + more == line + "\r\n" + later;
      ReadLineOff(line, later, length, trim);
      assert Index(line, ':') < |line| ==> ':' in line;
      assert LineEffect(line, length, trim) == Ok(length);
      OtherHeadersSkipped(lines[1..], more, length, trim);
    }
  }

  /** Without a length the message is refused. */
  lemma NoLengthIsRefused(lines: seq<string>, more: string, trim: string -> string)
    requires OtherHeaders(lines, trim)
    ensures Read(Block(lines) + ("" + "\r\n" + more), trim) == Reading(Err(MissingLength), more)
  {
    OtherHeadersSkipped(lines, "" + "\r\n" + more, -1, trim);
    ReadLineOff("", more, -1, trim);
  }

  /** So is one with a length that is no number. */
  lemma NoNumberIsRefused(line: string, more: string, trim: string -> string)
    requires IsLine(line) && Index(line, ':') < |line| && Scanners.EqualFold(trim(line[..Index(line, ':')]), CONTENT_LENGTH)
    requires Atoi(trim(line[Index(line, ':') + 1..])).None?
    ensures Read(line + "\r\n" + more, trim) == Reading(Err(BadNumber), more)
  {
    ReadLineOff(line, more, -1, trim);
  }

  /** A stream that ends inside the payload leaves nothing. */
  lemma CutPayloadIsRefused(payload: string, part: string, trim: string -> string)
    requires TrimsAscii(trim) && |part| < |payload| <= MAX_MESSAGE_BYTES
    ensures Read(LengthLine(payload) + "\r\n" + ("" + "\r\n" + part), trim) == Reading(Err(Truncated), "")
  {
    LengthLineEffect(payload, -1, trim);
    ReadLineOff(LengthLine(payload), "" + "\r\n" + part, -1, trim);
    ReadLineOff("", part, |payload|, trim);
  }

  /** Headers other than the length, before and after it, change nothing. */
  lemma OtherHeadersAreIgnored(before: seq<string>, after: seq<string>, payload: string, tail: string, trim: string -> string)
    requires TrimsAscii(trim) && OtherHeaders(before, trim) && OtherHeaders(after, trim) && |payload| <= MAX_MESSAGE_BYTES
    ensures Read(Block(before) + (LengthLine(payload) + "\r\n" + (Block(after) + ("" + "\r\n" + (payload + tail)))), trim) == Reading(Ok(payload), tail)
  {
    var end := "" + "\r\n" + (payload + tail);
    OtherHeadersSkipped(before, LengthLine(payload) + "\r\n" + (Block(after) + end), -1, trim);
    LengthLineEffect(payload, -1, trim);
    ReadLineOff(LengthLine(payload), Block(after) + end, -1, trim);
    OtherHeadersSkipped(after, end, |payload|, trim);
    ReadLineOff("", payload + tail, |payload|, trim);
    assert (payload + tail)[..|payload|] == payload && (payload + tail)[|payload|..] == tail;
  }

  /** A later length replaces an earlier one, and a negative one counts as none. */
  lemma LastLengthWins(first: string, payload: string, tail: string, trim: string -> string)
    requires TrimsAscii(trim) && |payload| <= MAX_MESSAGE_BYTES
    requires IsLine(first) && LineEffect(first, -1, trim).Ok?
    ensures Read(first + "\r\n" + (Framed(payload) + tail), trim) == Reading(Ok(payload), tail)
  {
    var length := LineEffect(first, -1, trim).value;
    ReadLineOff(first, Framed(payload) + tail, -1, trim);
    FramedHeader(payload, tail, length, trim);
    assert (payload + tail)[..|payload|] == payload && (payload + tail)[|payload|..] == tail;
  }
}
