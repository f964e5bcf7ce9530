/** Conversion between byte offsets and the line/character positions of the Language Server
    Protocol 3.17, section "Position": characters are UTF-16 code units. */
module Positions {
  import opened Utf8

  datatype Position = Position(line: int, character: int)

  /** Document order. */
  ghost predicate Before(p: Position, q: Position) {
    p.line < q.line || (p.line == q.line && p.character < q.character)
  }

  // ----- The document as code points: an independent account of lines and columns -----

  ghost function Decode(text: seq<byte>): seq<CodePoint>
  {
    if text == [] then [] else
      var c := DecodeRune(text);
      [c] + Decode(text[c.size..])
  }

  /** The byte offset of the `k`-th code-point boundary. */
  ghost function Offset(cps: seq<CodePoint>, k: nat): nat
    requires k <= |cps|
  {
    if k == 0 then 0 else Offset(cps, k - 1) + cps[k - 1].size
  }

  ghost predicate IsNewline(c: CodePoint) {
    c.rune == NEWLINE
  }

  function Units(c: CodePoint): nat {
    if c.rune <= 0xFFFF then 1 else 2
  }

  /** Line feeds before boundary `k`. */
  ghost function Line(cps: seq<CodePoint>, k: nat): nat
    requires k <= |cps|
  {
    if k == 0 then 0 else Line(cps, k - 1) + if IsNewline(cps[k - 1]) then 1 else 0
  }

  /** UTF-16 code units between boundary `k` and the line feed before it. */
  ghost function Column(cps: seq<CodePoint>, k: nat): nat
    requires k <= |cps|
  {
    if k == 0 || IsNewline(cps[k - 1]) then 0 else Column(cps, k - 1) + Units(cps[k - 1])
  }

  ghost function At(cps: seq<CodePoint>, k: nat): Position
    requires k <= |cps|
  {
    Position(Line(cps, k), Column(cps, k))
  }

  /** Byte offset `o` does not split a code point. */
  ghost predicate IsBoundary(text: seq<byte>, o: int) {
    exists k :: 0 <= k <= |Decode(text)| && Offset(Decode(text), k) == o
  }

  /** The newline bytes before a byte offset. */
  ghost function Newlines(text: seq<byte>, o: nat): nat
    requires o <= |text|
  {
    if o == 0 then 0 else Newlines(text, o - 1) + if text[o - 1] == 0x0A then 1 else 0
  }

  lemma {:induction false} NewlinesWithin(text: seq<byte>, o: nat, end: nat)
    requires o <= end <= |text| && forall j :: o <= j < end ==> text[j] != 0x0A
    ensures Newlines(text, end) == Newlines(text, o)
  {
    if o < end {
      NewlinesWithin(text, o, end - 1);
    }
  }

  /** Only a newline has a newline byte in it. */
  lemma NewlineByte(s: seq<byte>, j: nat)
    requires s != [] && j < DecodeRune(s).size
    ensures s[j] == 0x0A <==> DecodeRune(s).rune == NEWLINE
  {
  }

  lemma NewlinesStep(text: seq<byte>, o: nat, rest: seq<byte>, c: CodePoint)
    requires o < |text| && rest == text[o..] && c == DecodeRune(rest)
    ensures o + c.size <= |text| && Newlines(text, o + c.size) == Newlines(text, o) + if c.rune == NEWLINE then 1 else 0
  {
    forall j | o <= j < o + c.size
      ensures text[j] == 0x0A <==> c.rune == NEWLINE
    {
      NewlineByte(rest, j - o);
    }
    if c.rune != NEWLINE {
      NewlinesWithin(text, o, o + c.size);
    }
  }

  /** The line of a boundary is the number of newline bytes before it. */
  lemma {:induction false} LineIsNewlines(text: seq<byte>, k: nat)
    requires k <= |Decode(text)|
    ensures Offset(Decode(text), k) <= |text| && Line(Decode(text), k) == Newlines(text, Offset(Decode(text), k))
  {
    Step(text, k);
    if k > 0 {
      LineIsNewlines(text, k - 1);
      Step(text, k - 1);
      LineStep(text, Decode(text), k - 1);
    }
  }

  lemma LineStep(text: seq<byte>, cps: seq<CodePoint>, k: nat)
    requires k < |cps| && Offset(cps, k) < |text| && DecodeRune(text[Offset(cps, k)..]) == cps[k]
    requires Line(cps, k) == Newlines(text, Offset(cps, k))
    ensures Offset(cps, k + 1) <= |text| && Line(cps, k + 1) == Newlines(text, Offset(cps, k + 1))
  {
    NewlinesStep(text, Offset(cps, k), text[Offset(cps, k)..], cps[k]);
  }

  /** A code point takes two UTF-16 units exactly if it takes four bytes. */
  lemma UnitsAreUtf16(text: seq<byte>, k: nat)
    requires k < |Decode(text)|
    ensures Units(Decode(text)[k]) == if Decode(text)[k].size == 4 then 2 else 1
  {
    Step(text, k);
  }

  // ----- Facts about boundaries -----

  lemma DropDrop<T>(s: seq<T>, m: nat, n: nat)
    requires m + n <= |s|
    ensures s[m..][n..] == s[m + n..]
  {
  }

  lemma DecodeCons(text: seq<byte>, cps: seq<CodePoint>)
    requires cps == Decode(text) && cps != []
    ensures cps[0].size <= |text| && cps[1..] == Decode(text[cps[0].size..])
  {
  }

  lemma DecodeStep(text: seq<byte>, cps: seq<CodePoint>, k: nat)
    requires k < |cps| && Offset(cps, k) <= |text|
    requires Decode(text[Offset(cps, k)..]) == cps[k..]
    ensures Offset(cps, k) + cps[k].size <= |text|
    ensures Decode(text[Offset(cps, k) + cps[k].size..]) == cps[k + 1..]
  {
    var o, size := Offset(cps, k), cps[k].size;
    DecodeCons(text[o..], cps[k..]);
    assert cps[k..][1..] == cps[k + 1..] by { DropDrop(cps, k, 1); }
    assert text[o..][size..] == text[o + size..] by { DropDrop(text, o, size); }
  }

  /** Decoding restarted at a boundary yields the remaining code points. */
  lemma {:induction false} DecodeFrom(text: seq<byte>, cps: seq<CodePoint>, k: nat)
    requires cps == Decode(text) && k <= |cps|
    ensures Offset(cps, k) <= |text|
    ensures Decode(text[Offset(cps, k)..]) == cps[k..]
  {
    if k == 0 {
      assert text[0..] == text;
    } else {
      DecodeFrom(text, cps, k - 1);
      DecodeStep(text, cps, k - 1);
    }
  }

  /** The code point that starts at boundary `k`; the boundaries end with the text. */
  lemma Step(text: seq<byte>, k: nat)
    requires k <= |Decode(text)|
    ensures Offset(Decode(text), k) <= |text|
    ensures k == |Decode(text)| <==> Offset(Decode(text), k) == |text|
    ensures k < |Decode(text)| ==> DecodeRune(text[Offset(Decode(text), k)..]) == Decode(text)[k]
  {
    DecodeFrom(text, Decode(text), k);
    var rest := text[Offset(Decode(text), k)..];
    assert Decode(text)[k..] == Decode(rest);
  }

  lemma {:induction false} SizesPositive(text: seq<byte>, k: nat)
    requires k < |Decode(text)|
    ensures Decode(text)[k].size >= 1
  {
    Step(text, k);
  }

  lemma {:induction false} OffsetsIncrease(text: seq<byte>, j: nat, k: nat)
    requires j < k <= |Decode(text)|
    ensures Offset(Decode(text), j) < Offset(Decode(text), k)
  {
    SizesPositive(text, k - 1);
    if j < k - 1 {
      OffsetsIncrease(text, j, k - 1);
    }
  }

  /** Positions of boundaries strictly increase in document order. */
  lemma {:induction false} PositionsIncrease(cps: seq<CodePoint>, j: nat, k: nat)
    requires j < k <= |cps|
    ensures Before(At(cps, j), At(cps, k))
  {
    if j < k - 1 {
      PositionsIncrease(cps, j, k - 1);
    }
  }

  // ----- PositionAt -----

  ghost function Clamp(text: seq<byte>, target: int): int {
    if target < 0 then 0 else if target > |text| then |text| else target
  }

  /** The first boundary, counting from the `k`-th, at or past `target`. */
  ghost function Ceiling(cps: seq<CodePoint>, k: nat, target: int): (r: nat)
    requires k <= |cps|
    ensures k <= r <= |cps|
    ensures r < |cps| ==> Offset(cps, r) >= target
    ensures forall i :: k <= i < r ==> Offset(cps, i) < target
    decreases |cps| - k
  {
    if k == |cps| || Offset(cps, k) >= target then k else Ceiling(cps, k + 1, target)
  }

  /** The position that PositionAt reports. */
  ghost function PositionOf(text: seq<byte>, target: int): Position {
    At(Decode(text), Ceiling(Decode(text), 0, Clamp(text, target)))
  }

  method PositionAt(text: seq<byte>, target: int) returns (pos: Position)
    ensures pos == PositionOf(text, target)
  {
    var goal := target;
    if goal < 0 {
      goal := 0;
    }
    if goal > |text| {
      goal := |text|;
    }
    ghost var cps := Decode(text);
    ghost var k := 0;
    pos := Position(0, 0);
    var offset := 0;
    while offset < goal
      invariant k <= |cps| && offset == Offset(cps, k)
      invariant pos == At(cps, k)
      invariant Ceiling(cps, 0, goal) == Ceiling(cps, k, goal)
      decreases |cps| - k
    {
      Step(text, k);
      var c := DecodeRune(text[offset..]);
      if c.rune == NEWLINE {
        pos := Position(pos.line + 1, 0);
      } else if c.rune <= 0xFFFF {
        pos := pos.(character := pos.character + 1);
      } else {
        pos := pos.(character := pos.character + 2);
      }
      offset := offset + c.size;
      k := k + 1;
    }
  }

  // ----- ByteOffset -----

  /** The first boundary from the `k`-th on where the scan for `pos` stops: one on the wanted
      line that has reached the wanted column or the line's end. */
  ghost function Stop(cps: seq<CodePoint>, k: nat, pos: Position): (r: nat)
    requires k <= |cps|
    ensures k <= r <= |cps|
    decreases |cps| - k
  {
    if k == |cps| then k
    else if Line(cps, k) == pos.line && (Column(cps, k) >= pos.character || IsNewline(cps[k])) then k
    else Stop(cps, k + 1, pos)
  }

  /** The offset that ByteOffset reports. */
  ghost function OffsetOf(text: seq<byte>, pos: Position): nat {
    Offset(Decode(text), Stop(Decode(text), 0, pos))
  }

  method ByteOffset(text: seq<byte>, pos: Position) returns (r: nat)
    ensures r == OffsetOf(text, pos)
    ensures r <= |text|
  {
    ghost var cps := Decode(text);
    ghost var k := 0;
    var line, character := 0, 0;
    var offset := 0;
    Step(text, 0);
    while offset < |text|
      invariant k <= |cps| && offset == Offset(cps, k)
      invariant k == |cps| <==> offset == |text|
      invariant offset <= |text|
      invariant line == Line(cps, k)
      invariant line == pos.line ==> character == Column(cps, k)
      invariant line < pos.line ==> character == 0
      invariant Stop(cps, 0, pos) == Stop(cps, k, pos)
      decreases |cps| - k
    {
      Step(text, k);
      if line == pos.line && character >= pos.character {
        return offset;
      }
      var c := DecodeRune(text[offset..]);
      Step(text, k + 1);
      if c.rune == NEWLINE {
        if line == pos.line {
          return offset;
        }
        line := line + 1;
        character := 0;
        offset := offset + c.size;
        k := k + 1;
        continue;
      }
      if line == pos.line {
        if c.rune <= 0xFFFF {
          character := character + 1;
        } else {
          character := character + 2;
        }
      }
      offset := offset + c.size;
      k := k + 1;
    }
    return |text|;
  }

  // ----- What the two conversions mean -----

  lemma {:induction false} LinesMonotone(cps: seq<CodePoint>, j: nat, k: nat)
    requires j <= k <= |cps|
    ensures Line(cps, j) <= Line(cps, k)
  {
    if j < k {
      LinesMonotone(cps, j, k - 1);
    }
  }

  /** Scanning for the position of boundary `j` from any earlier boundary stops at `j`. */
  lemma {:induction false} StopAtOwnPosition(cps: seq<CodePoint>, k: nat, j: nat)
    requires k <= j <= |cps|
    ensures Stop(cps, k, At(cps, j)) == j
    decreases j - k
  {
    if k < j {
      PositionsIncrease(cps, k, j);
      if IsNewline(cps[k]) {
        LinesMonotone(cps, k + 1, j);
      }
      StopAtOwnPosition(cps, k + 1, j);
    }
  }

  /** Converting an offset to a position and back gives the least boundary at or past the
      offset, hence the offset itself exactly when it does not split a code point. */
  lemma RoundTrip(text: seq<byte>, o: int)
    requires 0 <= o <= |text|
    ensures var r := OffsetOf(text, PositionOf(text, o));
            && IsBoundary(text, r) && o <= r
            && (forall b :: IsBoundary(text, b) && o <= b ==> r <= b)
            && (r == o <==> IsBoundary(text, o))
  {
    var cps := Decode(text);
    var k := Ceiling(cps, 0, o);
    StopAtOwnPosition(cps, 0, k);
    Step(text, |cps|);
    forall b | IsBoundary(text, b) && o <= b
      ensures Offset(cps, k) <= b
    {
      var j :| 0 <= j <= |cps| && Offset(cps, j) == b;
      if j > k {
        OffsetsIncrease(text, k, j);
      }
    }
  }

  /** PositionAt is monotone, and strictly increasing on code-point boundaries. */
  lemma PositionAtMonotone(text: seq<byte>, o: int, p: int)
    requires 0 <= o < p <= |text|
    ensures PositionOf(text, o) == PositionOf(text, p) || Before(PositionOf(text, o), PositionOf(text, p))
    ensures IsBoundary(text, o) ==> Before(PositionOf(text, o), PositionOf(text, p))
  {
    var cps := Decode(text);
    var j, k := Ceiling(cps, 0, o), Ceiling(cps, 0, p);
    assert j <= k;
    if IsBoundary(text, o) {
      RoundTrip(text, o);
      StopAtOwnPosition(cps, 0, j);
      Step(text, |cps|);
      assert j < k;
    }
    if j < k {
      PositionsIncrease(cps, j, k);
    }
  }

  /** The last boundary of the line: its line feed or the end of the text. */
  ghost predicate EndsLine(cps: seq<CodePoint>, k: nat) {
    k == |cps| || (k < |cps| && IsNewline(cps[k]))
  }

  ghost predicate LineExists(cps: seq<CodePoint>, line: int) {
    0 <= line <= Line(cps, |cps|)
  }

  /** Boundary `r` answers `pos`: it lies on the wanted line, is the first boundary of that line
      to reach the wanted column, and is the line's end if no boundary reaches it. */
  ghost predicate Answers(cps: seq<CodePoint>, r: nat, pos: Position) {
    && r <= |cps|
    && Line(cps, r) == pos.line
    && (Column(cps, r) >= pos.character || EndsLine(cps, r))
    && (forall k :: 0 <= k < r && Line(cps, k) == pos.line ==> Column(cps, k) < pos.character)
  }

  lemma {:induction false} StopAnswers(cps: seq<CodePoint>, k: nat, pos: Position)
    requires k <= |cps| && LineExists(cps, pos.line) && Line(cps, k) <= pos.line
    requires forall i :: 0 <= i < k && Line(cps, i) == pos.line ==> Column(cps, i) < pos.character
    ensures Answers(cps, Stop(cps, k, pos), pos)
    decreases |cps| - k
  {
    if k < |cps| && Stop(cps, k, pos) != k {
      StopAnswers(cps, k + 1, pos);
    }
  }

  lemma {:induction false} StopPastLastLine(cps: seq<CodePoint>, k: nat, pos: Position)
    requires k <= |cps| && !LineExists(cps, pos.line)
    ensures Stop(cps, k, pos) == |cps|
    decreases |cps| - k
  {
    if k < |cps| {
      LinesMonotone(cps, k, |cps|);
      StopPastLastLine(cps, k + 1, pos);
    }
  }

  /** ByteOffset of a position: on a line the text has, the least boundary of that line at or
      past the character, clamped to the line's end; otherwise the end of the text. */
  lemma ByteOffsetMeaning(text: seq<byte>, pos: Position)
    ensures var cps := Decode(text);
            if LineExists(cps, pos.line)
            then exists r: nat :: Answers(cps, r, pos) && OffsetOf(text, pos) == Offset(cps, r)
            else OffsetOf(text, pos) == |text|
  {
    var cps := Decode(text);
    if LineExists(cps, pos.line) {
      StopAnswers(cps, 0, pos);
      assert Answers(cps, Stop(cps, 0, pos), pos);
    } else {
      StopPastLastLine(cps, 0, pos);
      Step(text, |cps|);
    }
  }
}
