/** Source maps between a Jinja template and the SQL rendered from it: how they are built and
    how offsets travel along them. A Go string is a byte string; one `char` stands for one byte. */
module SourceMaps {
  import opened Wrappers

  datatype Kind = LiteralSql | RefExpansion | Synthetic | TemplateExpansion

  datatype Confidence = Low | Medium | High

  /** A stretch of generated text and the template stretch it came from, when that is known. */
  datatype Segment = Segment(
    generatedStart: int, generatedEnd: int,
    templateStart: Option<int>, templateEnd: Option<int>,
    kind: Kind, confidence: Confidence)

  // ----- Lookups -----

  /** The first segment that holds generated offset `offset` decides. */
  function TemplateBoundary(segments: seq<Segment>, offset: int, endBoundary: bool): Option<(int, Confidence)>
  {
    if segments == [] then None else
      var s := segments[0];
      if s.templateStart.None? || s.templateEnd.None? || offset < s.generatedStart || offset >= s.generatedEnd then
        TemplateBoundary(segments[1..], offset, endBoundary)
      else if s.kind != LiteralSql then
        Some((if endBoundary then s.templateEnd.value else s.templateStart.value, s.confidence))
      else
        var delta := offset - s.generatedStart + if endBoundary then 1 else 0;
        Some((Min(s.templateStart.value + delta, s.templateEnd.value), s.confidence))
  }

  function Rank(c: Confidence): int {
    match c
    case High => 3
    case Medium => 2
    case Low => 1
  }

  /** The two ends as looked up, before the end is pulled up to the start. */
  function RawOffsets(segments: seq<Segment>, start: int, end: int): (Option<(int, Confidence)>, Option<(int, Confidence)>)
  {
    var end' := if end < start then start else end;
    (TemplateBoundary(segments, start, false),
     TemplateBoundary(segments, if end' > start then end' - 1 else end', true))
  }

  function TemplateOffsetsForGenerated(segments: seq<Segment>, start: int, end: int): Option<(int, int, Confidence)>
  {
    match RawOffsets(segments, start, end)
    case (Some((s, sc)), Some((e, ec))) =>
      Some((s, if e < s then s else e, if Rank(ec) < Rank(sc) then ec else sc))
    case _ => None
  }

  /** A range counts with the lower confidence of its two ends. */
  lemma ConfidenceIsTheLower(segments: seq<Segment>, start: int, end: int)
    requires TemplateOffsetsForGenerated(segments, start, end).Some?
    ensures var (s, e) := RawOffsets(segments, start, end);
            var confidence := TemplateOffsetsForGenerated(segments, start, end).value.2;
            && s.Some? && e.Some? && (confidence == s.value.1 || confidence == e.value.1)
            && (s.value.1 == Low || e.value.1 == Low ==> confidence == Low)
            && (confidence == High <==> s.value.1 == High && e.value.1 == High)
  {
  }

  function GeneratedOffsetForTemplateOffset(segments: seq<Segment>, renderedLength: int, offset: int): int
  {
    if segments == [] then Min(offset, renderedLength) else
      var s := segments[0];
      if s.templateStart.None? || s.templateEnd.None? || offset < s.templateStart.value || offset > s.templateEnd.value then
        GeneratedOffsetForTemplateOffset(segments[1..], renderedLength, offset)
      else if s.kind != LiteralSql then
        s.generatedEnd
      else
        s.generatedStart + Min(offset - s.templateStart.value, s.generatedEnd - s.generatedStart)
  }

  // ----- Well-formed maps -----

  /** The segment is in bounds on both sides, and a literal one is a byte-identical copy. */
  ghost predicate Faithful(s: Segment, template: string, rendered: string) {
    && 0 <= s.generatedStart <= s.generatedEnd <= |rendered|
    && s.templateStart.Some? && s.templateEnd.Some?
    && 0 <= s.templateStart.value <= s.templateEnd.value <= |template|
    && (s.kind == LiteralSql ==>
          rendered[s.generatedStart..s.generatedEnd] == template[s.templateStart.value..s.templateEnd.value])
    && (s.kind == LiteralSql <==> s.confidence == High)
  }

  ghost predicate Follows(s: Segment, t: Segment) {
    && s.generatedEnd <= t.generatedStart
    && s.templateEnd.Some? && t.templateStart.Some?
    && s.templateEnd.value <= t.templateStart.value
  }

  /** Segments are faithful, and ordered and disjoint in both coordinates. */
  ghost predicate WellFormed(segments: seq<Segment>, template: string, rendered: string) {
    && (forall i :: 0 <= i < |segments| ==> Faithful(segments[i], template, rendered))
    && (forall i, j :: 0 <= i < j < |segments| ==> Follows(segments[i], segments[j]))
  }

  /** Segments cover the template from `ts` to `te` and the rendered text from `gs` to `ge`
      without gap or overlap, none of them empty on either side. */
  ghost predicate Tile(segments: seq<Segment>, gs: int, ge: int, ts: int, te: int)
  {
    if segments == [] then gs == ge && ts == te
    else
      var s := segments[0];
      && s.generatedStart == gs < s.generatedEnd
      && s.templateStart.Some? && s.templateEnd.Some?
      && s.templateStart.value == ts < s.templateEnd.value
      && Tile(segments[1..], s.generatedEnd, ge, s.templateEnd.value, te)
  }

  ghost predicate TilesBoth(segments: seq<Segment>, template: string, rendered: string) {
    && WellFormed(segments, template, rendered)
    && Tile(segments, 0, |rendered|, 0, |template|)
  }

  lemma {:induction false} TileSnoc(segments: seq<Segment>, s: Segment, gs: int, ge: int, ts: int, te: int)
    requires Tile(segments, gs, ge, ts, te)
    requires s.generatedStart == ge < s.generatedEnd
    requires s.templateStart.Some? && s.templateEnd.Some? && s.templateStart.value == te < s.templateEnd.value
    ensures Tile(segments + [s], gs, s.generatedEnd, ts, s.templateEnd.value)
  {
    if segments == [] {
      assert ([s])[1..] == [];
    } else {
      TileSnoc(segments[1..], s, segments[0].generatedEnd, ge, segments[0].templateEnd.value, te);
      assert (segments + [s])[1..] == segments[1..] + [s];
    }
  }

  lemma {:induction false} TileBounds(segments: seq<Segment>, gs: int, ge: int, ts: int, te: int)
    requires Tile(segments, gs, ge, ts, te)
    ensures gs <= ge && ts <= te
    ensures forall s :: s in segments ==>
        && s.templateStart.Some? && s.templateEnd.Some?
        && gs <= s.generatedStart < s.generatedEnd <= ge
        && ts <= s.templateStart.value < s.templateEnd.value <= te
  {
    if segments != [] {
      TileBounds(segments[1..], segments[0].generatedEnd, ge, segments[0].templateEnd.value, te);
    }
  }

  // ----- What the lookups answer on a well-formed map -----

  ghost predicate HoldsGenerated(s: Segment, offset: int) {
    s.generatedStart <= offset < s.generatedEnd
  }

  /** A generated offset is mapped exactly when some segment holds it; the answer lies within
      that segment, at most one segment can hold it, and clamping to the segment's end is never
      what decides. */
  lemma {:induction false} BoundaryAnswer(segments: seq<Segment>, template: string, rendered: string, offset: int, endBoundary: bool)
      returns (i: int)
    requires WellFormed(segments, template, rendered)
    ensures i == -1 ==> TemplateBoundary(segments, offset, endBoundary) == None
                        && forall s :: s in segments ==> !HoldsGenerated(s, offset)
    ensures i != -1 ==>
              && 0 <= i < |segments| && HoldsGenerated(segments[i], offset)
              && TemplateBoundary(segments, offset, endBoundary) == Some((
                   if segments[i].kind == LiteralSql
                   then segments[i].templateStart.value + (offset - segments[i].generatedStart) + (if endBoundary then 1 else 0)
                   else if endBoundary then segments[i].templateEnd.value else segments[i].templateStart.value,
                   segments[i].confidence))
  {
    if segments == [] {
      i := -1;
    } else if HoldsGenerated(segments[0], offset) {
      i := 0;
      assert Faithful(segments[0], template, rendered);
      FaithfulLength(segments[0], template, rendered);
    } else {
      assert Faithful(segments[0], template, rendered);
      i := BoundaryAnswer(segments[1..], template, rendered, offset, endBoundary);
      if i != -1 {
        i := i + 1;
      }
    }
  }

  /** A literal segment is as long on one side as on the other. */
  ghost predicate SameLength(s: Segment) {
    s.kind == LiteralSql ==>
      && s.templateStart.Some? && s.templateEnd.Some?
      && s.generatedEnd - s.generatedStart == s.templateEnd.value - s.templateStart.value
  }

  lemma FaithfulLength(s: Segment, template: string, rendered: string)
    requires Faithful(s, template, rendered)
    ensures SameLength(s)
  {
    if s.kind == LiteralSql {
      assert |rendered[s.generatedStart..s.generatedEnd]| == |template[s.templateStart.value..s.templateEnd.value]|;
    }
  }

  /** Of two segments, the earlier one holds the smaller offset. */
  lemma HoldersOrdered(segments: seq<Segment>, template: string, rendered: string, i: nat, p: int, j: nat, q: int)
    requires WellFormed(segments, template, rendered)
    requires i < |segments| && HoldsGenerated(segments[i], p)
    requires j < |segments| && HoldsGenerated(segments[j], q)
    ensures i < j ==> p < q && Follows(segments[i], segments[j])
    ensures j < i ==> q < p
  {
    if i < j {
      assert Follows(segments[i], segments[j]);
    } else if j < i {
      assert Follows(segments[j], segments[i]);
    }
  }

  /** Every range that is mapped lands inside the template with its start not after its end,
      and the ends as looked up already have that order: the clamp never acts. */
  lemma MappedRangesInBounds(segments: seq<Segment>, template: string, rendered: string, start: int, end: int)
    requires WellFormed(segments, template, rendered)
    ensures match RawOffsets(segments, start, end)
            case (Some((s, sc)), Some((e, ec))) =>
              && 0 <= s <= e <= |template|
              && TemplateOffsetsForGenerated(segments, start, end) == Some((s, e, if Rank(ec) < Rank(sc) then ec else sc))
            case _ => TemplateOffsetsForGenerated(segments, start, end) == None
  {
    var end' := if end < start then start else end;
    var last := if end' > start then end' - 1 else end';
    var i := BoundaryAnswer(segments, template, rendered, start, false);
    var j := BoundaryAnswer(segments, template, rendered, last, true);
    if i != -1 && j != -1 {
      FaithfulLength(segments[i], template, rendered);
      FaithfulLength(segments[j], template, rendered);
      HoldersOrdered(segments, template, rendered, i, start, j, last);
    }
  }

  lemma SubSlice(text: string, from: int, to: int, i: int, j: int)
    requires 0 <= from <= to <= |text| && 0 <= i <= j <= to - from
    ensures text[from..to][i..j] == text[from + i..from + j]
  {
    forall k | 0 <= k < j - i
      ensures text[from..to][i..j][k] == text[from + i..from + j][k]
    {
    }
  }

  /** A segment that holds an offset decides where it goes. */
  lemma HolderDecides(segments: seq<Segment>, template: string, rendered: string, k: nat, offset: int, endBoundary: bool)
    requires WellFormed(segments, template, rendered)
    requires k < |segments| && HoldsGenerated(segments[k], offset)
    ensures TemplateBoundary(segments, offset, endBoundary) == Some((
              if segments[k].kind == LiteralSql
              then segments[k].templateStart.value + (offset - segments[k].generatedStart) + (if endBoundary then 1 else 0)
              else if endBoundary then segments[k].templateEnd.value else segments[k].templateStart.value,
              segments[k].confidence))
  {
    var i := BoundaryAnswer(segments, template, rendered, offset, endBoundary);
    assert segments[k] in segments;
    HoldersOrdered(segments, template, rendered, i, offset, k, offset);
  }

  /** A non-empty range inside one literal segment maps to a template range holding the very
      same bytes, with full confidence. */
  lemma LiteralRangesExact(segments: seq<Segment>, template: string, rendered: string, k: nat, start: int, end: int)
    requires WellFormed(segments, template, rendered)
    requires k < |segments| && segments[k].kind == LiteralSql
    requires segments[k].generatedStart <= start < end <= segments[k].generatedEnd
    ensures match TemplateOffsetsForGenerated(segments, start, end)
            case Some((s, e, c)) => 0 <= s < e <= |template| && template[s..e] == rendered[start..end] && c == High
            case None => false
  {
    HolderDecides(segments, template, rendered, k, start, false);
    HolderDecides(segments, template, rendered, k, end - 1, true);
    FaithfulLength(segments[k], template, rendered);
    var gs, ts := segments[k].generatedStart, segments[k].templateStart.value;
    var copy := rendered[gs..segments[k].generatedEnd];
    SubSlice(rendered, gs, segments[k].generatedEnd, start - gs, end - gs);
    SubSlice(template, ts, segments[k].templateEnd.value, start - gs, end - gs);
  }

  // ----- Monotone maps and the round trip -----

  /** Both ends move forward with the generated offset. */
  lemma TemplateBoundaryMonotone(segments: seq<Segment>, template: string, rendered: string, p: int, q: int, endBoundary: bool)
    requires TilesBoth(segments, template, rendered)
    requires 0 <= p <= q < |rendered|
    ensures TemplateBoundary(segments, p, endBoundary).Some? && TemplateBoundary(segments, q, endBoundary).Some?
    ensures TemplateBoundary(segments, p, endBoundary).value.0 <= TemplateBoundary(segments, q, endBoundary).value.0
  {
    var i := BoundaryAnswer(segments, template, rendered, p, endBoundary);
    var j := BoundaryAnswer(segments, template, rendered, q, endBoundary);
    TileCoversGenerated(segments, 0, |rendered|, 0, |template|, p);
    TileCoversGenerated(segments, 0, |rendered|, 0, |template|, q);
    FaithfulLength(segments[i], template, rendered);
    FaithfulLength(segments[j], template, rendered);
    HoldersOrdered(segments, template, rendered, i, p, j, q);
  }

  lemma {:induction false} TileCoversGenerated(segments: seq<Segment>, gs: int, ge: int, ts: int, te: int, offset: int)
    requires Tile(segments, gs, ge, ts, te) && gs <= offset < ge
    ensures exists s :: s in segments && HoldsGenerated(s, offset)
  {
    var s := segments[0];
    if offset < s.generatedEnd {
      assert HoldsGenerated(s, offset);
    } else {
      TileCoversGenerated(segments[1..], s.generatedEnd, ge, s.templateEnd.value, te, offset);
      var t :| t in segments[1..] && HoldsGenerated(t, offset);
      assert t in segments;
    }
  }

  /** Where a template offset goes on a tiled map. */
  lemma {:induction false} GeneratedOffsetAnswer(segments: seq<Segment>, rl: int, gs: int, ge: int, ts: int, te: int, offset: int)
    requires Tile(segments, gs, ge, ts, te) && segments != [] && ts <= offset <= te
    requires forall s :: s in segments ==> SameLength(s)
    ensures gs <= GeneratedOffsetForTemplateOffset(segments, rl, offset) <= ge
    ensures offset == ts && segments[0].kind == LiteralSql ==> GeneratedOffsetForTemplateOffset(segments, rl, offset) == gs
  {
    var s := segments[0];
    TileBounds(segments, gs, ge, ts, te);
    TileBounds(segments[1..], s.generatedEnd, ge, s.templateEnd.value, te);
    if offset > s.templateEnd.value {
      GeneratedOffsetAnswer(segments[1..], rl, s.generatedEnd, ge, s.templateEnd.value, te, offset);
    }
  }

  lemma {:induction false} GeneratedOffsetMonotoneFrom(segments: seq<Segment>, rl: int, gs: int, ge: int, ts: int, te: int, p: int, q: int)
    requires Tile(segments, gs, ge, ts, te) && segments != [] && ts <= p <= q <= te
    requires forall s :: s in segments ==> SameLength(s)
    ensures GeneratedOffsetForTemplateOffset(segments, rl, p) <= GeneratedOffsetForTemplateOffset(segments, rl, q)
  {
    var s := segments[0];
    TileBounds(segments[1..], s.generatedEnd, ge, s.templateEnd.value, te);
    if p > s.templateEnd.value {
      GeneratedOffsetMonotoneFrom(segments[1..], rl, s.generatedEnd, ge, s.templateEnd.value, te, p, q);
    } else if q > s.templateEnd.value {
      GeneratedOffsetAnswer(segments[1..], rl, s.generatedEnd, ge, s.templateEnd.value, te, q);
    }
  }

  lemma LiteralLengths(segments: seq<Segment>, template: string, rendered: string)
    requires WellFormed(segments, template, rendered)
    ensures forall s :: s in segments ==> SameLength(s)
  {
    forall s | s in segments
      ensures SameLength(s)
    {
      FaithfulLength(s, template, rendered);
    }
  }

  /** Mapping template offsets to the rendered text is monotone and stays in bounds. */
  lemma GeneratedOffsetMonotone(segments: seq<Segment>, template: string, rendered: string, p: int, q: int)
    requires TilesBoth(segments, template, rendered)
    requires 0 <= p <= q <= |template|
    ensures 0 <= GeneratedOffsetForTemplateOffset(segments, |rendered|, p)
              <= GeneratedOffsetForTemplateOffset(segments, |rendered|, q) <= |rendered|
  {
    if segments != [] {
      LiteralLengths(segments, template, rendered);
      GeneratedOffsetAnswer(segments, |rendered|, 0, |rendered|, 0, |template|, p);
      GeneratedOffsetAnswer(segments, |rendered|, 0, |rendered|, 0, |template|, q);
      GeneratedOffsetMonotoneFrom(segments, |rendered|, 0, |rendered|, 0, |template|, p, q);
    }
  }

  lemma {:induction false} GeneratedOffsetInLiteral(segments: seq<Segment>, rl: int, gs: int, ge: int, ts: int, te: int, k: nat, offset: int)
    requires Tile(segments, gs, ge, ts, te)
    requires forall s :: s in segments ==> SameLength(s)
    requires k < |segments| && segments[k].kind == LiteralSql && segments[k].templateStart.Some? && segments[k].templateEnd.Some?
    requires segments[k].templateStart.value <= offset < segments[k].templateEnd.value
    ensures GeneratedOffsetForTemplateOffset(segments, rl, offset)
         == segments[k].generatedStart + (offset - segments[k].templateStart.value)
  {
    assert SameLength(segments[k]) && SameLength(segments[0]);
    if k > 0 {
      var s := segments[0];
      TileBounds(segments[1..], s.generatedEnd, ge, s.templateEnd.value, te);
      assert segments[k] == segments[1..][k - 1];
      if k > 1 {
        assert segments[1..][1..] == segments[2..];
        TileBounds(segments[2..], segments[1].generatedEnd, ge, segments[1].templateEnd.value, te);
        assert segments[k] == segments[2..][k - 2];
      }
      if offset > s.templateEnd.value {
        GeneratedOffsetInLiteral(segments[1..], rl, s.generatedEnd, ge, s.templateEnd.value, te, k - 1, offset);
      }
    }
  }

  lemma LiteralByte(s: Segment, template: string, rendered: string, d: int)
    requires Faithful(s, template, rendered) && s.kind == LiteralSql
    requires 0 <= d < s.templateEnd.value - s.templateStart.value
    ensures d < s.generatedEnd - s.generatedStart
    ensures rendered[s.generatedStart + d] == template[s.templateStart.value + d]
  {
    FaithfulLength(s, template, rendered);
    assert rendered[s.generatedStart..s.generatedEnd][d] == rendered[s.generatedStart + d];
    assert template[s.templateStart.value..s.templateEnd.value][d] == template[s.templateStart.value + d];
  }

  lemma LiteralOffsetForward(segments: seq<Segment>, template: string, rendered: string, k: nat, offset: int) returns (g: int)
    requires TilesBoth(segments, template, rendered)
    requires k < |segments| && segments[k].kind == LiteralSql
    requires segments[k].templateStart.value <= offset < segments[k].templateEnd.value
    ensures g == GeneratedOffsetForTemplateOffset(segments, |rendered|, offset)
    ensures g == segments[k].generatedStart + (offset - segments[k].templateStart.value)
    ensures HoldsGenerated(segments[k], g)
  {
    LiteralLengths(segments, template, rendered);
    FaithfulLength(segments[k], template, rendered);
    GeneratedOffsetInLiteral(segments, |rendered|, 0, |rendered|, 0, |template|, k, offset);
    g := GeneratedOffsetForTemplateOffset(segments, |rendered|, offset);
  }

  lemma LiteralOffsetBack(segments: seq<Segment>, template: string, rendered: string, k: nat, offset: int, g: int)
    requires WellFormed(segments, template, rendered)
    requires k < |segments| && segments[k].kind == LiteralSql && HoldsGenerated(segments[k], g)
    requires g == segments[k].generatedStart + (offset - segments[k].templateStart.value)
    requires segments[k].templateStart.value <= offset < segments[k].templateEnd.value
    ensures 0 <= g < |rendered| && 0 <= offset < |template| && rendered[g] == template[offset]
    ensures TemplateBoundary(segments, g, false) == Some((offset, High))
  {
    var s := segments[k];
    assert Faithful(s, template, rendered);
    assert rendered[g] == template[offset] by {
      LiteralByte(s, template, rendered, offset - s.templateStart.value);
    }
    HolderDecides(segments, template, rendered, k, g, false);
  }

  /** A template offset inside literal SQL survives the trip to the rendered text and back. */
  lemma LiteralOffsetRoundTrip(segments: seq<Segment>, template: string, rendered: string, k: nat, offset: int) returns (g: int)
    requires TilesBoth(segments, template, rendered)
    requires k < |segments| && segments[k].kind == LiteralSql
    requires segments[k].templateStart.value <= offset < segments[k].templateEnd.value
    ensures g == GeneratedOffsetForTemplateOffset(segments, |rendered|, offset)
    ensures 0 <= g < |rendered| && 0 <= offset < |template| && rendered[g] == template[offset]
    ensures TemplateBoundary(segments, g, false) == Some((offset, High))
  {
    g := LiteralOffsetForward(segments, template, rendered, k, offset);
    LiteralOffsetBack(segments, template, rendered, k, offset, g);
  }

  // ----- Rendering calls in a template -----

  /** A regular-expression match with its two groups; the engine reports matches in order,
      in bounds, non-empty and without overlap. */
  datatype Match = Match(start: int, end: int, nameStart: int, nameEnd: int, argsStart: int, argsEnd: int)

  ghost predicate MatchesOf(matches: seq<Match>, text: string) {
    && (forall m :: m in matches ==>
          && 0 <= m.start < m.end <= |text|
          && m.start <= m.nameStart <= m.nameEnd <= m.end
          && m.start <= m.argsStart <= m.argsEnd <= m.end)
    && (forall i, j :: 0 <= i < j < |matches| ==> matches[i].end <= matches[j].start)
  }

  /** What rendering asks of its surroundings: lower-casing, the quoted arguments of a call,
      and the name of the relation a reference resolves to. */
  datatype Environment = Environment(
    lower: string -> string,
    quotedArgs: string -> seq<string>,
    resolve: string -> Option<string>)

  function RenderTemplateCall(env: Environment, callKind: string, args: string): (string, Kind) {
    var quoted := env.quotedArgs(args);
    if callKind == "ref" && |quoted| >= 1 then
      (match env.resolve(quoted[0]) case Some(name) => (name, RefExpansion) case None => (quoted[0], RefExpansion))
    else if callKind == "source" && |quoted| >= 2 then
      var name := quoted[0] + "." + quoted[1];
      (match env.resolve(name) case Some(resolved) => (resolved, RefExpansion) case None => (name, RefExpansion))
    else
      ("", Synthetic)
  }

  /** The text that stands for a call in the rendered SQL; never empty. */
  function Replacement(env: Environment, text: string, m: Match): (r: (string, Kind))
    requires 0 <= m.nameStart <= m.nameEnd <= |text| && 0 <= m.argsStart <= m.argsEnd <= |text|
    ensures r.0 != "" && r.1 != LiteralSql
  {
    var r := RenderTemplateCall(env, env.lower(text[m.nameStart..m.nameEnd]), text[m.argsStart..m.argsEnd]);
    if r.0 == "" then ("__template__", Synthetic) else r
  }

  /** The template from `last` on, with the matches from the `i`-th on replaced and everything
      else kept. */
  ghost function Rendering(env: Environment, text: string, matches: seq<Match>, i: nat, last: int): string
    requires MatchesOf(matches, text) && i <= |matches| && 0 <= last <= |text|
    requires i < |matches| ==> last <= matches[i].start
    decreases |matches| - i
  {
    if i == |matches| then text[last..]
    else text[last..matches[i].start] + Replacement(env, text, matches[i]).0
         + Rendering(env, text, matches, i + 1, matches[i].end)
  }

  /** Appending a segment for the text that has just been written keeps the map well formed
      and tiled up to the new ends. */
  lemma AppendTile(segments: seq<Segment>, s: Segment, template: string, built: string, piece: string)
    requires WellFormed(segments, template, built)
    requires s.templateStart.Some? && s.templateEnd.Some?
    requires Tile(segments, 0, |built|, 0, s.templateStart.value)
    requires piece != "" && s.generatedStart == |built| && s.generatedEnd == |built| + |piece|
    requires 0 <= s.templateStart.value < s.templateEnd.value <= |template|
    requires s.kind == LiteralSql ==> piece == template[s.templateStart.value..s.templateEnd.value]
    requires s.kind == LiteralSql <==> s.confidence == High
    ensures WellFormed(segments + [s], template, built + piece)
    ensures Tile(segments + [s], 0, |built + piece|, 0, s.templateEnd.value)
  {
    TileSnoc(segments, s, 0, |built|, 0, s.templateStart.value);
    TileBounds(segments, 0, |built|, 0, s.templateStart.value);
    var longer := built + piece;
    forall i | 0 <= i < |segments|
      ensures Faithful(segments[i], template, longer) && Follows(segments[i], s)
    {
      assert Faithful(segments[i], template, built);
      assert segments[i] in segments;
      assert longer[segments[i].generatedStart..segments[i].generatedEnd] == built[segments[i].generatedStart..segments[i].generatedEnd];
    }
    assert longer[s.generatedStart..s.generatedEnd] == piece;
  }

  /** The map built so far covers the rendered text and the template up to `to`. */
  ghost predicate Mapped(segments: seq<Segment>, text: string, rendered: string, to: int) {
    WellFormed(segments, text, rendered) && Tile(segments, 0, |rendered|, 0, to)
  }

  /** Writes one piece of rendered text and appends its segment. */
  method Emit(ghost text: string, rendered: string, segments: seq<Segment>, piece: string, from: int, to: int, kind: Kind, confidence: Confidence)
      returns (rendered': string, segments': seq<Segment>)
    requires Mapped(segments, text, rendered, from)
    requires 0 <= from < to <= |text| && piece != ""
    requires kind == LiteralSql ==> piece == text[from..to]
    requires kind == LiteralSql <==> confidence == High
    ensures rendered' == rendered + piece && Mapped(segments', text, rendered', to)
    ensures segments' == segments + [Segment(|rendered|, |rendered'|, Some(from), Some(to), kind, confidence)]
  {
    var start := |rendered|;
    rendered' := rendered + piece;
    var s := Segment(start, |rendered'|, Some(from), Some(to), kind, confidence);
    AppendTile(segments, s, text, rendered, piece);
    segments' := segments + [s];
  }

  /** One round of the loop: the text before a call, and the call. */
  method RenderCall(env: Environment, text: string, matches: seq<Match>, i: nat, last: int, rendered: string, segments: seq<Segment>)
      returns (rendered': string, segments': seq<Segment>)
    requires MatchesOf(matches, text) && i < |matches| && 0 <= last <= matches[i].start
    requires Mapped(segments, text, rendered, last) && CallsWritten(env, text, matches, i, segments, rendered)
    ensures rendered' + Rendering(env, text, matches, i + 1, matches[i].end) == rendered + Rendering(env, text, matches, i, last)
    ensures Mapped(segments', text, rendered', matches[i].end)
    ensures CallsWritten(env, text, matches, i + 1, segments', rendered')
  {
    var m := matches[i];
    ghost var gap := text[last..m.start];
    rendered', segments' := RenderGap(env, text, matches, i, last, rendered, segments);
    var replacement := Replacement(env, text, m);
    ghost var before := segments';
    rendered', segments' := Emit(text, rendered', segments', replacement.0, m.start, m.end, replacement.1, Medium);
    CallIsWritten(env, text, matches, i, before, rendered + gap, segments', rendered');
    Reassociate(rendered + gap, replacement.0, Rendering(env, text, matches, i + 1, m.end));
    Reassociate(rendered, gap, replacement.0 + Rendering(env, text, matches, i + 1, m.end));
    Reassociate(gap, replacement.0, Rendering(env, text, matches, i + 1, m.end));
  }

  /** The text before a call. */
  method RenderGap(ghost env: Environment, text: string, matches: seq<Match>, i: nat, last: int, rendered: string, segments: seq<Segment>)
      returns (rendered': string, segments': seq<Segment>)
    requires MatchesOf(matches, text) && i < |matches| && 0 <= last <= matches[i].start <= |text|
    requires Mapped(segments, text, rendered, last) && CallsWritten(env, text, matches, i, segments, rendered)
    ensures rendered' == rendered + text[last..matches[i].start]
    ensures Mapped(segments', text, rendered', matches[i].start) && CallsWritten(env, text, matches, i, segments', rendered')
  {
    rendered', segments' := rendered, segments;
    if matches[i].start > last {
      rendered', segments' := Emit(text, rendered, segments, text[last..matches[i].start], last, matches[i].start, LiteralSql, High);
      WrittenStays(env, text, matches, i, segments, rendered, segments', rendered');
    }
  }

  lemma CallIsWritten(env: Environment, text: string, matches: seq<Match>, i: nat, segments: seq<Segment>, rendered: string,
                      more: seq<Segment>, longer: string)
    requires MatchesOf(matches, text) && i < |matches| && CallsWritten(env, text, matches, i, segments, rendered)
    requires longer == rendered + Replacement(env, text, matches[i]).0
    requires more == segments + [Segment(|rendered|, |longer|, Some(matches[i].start), Some(matches[i].end), Replacement(env, text, matches[i]).1, Medium)]
    ensures CallsWritten(env, text, matches, i + 1, more, longer)
  {
    var s := more[|segments|];
    assert longer[s.generatedStart..s.generatedEnd] == Replacement(env, text, matches[i]).0;
    ReplacementIsWritten(env, text, matches[i], s, longer);
    NextWritten(env, text, matches, i, segments, rendered, s, longer);
  }

  /** A reference is written as the name of the relation it resolves to, or else as it stands; a name that is empty
      is stood for by a marker. */
  ghost predicate WritesName(env: Environment, name: string, s: Segment, out: string) {
    var written := match env.resolve(name) case Some(relation) => relation case None => name;
    if written == "" then WritesMarker(s, out) else out == written && s.kind == RefExpansion
  }

  ghost predicate WritesMarker(s: Segment, out: string) {
    out == "__template__" && s.kind == Synthetic
  }

  /** What a call is written as: a `ref` as its first argument, a `source` as its first two with a dot between them,
      anything else as the marker. */
  ghost predicate WritesCall(env: Environment, name: string, args: seq<string>, s: Segment, out: string) {
    && (name == "ref" && |args| >= 1 ==> WritesName(env, args[0], s, out))
    && (name == "source" && |args| >= 2 ==> WritesName(env, args[0] + "." + args[1], s, out))
    && (!(name == "ref" && |args| >= 1) && !(name == "source" && |args| >= 2) ==> WritesMarker(s, out))
  }

  /** The segment of a call has exactly the call's place in the template and what the call is written as. */
  ghost predicate CallSegment(env: Environment, text: string, m: Match, s: Segment, rendered: string)
    requires 0 <= m.nameStart <= m.nameEnd <= |text| && 0 <= m.argsStart <= m.argsEnd <= |text|
  {
    && s.templateStart == Some(m.start) && s.templateEnd == Some(m.end) && s.confidence == Medium
    && 0 <= s.generatedStart <= s.generatedEnd <= |rendered|
    && WritesCall(env, env.lower(text[m.nameStart..m.nameEnd]), env.quotedArgs(text[m.argsStart..m.argsEnd]),
                  s, rendered[s.generatedStart..s.generatedEnd])
  }

  lemma ReplacementIsWritten(env: Environment, text: string, m: Match, s: Segment, rendered: string)
    requires 0 <= m.nameStart <= m.nameEnd <= |text| && 0 <= m.argsStart <= m.argsEnd <= |text|
    requires s.templateStart == Some(m.start) && s.templateEnd == Some(m.end) && s.confidence == Medium
    requires 0 <= s.generatedStart <= s.generatedEnd <= |rendered|
    requires rendered[s.generatedStart..s.generatedEnd] == Replacement(env, text, m).0 && s.kind == Replacement(env, text, m).1
    ensures CallSegment(env, text, m, s, rendered)
  {
  }

  ghost predicate SomeSegment(env: Environment, text: string, m: Match, segments: seq<Segment>, rendered: string)
    requires 0 <= m.nameStart <= m.nameEnd <= |text| && 0 <= m.argsStart <= m.argsEnd <= |text|
  {
    exists j :: 0 <= j < |segments| && CallSegment(env, text, m, segments[j], rendered)
  }

  /** The first `i` calls all have their segments, and every other segment is a copy. */
  ghost predicate CallsWritten(env: Environment, text: string, matches: seq<Match>, i: nat, segments: seq<Segment>, rendered: string)
    requires MatchesOf(matches, text) && i <= |matches|
  {
    && (forall k :: 0 <= k < i ==> SomeSegment(env, text, matches[k], segments, rendered))
    && (forall j :: 0 <= j < |segments| ==> IsCopyOrCall(env, text, matches, i, segments[j], rendered))
  }

  ghost predicate IsCopyOrCall(env: Environment, text: string, matches: seq<Match>, i: nat, s: Segment, rendered: string)
    requires MatchesOf(matches, text) && i <= |matches|
  {
    s.kind == LiteralSql || exists k :: 0 <= k < i && CallSegment(env, text, matches[k], s, rendered)
  }

  /** What has been written stays as more is written behind it. */
  lemma WrittenStays(env: Environment, text: string, matches: seq<Match>, i: nat, segments: seq<Segment>, rendered: string,
                     more: seq<Segment>, longer: string)
    requires MatchesOf(matches, text) && i <= |matches| && CallsWritten(env, text, matches, i, segments, rendered)
    requires |segments| <= |more| && more[..|segments|] == segments && |rendered| <= |longer| && longer[..|rendered|] == rendered
    requires forall j :: |segments| <= j < |more| ==> IsCopyOrCall(env, text, matches, i, more[j], longer)
    ensures CallsWritten(env, text, matches, i, more, longer)
  {
    forall k | 0 <= k < i
      ensures SomeSegment(env, text, matches[k], more, longer)
    {
      var j :| 0 <= j < |segments| && CallSegment(env, text, matches[k], segments[j], rendered);
      SegmentStays(env, text, matches[k], segments[j], rendered, longer);
      assert more[j] == segments[j];
    }
    forall j | 0 <= j < |more|
      ensures IsCopyOrCall(env, text, matches, i, more[j], longer)
    {
      if j < |segments| {
        assert more[j] == segments[j] && IsCopyOrCall(env, text, matches, i, segments[j], rendered);
        if segments[j].kind != LiteralSql {
          var k :| 0 <= k < i && CallSegment(env, text, matches[k], segments[j], rendered);
          SegmentStays(env, text, matches[k], segments[j], rendered, longer);
        }
      }
    }
  }

  lemma SegmentStays(env: Environment, text: string, m: Match, s: Segment, rendered: string, longer: string)
    requires 0 <= m.nameStart <= m.nameEnd <= |text| && 0 <= m.argsStart <= m.argsEnd <= |text|
    requires CallSegment(env, text, m, s, rendered) && |rendered| <= |longer| && longer[..|rendered|] == rendered
    ensures CallSegment(env, text, m, s, longer)
  {
    SliceStays(rendered, longer, s.generatedStart, s.generatedEnd);
  }

  lemma SliceStays(shorter: string, longer: string, i: nat, j: nat)
    requires i <= j <= |shorter| <= |longer| && longer[..|shorter|] == shorter
    ensures longer[i..j] == shorter[i..j]
  {
    forall k | 0 <= k < j - i
      ensures longer[i..j][k] == shorter[i..j][k]
    {
      assert longer[..|shorter|][i + k] == shorter[i + k];
    }
  }

  /** The next call has been written. */
  lemma NextWritten(env: Environment, text: string, matches: seq<Match>, i: nat, segments: seq<Segment>, rendered: string, s: Segment, longer: string)
    requires MatchesOf(matches, text) && i < |matches| && CallsWritten(env, text, matches, i, segments, rendered)
    requires |rendered| <= |longer| && longer[..|rendered|] == rendered && CallSegment(env, text, matches[i], s, longer)
    ensures CallsWritten(env, text, matches, i + 1, segments + [s], longer)
  {
    var more := segments + [s];
    assert more[|segments|] == s;
    forall k | 0 <= k < i
      ensures SomeSegment(env, text, matches[k], more, longer)
    {
      var j :| 0 <= j < |segments| && CallSegment(env, text, matches[k], segments[j], rendered);
      SegmentStays(env, text, matches[k], segments[j], rendered, longer);
      assert more[j] == segments[j];
    }
    forall j | 0 <= j < |more|
      ensures IsCopyOrCall(env, text, matches, i + 1, more[j], longer)
    {
      if j < |segments| {
        assert more[j] == segments[j] && IsCopyOrCall(env, text, matches, i, segments[j], rendered);
        if segments[j].kind != LiteralSql {
          var k :| 0 <= k < i && CallSegment(env, text, matches[k], segments[j], rendered);
          SegmentStays(env, text, matches[k], segments[j], rendered, longer);
        }
      }
    }
  }

  /** Renders the template and records where every piece came from. */
  method RenderTemplateSQL(env: Environment, text: string, matches: seq<Match>)
      returns (rendered: string, segments: seq<Segment>)
    requires MatchesOf(matches, text)
    ensures rendered == Rendering(env, text, matches, 0, 0)
    ensures TilesBoth(segments, text, rendered)
    ensures CallsWritten(env, text, matches, |matches|, segments, rendered)
    ensures matches == [] ==> rendered == text
  {
    var last: int;
    rendered, segments, last := RenderCalls(env, text, matches);
    rendered, segments := RenderTail(env, text, matches, last, rendered, segments);
  }

  /** The loop over the calls. */
  method RenderCalls(env: Environment, text: string, matches: seq<Match>) returns (rendered: string, segments: seq<Segment>, last: int)
    requires MatchesOf(matches, text)
    ensures 0 <= last <= |text| && Mapped(segments, text, rendered, last)
    ensures CallsWritten(env, text, matches, |matches|, segments, rendered)
    ensures rendered + Rendering(env, text, matches, |matches|, last) == Rendering(env, text, matches, 0, 0)
  {
    rendered, segments, last := "", [], 0;
    ghost var goal := Rendering(env, text, matches, 0, 0);
    for i := 0 to |matches|
      invariant 0 <= last <= |text| && (i < |matches| ==> last <= matches[i].start)
      invariant Mapped(segments, text, rendered, last)
      invariant CallsWritten(env, text, matches, i, segments, rendered)
      invariant rendered + Rendering(env, text, matches, i, last) == goal
    {
      rendered, segments := RenderCall(env, text, matches, i, last, rendered, segments);
      last := matches[i].end;
    }
  }

  /** The text behind the last call. */
  method RenderTail(env: Environment, text: string, matches: seq<Match>, last: int, rendered: string, segments: seq<Segment>)
      returns (rendered': string, segments': seq<Segment>)
    requires MatchesOf(matches, text) && 0 <= last <= |text| && Mapped(segments, text, rendered, last)
    requires CallsWritten(env, text, matches, |matches|, segments, rendered)
    ensures rendered' == rendered + Rendering(env, text, matches, |matches|, last)
    ensures Mapped(segments', text, rendered', |text|) && CallsWritten(env, text, matches, |matches|, segments', rendered')
  {
    rendered', segments' := rendered, segments;
    if last < |text| {
      rendered', segments' := Emit(text, rendered, segments, text[last..], last, |text|, LiteralSql, High);
      WrittenStays(env, text, matches, |matches|, segments, rendered, segments', rendered');
    }
  }

  // ----- Aligning fully rendered SQL with its template -----

  ghost predicate OccursAt(text: string, part: string, i: int) {
    0 <= i && i + |part| <= |text| && text[i..i + |part|] == part
  }

  /** The first place at or after `from` where `part` occurs. */
  function Find(text: string, part: string, from: nat): (r: Option<nat>)
    requires from <= |text|
    ensures r.Some? ==> from <= r.value && OccursAt(text, part, r.value)
    ensures forall i :: from <= i && (r.Some? ==> i < r.value) ==> !OccursAt(text, part, i)
    decreases |text| - from
  {
    if from + |part| > |text| then None
    else if text[from..from + |part|] == part then Some(from)
    else if from == |text| then None
    else Find(text, part, from + 1)
  }

  /** A match of the template pattern, under the same contract as above. */
  datatype Span = Span(start: int, end: int)

  ghost predicate SpansOf(spans: seq<Span>, text: string) {
    && (forall m :: m in spans ==> 0 <= m.start < m.end <= |text|)
    && (forall i, j :: 0 <= i < j < |spans| ==> spans[i].end <= spans[j].start)
  }

  /** The `k`-th literal fragment of the template lies between match `k - 1` and match `k`. */
  ghost function FragmentStart(spans: seq<Span>, k: nat): int
    requires k <= |spans|
  {
    if k == 0 then 0 else spans[k - 1].end
  }

  ghost function FragmentEnd(spans: seq<Span>, text: string, k: nat): int
    requires k <= |spans|
  {
    if k == |spans| then |text| else spans[k].start
  }

  ghost function Fragment(spans: seq<Span>, text: string, k: nat): string
    requires SpansOf(spans, text) && k <= |spans|
  {
    text[FragmentStart(spans, k)..FragmentEnd(spans, text, k)]
  }

  /** `places` shows the rendered text to be the template's literal fragments, in order, with
      anything at all between them. */
  ghost predicate Keeps(rendered: string, template: string, spans: seq<Span>, places: seq<int>)
    requires SpansOf(spans, template)
  {
    && |places| == |spans| + 1
    && (forall k :: 0 <= k <= |spans| ==> OccursAt(rendered, Fragment(spans, template, k), places[k]))
    && (forall k :: 0 <= k < |spans| ==> places[k] + |Fragment(spans, template, k)| <= places[k + 1])
  }

  /** Some literal segment maps exactly the template range from `from` to `to`. */
  ghost predicate Anchored(segments: seq<Segment>, from: int, to: int) {
    exists s :: s in segments && s.kind == LiteralSql && s.templateStart == Some(from) && s.templateEnd == Some(to)
  }

  ghost predicate EndsBy(s: Segment, generated: int, template: int) {
    s.generatedEnd <= generated && s.templateEnd.Some? && s.templateEnd.value <= template
  }

  ghost predicate AllEndBy(segments: seq<Segment>, generated: int, template: int) {
    forall s :: s in segments ==> EndsBy(s, generated, template)
  }

  /** The map has no hole between its first segment and generated offset `end`. */
  ghost predicate NoHoles(segments: seq<Segment>, end: int) {
    && (forall i :: 0 <= i < |segments| - 1 ==> segments[i].generatedEnd == segments[i + 1].generatedStart)
    && (segments != [] ==> segments[|segments| - 1].generatedEnd == end)
  }

  /** The template range runs from the start of one match to the end of the same or a later one. */
  ghost predicate IsStretch(spans: seq<Span>, from: int, to: int) {
    exists i, j :: 0 <= i <= j < |spans| && spans[i].start == from && spans[j].end == to
  }

  ghost predicate IsFragment(template: string, spans: seq<Span>, from: int, to: int) {
    exists k :: 0 <= k <= |spans| && FragmentStart(spans, k) == from && FragmentEnd(spans, template, k) == to
  }

  /** An expansion is mapped to whole matches, a literal segment to a literal fragment; neither is empty. */
  ghost predicate Attributed(s: Segment, template: string, spans: seq<Span>) {
    && s.templateStart.Some? && s.templateEnd.Some? && s.generatedStart < s.generatedEnd
    && if s.kind == LiteralSql then IsFragment(template, spans, s.templateStart.value, s.templateEnd.value)
       else IsStretch(spans, s.templateStart.value, s.templateEnd.value)
  }

  ghost predicate AllAttributed(segments: seq<Segment>, template: string, spans: seq<Span>) {
    forall s :: s in segments ==> Attributed(s, template, spans)
  }

  lemma AppendSegment(segments: seq<Segment>, s: Segment, template: string, rendered: string)
    requires WellFormed(segments, template, rendered) && Faithful(s, template, rendered)
    requires AllEndBy(segments, s.generatedStart, s.templateStart.value)
    ensures WellFormed(segments + [s], template, rendered)
    ensures AllEndBy(segments + [s], s.generatedEnd, s.templateEnd.value)
  {
    forall i | 0 <= i < |segments|
      ensures Follows(segments[i], s) && EndsBy(segments[i], s.generatedEnd, s.templateEnd.value)
    {
      assert segments[i] in segments;
    }
  }

  /** The state of the alignment: the cursors in both texts and the pending template stretch,
      -1 when there is none. */
  datatype Alignment = Alignment(segments: seq<Segment>, generated: int, template: int, pendingStart: int, pendingEnd: int)

  ghost predicate Sound(a: Alignment, template: string, rendered: string) {
    && 0 <= a.generated <= |rendered| && 0 <= a.template <= |template|
    && -1 <= a.pendingStart
    && (a.pendingStart >= 0 ==> a.pendingStart < a.pendingEnd == a.template)
    && WellFormed(a.segments, template, rendered)
    && AllEndBy(a.segments, a.generated, if a.pendingStart >= 0 then a.pendingStart else a.template)
    && NoHoles(a.segments, a.generated)
    && (a.segments == [] ==> a.generated == 0)
  }

  /** The segments that anchoring a fragment at `place` adds. */
  function AnchorSegments(a: Alignment, place: int, length: int, end: int): seq<Segment> {
    (if place > a.generated && a.pendingStart >= 0
     then [Segment(a.generated, place, Some(a.pendingStart), Some(a.pendingEnd), TemplateExpansion, Medium)] else [])
    + [Segment(place, place + length, Some(a.template), Some(end), LiteralSql, High)]
  }

  /** A fragment that occurs at `place` is mapped there. */
  method AnchorAt(a: Alignment, template: string, rendered: string, end: int, literal: string, place: int) returns (b: Alignment)
    requires Sound(a, template, rendered) && a.template < end <= |template| && literal == template[a.template..end]
    requires a.pendingStart < 0 ==> a.segments == []
    requires a.generated <= place && OccursAt(rendered, literal, place)
    ensures b.pendingStart == -1 && b.generated == place + |literal| && b.template == a.template
    ensures b.segments == a.segments + AnchorSegments(a, place, |literal|, end)
    ensures Sound(b.(template := end), template, rendered)
  {
    var segments := a.segments;
    if place > a.generated && a.pendingStart >= 0 {
      var expansion := Segment(a.generated, place, Some(a.pendingStart), Some(a.pendingEnd), TemplateExpansion, Medium);
      AppendSegment(segments, expansion, template, rendered);
      segments := segments + [expansion];
    }
    var copy := Segment(place, place + |literal|, Some(a.template), Some(end), LiteralSql, High);
    AppendSegment(segments, copy, template, rendered);
    b := Alignment(segments + [copy], place + |literal|, a.template, -1, -1);
  }

  /** Looks for the literal fragment that ends at `end`; when it is found, the generated text
      skipped over is mapped to the pending template stretch and the fragment to itself. */
  method Anchor(a: Alignment, template: string, rendered: string, end: int) returns (b: Alignment, found: bool)
    requires Sound(a, template, rendered) && a.template <= end <= |template|
    requires a.pendingStart < 0 ==> a.segments == []
    ensures Sound(b.(template := if b.pendingStart >= 0 then a.template else end), template, rendered)
    ensures b.template == a.template
    ensures AnchorResult(a, b, found, rendered, template[a.template..end], end)
  {
    b, found := a, false;
    var literal := template[a.template..end];
    if literal != "" {
      var place := Find(rendered, literal, a.generated);
      if place.Some? {
        b := AnchorAt(a, template, rendered, end, literal, place.value);
        found := true;
      }
    }
  }

  lemma KeepsAnchors(segments: seq<Segment>, more: seq<Segment>)
    requires segments <= more
    ensures forall from, to :: Anchored(segments, from, to) ==> Anchored(more, from, to)
  {
    forall from, to | Anchored(segments, from, to)
      ensures Anchored(more, from, to)
    {
      var s :| s in segments && s.kind == LiteralSql && s.templateStart == Some(from) && s.templateEnd == Some(to);
      assert s in more;
    }
  }

  /** Where the generated cursor may be at most after the first `k` fragments. */
  ghost function Limit(template: string, spans: seq<Span>, places: seq<int>, k: nat): int
    requires SpansOf(spans, template) && k <= |spans| + 1 && |places| == |spans| + 1
  {
    if k == 0 then 0 else places[k - 1] + |Fragment(spans, template, k - 1)|
  }

  lemma LimitBelowNextPlace(rendered: string, template: string, spans: seq<Span>, places: seq<int>, k: nat)
    requires SpansOf(spans, template) && k <= |spans| && Keeps(rendered, template, spans, places)
    ensures Limit(template, spans, places, k) <= places[k]
    ensures OccursAt(rendered, Fragment(spans, template, k), places[k])
  {
    assert OccursAt(rendered, Fragment(spans, template, k), places[k]);
    if k > 0 {
      var j := k - 1;
      assert places[j] + |Fragment(spans, template, j)| <= places[j + 1];
    }
  }

  ghost predicate AnchoredUpTo(segments: seq<Segment>, template: string, spans: seq<Span>, k: nat)
    requires SpansOf(spans, template) && k <= |spans| + 1
  {
    forall j :: 0 <= j < k && Fragment(spans, template, j) != "" ==>
      Anchored(segments, FragmentStart(spans, j), FragmentEnd(spans, template, j))
  }

  /** The generated cursor has not passed the place of any fragment still to come, and every
      fragment so far is anchored. */
  ghost predicate Complete(a: Alignment, template: string, spans: seq<Span>, places: seq<int>, k: nat)
    requires SpansOf(spans, template) && k <= |spans| + 1 && |places| == |spans| + 1
  {
    a.generated <= Limit(template, spans, places, k) && AnchoredUpTo(a.segments, template, spans, k)
  }

  /** Taking the first occurrence is safe: it is never past the fragment's own place. */
  lemma FindsByPlace(rendered: string, literal: string, cursor: nat, place: int)
    requires cursor <= place && OccursAt(rendered, literal, place)
    ensures Find(rendered, literal, cursor).Some? && Find(rendered, literal, cursor).value <= place
  {
  }

  /** What Anchor does with the fragment that ends at `end`. */
  ghost predicate AnchorResult(a: Alignment, b: Alignment, found: bool, rendered: string, literal: string, end: int)
    requires 0 <= a.generated <= |rendered|
  {
    var place := Find(rendered, literal, a.generated);
    && found == (literal != "" && place.Some?)
    && (found ==> b.pendingStart == -1 && b.generated == place.value + |literal|
                  && b.segments == a.segments + AnchorSegments(a, place.value, |literal|, end))
    && (!found ==> b == a)
  }

  lemma AnchorsKept(a: Alignment, b: Alignment, found: bool, rendered: string, template: string, spans: seq<Span>, k: nat)
    requires SpansOf(spans, template) && k <= |spans|
    requires 0 <= a.generated <= |rendered| && a.template == FragmentStart(spans, k)
    requires AnchorResult(a, b, found, rendered, Fragment(spans, template, k), FragmentEnd(spans, template, k))
    requires AnchoredUpTo(a.segments, template, spans, k)
    requires Fragment(spans, template, k) != "" ==> found
    ensures AnchoredUpTo(b.segments, template, spans, k + 1)
  {
    KeepsAnchors(a.segments, b.segments);
    if found {
      assert b.segments[|b.segments| - 1] in b.segments;
      assert Anchored(b.segments, FragmentStart(spans, k), FragmentEnd(spans, template, k));
    }
    forall j | 0 <= j < k + 1 && Fragment(spans, template, j) != ""
      ensures Anchored(b.segments, FragmentStart(spans, j), FragmentEnd(spans, template, j))
    {
      if j < k {
        assert Anchored(a.segments, FragmentStart(spans, j), FragmentEnd(spans, template, j));
      }
    }
  }

  lemma GreedyIsComplete(a: Alignment, b: Alignment, found: bool, rendered: string, template: string, spans: seq<Span>, places: seq<int>, k: nat)
    requires SpansOf(spans, template) && k <= |spans| && Keeps(rendered, template, spans, places)
    requires Complete(a, template, spans, places, k)
    requires 0 <= a.generated <= |rendered| && a.template == FragmentStart(spans, k)
    requires AnchorResult(a, b, found, rendered, Fragment(spans, template, k), FragmentEnd(spans, template, k))
    ensures Complete(b, template, spans, places, k + 1)
  {
    var literal := Fragment(spans, template, k);
    assert Limit(template, spans, places, k) <= places[k] && OccursAt(rendered, literal, places[k]) by {
      LimitBelowNextPlace(rendered, template, spans, places, k);
    }
    FindsByPlace(rendered, literal, a.generated, places[k]);
    AnchorsKept(a, b, found, rendered, template, spans, k);
  }

  /** Around an expansion the map has no hole in the template either. */
  ghost predicate Joined(segments: seq<Segment>) {
    forall i, j :: 0 <= i < |segments| && j == i + 1 && j < |segments| && (segments[i].kind != LiteralSql || segments[j].kind != LiteralSql) ==>
      segments[i].templateEnd == segments[j].templateStart
  }

  /** The pending stretch starts at the first match, or else behind the last segment, which is a literal one; a first
      segment that is an expansion starts at the first match. */
  ghost predicate PendingBehind(a: Alignment, spans: seq<Span>) {
    && Joined(a.segments)
    && (a.segments != [] ==> a.segments[|a.segments| - 1].kind == LiteralSql)
    && (a.segments != [] && a.segments[0].kind != LiteralSql ==> spans != [] && a.segments[0].templateStart == Some(spans[0].start))
    && (a.pendingStart >= 0 ==>
          spans != [] && if a.segments == [] then a.pendingStart == spans[0].start else a.segments[|a.segments| - 1].templateEnd == Some(a.pendingStart))
  }

  lemma JoinedMore(segments: seq<Segment>, more: seq<Segment>, added: seq<Segment>)
    requires Joined(segments) && Joined(added) && more == segments + added
    requires segments != [] && added != [] && (segments[|segments| - 1].kind != LiteralSql || added[0].kind != LiteralSql) ==>
               segments[|segments| - 1].templateEnd == added[0].templateStart
    ensures Joined(more)
  {
    forall i, j | 0 <= i < |more| && j == i + 1 && j < |more| && (more[i].kind != LiteralSql || more[j].kind != LiteralSql)
      ensures more[i].templateEnd == more[j].templateStart
    {
      if j < |segments| {
        assert more[i] == segments[i] && more[j] == segments[j];
      } else if i >= |segments| {
        assert more[i] == added[i - |segments|] && more[j] == added[j - |segments|];
      }
    }
  }

  lemma AnchorJoins(a: Alignment, b: Alignment, found: bool, rendered: string, literal: string, spans: seq<Span>, end: int)
    requires 0 <= a.generated <= |rendered| && PendingBehind(a, spans) && AnchorResult(a, b, found, rendered, literal, end)
    requires a.pendingStart >= 0 ==> a.pendingEnd == a.template
    ensures PendingBehind(b, spans)
    ensures found ==> b.segments != [] && b.segments[|b.segments| - 1].templateEnd == Some(end)
  {
    if found {
      var added := AnchorSegments(a, Find(rendered, literal, a.generated).value, |literal|, end);
      JoinedMore(a.segments, b.segments, added);
    }
  }

  /** The pending stretch is made of whole matches, the map so far is attributed, and it starts
      where the rendered text starts unless it starts with the template's first fragment. */
  ghost predicate Honest(a: Alignment, template: string, spans: seq<Span>) {
    && AllAttributed(a.segments, template, spans)
    && (a.pendingStart >= 0 ==> IsStretch(spans, a.pendingStart, a.pendingEnd))
    && (a.segments != [] ==> a.segments[0].generatedStart == 0 || a.segments[0].templateStart == Some(0))
  }

  lemma AnchorIsHonest(a: Alignment, b: Alignment, found: bool, rendered: string, literal: string, template: string, spans: seq<Span>, k: nat)
    requires k <= |spans| && a.template == FragmentStart(spans, k) && Honest(a, template, spans)
    requires 0 <= a.generated <= |rendered|
    requires AnchorResult(a, b, found, rendered, literal, FragmentEnd(spans, template, k))
    requires a.segments == [] ==> a.generated == 0
    requires a.pendingStart < 0 ==> k == 0
    ensures Honest(b, template, spans)
  {
    if found {
      var added := AnchorSegments(a, Find(rendered, literal, a.generated).value, |literal|, FragmentEnd(spans, template, k));
      assert IsFragment(template, spans, a.template, FragmentEnd(spans, template, k));
      assert forall s :: s in added ==> Attributed(s, template, spans);
      if a.segments == [] {
        assert b.segments == added;
      }
    }
  }

  lemma StretchGrows(spans: seq<Span>, from: int, to: int, k: nat)
    requires k < |spans|
    requires from >= 0 ==> IsStretch(spans, from, to) && k > 0 && to == spans[k - 1].end
    requires forall i, j :: 0 <= i < j < |spans| ==> spans[i].start < spans[i].end <= spans[j].start < spans[j].end
    ensures IsStretch(spans, if from >= 0 then from else spans[k].start, spans[k].end)
  {
    if from >= 0 {
      var i, j :| 0 <= i <= j < |spans| && spans[i].start == from && spans[j].end == to;
      assert j <= k - 1;
    }
  }

  /** After the first `k` fragments and the matches behind them. */
  ghost predicate Aligned(a: Alignment, template: string, rendered: string, spans: seq<Span>, places: seq<int>, k: nat)
    requires SpansOf(spans, template) && k <= |spans|
  {
    && Sound(a, template, rendered) && a.template == FragmentStart(spans, k)
    && (a.pendingStart < 0 <==> k == 0)
    && (k == 0 ==> a.segments == [])
    && Honest(a, template, spans) && PendingBehind(a, spans)
    && (Keeps(rendered, template, spans, places) ==> Complete(a, template, spans, places, k))
  }

  /** Anchoring the next fragment keeps the alignment honest and complete. */
  lemma AnchorStep(a: Alignment, b: Alignment, found: bool, template: string, rendered: string, spans: seq<Span>, places: seq<int>, k: nat)
    requires SpansOf(spans, template) && k <= |spans|
    requires Aligned(a, template, rendered, spans, places, k)
    requires AnchorResult(a, b, found, rendered, Fragment(spans, template, k), FragmentEnd(spans, template, k))
    ensures Honest(b, template, spans) && PendingBehind(b, spans)
    ensures found ==> b.segments != [] && b.segments[|b.segments| - 1].templateEnd == Some(FragmentEnd(spans, template, k))
    ensures Keeps(rendered, template, spans, places) ==> Complete(b, template, spans, places, k + 1)
  {
    AnchorJoins(a, b, found, rendered, Fragment(spans, template, k), spans, FragmentEnd(spans, template, k));
    AnchorIsHonest(a, b, found, rendered, Fragment(spans, template, k), template, spans, k);
    if Keeps(rendered, template, spans, places) {
      GreedyIsComplete(a, b, found, rendered, template, spans, places, k);
    }
  }

  /** Moves past a match, which joins the pending template stretch. */
  function NextMatch(b: Alignment, m: Span): Alignment {
    b.(pendingStart := if b.pendingStart < 0 then m.start else b.pendingStart, pendingEnd := m.end, template := m.end)
  }

  lemma MatchPassed(a: Alignment, b: Alignment, template: string, rendered: string, spans: seq<Span>, places: seq<int>, k: nat)
    requires SpansOf(spans, template) && k < |spans|
    requires a.template == FragmentStart(spans, k) == b.template && (a.pendingStart < 0 <==> k == 0)
    requires a.pendingStart >= 0 ==> a.pendingEnd == a.template
    requires b.pendingStart < 0 || (b.pendingStart, b.pendingEnd) == (a.pendingStart, a.pendingEnd)
    requires Sound(b.(template := if b.pendingStart >= 0 then a.template else spans[k].start), template, rendered)
    requires Honest(b, template, spans) && PendingBehind(b, spans)
    requires b.pendingStart < 0 ==> if b.segments == [] then k == 0 else b.segments[|b.segments| - 1].templateEnd == Some(spans[k].start)
    requires Keeps(rendered, template, spans, places) ==> Complete(b, template, spans, places, k + 1)
    ensures Aligned(NextMatch(b, spans[k]), template, rendered, spans, places, k + 1)
  {
    StretchGrows(spans, b.pendingStart, b.pendingEnd, k);
  }

  /** One round of the loop in ProjectRenderedSQL: a fragment and the match behind it. */
  method AlignMatch(a: Alignment, template: string, rendered: string, spans: seq<Span>, ghost places: seq<int>, k: nat)
      returns (next: Alignment, found: bool)
    requires SpansOf(spans, template) && k < |spans|
    requires Aligned(a, template, rendered, spans, places, k)
    ensures Aligned(next, template, rendered, spans, places, k + 1)
    ensures next.segments != [] <==> a.segments != [] || found
  {
    var m := spans[k];
    var b: Alignment;
    b, found := Anchor(a, template, rendered, m.start);
    AnchorStep(a, b, found, template, rendered, spans, places, k);
    next := NextMatch(b, m);
    MatchPassed(a, b, template, rendered, spans, places, k);
  }

  /** A finished map has no holes, attributes every segment, and reaches both ends of the
      rendered text unless the template's own ends are anchored first. */
  ghost predicate Finished(segments: seq<Segment>, template: string, rendered: string, spans: seq<Span>) {
    && WellFormed(segments, template, rendered)
    && AllAttributed(segments, template, spans) && Joined(segments)
    && (segments != [] && segments[0].kind != LiteralSql ==> spans != [] && segments[0].templateStart == Some(spans[0].start))
    && (segments != [] && segments[|segments| - 1].kind != LiteralSql ==> spans != [] && segments[|segments| - 1].templateEnd == Some(spans[|spans| - 1].end))
    && (segments != [] ==>
          && NoHoles(segments, segments[|segments| - 1].generatedEnd)
          && (segments[0].generatedStart == 0 || segments[0].templateStart == Some(0))
          && (segments[|segments| - 1].generatedEnd == |rendered| || segments[|segments| - 1].templateEnd == Some(|template|)))
  }

  /** The end of ProjectRenderedSQL: the last fragment and the text behind it. */
  method AlignTail(a: Alignment, template: string, rendered: string, spans: seq<Span>, ghost places: seq<int>, anchored: bool)
      returns (segments: seq<Segment>)
    requires SpansOf(spans, template) && spans != []
    requires Aligned(a, template, rendered, spans, places, |spans|)
    requires anchored <==> a.segments != []
    ensures Finished(segments, template, rendered, spans)
    ensures Keeps(rendered, template, spans, places) ==> AnchoredUpTo(segments, template, spans, |spans| + 1)
  {
    var b, found := Anchor(a, template, rendered, |template|);
    AnchorStep(a, b, found, template, rendered, spans, places, |spans|);
    segments := AlignRest(b, template, rendered, spans, anchored || found);
    KeepsAnchors(b.segments, segments);
  }

  /** The text behind the last anchored fragment is mapped to the pending template stretch. */
  method AlignRest(b: Alignment, template: string, rendered: string, spans: seq<Span>, hasLiteralAnchor: bool) returns (segments: seq<Segment>)
    requires SpansOf(spans, template) && spans != [] && (hasLiteralAnchor <==> b.segments != [])
    requires Sound(b.(template := if b.pendingStart >= 0 then FragmentStart(spans, |spans|) else |template|), template, rendered)
    requires Honest(b, template, spans) && PendingBehind(b, spans)
    requires b.pendingStart < 0 ==> b.segments != [] && b.segments[|b.segments| - 1].templateEnd == Some(|template|)
    ensures Finished(segments, template, rendered, spans) && b.segments <= segments
  {
    segments := b.segments;
    if b.generated < |rendered| && b.pendingStart >= 0 && hasLiteralAnchor {
      var expansion := Segment(b.generated, |rendered|, Some(b.pendingStart), Some(b.pendingEnd), TemplateExpansion, Medium);
      AppendSegment(segments, expansion, template, rendered);
      JoinedMore(segments, segments + [expansion], [expansion]);
      segments := segments + [expansion];
    }
  }

  /** The loop of ProjectRenderedSQL and its end. */
  method Align(template: string, rendered: string, spans: seq<Span>, ghost places: seq<int>) returns (segments: seq<Segment>)
    requires SpansOf(spans, template) && spans != []
    ensures Finished(segments, template, rendered, spans)
    ensures Keeps(rendered, template, spans, places) ==> AnchoredUpTo(segments, template, spans, |spans| + 1)
  {
    var a := Alignment([], 0, 0, -1, -1);
    var hasLiteralAnchor, found := false, false;
    for k := 0 to |spans|
      invariant Aligned(a, template, rendered, spans, places, k)
      invariant hasLiteralAnchor <==> a.segments != []
    {
      a, found := AlignMatch(a, template, rendered, spans, places, k);
      hasLiteralAnchor := hasLiteralAnchor || found;
    }
    segments := AlignTail(a, template, rendered, spans, places, hasLiteralAnchor);
  }

  /** Builds a best-effort source map from fully rendered SQL back to its template. Whatever
      the rendered text, the map is well formed, has no holes between its ends, and attributes
      literal segments to fragments and expansions to whole matches. When the rendered text is
      the template's fragments with anything between them, every fragment is anchored. */
  method ProjectRenderedSQL(template: string, rendered: string, spans: seq<Span>) returns (segments: seq<Segment>)
    requires SpansOf(spans, template)
    ensures WellFormed(segments, template, rendered)
    ensures Find(template, rendered, 0).Some? ==>
              exists i :: segments == [Segment(0, |rendered|, Some(i), Some(i + |rendered|), LiteralSql, High)]
    ensures Find(template, rendered, 0).None? ==>
              && (spans == [] ==> segments == [])
              && Finished(segments, template, rendered, spans)
              && (spans != [] && (exists places :: Keeps(rendered, template, spans, places)) ==>
                    AnchoredUpTo(segments, template, spans, |spans| + 1))
  {
    if rendered == template {
      assert rendered[0..|rendered|] == template[0..|template|];
      assert OccursAt(template, rendered, 0);
      return [Segment(0, |rendered|, Some(0), Some(|template|), LiteralSql, High)];
    }
    var index := Find(template, rendered, 0);
    if index.Some? {
      assert rendered[0..|rendered|] == rendered;
      return [Segment(0, |rendered|, Some(index.value), Some(index.value + |rendered|), LiteralSql, High)];
    }
    if spans == [] {
      return [];
    }
    ghost var places: seq<int> :=
      if exists p :: Keeps(rendered, template, spans, p) then var p :| Keeps(rendered, template, spans, p); p else [];
    segments := Align(template, rendered, spans, places);
  }
}
