/** Name suggestions: the two-row Levenshtein distance and the choice of the nearest candidate.
    A Go string is a byte string; here one `char` stands for one byte. */
module EditDistance {
  import opened Wrappers

  /** One step of an edit script. A script acts on its text from the right: its last edit
      deals with the last byte, the edits before it with the bytes before that. */
  datatype Edit = Keep | Substitute(c: char) | Insert(c: char) | Delete

  /** The text a script turns `a` into, if the script fits `a`. */
  ghost function Apply(script: seq<Edit>, a: string): Option<string>
    decreases |script|
  {
    if script == [] then
      if a == "" then Some("") else None
    else
      var n := |script| - 1;
      match script[n]
      case Insert(c) =>
        (match Apply(script[..n], a) case Some(b) => Some(b + [c]) case None => None)
      case Delete =>
        if a == "" then None else Apply(script[..n], a[..|a| - 1])
      case Keep =>
        if a == "" then None else
          (match Apply(script[..n], a[..|a| - 1]) case Some(b) => Some(b + [a[|a| - 1]]) case None => None)
      case Substitute(c) =>
        if a == "" then None else
          (match Apply(script[..n], a[..|a| - 1]) case Some(b) => Some(b + [c]) case None => None)
  }

  ghost function Cost(script: seq<Edit>): nat
  {
    if script == [] then 0
    else Cost(script[..|script| - 1]) + if script[|script| - 1].Keep? then 0 else 1
  }

  /** `d` is the length of a shortest script of insertions, deletions and substitutions. */
  ghost predicate IsEditDistance(a: string, b: string, d: nat) {
    && (exists script :: Apply(script, a) == Some(b) && Cost(script) == d)
    && (forall script :: Apply(script, a) == Some(b) ==> d <= Cost(script))
  }

  /** Entry `i`, `j` of the table that the two rows sweep over. */
  ghost function Cell(a: string, b: string, i: nat, j: nat): nat
    requires i <= |a| && j <= |b|
  {
    if i == 0 then j
    else if j == 0 then i
    else
      Min(Min(Cell(a, b, i - 1, j) + 1, Cell(a, b, i, j - 1) + 1), Cell(a, b, i - 1, j - 1) + Differ(a[i - 1], b[j - 1]))
  }

  function Differ(c: char, d: char): nat {
    if c != d then 1 else 0
  }

  ghost function Distance(a: string, b: string): nat {
    Cell(a, b, |a|, |b|)
  }

  lemma ApplySnoc(script: seq<Edit>, e: Edit)
    ensures (script + [e])[..|script|] == script
    ensures Cost(script + [e]) == Cost(script) + if e.Keep? then 0 else 1
  {
    assert (script + [e])[..|script|] == script;
  }

  lemma TakeTake(s: string, i: nat)
    requires 1 <= i <= |s|
    ensures s[..i][..i - 1] == s[..i - 1] && s[..i] == s[..i - 1] + [s[i - 1]]
  {
  }

  /** Some script reaches a cell's value. */
  lemma {:induction false} ShortestScript(a: string, b: string, i: nat, j: nat) returns (script: seq<Edit>)
    requires i <= |a| && j <= |b|
    ensures Apply(script, a[..i]) == Some(b[..j]) && Cost(script) == Cell(a, b, i, j)
  {
    if i == 0 && j == 0 {
      script := [];
    } else if i > 0 && j > 0 && Cell(a, b, i, j) == Cell(a, b, i - 1, j - 1) + Differ(a[i - 1], b[j - 1]) {
      script := ShortestScript(a, b, i - 1, j - 1);
      script := EndsAligned(a, b, i, j, script);
    } else if j == 0 || (i > 0 && Cell(a, b, i, j) == Cell(a, b, i - 1, j) + 1) {
      script := ShortestScript(a, b, i - 1, j);
      script := EndsDeleting(a, b, i, j, script);
    } else {
      script := ShortestScript(a, b, i, j - 1);
      script := EndsInserting(a, b, i, j, script);
    }
  }

  lemma EndsAligned(a: string, b: string, i: nat, j: nat, shorter: seq<Edit>) returns (script: seq<Edit>)
    requires 0 < i <= |a| && 0 < j <= |b| && Apply(shorter, a[..i - 1]) == Some(b[..j - 1])
    ensures Apply(script, a[..i]) == Some(b[..j]) && Cost(script) == Cost(shorter) + Differ(a[i - 1], b[j - 1])
  {
    var last := if a[i - 1] == b[j - 1] then Keep else Substitute(b[j - 1]);
    TakeTake(a, i);
    TakeTake(b, j);
    ApplySnoc(shorter, last);
    script := shorter + [last];
  }

  lemma EndsDeleting(a: string, b: string, i: nat, j: nat, shorter: seq<Edit>) returns (script: seq<Edit>)
    requires 0 < i <= |a| && j <= |b| && Apply(shorter, a[..i - 1]) == Some(b[..j])
    ensures Apply(script, a[..i]) == Some(b[..j]) && Cost(script) == Cost(shorter) + 1
  {
    TakeTake(a, i);
    ApplySnoc(shorter, Delete);
    script := shorter + [Delete];
  }

  lemma EndsInserting(a: string, b: string, i: nat, j: nat, shorter: seq<Edit>) returns (script: seq<Edit>)
    requires i <= |a| && 0 < j <= |b| && Apply(shorter, a[..i]) == Some(b[..j - 1])
    ensures Apply(script, a[..i]) == Some(b[..j]) && Cost(script) == Cost(shorter) + 1
  {
    TakeTake(b, j);
    ApplySnoc(shorter, Insert(b[j - 1]));
    script := shorter + [Insert(b[j - 1])];
  }

  /** No script is cheaper than a cell's value. */
  lemma {:induction false} NoShorterScript(script: seq<Edit>, a: string, b: string, i: nat, j: nat)
    requires i <= |a| && j <= |b| && Apply(script, a[..i]) == Some(b[..j])
    ensures Cell(a, b, i, j) <= Cost(script)
    decreases |script|
  {
    if script != [] {
      var n := |script| - 1;
      var rest := script[..n];
      if i > 0 { TakeTake(a, i); }
      if j > 0 { TakeTake(b, j); }
      match script[n]
      case Insert(c) =>
        assert b[..j - 1] == Apply(rest, a[..i]).value;
        NoShorterScript(rest, a, b, i, j - 1);
      case Delete =>
        NoShorterScript(rest, a, b, i - 1, j);
      case Keep =>
        assert b[..j - 1] == Apply(rest, a[..i - 1]).value;
        NoShorterScript(rest, a, b, i - 1, j - 1);
      case Substitute(c) =>
        assert b[..j - 1] == Apply(rest, a[..i - 1]).value;
        NoShorterScript(rest, a, b, i - 1, j - 1);
    }
  }

  lemma WholeScripts(a: string, b: string) returns (shortest: seq<Edit>)
    ensures Apply(shortest, a) == Some(b) && Cost(shortest) == Distance(a, b)
    ensures forall script :: Apply(script, a) == Some(b) ==> Distance(a, b) <= Cost(script)
  {
    assert a[..|a|] == a && b[..|b|] == b;
    shortest := ShortestScript(a, b, |a|, |b|);
    forall script | Apply(script, a) == Some(b)
      ensures Distance(a, b) <= Cost(script)
    {
      NoShorterScript(script, a, b, |a|, |b|);
    }
  }

  /** The recurrence computes the edit distance. */
  lemma DistanceIsEditDistance(a: string, b: string)
    ensures IsEditDistance(a, b, Distance(a, b))
  {
    var shortest := WholeScripts(a, b);
  }

  /** Doing `first` and then `second` is one script that costs no more than both. */
  lemma {:induction false} Compose(first: seq<Edit>, second: seq<Edit>, a: string, b: string, c: string)
      returns (both: seq<Edit>)
    requires Apply(first, a) == Some(b) && Apply(second, b) == Some(c)
    ensures Apply(both, a) == Some(c) && Cost(both) <= Cost(first) + Cost(second)
    decreases |first| + |second|
  {
    if first == [] && second == [] {
      both := [];
      return;
    }
    var m, n := |first| - 1, |second| - 1;
    if second != [] && second[n].Insert? {
      var rest := Compose(first, second[..n], a, b, c[..|c| - 1]) by {
        assert c[..|c| - 1] == Apply(second[..n], b).value;
      }
      ApplySnoc(rest, second[n]);
      both := rest + [second[n]];
    } else if first != [] && first[m].Delete? {
      var rest := Compose(first[..m], second, a[..|a| - 1], b, c);
      ApplySnoc(rest, Delete);
      both := rest + [Delete];
    } else {
      var a' := if first[m].Insert? then a else a[..|a| - 1];
      var b' := b[..|b| - 1];
      assert b' == Apply(first[..m], a').value;
      var c' := if second[n].Delete? then c else c[..|c| - 1];
      assert c' == Apply(second[..n], b').value;
      var rest := Compose(first[..m], second[..n], a', b', c');
      if first[m].Insert? && second[n].Delete? {
        both := rest;
      } else {
        var last :=
          if second[n].Delete? then Delete
          else if first[m].Insert? then Insert(c[|c| - 1])
          else if first[m].Keep? then second[n]
          else Substitute(c[|c| - 1]);
        ApplySnoc(rest, last);
        both := rest + [last];
        assert !second[n].Delete? ==> c' + [c[|c| - 1]] == c;
      }
    }
  }

  lemma {:induction false} Symmetric(a: string, b: string, i: nat, j: nat)
    requires i <= |a| && j <= |b|
    ensures Cell(a, b, i, j) == Cell(b, a, j, i)
  {
    if i > 0 && j > 0 {
      Symmetric(a, b, i - 1, j);
      Symmetric(a, b, i, j - 1);
      Symmetric(a, b, i - 1, j - 1);
    }
  }

  lemma {:induction false} ZeroIffEqual(a: string, b: string, i: nat, j: nat)
    requires i <= |a| && j <= |b|
    ensures Cell(a, b, i, j) == 0 <==> a[..i] == b[..j]
  {
    if i > 0 && j > 0 {
      ZeroIffEqual(a, b, i - 1, j - 1);
      TakeTake(a, i);
      TakeTake(b, j);
    }
  }

  /** Edit distance is a metric on byte strings. */
  lemma Metric(a: string, b: string, c: string)
    ensures Distance(a, b) == 0 <==> a == b
    ensures Distance(a, b) == Distance(b, a)
    ensures Distance(a, c) <= Distance(a, b) + Distance(b, c)
  {
    assert a[..|a|] == a && b[..|b|] == b;
    ZeroIffEqual(a, b, |a|, |b|);
    Symmetric(a, b, |a|, |b|);
    var first := WholeScripts(a, b);
    var second := WholeScripts(b, c);
    var both := Compose(first, second, a, b, c);
    var shortest := WholeScripts(a, c);
  }

  /** The row `i` of the table. */
  ghost predicate IsRow(row: array<int>, a: string, b: string, i: nat)
    requires i <= |a|
    reads row
  {
    row.Length == |b| + 1 && forall j {:trigger row[j]} :: 0 <= j <= |b| ==> row[j] == Cell(a, b, i, j)
  }

  /** The inner loop: fills the next row from the one before it. */
  method NextRow(a: string, b: string, i: nat, prev: array<int>) returns (current: array<int>)
    requires 1 <= i <= |a| && IsRow(prev, a, b, i - 1)
    ensures IsRow(current, a, b, i) && fresh(current)
  {
    current := new int[|b| + 1];
    current[0] := i;
    for j := 1 to |b| + 1
      invariant forall k {:trigger current[k]} :: 0 <= k < j ==> current[k] == Cell(a, b, i, k)
    {
      var cost := 0;
      if a[i - 1] != b[j - 1] {
        cost := 1;
      }
      current[j] := Min(Min(prev[j] + 1, current[j - 1] + 1), prev[j - 1] + cost);
    }
  }

  /** The two-row computation, with the rows filled in place. */
  method Levenshtein(a: string, b: string) returns (d: nat)
    ensures d == Distance(a, b)
  {
    if a == b {
      ZeroIffEqual(a, b, |a|, |b|);
      return 0;
    }
    if |a| == 0 {
      return |b|;
    }
    if |b| == 0 {
      return |a|;
    }
    var prev := new int[|b| + 1];
    for j := 0 to |b| + 1
      invariant forall k :: 0 <= k < j ==> prev[k] == k
    {
      prev[j] := j;
    }
    for i := 1 to |a| + 1
      invariant IsRow(prev, a, b, i - 1)
    {
      prev := NextRow(a, b, i, prev);
    }
    d := prev[|b|];
  }

  // The initial value of the best score; no candidate this far away is ever suggested.
  const NO_SCORE := 0x4000_0000

  /** How far candidate `c` is from `name`; `trim` and `lower` are the string library's
      TrimSpace and ToLower, of which nothing is assumed. */
  ghost function Score(name: string, c: string, trim: string -> string, lower: string -> string): nat {
    Distance(lower(trim(name)), lower(trim(c)))
  }

  /** Candidates that are blank or too far away to beat the initial best score are never suggested. */
  ghost predicate Suggestible(name: string, c: string, trim: string -> string, lower: string -> string) {
    trim(c) != "" && Score(name, c, trim, lower) < NO_SCORE
  }

  /** `i` is the first of the closest suggestible candidates. */
  ghost predicate IsNearest(i: nat, name: string, candidates: seq<string>, trim: string -> string, lower: string -> string)
  {
    && i < |candidates|
    && Suggestible(name, candidates[i], trim, lower)
    && (forall j :: 0 <= j < |candidates| && trim(candidates[j]) != "" ==>
          Score(name, candidates[i], trim, lower) <= Score(name, candidates[j], trim, lower))
    && (forall j :: 0 <= j < i && trim(candidates[j]) != "" ==>
          Score(name, candidates[i], trim, lower) < Score(name, candidates[j], trim, lower))
  }

  method NearestName(name: string, candidates: seq<string>, trim: string -> string, lower: string -> string)
      returns (best: string, ok: bool)
    ensures best == "" <==>
            trim(name) == "" || forall c :: c in candidates ==> !Suggestible(name, c, trim, lower)
    ensures best == "" ==> !ok
    ensures best != "" ==>
              exists i: nat :: IsNearest(i, name, candidates, trim, lower) && best == trim(candidates[i])
                               && (ok <==> Distance(lower(trim(name)), lower(trim(candidates[i]))) <= Max(2, |trim(name)| / 3))
  {
    var trimmed := trim(name);
    if trimmed == "" {
      return "", false;
    }
    var seen: set<string> := {};
    best := "";
    var bestScore := NO_SCORE;
    ghost var at := 0;
    for k := 0 to |candidates|
      invariant forall key :: key in seen <==> exists j :: 0 <= j < k && trim(candidates[j]) != "" && key == lower(trim(candidates[j]))
      invariant forall j :: 0 <= j < k && trim(candidates[j]) != "" ==> bestScore <= Score(name, candidates[j], trim, lower)
      invariant best == "" ==> bestScore == NO_SCORE
      invariant best != "" ==> at < k && best == trim(candidates[at]) && bestScore == Score(name, candidates[at], trim, lower)
                               && bestScore < NO_SCORE
      invariant best != "" ==> forall j :: 0 <= j < at && trim(candidates[j]) != "" ==> bestScore < Score(name, candidates[j], trim, lower)
    {
      var candidate := trim(candidates[k]);
      if candidate == "" {
        continue;
      }
      var key := lower(candidate);
      if key in seen {
        continue;
      }
      seen := seen + {key};
      var score := Levenshtein(lower(trimmed), key);
      if score < bestScore {
        best := candidate;
        bestScore := score;
        at := k;
      }
    }
    if best == "" {
      return "", false;
    }
    assert IsNearest(at, name, candidates, trim, lower);
    var limit := Max(2, |trimmed| / 3);
    return best, bestScore <= limit;
  }
}
