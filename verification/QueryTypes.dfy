/** What the analysis of a query text talks about. */
module QueryTypes {
  import opened Wrappers

  /** A match of a relation pattern: the name, an alias with AS, and the comma it starts with if it is a
      match of the comma pattern. */
  datatype Match = Match(comma: Option<nat>, nameStart: nat, nameEnd: nat, alias: Option<(nat, nat)>)

  predicate MatchIn(m: Match, n: nat) {
    m.nameStart < m.nameEnd <= n && (m.alias.Some? ==> m.nameEnd < m.alias.value.0 < m.alias.value.1 <= n)
  }

  /** What a match turns out to be. */
  datatype Use = Skipped | TableFunction(name: string, alias: string) | Relation(name: string, alias: string, aliasStart: nat, aliasEnd: nat)

  datatype ColumnAlias = ColumnAlias(name: string, start: nat, end: nat)

  datatype Subquery = Subquery(alias: string, body: string, aliasStart: nat, aliasEnd: nat, bodyStart: nat, columnAliases: seq<ColumnAlias>)

  datatype Cte = Cte(name: string, identifier: string, body: string, nameStart: nat, nameEnd: nat, bodyStart: nat, columnAliases: seq<ColumnAlias>, recursive: bool) {
    function End(): nat {
      bodyStart + |body|
    }
  }

  datatype Column = Column(name: string, kind: string)

  datatype RefKind = CteRef | RelationRef | TableFunctionRef | SubqueryRef

  /** What an alias stands for, and where it is introduced. */
  datatype Ref = Ref(alias: string, name: string, columns: seq<Column>, columnRanges: map<string, (nat, nat)>, kind: RefKind, start: nat, end: nat)

  datatype RelationUse = RelationUse(name: string, start: int, end: int)

  /** Definitions follow each other; their bodies do not overlap. */
  ghost predicate CtesInOrder(ctes: seq<Cte>, from: nat) {
    && (forall k :: 0 <= k < |ctes| ==> from <= ctes[k].nameStart)
    && (forall j, k :: 0 <= j < k < |ctes| ==> ctes[j].End() < ctes[k].nameStart)
  }

  /** The document reads `s` at `start`. */
  ghost predicate Reads(doc: string, start: nat, s: string) {
    start + |s| <= |doc| && doc[start..start + |s|] == s
  }

  lemma ReadsWithin(doc: string, start: nat, s: string, i: nat, j: nat)
    requires Reads(doc, start, s) && i <= j <= |s|
    ensures s[i..j] == doc[start + i..start + j] && Reads(doc, start + i, s[i..j])
  {
    forall k | 0 <= k < j - i
      ensures s[i..j][k] == doc[start + i..start + j][k]
    {
      assert s[i + k] == doc[start..start + |s|][i + k];
    }
  }
}
