/** What the dataset generator puts into and asks of the vector store: point ids
    derived from entity ids, the skill and text vectors of each point, the
    zero-vector fallback for a missing embedding, and the negated queries used
    for hard negatives. The store itself and the embedder are parameters. */
module VectorPoints {
  import opened Wrappers
  import opened Decimal
  import opened SkillRecords
  import OfflineEncoder

  const EmbeddingDim: nat := 384

  /** A hashable Python value as it sits in a set: a string, an integer, or a
      UUID (named here by the string it was derived from; hashing is not modelled). */
  datatype Key = Str(s: string) | Int(n: int) | Uuid(name: string)

  /** An employee or project record: its external id and the optional fields of its JSON object. */
  datatype Entity = Entity(fullId: string, description: Option<string>, skills: Option<seq<SkillDict>>)

  datatype Collection = SkillCollection | DescCollection

  /** A point as upserted: id, vector and the `emp_id` of its payload. */
  datatype Point = Point(id: Key, vector: seq<real>, empId: string)

  /** A search hit: point id, similarity score and the `emp_id` of its payload. */
  datatype Hit = Hit(id: Key, score: real, empId: string)

  /** The vector store's nearest-neighbour search (collection, query, limit). */
  type Search = (Collection, seq<real>, nat) -> seq<Hit>

  /** The text embedder: one batch of one text gives zero or more vectors. */
  type Embedder = string -> seq<seq<real>>

  /** `s.split("_")[-1]`: the part after the last underscore, or all of s. */
  function LastSegment(s: string): string {
    if s == [] then []
    else if s[|s| - 1] == '_' then []
    else LastSegment(s[..|s| - 1]) + [s[|s| - 1]]
  }

  /** The last segment is the longest underscore-free suffix. */
  lemma {:induction false} LastSegmentIsSuffix(s: string)
    ensures var r := LastSegment(s);
      '_' !in r && |r| <= |s| && r == s[|s| - |r|..] && (|r| < |s| ==> s[|s| - |r| - 1] == '_')
  {
    if s != [] && s[|s| - 1] != '_' {
      LastSegmentIsSuffix(s[..|s| - 1]);
    }
  }

  /** ASCII whitespace as Python's `int()` strips it. */
  predicate IsPyWhitespace(c: char) {
    c == ' ' || ('\t' <= c <= '\r') || ('\U{1C}' <= c <= '\U{1F}')
  }

  function StripLeading(s: string): string {
    if s != [] && IsPyWhitespace(s[0]) then StripLeading(s[1..]) else s
  }

  function StripTrailing(s: string): string {
    if s != [] && IsPyWhitespace(s[|s| - 1]) then StripTrailing(s[..|s| - 1]) else s
  }

  /** Python's `int(s)` on a string: optional surrounding whitespace, optional sign,
      one or more decimal digits; anything else raises ValueError (None here). */
  function ParsePyInt(s: string): Option<int> {
    var t := StripTrailing(StripLeading(s));
    if |t| >= 2 && (t[0] == '+' || t[0] == '-') && AllDigits(t[1..]) then
      var magnitude: int := DigitsValue(t[1..]);
      Some(if t[0] == '-' then -magnitude else magnitude)
    else if |t| >= 1 && AllDigits(t) then Some(DigitsValue(t))
    else None
  }

  /** The point id of an entity: the integer after the last `_`, else a UUID of the whole id. */
  function PointIdOf(fullId: string): Key {
    match ParsePyInt(LastSegment(fullId))
    case Some(n) => Int(n)
    case None => Uuid(fullId)
  }

  lemma {:induction false} LastSegmentAfterUnderscore(prefix: string, tail: string)
    requires '_' !in tail
    ensures LastSegment(prefix + "_" + tail) == tail
    decreases |tail|
  {
    var s := prefix + "_" + tail;
    if tail != [] {
      var n := |tail| - 1;
      assert s[..|s| - 1] == prefix + "_" + tail[..n];
      assert tail[n] in tail;
      LastSegmentAfterUnderscore(prefix, tail[..n]);
      assert tail[..n] + [tail[n]] == tail;
    }
  }

  /** Python's `int()` reads back what `str()` wrote. */
  lemma ParsePyIntOfIntToString(n: int)
    ensures ParsePyInt(IntToString(n)) == Some(n)
  {
    var d := IntToString(n);
    assert StripLeading(d) == d;
    assert StripTrailing(d) == d;
    if n < 0 {
      assert d[1..] == NatToString(-n);
      NatToStringRoundTrip(-n);
    } else {
      NatToStringRoundTrip(n);
    }
  }

  lemma NoUnderscoreInIntString(n: int)
    ensures '_' !in IntToString(n)
  {
    var d := IntToString(n);
    if n < 0 {
      assert d == "-" + NatToString(-n);
      assert forall i | 1 <= i < |d| :: IsDigit(d[i]);
    }
  }

  /** An id of the form `prefix_N` gets point id N, whatever the prefix. */
  lemma PointIdOfNumberedKey(prefix: string, n: int)
    ensures PointIdOf(prefix + "_" + IntToString(n)) == Int(n)
  {
    NoUnderscoreInIntString(n);
    LastSegmentAfterUnderscore(prefix, IntToString(n));
    ParsePyIntOfIntToString(n);
  }

  /** Distinct numbers give distinct point ids, whatever the prefixes. */
  lemma NumberedKeysHaveDistinctIds(p1: string, n1: int, p2: string, n2: int)
    requires n1 != n2
    ensures PointIdOf(p1 + "_" + IntToString(n1)) != PointIdOf(p2 + "_" + IntToString(n2))
  {
    PointIdOfNumberedKey(p1, n1);
    PointIdOfNumberedKey(p2, n2);
  }

  /** `emb[0] if emb else [0.0] * EMBEDDING_DIM`. */
  function EmbedOrZero(emb: seq<seq<real>>): (v: seq<real>)
    ensures emb == [] ==> |v| == EmbeddingDim && forall i | 0 <= i < |v| :: v[i] == 0.0
    ensures emb != [] ==> v == emb[0]
  {
    if emb == [] then seq(EmbeddingDim, _ => 0.0) else emb[0]
  }

  /** `[-x for x in vec]`. */
  function Negate(v: seq<real>): seq<real> {
    seq(|v|, i requires 0 <= i < |v| => -v[i])
  }

  /** A hard-negative query is the componentwise negation, of the same length;
      negating twice gives the query back, and the zero vector is its own negation. */
  lemma NegateProperties(v: seq<real>)
    ensures |Negate(v)| == |v| && forall i | 0 <= i < |v| :: Negate(v)[i] + v[i] == 0.0
    ensures Negate(Negate(v)) == v
    ensures (forall i | 0 <= i < |v| :: v[i] == 0.0) ==> Negate(v) == v
  {
  }

  /** The skill query of `search_by_skills` and `search_negatives_by_skills`. */
  function SkillQuery(skills: seq<SkillDict>, negated: bool): seq<real> {
    var vec := OfflineEncoder.SkillVector(skills);
    if negated then Negate(vec) else vec
  }

  /** The text query of `search_by_description` and `search_negatives_by_description`. */
  function TextQuery(embed: Embedder, text: string, negated: bool): seq<real> {
    var vec := EmbedOrZero(embed(text));
    if negated then Negate(vec) else vec
  }

  /** The point `upsert_employees` builds for one employee. */
  function SkillPoint(e: Entity): Point {
    Point(PointIdOf(e.fullId), OfflineEncoder.SkillVector(e.skills.GetOr([])), e.fullId)
  }

  /** The point `upsert_descriptions` builds for one employee. */
  function DescPoint(e: Entity, embed: Embedder): Point {
    Point(PointIdOf(e.fullId), EmbedOrZero(embed(e.description.GetOr(""))), e.fullId)
  }

  /** The point list of `upsert_employees`: one point per employee, in order. */
  function SkillPointList(employees: seq<Entity>): (points: seq<Point>)
    ensures |points| == |employees|
  {
    if employees == [] then []
    else SkillPointList(employees[..|employees| - 1]) + [SkillPoint(employees[|employees| - 1])]
  }

  /** The point list of `upsert_descriptions`: one point per employee, in order. */
  function DescPointList(employees: seq<Entity>, embed: Embedder): (points: seq<Point>)
    ensures |points| == |employees|
  {
    if employees == [] then []
    else DescPointList(employees[..|employees| - 1], embed) + [DescPoint(employees[|employees| - 1], embed)]
  }

  lemma {:induction false} PointListsAt(employees: seq<Entity>, embed: Embedder, i: nat)
    requires i < |employees|
    ensures SkillPointList(employees)[i] == SkillPoint(employees[i])
    ensures DescPointList(employees, embed)[i] == DescPoint(employees[i], embed)
  {
    if i < |employees| - 1 {
      PointListsAt(employees[..|employees| - 1], embed, i);
    }
  }

  /** The skill point list grows by the point of the next employee. */
  lemma SkillPointListStep(employees: seq<Entity>, k: nat)
    requires k < |employees|
    ensures SkillPointList(employees[..k + 1]) == SkillPointList(employees[..k]) + [SkillPoint(employees[k])]
  {
    assert employees[..k + 1][..k] == employees[..k];
  }

  /** The text point list grows by the point of the next employee. */
  lemma DescPointListStep(employees: seq<Entity>, embed: Embedder, k: nat)
    requires k < |employees|
    ensures DescPointList(employees[..k + 1], embed) == DescPointList(employees[..k], embed) + [DescPoint(employees[k], embed)]
  {
    assert employees[..k + 1][..k] == employees[..k];
  }

  /** `upsert_employees` before the store call: builds the skill point of every employee. */
  method SkillPoints(employees: seq<Entity>) returns (points: seq<Point>)
    ensures points == SkillPointList(employees)
  {
    points := [];
    for k := 0 to |employees|
      invariant points == SkillPointList(employees[..k])
    {
      var emp := employees[k];
      var vec := OfflineEncoder.MakeSkillVector(emp.skills.GetOr([]));
      SkillPointListStep(employees, k);
      points := points + [Point(PointIdOf(emp.fullId), vec, emp.fullId)];
    }
    assert employees[..|employees|] == employees;
  }

  /** `upsert_descriptions` before the store call: builds the text point of every employee. */
  method DescPoints(employees: seq<Entity>, embed: Embedder) returns (points: seq<Point>)
    ensures points == DescPointList(employees, embed)
  {
    points := [];
    for k := 0 to |employees|
      invariant points == DescPointList(employees[..k], embed)
    {
      var emp := employees[k];
      var emb := embed(emp.description.GetOr(""));
      var vector := if emb != [] then emb[0] else seq(EmbeddingDim, _ => 0.0);
      DescPointListStep(employees, embed, k);
      points := points + [Point(PointIdOf(emp.fullId), vector, emp.fullId)];
    }
    assert employees[..|employees|] == employees;
  }

  /** Both collections give the i-th employee the same point id, derived from its
      own id; a missing description and an empty embedding give the zero vector. */
  lemma CollectionsShareIds(employees: seq<Entity>, embed: Embedder, i: nat)
    requires i < |employees|
    ensures SkillPointList(employees)[i].id == DescPointList(employees, embed)[i].id == PointIdOf(employees[i].fullId)
    ensures SkillPointList(employees)[i].empId == DescPointList(employees, embed)[i].empId == employees[i].fullId
    ensures SkillPointList(employees)[i].vector == OfflineEncoder.SkillVector(employees[i].skills.GetOr([]))
    ensures embed(employees[i].description.GetOr("")) == [] ==>
      DescPointList(employees, embed)[i].vector == seq(EmbeddingDim, _ => 0.0)
  {
    PointListsAt(employees, embed, i);
  }
}
