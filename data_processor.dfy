/**
 * DataProcessor: aligns a table of heterogeneous post records to the fixed
 * ten-column schema (normalize_data) and checks that the schema columns are
 * there (validate_data).
 */
module DataProcessor {
  import opened Common
  import opened Frames

  /** The dtypes named in the schema. */
  datatype DType = Object | Int64 | DateTime64

  const Platform: string := "platform"
  const PostId: string := "post_id"
  const Content: string := "content"
  const Likes: string := "likes"
  const Comments: string := "comments"
  const Shares: string := "shares"
  const PostDate: string := "post_date"
  const AuthorId: string := "author_id"
  const EngagementScore: string := "engagement_score"
  const CollectedAt: string := "collected_at"

  /** The schema's columns, in declaration order. */
  const SchemaNames: seq<string> :=
    [Platform, PostId, Content, Likes, Comments, Shares, PostDate, AuthorId, EngagementScore, CollectedAt]

  /** The count columns that are filled with 0 (`numeric_cols`). */
  const CountColumns: seq<string> := [Likes, Comments, Shares]

  /** The dtype the schema declares for each of its columns. */
  function DTypeOf(c: string): DType
  {
    if IsDateColumn(c) then DateTime64
    else if c == Likes || c == Comments || c == Shares || c == EngagementScore then Int64
    else Object
  }

  predicate IsDateColumn(c: string)
  {
    c == PostDate || c == CollectedAt
  }

  lemma SchemaNamesDistinct()
    ensures Distinct(SchemaNames)
  {
  }

  // ---------------------------------------------------------------------------
  // Step 1 (lines 24-26): add the missing schema columns, except engagement_score.

  function AddMissing(t: Table, names: seq<string>): (r: Table)
    requires t.WellFormed()
    ensures r.WellFormed() && r.height == t.height
    ensures forall c :: c in t.data ==> c in r.data && r.data[c] == t.data[c]
    ensures forall c :: c in r.data ==> c in t.data || c in names
    ensures forall c :: c in names && c != EngagementScore ==> c in r.data
    ensures EngagementScore in r.data <==> EngagementScore in t.data
    ensures forall c :: c in r.data && c !in t.data ==> r.data[c] == Nulls(t.height)
    decreases |names|
  {
    if names == [] then t
    else
      var c := names[0];
      var next := if c !in t.data && c != EngagementScore then t.Assign(c, Nulls(t.height)) else t;
      AddMissing(next, names[1..])
  }

  // ---------------------------------------------------------------------------
  // Step 2 (lines 27-29): null counts become 0, null content becomes ''.

  /** `fillna` on one cell of column `c`. */
  function FillDefault(c: string, v: Value): Value
  {
    if v.Null? && c in CountColumns then Num(0)
    else if v.Null? && c == Content then Text("")
    else v
  }

  function FillNulls(c: string, vs: seq<Value>): (r: seq<Value>)
    ensures |r| == |vs| && forall i :: 0 <= i < |vs| ==> r[i] == FillDefault(c, vs[i])
    ensures c !in CountColumns && c != Content ==> r == vs
  {
    seq(|vs|, i requires 0 <= i < |vs| => FillDefault(c, vs[i]))
  }

  function FillDefaults(t: Table): (r: Table)
    requires t.WellFormed()
    requires Likes in t.data && Comments in t.data && Shares in t.data && Content in t.data
    ensures r.WellFormed() && r.height == t.height
    ensures r.data.Keys == t.data.Keys
    ensures forall c :: c in t.data ==> r.data[c] == FillNulls(c, t.data[c])
  {
    var withLikes := t.Assign(Likes, FillNulls(Likes, t.data[Likes]));
    var withComments := withLikes.Assign(Comments, FillNulls(Comments, t.data[Comments]));
    var withShares := withComments.Assign(Shares, FillNulls(Shares, t.data[Shares]));
    withShares.Assign(Content, FillNulls(Content, t.data[Content]))
  }

  // ---------------------------------------------------------------------------
  // Step 3 (lines 30-33): timestamps; a value that does not parse becomes null.

  /** An instant as a datetime64[ns] cell: NaT when it lies outside the nanosecond range. */
  function StampOrNaT(ts: Timestamp): (r: Value)
    ensures r.Stamp? <==> InNanosRange(EpochNanos(ts))
    ensures r.Stamp? ==> r.t == ts
  {
    if InNanosRange(EpochNanos(ts)) then Stamp(ts) else Null
  }

  /**
   * `pd.to_datetime(..., errors='coerce', utc=True).dt.tz_convert(None)` on one
   * cell. `parse` reads a string as a UTC instant, or fails. An integer is read
   * as nanoseconds since the epoch; an integer or an instant outside the
   * datetime64[ns] range is coerced to NaT.
   */
  function ToDatetime(v: Value, parse: string -> Option<Timestamp>): (r: Value)
    ensures r.Null? || (r.Stamp? && InNanosRange(EpochNanos(r.t)))
    ensures v.Num? ==> (r.Stamp? <==> InNanosRange(v.n))
  {
    match v
    case Null => Null
    case Num(n) => if InNanosRange(n) then Stamp(FromEpochNanos(n)) else Null
    case Text(s) => (match parse(s) case Some(ts) => StampOrNaT(ts) case None => Null)
    case Stamp(ts) => StampOrNaT(ts)
  }

  function ToDatetimeColumn(vs: seq<Value>, parse: string -> Option<Timestamp>): (r: seq<Value>)
    ensures |r| == |vs| && forall i :: 0 <= i < |vs| ==> r[i] == ToDatetime(vs[i], parse)
  {
    seq(|vs|, i requires 0 <= i < |vs| => ToDatetime(vs[i], parse))
  }

  function ParseDateColumns(t: Table, parse: string -> Option<Timestamp>): (r: Table)
    requires t.WellFormed()
    ensures r.WellFormed() && r.height == t.height
    ensures r.data.Keys == t.data.Keys
    ensures forall c :: c in t.data ==>
      r.data[c] == if IsDateColumn(c) then ToDatetimeColumn(t.data[c], parse) else t.data[c]
  {
    var withPostDate :=
      if PostDate in t.data then t.Assign(PostDate, ToDatetimeColumn(t.data[PostDate], parse)) else t;
    if CollectedAt in withPostDate.data then
      withPostDate.Assign(CollectedAt, ToDatetimeColumn(withPostDate.data[CollectedAt], parse))
    else withPostDate
  }

  // ---------------------------------------------------------------------------
  // Step 4 (lines 34-39): lenient casts, one column at a time.

  predicate IsDigit(ch: char)
  {
    '0' <= ch <= '9'
  }

  predicate AllDigits(s: string)
  {
    forall i :: 0 <= i < |s| ==> IsDigit(s[i])
  }

  function DigitsValue(s: string): (n: nat)
    requires AllDigits(s)
    decreases |s|
  {
    if s == [] then 0 else 10 * DigitsValue(s[..|s| - 1]) + (s[|s| - 1] - '0') as int
  }

  /** The decimal integer a string spells: an optional sign, then at least one digit. */
  function ParseInt(s: string): Option<int>
  {
    if |s| > 1 && (s[0] == '-' || s[0] == '+') && AllDigits(s[1..]) then
      var magnitude: int := DigitsValue(s[1..]);
      Some(if s[0] == '-' then -magnitude else magnitude)
    else if |s| > 0 && AllDigits(s) then Some(DigitsValue(s))
    else None
  }

  /** The range of a 64-bit signed integer, [-2^63, 2^63). */
  predicate InInt64(n: int)
  {
    -0x8000_0000_0000_0000 <= n < 0x8000_0000_0000_0000
  }

  /**
   * `astype(dtype)` on one cell: `object` keeps any value; `int64` accepts
   * integers and integer strings within the 64-bit range (outside it the cast
   * raises OverflowError). The loop never casts the two timestamp columns
   * (line 35), so `datetime64` is left as the identity here.
   */
  function CastValue(v: Value, dtype: DType): (r: Option<Value>)
    ensures dtype == Int64 && r.Some? ==> r.value.Num? && InInt64(r.value.n)
    ensures dtype == Int64 && v.Num? ==> (r.Some? <==> InInt64(v.n))
    ensures dtype != Int64 ==> r == Some(v)
  {
    match dtype
    case Object => Some(v)
    case DateTime64 => Some(v)
    case Int64 =>
      match v
      case Num(n) => if InInt64(n) then Some(v) else None
      case Text(s) =>
        (match ParseInt(s) case Some(n) => if InInt64(n) then Some(Num(n)) else None case None => None)
      case _ => None
  }

  /** The whole column casts, or the cast raises. */
  predicate ColumnCasts(vs: seq<Value>, dtype: DType)
  {
    forall i :: 0 <= i < |vs| ==> CastValue(vs[i], dtype).Some?
  }

  /** Casting an already cast cell changes nothing. */
  lemma CastValueIdempotent(v: Value, dtype: DType)
    requires CastValue(v, dtype).Some?
    ensures CastValue(CastValue(v, dtype).value, dtype) == CastValue(v, dtype)
  {
  }

  /** The column after `df[col] = df[col].astype(dtype)`, or unchanged when that raises. */
  function CastOrKeep(vs: seq<Value>, dtype: DType): (r: seq<Value>)
    ensures |r| == |vs|
    ensures forall i :: 0 <= i < |vs| ==>
      r[i] == if ColumnCasts(vs, dtype) then CastValue(vs[i], dtype).value else vs[i]
  {
    if ColumnCasts(vs, dtype) then seq(|vs|, i requires 0 <= i < |vs| => CastValue(vs[i], dtype).value)
    else vs
  }

  /** The columns the cast loop converts: present schema columns other than the two timestamps. */
  predicate CastTarget(c: string)
  {
    c in SchemaNames && !IsDateColumn(c)
  }

  /** One turn of the cast loop; the second component names the column when its cast raised. */
  function CastStep(t: Table, c: string): (r: (Table, seq<string>))
    requires t.WellFormed()
    ensures r.0.WellFormed() && r.0.height == t.height
    ensures r.0.data.Keys == t.data.Keys
    ensures forall d :: d in t.data && d != c ==> r.0.data[d] == t.data[d]
    ensures c in t.data ==> r.0.data[c] == if CastTarget(c) then CastOrKeep(t.data[c], DTypeOf(c)) else t.data[c]
    ensures r.1 == if c in t.data && CastTarget(c) && !ColumnCasts(t.data[c], DTypeOf(c)) then [c] else []
  {
    if c in t.data && CastTarget(c) then
      if ColumnCasts(t.data[c], DTypeOf(c)) then (t.Assign(c, CastOrKeep(t.data[c], DTypeOf(c))), [])
      else (t, [c])
    else (t, [])
  }

  /** Casts the columns `names`, in order; the second component lists the columns whose cast raised. */
  function CastAll(t: Table, names: seq<string>): (r: (Table, seq<string>))
    requires t.WellFormed()
    ensures r.0.WellFormed() && r.0.height == t.height
    ensures r.0.data.Keys == t.data.Keys
    decreases |names|
  {
    if names == [] then (t, [])
    else
      var prev := CastAll(t, names[..|names| - 1]);
      var step := CastStep(prev.0, names[|names| - 1]);
      (step.0, prev.1 + step.1)
  }

  /** Each listed column is cast at most once; a failed cast leaves its column as it was and is reported. */
  lemma {:induction false} CastAllSpec(t: Table, names: seq<string>)
    requires t.WellFormed() && Distinct(names)
    ensures forall c :: c in t.data ==>
      CastAll(t, names).0.data[c] ==
        if c in names && CastTarget(c) then CastOrKeep(t.data[c], DTypeOf(c)) else t.data[c]
    ensures forall c :: c in CastAll(t, names).1 <==>
      c in names && c in t.data && CastTarget(c) && !ColumnCasts(t.data[c], DTypeOf(c))
    decreases |names|
  {
    if names != [] {
      var init := names[..|names| - 1];
      DistinctInit(names);
      CastAllSpec(t, init);
      assert forall c :: c in names <==> c in init || c == names[|names| - 1];
    }
  }

  // ---------------------------------------------------------------------------
  // Step 5 (line 40): engagement_score = likes + comments + shares.

  /** Python's `+` on two cells: integers add, strings concatenate, anything else raises. */
  function AddValues(a: Value, b: Value): Option<Value>
  {
    match (a, b)
    case (Num(x), Num(y)) => Some(Num(x + y))
    case (Text(x), Text(y)) => Some(Text(x + y))
    case _ => None
  }

  function EngagementOf(likes: Value, comments: Value, shares: Value): Option<Value>
  {
    match AddValues(likes, comments)
    case None => None
    case Some(sum) => AddValues(sum, shares)
  }

  /** The derived column, or None when the addition raises on some row. */
  function EngagementColumn(ls: seq<Value>, cs: seq<Value>, ss: seq<Value>): (r: Option<seq<Value>>)
    requires |ls| == |cs| == |ss|
    ensures r.Some? <==> forall i :: 0 <= i < |ls| ==> EngagementOf(ls[i], cs[i], ss[i]).Some?
    ensures r.Some? ==>
      && |r.value| == |ls|
      && forall i :: 0 <= i < |ls| ==> EngagementOf(ls[i], cs[i], ss[i]) == Some(r.value[i])
  {
    if forall i :: 0 <= i < |ls| ==> EngagementOf(ls[i], cs[i], ss[i]).Some? then
      Some(seq(|ls|, i requires 0 <= i < |ls| => EngagementOf(ls[i], cs[i], ss[i]).value))
    else None
  }

  // ---------------------------------------------------------------------------
  // normalize_data as a whole.

  /**
   * What normalize_data leaves behind: the table, the columns whose cast was
   * reported as failed, and whether line 40 raised.
   */
  datatype Normalized = Normalized(table: Table, castWarnings: seq<string>, raised: bool)

  /** The table after steps 1 to 3. */
  function Staged(t: Table, parse: string -> Option<Timestamp>): (r: Table)
    requires t.WellFormed()
    ensures r.WellFormed() && r.height == t.height
    ensures forall c :: c in SchemaNames && c != EngagementScore ==> c in r.data
  {
    var added := AddMissing(t, SchemaNames);
    ParseDateColumns(FillDefaults(added), parse)
  }

  /** The table as it stands when line 40 runs, and the cast warnings printed so far. */
  function Prepared(t: Table, parse: string -> Option<Timestamp>): (r: (Table, seq<string>))
    requires t.WellFormed()
    ensures r.0.WellFormed() && r.0.height == t.height
    ensures forall c :: c in SchemaNames && c != EngagementScore ==> c in r.0.data
  {
    CastAll(Staged(t, parse), SchemaNames)
  }

  /** What steps 2 and 3 make of column `c`. */
  function StagedColumn(c: string, vs: seq<Value>, parse: string -> Option<Timestamp>): (r: seq<Value>)
    ensures |r| == |vs|
  {
    if IsDateColumn(c) then ToDatetimeColumn(FillNulls(c, vs), parse) else FillNulls(c, vs)
  }

  lemma StagedColumnSpec(t: Table, parse: string -> Option<Timestamp>, c: string)
    requires t.WellFormed()
    requires c in t.data || (c in SchemaNames && c != EngagementScore)
    ensures c in Staged(t, parse).data
    ensures Staged(t, parse).data[c] == StagedColumn(c, t.Column(c), parse)
  {
    var added := AddMissing(t, SchemaNames);
    var filled := FillDefaults(added);
    var parsed := ParseDateColumns(filled, parse);
    assert added.data[c] == t.Column(c);
    assert filled.data[c] == FillNulls(c, added.data[c]);
    assert parsed.data[c] == if IsDateColumn(c) then ToDatetimeColumn(filled.data[c], parse) else filled.data[c];
    assert parsed == Staged(t, parse);
  }

  lemma StagedSpec(t: Table, parse: string -> Option<Timestamp>)
    requires t.WellFormed()
    ensures forall c :: c in Staged(t, parse).data <==>
      c in t.data || (c in SchemaNames && c != EngagementScore)
    ensures forall c :: c in Staged(t, parse).data ==>
      Staged(t, parse).data[c] == StagedColumn(c, t.Column(c), parse)
  {
    forall c | c in Staged(t, parse).data
      ensures c in t.data || (c in SchemaNames && c != EngagementScore)
    {
      var added := AddMissing(t, SchemaNames);
      assert Staged(t, parse).data.Keys == added.data.Keys;
    }
    forall c | c in t.data || (c in SchemaNames && c != EngagementScore)
      ensures c in Staged(t, parse).data
      ensures Staged(t, parse).data[c] == StagedColumn(c, t.Column(c), parse)
    {
      StagedColumnSpec(t, parse, c);
    }
  }

  /** Column by column, the table before line 40 in terms of the input table. */
  lemma PreparedSpec(t: Table, parse: string -> Option<Timestamp>)
    requires t.WellFormed()
    ensures var prepared := Prepared(t, parse).0;
      forall c :: c in prepared.data <==> c in t.data || (c in SchemaNames && c != EngagementScore)
    ensures var prepared := Prepared(t, parse).0;
      forall c :: c in prepared.data ==>
        var staged := StagedColumn(c, t.Column(c), parse);
        prepared.data[c] == if CastTarget(c) then CastOrKeep(staged, DTypeOf(c)) else staged
    ensures var (prepared, warnings) := Prepared(t, parse);
      forall c :: c in warnings <==>
        && c in prepared.data && CastTarget(c)
        && !ColumnCasts(StagedColumn(c, t.Column(c), parse), DTypeOf(c))
  {
    SchemaNamesDistinct();
    var staged := Staged(t, parse);
    StagedSpec(t, parse);
    CastAllSpec(staged, SchemaNames);
  }

  function Normalize(t: Table, parse: string -> Option<Timestamp>): (r: Normalized)
    requires t.WellFormed()
    ensures r.table.WellFormed() && r.table.height == t.height
    ensures t.IsEmpty() ==> r == Normalized(t, [], false)
  {
    if t.IsEmpty() then Normalized(t, [], false)
    else
      Finish(Prepared(t, parse))
  }

  /** Line 40 applied to the prepared table and the warnings printed before it. */
  function Finish(prepared: (Table, seq<string>)): (r: Normalized)
    requires prepared.0.WellFormed()
    requires Likes in prepared.0.data && Comments in prepared.0.data && Shares in prepared.0.data
    ensures r.table.WellFormed() && r.table.height == prepared.0.height
    ensures r.castWarnings == prepared.1
    ensures forall c :: c != EngagementScore ==>
      (c in r.table.data <==> c in prepared.0.data) && (c in r.table.data ==> r.table.data[c] == prepared.0.data[c])
    ensures var cast := prepared.0;
      var e := EngagementColumn(cast.data[Likes], cast.data[Comments], cast.data[Shares]);
      && r.raised == e.None?
      && (e.Some? ==> EngagementScore in r.table.data && r.table.data[EngagementScore] == e.value)
      && (e.None? ==> r.table == cast)
  {
    var (cast, warnings) := prepared;
    match EngagementColumn(cast.data[Likes], cast.data[Comments], cast.data[Shares])
    case None => Normalized(cast, warnings, true)
    case Some(e) => Normalized(cast.Assign(EngagementScore, e), warnings, false)
  }

  // ---------------------------------------------------------------------------
  // What normalize_data promises, column by column.

  /** What normalize_data makes of column `c` (engagement_score aside), given the input column. */
  function NormalColumn(c: string, vs: seq<Value>, parse: string -> Option<Timestamp>): (r: seq<Value>)
    ensures |r| == |vs|
    ensures c !in SchemaNames ==> r == vs
  {
    var staged := StagedColumn(c, vs, parse);
    if CastTarget(c) then CastOrKeep(staged, DTypeOf(c)) else staged
  }

  lemma NormalizeColumnSpec(t: Table, parse: string -> Option<Timestamp>, c: string)
    requires t.WellFormed() && !t.IsEmpty()
    requires c != EngagementScore && (c in t.data || c in SchemaNames)
    ensures var r := Normalize(t, parse);
      && c in r.table.data
      && r.table.data[c] == NormalColumn(c, t.Column(c), parse)
      && (c in r.castWarnings <==>
            CastTarget(c) && !ColumnCasts(StagedColumn(c, t.Column(c), parse), DTypeOf(c)))
  {
    PreparedSpec(t, parse);
  }

  /** The columns after normalize_data on a non-empty table. */
  lemma NormalizeColumns(t: Table, parse: string -> Option<Timestamp>)
    requires t.WellFormed() && !t.IsEmpty()
    ensures var r := Normalize(t, parse);
      forall c :: c in r.table.data <==>
        c in t.data || (c in SchemaNames && (c != EngagementScore || !r.raised))
    ensures var r := Normalize(t, parse);
      forall c :: c in t.data && c !in SchemaNames ==> r.table.data[c] == t.data[c]
  {
    var r := Normalize(t, parse);
    var prepared := Prepared(t, parse);
    PreparedSpec(t, parse);
    assert r == Finish(prepared);
    forall c | c in t.data && c !in SchemaNames
      ensures r.table.data[c] == t.data[c]
    {
      NormalizeColumnSpec(t, parse, c);
    }
  }

  /**
   * A count cell that `int64` accepts once nulls are filled: null, or an
   * integer or integer string within the 64-bit range.
   */
  predicate CountCastable(v: Value)
  {
    || v.Null?
    || (v.Num? && InInt64(v.n))
    || (v.Text? && ParseInt(v.s).Some? && InInt64(ParseInt(v.s).value))
  }

  lemma CountColumnFacts(c: string)
    requires c in CountColumns
    ensures c in SchemaNames && CastTarget(c) && DTypeOf(c) == Int64 && c != EngagementScore
    ensures !IsDateColumn(c) && c != Content
  {
  }

  lemma TextColumnFacts(c: string)
    requires c in [Platform, PostId, Content, AuthorId]
    ensures c in SchemaNames && CastTarget(c) && DTypeOf(c) == Object && c != EngagementScore
    ensures !IsDateColumn(c) && c !in CountColumns
  {
  }

  lemma DateColumnFacts(c: string)
    requires IsDateColumn(c)
    ensures c in SchemaNames && !CastTarget(c) && c != EngagementScore
    ensures c !in CountColumns && c != Content
  {
  }

  /** The count column rules on a bare column. */
  lemma CountColumnCells(c: string, vs: seq<Value>, parse: string -> Option<Timestamp>)
    requires c in CountColumns
    ensures ColumnCasts(StagedColumn(c, vs, parse), DTypeOf(c)) <==> forall i :: 0 <= i < |vs| ==> CountCastable(vs[i])
    ensures var w := NormalColumn(c, vs, parse);
      forall i :: 0 <= i < |vs| ==>
        && (vs[i].Null? ==> w[i] == Num(0))
        && (vs[i].Num? ==> w[i] == vs[i])
        && (ColumnCasts(StagedColumn(c, vs, parse), DTypeOf(c)) ==>
              w[i].Num? && InInt64(w[i].n) && (vs[i].Text? ==> w[i] == Num(ParseInt(vs[i].s).value)))
        && (!ColumnCasts(StagedColumn(c, vs, parse), DTypeOf(c)) && !vs[i].Null? ==> w[i] == vs[i])
  {
    var filled := FillNulls(c, vs);
    assert DTypeOf(c) == Int64 && CastTarget(c) && !IsDateColumn(c);
    assert StagedColumn(c, vs, parse) == filled;
    forall i | 0 <= i < |vs|
      ensures CastValue(filled[i], Int64).Some? <==> CountCastable(vs[i])
    {
      assert filled[i] == FillDefault(c, vs[i]);
    }
  }

  /**
   * Counts: a null becomes 0 and an integer stays; the column is reported iff
   * some cell cannot be read as a 64-bit integer, and then it keeps its filled
   * values; otherwise every cell is a 64-bit integer.
   */
  lemma NormalizeCounts(t: Table, parse: string -> Option<Timestamp>, c: string)
    requires t.WellFormed() && !t.IsEmpty() && c in CountColumns
    ensures var r := Normalize(t, parse);
      && c in r.table.data
      && (c in r.castWarnings <==> exists i :: 0 <= i < t.height && !CountCastable(t.Column(c)[i]))
    ensures var r := Normalize(t, parse);
      forall i :: 0 <= i < t.height ==>
        var v := t.Column(c)[i];
        var w := r.table.Column(c)[i];
        && (v.Null? ==> w == Num(0))
        && (v.Num? ==> w == v)
        && (c !in r.castWarnings ==> w.Num? && InInt64(w.n) && (v.Text? ==> w == Num(ParseInt(v.s).value)))
        && (c in r.castWarnings && !v.Null? ==> w == v)
  {
    CountColumnFacts(c);
    NormalizeColumnSpec(t, parse, c);
    CountColumnCells(c, t.Column(c), parse);
  }

  lemma TextColumnCells(c: string, vs: seq<Value>, parse: string -> Option<Timestamp>)
    requires c in [Platform, PostId, Content, AuthorId]
    ensures var w := NormalColumn(c, vs, parse);
      forall i :: 0 <= i < |vs| ==> w[i] == if c == Content && vs[i].Null? then Text("") else vs[i]
    ensures ColumnCasts(StagedColumn(c, vs, parse), DTypeOf(c))
  {
    TextColumnFacts(c);
    var filled := FillNulls(c, vs);
    assert StagedColumn(c, vs, parse) == filled;
    assert ColumnCasts(filled, Object);
  }

  /** The timestamp rules, read off a table whose column `c` is the normalised input column. */
  lemma DateColumnCells(t: Table, u: Table, c: string, parse: string -> Option<Timestamp>)
    requires t.WellFormed() && u.WellFormed() && u.height == t.height && IsDateColumn(c)
    requires c in u.data && u.data[c] == NormalColumn(c, t.Column(c), parse)
    ensures forall i :: 0 <= i < t.height ==> u.Column(c)[i] == ToDatetime(t.Column(c)[i], parse)
    ensures forall i :: 0 <= i < t.height ==>
        var v := t.Column(c)[i];
        var w := u.Column(c)[i];
        && (w.Null? || (w.Stamp? && InNanosRange(EpochNanos(w.t))))
        && (v.Null? ==> w.Null?)
        && (v.Stamp? ==> w == if InNanosRange(EpochNanos(v.t)) then v else Null)
        && (v.Num? ==> w == if InNanosRange(v.n) then Stamp(FromEpochNanos(v.n)) else Null)
        && (v.Text? ==> w == if parse(v.s).Some? && InNanosRange(EpochNanos(parse(v.s).value))
                             then Stamp(parse(v.s).value) else Null)
  {
    DateColumnFacts(c);
    assert u.Column(c) == ToDatetimeColumn(t.Column(c), parse);
  }

  /** platform, post_id, content and author_id: only a null content changes, to ''. */
  lemma NormalizeTextColumns(t: Table, parse: string -> Option<Timestamp>, c: string)
    requires t.WellFormed() && !t.IsEmpty() && c in [Platform, PostId, Content, AuthorId]
    ensures var r := Normalize(t, parse);
      && c in r.table.data && c !in r.castWarnings
      && forall i :: 0 <= i < t.height ==>
        r.table.Column(c)[i] == if c == Content && t.Column(c)[i].Null? then Text("") else t.Column(c)[i]
  {
    TextColumnFacts(c);
    NormalizeColumnSpec(t, parse, c);
    TextColumnCells(c, t.Column(c), parse);
  }

  /**
   * post_date and collected_at: each cell is converted on its own; a string
   * that does not parse becomes null and nothing else is affected.
   */
  lemma NormalizeDates(t: Table, parse: string -> Option<Timestamp>, c: string)
    requires t.WellFormed() && !t.IsEmpty() && IsDateColumn(c)
    ensures c in Normalize(t, parse).table.data
    ensures var r := Normalize(t, parse);
      forall i :: 0 <= i < t.height ==>
        var v := t.Column(c)[i];
        var w := r.table.Column(c)[i];
        && (w.Null? || (w.Stamp? && InNanosRange(EpochNanos(w.t))))
        && (v.Null? ==> w.Null?)
        && (v.Stamp? ==> w == if InNanosRange(EpochNanos(v.t)) then v else Null)
        && (v.Num? ==> w == if InNanosRange(v.n) then Stamp(FromEpochNanos(v.n)) else Null)
        && (v.Text? ==> w == if parse(v.s).Some? && InNanosRange(EpochNanos(parse(v.s).value))
                             then Stamp(parse(v.s).value) else Null)
  {
    DateColumnFacts(c);
    NormalizeColumnSpec(t, parse, c);
    DateColumnCells(t, Normalize(t, parse).table, c, parse);
  }

  /** A row's timestamp after normalize_data depends on that row's input value alone. */
  lemma NormalizeDateRowLocal(t: Table, t': Table, parse: string -> Option<Timestamp>, c: string, i: int)
    requires t.WellFormed() && !t.IsEmpty() && t'.WellFormed() && !t'.IsEmpty()
    requires IsDateColumn(c) && 0 <= i < t.height && i < t'.height
    requires t.Column(c)[i] == t'.Column(c)[i]
    ensures Normalize(t, parse).table.Column(c)[i] == Normalize(t', parse).table.Column(c)[i]
  {
    NormalizeDateCell(t, parse, c, i);
    NormalizeDateCell(t', parse, c, i);
  }

  /** One date cell after normalize_data is to_datetime of the same input cell. */
  lemma NormalizeDateCell(t: Table, parse: string -> Option<Timestamp>, c: string, i: int)
    requires t.WellFormed() && !t.IsEmpty() && IsDateColumn(c) && 0 <= i < t.height
    ensures Normalize(t, parse).table.Column(c)[i] == ToDatetime(t.Column(c)[i], parse)
  {
    DateColumnFacts(c);
    NormalizeColumnSpec(t, parse, c);
    DateColumnCells(t, Normalize(t, parse).table, c, parse);
  }

  /** Line 40 raises on `u`: some row's counts cannot be added. */
  predicate SomeRowFailsToAdd(u: Table)
    requires u.WellFormed()
  {
    exists i :: 0 <= i < u.height && EngagementOf(u.Column(Likes)[i], u.Column(Comments)[i], u.Column(Shares)[i]).None?
  }

  /** Every row of `u` can be added, and engagement_score holds the row sums. */
  predicate StoresRowSums(u: Table)
    requires u.WellFormed()
  {
    forall i :: 0 <= i < u.height ==>
      EngagementOf(u.Column(Likes)[i], u.Column(Comments)[i], u.Column(Shares)[i]) == Some(u.Column(EngagementScore)[i])
  }

  /** The counts of `u` are integers and engagement_score is their integer sum, row by row. */
  predicate StoresIntegerSums(u: Table)
    requires u.WellFormed()
  {
    forall i :: 0 <= i < u.height ==>
      && u.Column(Likes)[i].Num? && u.Column(Comments)[i].Num? && u.Column(Shares)[i].Num?
      && u.Column(EngagementScore)[i] == Num(u.Column(Likes)[i].n + u.Column(Comments)[i].n + u.Column(Shares)[i].n)
  }

  /** Line 40 on its own: it raises exactly when some row cannot be added, and otherwise stores the sums. */
  lemma FinishEngagement(prepared: (Table, seq<string>))
    requires prepared.0.WellFormed()
    requires Likes in prepared.0.data && Comments in prepared.0.data && Shares in prepared.0.data
    ensures var r := Finish(prepared);
      r.raised <==> SomeRowFailsToAdd(r.table)
    ensures var r := Finish(prepared);
      !r.raised ==> StoresRowSums(r.table)
  {
    var r := Finish(prepared);
    assert r.table.Column(Likes) == prepared.0.data[Likes];
    assert r.table.Column(Comments) == prepared.0.data[Comments];
    assert r.table.Column(Shares) == prepared.0.data[Shares];
  }

  /**
   * Line 40: the row sum raises exactly when some row cannot be added;
   * otherwise engagement_score is that sum in every row, whatever value the
   * input carried in that column.
   */
  lemma NormalizeEngagement(t: Table, parse: string -> Option<Timestamp>)
    requires t.WellFormed() && !t.IsEmpty()
    ensures var r := Normalize(t, parse);
      r.raised <==> SomeRowFailsToAdd(r.table)
    ensures var r := Normalize(t, parse);
      !r.raised ==> StoresRowSums(r.table)
  {
    assert Normalize(t, parse) == Finish(Prepared(t, parse));
    FinishEngagement(Prepared(t, parse));
  }

  /** When every count column was cast, nothing raises and engagement_score is the integer sum. */
  lemma NormalizeEngagementSums(t: Table, parse: string -> Option<Timestamp>)
    requires t.WellFormed() && !t.IsEmpty()
    requires forall c :: c in CountColumns ==> c !in Normalize(t, parse).castWarnings
    ensures !Normalize(t, parse).raised && StoresIntegerSums(Normalize(t, parse).table)
  {
    var r := Normalize(t, parse);
    CastCountsAreIntegers(t, parse, Likes);
    CastCountsAreIntegers(t, parse, Comments);
    CastCountsAreIntegers(t, parse, Shares);
    NormalizeEngagement(t, parse);
    IntegerRowsSum(r.table);
  }

  lemma CastCountsAreIntegers(t: Table, parse: string -> Option<Timestamp>, c: string)
    requires t.WellFormed() && !t.IsEmpty() && c in CountColumns
    requires c !in Normalize(t, parse).castWarnings
    ensures forall i :: 0 <= i < t.height ==>
      Normalize(t, parse).table.Column(c)[i].Num? && InInt64(Normalize(t, parse).table.Column(c)[i].n)
  {
    NormalizeCounts(t, parse, c);
  }

  /** Rows of integers always add, and the sums line 40 stores are then their integer sums. */
  lemma IntegerRowsSum(u: Table)
    requires u.WellFormed()
    requires forall i :: 0 <= i < u.height ==>
      u.Column(Likes)[i].Num? && u.Column(Comments)[i].Num? && u.Column(Shares)[i].Num?
    ensures !SomeRowFailsToAdd(u)
    ensures StoresRowSums(u) ==> StoresIntegerSums(u)
  {
  }

  /** Line 40 reads only the three count columns. */
  lemma SameCountsSameLine40(u: Table, u': Table)
    requires u.WellFormed() && u'.WellFormed() && u.height == u'.height
    requires u.Column(Likes) == u'.Column(Likes) && u.Column(Comments) == u'.Column(Comments)
    requires u.Column(Shares) == u'.Column(Shares)
    ensures SomeRowFailsToAdd(u) == SomeRowFailsToAdd(u')
    ensures StoresRowSums(u) && StoresRowSums(u') ==> u.Column(EngagementScore) == u'.Column(EngagementScore)
  {
    if StoresRowSums(u) && StoresRowSums(u') {
      forall i | 0 <= i < u.height ensures u.Column(EngagementScore)[i] == u'.Column(EngagementScore)[i] {
        assert Some(u.Column(EngagementScore)[i]) == Some(u'.Column(EngagementScore)[i]);
      }
    }
  }

  /** Two inputs that agree outside engagement_score agree in every other output column. */
  lemma NormalizeAgreesOutsideScore(t: Table, t': Table, parse: string -> Option<Timestamp>)
    requires t.WellFormed() && t'.WellFormed() && !t.IsEmpty() && !t'.IsEmpty()
    requires t.height == t'.height && t.data - {EngagementScore} == t'.data - {EngagementScore}
    ensures forall c :: c != EngagementScore && (c in t.data || c in SchemaNames) ==>
      && c in Normalize(t, parse).table.data && c in Normalize(t', parse).table.data
      && Normalize(t, parse).table.data[c] == Normalize(t', parse).table.data[c]
  {
    forall c | c != EngagementScore && (c in t.data || c in SchemaNames)
      ensures c in Normalize(t, parse).table.data && c in Normalize(t', parse).table.data
      ensures Normalize(t, parse).table.data[c] == Normalize(t', parse).table.data[c]
    {
      assert c in t.data <==> c in (t.data - {EngagementScore});
      assert c in t'.data <==> c in (t'.data - {EngagementScore});
      if c in t.data {
        assert t.data[c] == (t.data - {EngagementScore})[c];
        assert t'.data[c] == (t'.data - {EngagementScore})[c];
      }
      assert t.Column(c) == t'.Column(c);
      NormalizeColumnSpec(t, parse, c);
      NormalizeColumnSpec(t', parse, c);
    }
  }

  /**
   * engagement_score is always recomputed: whatever the input held in that
   * column, the outcome of line 40 and (when it does not raise) the whole
   * output table are the same.
   */
  lemma NormalizeIgnoresSuppliedScore(t: Table, t': Table, parse: string -> Option<Timestamp>)
    requires t.WellFormed() && t'.WellFormed() && !t.IsEmpty() && !t'.IsEmpty()
    requires t.height == t'.height && t.data - {EngagementScore} == t'.data - {EngagementScore}
    ensures Normalize(t, parse).raised == Normalize(t', parse).raised
    ensures !Normalize(t, parse).raised ==> Normalize(t, parse).table == Normalize(t', parse).table
  {
    var r, r' := Normalize(t, parse), Normalize(t', parse);
    assert r.table.Column(Likes) == r'.table.Column(Likes)
      && r.table.Column(Comments) == r'.table.Column(Comments)
      && r.table.Column(Shares) == r'.table.Column(Shares) by {
      CountColumnFacts(Likes);
      CountColumnFacts(Comments);
      CountColumnFacts(Shares);
      NormalizeAgreesOutsideScore(t, t', parse);
    }
    assert r.raised == r'.raised by {
      SameCountsSameLine40(r.table, r'.table);
      NormalizeEngagement(t, parse);
      NormalizeEngagement(t', parse);
    }
    if !r.raised {
      assert r.table.Column(EngagementScore) == r'.table.Column(EngagementScore) by {
          SameCountsSameLine40(r.table, r'.table);
        NormalizeEngagement(t, parse);
        NormalizeEngagement(t', parse);
      }
      assert forall c :: c in r.table.data <==> c in r'.table.data by {
        NormalizeKeysWithoutRaise(t, parse);
        NormalizeKeysWithoutRaise(t', parse);
        forall c ensures c in t.data || c in SchemaNames <==> c in t'.data || c in SchemaNames {
          assert c in t.data - {EngagementScore} <==> c in t'.data - {EngagementScore};
        }
      }
      assert forall c :: c in r.table.data && c != EngagementScore ==> r.table.Column(c) == r'.table.Column(c) by {
        NormalizeAgreesOutsideScore(t, t', parse);
        NormalizeColumns(t, parse);
      }
      EqualTables(r.table, r'.table);
    }
  }

  /** When line 40 does not raise, the output holds the input's columns and every schema column. */
  lemma NormalizeKeysWithoutRaise(t: Table, parse: string -> Option<Timestamp>)
    requires t.WellFormed() && !t.IsEmpty() && !Normalize(t, parse).raised
    ensures Normalize(t, parse).table.data.Keys == t.data.Keys + set c | c in SchemaNames
  {
    NormalizeColumns(t, parse);
  }

  /** Tables with the same height, the same columns and the same contents are equal. */
  lemma EqualTables(u: Table, u': Table)
    requires u.WellFormed() && u'.WellFormed() && u.height == u'.height
    requires forall c :: c in u.data <==> c in u'.data
    requires forall c :: c in u.data ==> u.Column(c) == u'.Column(c)
    ensures u == u'
  {
    assert u.data == u'.data;
  }

  /** A column without nulls is left alone by `fillna`. */
  lemma FillNullsWithoutNulls(c: string, vs: seq<Value>)
    requires forall i :: 0 <= i < |vs| ==> !vs[i].Null?
    ensures FillNulls(c, vs) == vs
  {
  }

  /** Casting a column a second time changes nothing. */
  lemma CastOrKeepIdempotent(vs: seq<Value>, dtype: DType)
    ensures CastOrKeep(CastOrKeep(vs, dtype), dtype) == CastOrKeep(vs, dtype)
  {
    var once := CastOrKeep(vs, dtype);
    if ColumnCasts(vs, dtype) {
      forall i | 0 <= i < |vs|
        ensures CastValue(once[i], dtype) == Some(once[i])
      {
        CastValueIdempotent(vs[i], dtype);
      }
      assert ColumnCasts(once, dtype);
    }
  }

  /** Steps 2 to 4 are idempotent on every column. */
  lemma NormalColumnIdempotent(c: string, vs: seq<Value>, parse: string -> Option<Timestamp>)
    ensures NormalColumn(c, NormalColumn(c, vs, parse), parse) == NormalColumn(c, vs, parse)
  {
    var once := NormalColumn(c, vs, parse);
    if IsDateColumn(c) {
      DateColumnFacts(c);
      assert once == ToDatetimeColumn(vs, parse);
      assert ToDatetimeColumn(once, parse) == once;
    } else {
      var filled := FillNulls(c, vs);
      assert StagedColumn(c, vs, parse) == filled;
      if c in CountColumns || c == Content {
        assert forall i :: 0 <= i < |vs| ==> !filled[i].Null?;
        assert forall i :: 0 <= i < |vs| ==> !once[i].Null?;
        FillNullsWithoutNulls(c, once);
      }
      assert StagedColumn(c, once, parse) == once;
      if CastTarget(c) {
        CastOrKeepIdempotent(filled, DTypeOf(c));
      }
    }
  }

  /**
   * Normalising an output of normalize_data again changes nothing: in
   * particular engagement_score keeps its value and line 40 does not raise.
   */
  lemma NormalizeIdempotent(t: Table, parse: string -> Option<Timestamp>)
    requires t.WellFormed() && !t.IsEmpty() && !Normalize(t, parse).raised
    ensures var u := Normalize(t, parse).table;
      Normalize(u, parse).table == u && !Normalize(u, parse).raised
  {
    var u := Normalize(t, parse).table;
    assert !u.IsEmpty() by {
      CountColumnFacts(Likes);
    }
    var again := Normalize(u, parse);
    assert forall c :: c in u.data && c != EngagementScore ==>
      c in again.table.data && again.table.Column(c) == u.Column(c) by {
      forall c | c in u.data && c != EngagementScore
        ensures c in again.table.data && again.table.Column(c) == u.Column(c)
      {
        assert c in t.data || c in SchemaNames by {
          NormalizeKeysWithoutRaise(t, parse);
        }
        NormalizeColumnSpec(t, parse, c);
        NormalizeColumnSpec(u, parse, c);
        NormalColumnIdempotent(c, t.Column(c), parse);
      }
    }
    CountColumnFacts(Likes);
    CountColumnFacts(Comments);
    CountColumnFacts(Shares);
    assert !again.raised && again.table.Column(EngagementScore) == u.Column(EngagementScore) by {
      NormalizeEngagement(t, parse);
      NormalizeEngagement(u, parse);
      SameCountsSameLine40(again.table, u);
    }
    assert forall c :: c in again.table.data <==> c in u.data by {
      NormalizeKeysWithoutRaise(u, parse);
    }
    EqualTables(again.table, u);
  }

  // ---------------------------------------------------------------------------
  // validate_data (lines 44-51).

  /** The ValueError raised by validate_data, with the list of missing columns. */
  datatype SchemaViolation = MissingColumns(missing: seq<string>)

  /** The names of `names` that are not columns of `t`, in the order of `names`. */
  function MissingFrom(names: seq<string>, t: Table): (r: seq<string>)
    ensures IsSubsequence(r, names)
    ensures forall c :: c in r <==> c in names && c !in t.data
    decreases |names|
  {
    if names == [] then []
    else
      var rest := MissingFrom(names[1..], t);
      if names[0] in t.data then
        SubsequenceOfTail(rest, names);
        rest
      else
        assert ([names[0]] + rest)[1..] == rest;
        [names[0]] + rest
  }

  /**
   * validate_data: Ok(true) for an empty table or one holding every schema
   * column; otherwise the error lists the missing schema columns in schema
   * order. The table is a value, so it is not modified.
   */
  function ValidateData(t: Table): (r: Result<bool, SchemaViolation>)
    ensures r.Ok? ==> r.value
    ensures t.IsEmpty() ==> r.Ok?
    ensures !t.IsEmpty() ==> (r.Ok? <==> forall c :: c in SchemaNames ==> c in t.data)
    ensures r.Err? ==>
      && r.error.missing != []
      && IsSubsequence(r.error.missing, SchemaNames)
      && forall c :: c in r.error.missing <==> c in SchemaNames && c !in t.data
  {
    if t.IsEmpty() then Ok(true)
    else
      var missing := MissingFrom(SchemaNames, t);
      assert missing != [] ==> missing[0] in missing;
      if missing != [] then Err(MissingColumns(missing)) else Ok(true)
  }

  /** Nothing is reported when `t` has every name. */
  lemma {:induction false} MissingNone(names: seq<string>, t: Table)
    requires forall c :: c in names ==> c in t.data
    ensures MissingFrom(names, t) == []
    decreases |names|
  {
    if names != [] {
      MissingNone(names[1..], t);
    }
  }

  /** When `x` is the only name of `names` that `t` lacks, it is all that is reported. */
  lemma {:induction false} MissingOnly(names: seq<string>, t: Table, x: string)
    requires Distinct(names) && x in names && x !in t.data
    requires forall c :: c in names && c != x ==> c in t.data
    ensures MissingFrom(names, t) == [x]
    decreases |names|
  {
    DistinctTail(names);
    if names[0] == x {
      MissingNone(names[1..], t);
    } else {
      MissingOnly(names[1..], t, x);
    }
  }

  /** A table lacking only author_id is reported as missing exactly that column. */
  lemma ValidateReportsMissingAuthor(t: Table)
    requires !t.IsEmpty()
    requires forall c :: c in SchemaNames && c != AuthorId ==> c in t.data
    requires AuthorId !in t.data
    ensures ValidateData(t) == Err(MissingColumns([AuthorId]))
  {
    SchemaNamesDistinct();
    MissingOnly(SchemaNames, t, AuthorId);
  }

  /** Whenever normalize_data completes, validate_data accepts its output. */
  lemma ValidateAfterNormalize(t: Table, parse: string -> Option<Timestamp>)
    requires t.WellFormed() && !Normalize(t, parse).raised
    ensures ValidateData(Normalize(t, parse).table) == Ok(true)
  {
    if !t.IsEmpty() {
      NormalizeKeysWithoutRaise(t, parse);
    }
  }

  // ---------------------------------------------------------------------------
  // normalize_data as the source runs it: in place on the caller's frame.

  /** Lines 24-26: adds each missing schema column except engagement_score, all-null. */
  method AddMissingColumns(df: Frame)
    requires df.Valid()
    modifies df
    ensures df.Valid() && df.Snapshot() == AddMissing(old(df.Snapshot()), SchemaNames)
  {
    ghost var t := df.Snapshot();
    var i := 0;
    while i < |SchemaNames|
      invariant 0 <= i <= |SchemaNames|
      invariant df.Valid() && df.height == t.height
      invariant AddMissing(df.Snapshot(), SchemaNames[i..]) == AddMissing(t, SchemaNames)
    {
      var c := SchemaNames[i];
      assert SchemaNames[i..][1..] == SchemaNames[i + 1..];
      if c !in df.data && c != EngagementScore {
        df.SetColumn(c, Nulls(df.height));
      }
      i := i + 1;
    }
    assert SchemaNames[i..] == [];
  }

  /** Lines 27-29: null counts become 0 and null content becomes ''. */
  method FillDefaultValues(df: Frame)
    requires df.Valid()
    requires Likes in df.data && Comments in df.data && Shares in df.data && Content in df.data
    modifies df
    ensures df.Valid() && df.Snapshot() == FillDefaults(old(df.Snapshot()))
  {
    df.SetColumn(Likes, FillNulls(Likes, df.data[Likes]));
    df.SetColumn(Comments, FillNulls(Comments, df.data[Comments]));
    df.SetColumn(Shares, FillNulls(Shares, df.data[Shares]));
    df.SetColumn(Content, FillNulls(Content, df.data[Content]));
  }

  /** Lines 30-33: converts the timestamp columns that are present. */
  method ParseDates(df: Frame, parse: string -> Option<Timestamp>)
    requires df.Valid()
    modifies df
    ensures df.Valid() && df.Snapshot() == ParseDateColumns(old(df.Snapshot()), parse)
  {
    if PostDate in df.data {
      df.SetColumn(PostDate, ToDatetimeColumn(df.data[PostDate], parse));
    }
    if CollectedAt in df.data {
      df.SetColumn(CollectedAt, ToDatetimeColumn(df.data[CollectedAt], parse));
    }
  }

  /** One turn of the loop at lines 34-39, for a schema column `c`. */
  method CastColumn(df: Frame, c: string) returns (reported: seq<string>)
    requires df.Valid() && c in SchemaNames
    modifies df
    ensures df.Valid() && (df.Snapshot(), reported) == CastStep(old(df.Snapshot()), c)
  {
    reported := [];
    if c in df.data && c != PostDate && c != CollectedAt {
      var dtype := DTypeOf(c);
      if ColumnCasts(df.data[c], dtype) {
        df.SetColumn(c, CastOrKeep(df.data[c], dtype));
      } else {
        reported := [c];
      }
    }
  }

  /** Lines 34-39: casts column by column; a failed cast is reported and the loop goes on. */
  method CastColumns(df: Frame) returns (warnings: seq<string>)
    requires df.Valid()
    modifies df
    ensures df.Valid() && (df.Snapshot(), warnings) == CastAll(old(df.Snapshot()), SchemaNames)
  {
    ghost var t := df.Snapshot();
    warnings := [];
    for i := 0 to |SchemaNames|
      invariant df.Valid()
      invariant (df.Snapshot(), warnings) == CastAll(t, SchemaNames[..i])
    {
      assert SchemaNames[..i + 1][..i] == SchemaNames[..i] && SchemaNames[..i + 1][i] == SchemaNames[i];
      var reported := CastColumn(df, SchemaNames[i]);
      warnings := warnings + reported;
    }
    assert SchemaNames[..|SchemaNames|] == SchemaNames;
  }

  /**
   * normalize_data: changes `df` column by column and returns the columns
   * whose cast was reported and whether line 40 raised; when it raises, the
   * frame keeps the changes made before that line.
   */
  method NormalizeData(df: Frame, parse: string -> Option<Timestamp>) returns (warnings: seq<string>, raised: bool)
    requires df.Valid()
    modifies df
    ensures df.Valid()
    ensures Normalized(df.Snapshot(), warnings, raised) == Normalize(old(df.Snapshot()), parse)
  {
    if df.Empty() {
      return [], false;
    }
    ghost var t := df.Snapshot();
    AddMissingColumns(df);
    CountColumnFacts(Likes);
    CountColumnFacts(Comments);
    CountColumnFacts(Shares);
    TextColumnFacts(Content);
    FillDefaultValues(df);
    ParseDates(df, parse);
    assert df.Snapshot() == Staged(t, parse);
    warnings := CastColumns(df);
    assert (df.Snapshot(), warnings) == Prepared(t, parse);
    assert Normalize(t, parse) == Finish((df.Snapshot(), warnings));
    var engagement := EngagementColumn(df.data[Likes], df.data[Comments], df.data[Shares]);
    if engagement.None? {
      raised := true;
    } else {
      df.SetColumn(EngagementScore, engagement.value);
      raised := false;
    }
  }
}

