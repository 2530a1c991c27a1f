/** Query parsing and block translation of `ConvertCoordinates`
    (classes.py:118-157): a query `chr:start..end` is looked up in the block
    table through `Database.filter` and translated by offset into the block's
    range in the reference version. */
module Coordinates {
  import opened Values
  import opened Predicates
  import opened Database

  /** The `GenomicCoordinate` record (classes.py:118-120). */
  datatype GenomicCoordinate = GenomicCoordinate(chromosome: Value, start: int, end: int, version: string)

  // ---------------------------------------------------------------------
  // Query parsing (classes.py:152-157)

  /** `query_parser`: the chromosome is the text before the first `:`; start
      and end are the two `..`-separated integers after it. The start is
      converted before the end's presence is checked, so a bad start is a
      ValueError even when `..` is missing. No `start <= end` check is made. */
  function QueryParser(query: string, version: string): (r: Result<GenomicCoordinate>)
    ensures r.Ok? ==> r.value.version == version && r.value.chromosome == Str(Split(query, ":")[0])
    ensures r.Err? ==> r.error == IndexError || r.error.ValueError?
  {
    var parts := Split(query, ":");
    var chrname := parts[0];
    if |parts| < 2 then Err(IndexError)
    else
      var pos := Split(parts[1], "..");
      var start :- ParseInt(pos[0]);
      if |pos| < 2 then Err(IndexError)
      else
        var end :- ParseInt(pos[1]);
        Ok(GenomicCoordinate(Str(chrname), start, end, version))
  }

  /** The text `c:s..e` as a user writes it. */
  function QueryText(c: string, s: int, e: int): string
  {
    c + ":" + IntToString(s) + ".." + IntToString(e)
  }

  lemma LacksAppend(a: string, b: string, c: char)
    requires Lacks(a, c) && Lacks(b, c)
    ensures Lacks(a + b, c)
  {
    assert forall k :: 0 <= k < |a + b| ==> (a + b)[k] == if k < |a| then a[k] else b[k - |a|];
  }

  /** The two numbers after the colon come apart at `..`. */
  lemma SplitRange(s: int, e: int)
    ensures Split(IntToString(s) + ".." + IntToString(e), "..") == [IntToString(s), IntToString(e)]
    ensures Lacks(IntToString(s) + ".." + IntToString(e), ':')
  {
    ParseIntToString(s);
    ParseIntToString(e);
    SplitFirst(IntToString(s), "..", IntToString(e));
    SplitNone(IntToString(e), "..");
    LacksAppend(IntToString(s), "..", ':');
    LacksAppend(IntToString(s) + "..", IntToString(e), ':');
  }

  /** Parsing what a user writes as `c:s..e` gives back c, s and e, whatever their order. */
  lemma QueryParserRoundTrip(c: string, s: int, e: int, version: string)
    requires Lacks(c, ':')
    ensures QueryParser(QueryText(c, s, e), version) == Ok(GenomicCoordinate(Str(c), s, e, version))
  {
    QueryTextSplit(c, s, e);
    ParseIntToString(s);
    ParseIntToString(e);
  }

  /** `c:s..e` comes apart into c and `s..e`, and that into s and e. */
  lemma QueryTextSplit(c: string, s: int, e: int)
    requires Lacks(c, ':')
    ensures Split(QueryText(c, s, e), ":") == [c, IntToString(s) + ".." + IntToString(e)]
    ensures Split(IntToString(s) + ".." + IntToString(e), "..") == [IntToString(s), IntToString(e)]
  {
    var rest := IntToString(s) + ".." + IntToString(e);
    assert QueryText(c, s, e) == c + ":" + rest;
    SplitRange(s, e);
    SplitFirst(c, ":", rest);
    SplitNone(rest, ":");
  }

  /** Without a colon there is no `[1]` to take. */
  lemma QueryParserNoColon(query: string, version: string)
    requires Lacks(query, ':')
    ensures QueryParser(query, version) == Err(IndexError)
  {
    SplitNone(query, ":");
  }

  /** `x + ".." + y` comes apart first at the `..` after `x` when `..` does
      not occur in `x` and `x` does not end in `.`. */
  lemma SplitDotsFirst(x: string, y: string)
    requires !HasSubstring(x, "..") && (x == [] || x[|x| - 1] != '.')
    ensures Split(x + ".." + y, "..") == [x] + Split(y, "..")
  {
    var s := x + ".." + y;
    assert s[|x|..|x| + 2] == "..";
    forall j | 0 <= j < |x|
      ensures !OccursAt(s, "..", j)
    {
      if j + 2 <= |x| {
        assert s[j..j + 2] == x[j..j + 2];
        assert !OccursAt(x, "..", j);
      } else {
        assert s[j] == x[|x| - 1];
      }
    }
    var i := Find(s, "..", 0);
    assert OccursAt(s, "..", |x|);
    assert i == |x|;
    assert s[..i] == x;
    assert s[i + 2..] == y;
  }

  /** Without `..` the start is still converted first: an integer start gives
      IndexError, any other text (`5.6` included) the ValueError of `int()`. */
  lemma QueryParserNoDots(c: string, t: string, version: string)
    requires Lacks(c, ':') && Lacks(t, ':') && !HasSubstring(t, "..")
    ensures QueryParser(c + ":" + t, version) == Err(if ParseInt(t).Ok? then IndexError else ValueError(t))
  {
    SplitFirst(c, ":", t);
    SplitNone(t, ":");
    SplitAbsent(t, "..");
  }

  /** A start or an end that is not a decimal integer (`1.5` included) is
      refused with ValueError. The start must not end in `.`, or the text
      would come apart at a different `..`. */
  lemma QueryParserBadNumber(c: string, t: string, u: string, version: string)
    requires Lacks(c, ':') && Lacks(t, ':') && Lacks(u, ':')
    requires !HasSubstring(t, "..") && (t == [] || t[|t| - 1] != '.') && !HasSubstring(u, "..")
    requires ParseInt(t).Err? || ParseInt(u).Err?
    ensures QueryParser(c + ":" + t + ".." + u, version) ==
            Err(ValueError(if ParseInt(t).Err? then t else u))
  {
    var rest := t + ".." + u;
    assert c + ":" + t + ".." + u == c + ":" + rest;
    LacksAppend(t, "..", ':');
    LacksAppend(t + "..", u, ':');
    SplitFirst(c, ":", rest);
    SplitNone(rest, ":");
    SplitDotsFirst(t, u);
    SplitAbsent(u, "..");
  }

  /** `2L:1.5..3` is refused as `int()` refuses `1.5`. */
  lemma QueryParserFraction(version: string)
    ensures QueryParser("2L:1.5..3", version) == Err(ValueError("1.5"))
  {
    var t, u := "1.5", "3";
    assert !HasSubstring(t, "..") by {
      assert t[0..2][0] == '1' && t[1..3][1] == '5';
    }
    assert !HasSubstring(u, "..");
    QueryParserBadNumber("2L", t, u, version);
    assert "2L:1.5..3" == "2L" + ":" + t + ".." + u;
  }

  /** `2L:5.6` has no `..`, and its start is refused as `int()` refuses `5.6`. */
  lemma QueryParserDecimal(version: string)
    ensures QueryParser("2L:5.6", version) == Err(ValueError("5.6"))
  {
    var c, t := "2L", "5.6";
    assert Lacks(c, ':') && Lacks(t, ':');
    assert !HasSubstring(t, "..") by {
      assert t[0..2][0] == '5' && t[1..3][1] == '6';
    }
    assert ParseInt(t).Err? by {
      assert !IsDigit(t[1]);
    }
    QueryParserNoDots(c, t, version);
    assert "2L:5.6" == c + ":" + t;
  }

  // ---------------------------------------------------------------------
  // Python's range indexing

  /** `len(range(lo, hi))`. */
  function RangeLen(lo: int, hi: int): nat
  {
    if hi > lo then hi - lo else 0
  }

  /** `range(lo, hi)[i]`: a negative index counts from the end. */
  function PyRangeIndex(lo: int, hi: int, i: int): (r: Result<int>)
    ensures r.Ok? <==> -(RangeLen(lo, hi) as int) <= i < RangeLen(lo, hi)
    ensures r.Ok? ==> lo <= r.value < hi && r.value == (if i < 0 then hi + i else lo + i)
    ensures r.Err? ==> r.error == IndexError
  {
    var j := if i < 0 then i + RangeLen(lo, hi) else i;
    if 0 <= j < RangeLen(lo, hi) then Ok(lo + j) else Err(IndexError)
  }

  /** The integers `range(lo, hi)` enumerates, as a sequence. */
  function RangeSeq(lo: int, hi: int): (s: seq<int>)
    ensures |s| == RangeLen(lo, hi) && forall k :: 0 <= k < |s| ==> s[k] == lo + k
  {
    seq(RangeLen(lo, hi), k => lo + k)
  }

  /** Python sequence indexing `s[i]`. */
  function PyIndex<T>(s: seq<T>, i: int): Result<T>
  {
    if 0 <= i < |s| then Ok(s[i]) else if -|s| <= i < 0 then Ok(s[|s| + i]) else Err(IndexError)
  }

  /** Indexing a range is indexing the sequence it enumerates. */
  lemma PyRangeIndexIsIndex(lo: int, hi: int, i: int)
    ensures PyRangeIndex(lo, hi, i) == PyIndex(RangeSeq(lo, hi), i)
  {
  }

  // ---------------------------------------------------------------------
  // Translation of a query by one block row (classes.py:138-150)

  /** `f'v{version}_{field}'`. */
  function ColName(version: string, field: string): string
  {
    "v" + version + "_" + field
  }

  /** `conv_dict[key]`. */
  function Lookup(row: Row, key: string): (r: Result<Value>)
    ensures r.Ok? <==> key in row
    ensures r.Ok? ==> r.value == row[key]
    ensures r.Err? ==> r.error == KeyError(Str(key))
  {
    if key in row then Ok(row[key]) else Err(KeyError(Str(key)))
  }

  /** `q - cell`: subtracting a string is a TypeError. */
  function Minus(q: int, cell: Value): (r: Result<int>)
    ensures r.Ok? <==> cell.Num?
    ensures r.Ok? ==> r.value + cell.n == q
  {
    if cell.Num? then Ok(q - cell.n) else Err(TypeError)
  }

  /** `range(a, b)[i]` on two cells: a string bound is a TypeError. */
  function RangeAt(a: Value, b: Value, i: int): (r: Result<int>)
    ensures a.Num? && b.Num? ==> r == PyRangeIndex(a.n, b.n, i)
    ensures !(a.Num? && b.Num?) ==> r == Err(TypeError)
  {
    if a.Num? && b.Num? then PyRangeIndex(a.n, b.n, i) else Err(TypeError)
  }

  /** The body of `get_dmel_coordinates` after the lookup, in the source's
      order of evaluation: `ix1`, `ix2`, `s2`, `e2`, then the reference chromosome. */
  function Translate(row: Row, q: GenomicCoordinate, rv: string): (r: Result<GenomicCoordinate>)
    ensures r.Ok? ==> ColName(rv, "start") in row && ColName(rv, "end") in row &&
                      row[ColName(rv, "start")].Num? && row[ColName(rv, "end")].Num? &&
                      row[ColName(rv, "start")].n <= r.value.start < row[ColName(rv, "end")].n &&
                      row[ColName(rv, "start")].n <= r.value.end < row[ColName(rv, "end")].n
    ensures r.Ok? ==> ColName(rv, "chr") in row && r.value.chromosome == row[ColName(rv, "chr")] &&
                      r.value.version == rv
  {
    var qv := q.version;
    var bs :- Lookup(row, ColName(qv, "start"));
    var ix1 :- Minus(q.start, bs);
    var be :- Lookup(row, ColName(qv, "end"));
    var ix2 :- Minus(q.end, be);
    var rs :- Lookup(row, ColName(rv, "start"));
    var re :- Lookup(row, ColName(rv, "end"));
    var s2 :- RangeAt(rs, re, ix1);
    var e2 :- RangeAt(rs, re, ix2);
    var rc :- Lookup(row, ColName(rv, "chr"));
    Ok(GenomicCoordinate(rc, s2, e2, rv))
  }

  /** One block: its chromosome and bounds in the query version and in the reference version. */
  datatype Block = Block(qchr: Value, bs: int, be: int, rchr: Value, rs: int, re: int)

  /** The row holds the block under the column names of versions qv and rv. */
  predicate Holds(row: Row, qv: string, rv: string, b: Block)
  {
    ColName(qv, "chr") in row && row[ColName(qv, "chr")] == b.qchr &&
    ColName(qv, "start") in row && row[ColName(qv, "start")] == Num(b.bs) &&
    ColName(qv, "end") in row && row[ColName(qv, "end")] == Num(b.be) &&
    ColName(rv, "chr") in row && row[ColName(rv, "chr")] == b.rchr &&
    ColName(rv, "start") in row && row[ColName(rv, "start")] == Num(b.rs) &&
    ColName(rv, "end") in row && row[ColName(rv, "end")] == Num(b.re)
  }

  /** Both sides of the block have the same length. */
  predicate EqualLengths(b: Block)
  {
    b.be - b.bs == b.re - b.rs
  }

  /** Inside an equal-length block and short of its end, the query moves by the
      block's offset, so its length is kept. */
  lemma TranslateInsideBlock(row: Row, q: GenomicCoordinate, rv: string, b: Block)
    requires Holds(row, q.version, rv, b) && EqualLengths(b)
    requires b.bs <= q.start <= q.end < b.be
    ensures Translate(row, q, rv) ==
            Ok(GenomicCoordinate(b.rchr, b.rs + (q.start - b.bs), b.re - (b.be - q.end), rv))
    ensures Translate(row, q, rv).value.end - Translate(row, q, rv).value.start == q.end - q.start
  {
  }

  /** A query ending exactly at the block end has `ix2 == 0`, which picks the
      first element of the reference range: the end comes out as the reference start. */
  lemma TranslateAtBlockEnd(row: Row, q: GenomicCoordinate, rv: string, b: Block)
    requires Holds(row, q.version, rv, b) && EqualLengths(b)
    requires b.bs <= q.start < q.end == b.be
    ensures Translate(row, q, rv) == Ok(GenomicCoordinate(b.rchr, b.rs + (q.start - b.bs), b.rs, rv))
  {
  }

  /** A start offset not below the reference range's length is out of the range. */
  lemma TranslateStartPastRange(row: Row, q: GenomicCoordinate, rv: string, b: Block)
    requires Holds(row, q.version, rv, b)
    requires q.start - b.bs >= 0 && q.start - b.bs >= b.re - b.rs
    ensures Translate(row, q, rv) == Err(IndexError)
  {
  }

  // ---------------------------------------------------------------------
  // The whole conversion (classes.py:127-150)

  /** A keyword value for the query chromosome: a string, or an int. */
  function ValueArg(v: Value): Arg
  {
    match v
    case Str(s) => AStr(s)
    case Num(n) => AInt(n)
  }

  /** `filt_kw`: same chromosome, block start at most the query start, block end at least the query end. */
  function LookupKwargs(q: GenomicCoordinate): seq<(string, Arg)>
  {
    [(ColName(q.version, "chr"), ValueArg(q.chromosome)),
     (ColName(q.version, "start"), AStr("lte" + IntToString(q.start))),
     (ColName(q.version, "end"), AStr("gte" + IntToString(q.end)))]
  }

  /** `get_dmel_coordinates`: parse, filter, take the first hit with
      `.iloc[0]` (IndexError when nothing matched), translate. */
  function GetDmelCoordinates(columns: set<string>, records: Frame, qv: string, rv: string, query: string)
    : (r: Result<GenomicCoordinate>)
    ensures r.Ok? ==> r.value.version == rv && QueryParser(query, qv).Ok?
  {
    var q :- QueryParser(query, qv);
    var st :- FilterSpec(columns, records, "", true, LookupKwargs(q));
    if |st.frame| == 0 then Err(IndexError) else Translate(st.frame[0].row, q, rv)
  }

  /** The rows whose block in the query version contains the query. */
  function ContainsQuery(q: GenomicCoordinate): Row -> bool
  {
    (row: Row) => (ColName(q.version, "chr") in row && row[ColName(q.version, "chr")] == q.chromosome) &&
           (ColName(q.version, "start") in row && row[ColName(q.version, "start")].Num? &&
            row[ColName(q.version, "start")].n <= q.start) &&
           (ColName(q.version, "end") in row && row[ColName(q.version, "end")].Num? &&
            row[ColName(q.version, "end")].n >= q.end)
  }

  function ChrHit(q: GenomicCoordinate): Row -> bool
  {
    (row: Row) => ColName(q.version, "chr") in row && row[ColName(q.version, "chr")] == q.chromosome
  }

  function StartHit(q: GenomicCoordinate): Row -> bool
  {
    (row: Row) => ColName(q.version, "start") in row && row[ColName(q.version, "start")].Num? &&
           row[ColName(q.version, "start")].n <= q.start
  }

  function EndHit(q: GenomicCoordinate): Row -> bool
  {
    (row: Row) => ColName(q.version, "end") in row && row[ColName(q.version, "end")].Num? &&
           row[ColName(q.version, "end")].n >= q.end
  }

  function ChrStartHit(q: GenomicCoordinate): Row -> bool
  {
    (row: Row) => ChrHit(q)(row) && StartHit(q)(row)
  }

  /** Every row carries the query version's chromosome and numeric bounds. */
  predicate BlockColumns(rows: seq<Row>, qv: string)
  {
    forall row: Row :: row in rows ==>
      ColName(qv, "chr") in row &&
      ColName(qv, "start") in row && row[ColName(qv, "start")].Num? &&
      ColName(qv, "end") in row && row[ColName(qv, "end")].Num?
  }

  /** A chromosome name that the filter reads as plain equality. */
  predicate PlainName(c: string)
  {
    Decode(c) == Ok(Eq(Str(c)))
  }

  /** One string keyword whose test cannot fail on these rows is its mask, and unshares the frame. */
  lemma MaskedStep(columns: set<string>, f: Frame, sh: bool, k: string, v: string, p: Pred, h: Row -> bool)
    requires Decode(v) == Ok(p) && !p.Any? && k in columns
    requires forall row :: row in Rows(f) ==> EvalRow(k, p, row).Ok? && (EvalRow(k, p, row) == Ok(true)) == h(row)
    ensures Mask(f, k, p).Ok?
    ensures Step(columns, State(f, sh), k, AStr(v)) == Ok(State(Mask(f, k, p).value, false))
    ensures Rows(Mask(f, k, p).value) == Keep(Rows(f), h)
  {
    forall i | 0 <= i < |f| ensures EvalRow(k, p, f[i].row).Ok? {
      assert Rows(f)[i] in Rows(f);
    }
    StringStep(columns, State(f, sh), k, v, p);
    KeepCongruent(Rows(f), RowHit(k, p), h);
  }

  /** The three chained lookup masks, one after another. */
  lemma ThreeSteps(columns: set<string>, records: Frame, kw: seq<(string, Arg)>, f1: Frame, f2: Frame, f3: Frame)
    requires |kw| == 3
    requires Step(columns, State(records, true), kw[0].0, kw[0].1) == Ok(State(f1, false))
    requires Step(columns, State(f1, false), kw[1].0, kw[1].1) == Ok(State(f2, false))
    requires Step(columns, State(f2, false), kw[2].0, kw[2].1) == Ok(State(f3, false))
    ensures FilterSpec(columns, records, "", true, kw) == Ok(State(f3, false))
  {
    var kw1, kw2 := kw[1..], kw[2..];
    assert kw1[0] == kw[1] && kw1[1..] == kw2 && kw2[0] == kw[2] && kw2[1..] == [];
    assert KwargsFold(columns, State(f2, false), kw2) == KwargsFold(columns, State(f3, false), []);
    assert KwargsFold(columns, State(f1, false), kw1) == KwargsFold(columns, State(f2, false), kw2);
    assert KwargsFold(columns, State(records, true), kw) == KwargsFold(columns, State(f1, false), kw1);
  }

  /** The chromosome keyword on rows that carry the column. */
  lemma ChrStep(columns: set<string>, f: Frame, sh: bool, q: GenomicCoordinate, c: string)
    requires q.chromosome == Str(c) && PlainName(c) && ColName(q.version, "chr") in columns
    requires BlockColumns(Rows(f), q.version)
    ensures Mask(f, ColName(q.version, "chr"), Eq(Str(c))).Ok?
    ensures var m := Mask(f, ColName(q.version, "chr"), Eq(Str(c))).value;
            Step(columns, State(f, sh), ColName(q.version, "chr"), AStr(c)) == Ok(State(m, false)) &&
            Rows(m) == Keep(Rows(f), ChrHit(q)) && BlockColumns(Rows(m), q.version)
  {
    MaskedStep(columns, f, sh, ColName(q.version, "chr"), c, Eq(Str(c)), ChrHit(q));
    KeepMembers(Rows(f), ChrHit(q));
  }

  /** The `lte<start>` keyword on rows whose block start is a number. */
  lemma StartStep(columns: set<string>, f: Frame, sh: bool, q: GenomicCoordinate)
    requires q.start >= 0 && ColName(q.version, "start") in columns
    requires BlockColumns(Rows(f), q.version)
    ensures Mask(f, ColName(q.version, "start"), Lte(q.start)).Ok?
    ensures var m := Mask(f, ColName(q.version, "start"), Lte(q.start)).value;
            Step(columns, State(f, sh), ColName(q.version, "start"), AStr("lte" + IntToString(q.start))) ==
              Ok(State(m, false)) &&
            Rows(m) == Keep(Rows(f), StartHit(q)) && BlockColumns(Rows(m), q.version)
  {
    DecodeLte(q.start);
    MaskedStep(columns, f, sh, ColName(q.version, "start"), "lte" + IntToString(q.start), Lte(q.start), StartHit(q));
    KeepMembers(Rows(f), StartHit(q));
  }

  /** The `gte<end>` keyword on rows whose block end is a number. */
  lemma EndStep(columns: set<string>, f: Frame, sh: bool, q: GenomicCoordinate)
    requires q.end >= 0 && ColName(q.version, "end") in columns
    requires BlockColumns(Rows(f), q.version)
    ensures Mask(f, ColName(q.version, "end"), Gte(q.end)).Ok?
    ensures var m := Mask(f, ColName(q.version, "end"), Gte(q.end)).value;
            Step(columns, State(f, sh), ColName(q.version, "end"), AStr("gte" + IntToString(q.end))) ==
              Ok(State(m, false)) &&
            Rows(m) == Keep(Rows(f), EndHit(q))
  {
    DecodeGte(q.end);
    MaskedStep(columns, f, sh, ColName(q.version, "end"), "gte" + IntToString(q.end), Gte(q.end), EndHit(q));
  }

  /** The lookup keeps exactly the rows whose block contains the query, in table order. */
  lemma LookupKeepsContainingBlocks(columns: set<string>, records: Frame, q: GenomicCoordinate, c: string)
    requires q.chromosome == Str(c) && PlainName(c) && q.start >= 0 && q.end >= 0
    requires ColName(q.version, "chr") in columns && ColName(q.version, "start") in columns &&
             ColName(q.version, "end") in columns
    requires BlockColumns(Rows(records), q.version)
    ensures var r := FilterSpec(columns, records, "", true, LookupKwargs(q));
            r.Ok? && Rows(r.value.frame) == Keep(Rows(records), ContainsQuery(q))
  {
    LookupThreeMasks(columns, records, q, c);
    ContainsQueryKeep(Rows(records), q);
  }

  /** The three lookup keywords filter by chromosome, then start, then end. */
  lemma LookupThreeMasks(columns: set<string>, records: Frame, q: GenomicCoordinate, c: string)
    requires q.chromosome == Str(c) && PlainName(c) && q.start >= 0 && q.end >= 0
    requires ColName(q.version, "chr") in columns && ColName(q.version, "start") in columns &&
             ColName(q.version, "end") in columns
    requires BlockColumns(Rows(records), q.version)
    ensures var r := FilterSpec(columns, records, "", true, LookupKwargs(q));
            r.Ok? && Rows(r.value.frame) == Keep(Keep(Keep(Rows(records), ChrHit(q)), StartHit(q)), EndHit(q))
  {
    var kc, ks, ke := ColName(q.version, "chr"), ColName(q.version, "start"), ColName(q.version, "end");
    var kw := LookupKwargs(q);
    ChrStep(columns, records, true, q, c);
    var f1 := Mask(records, kc, Eq(Str(c))).value;
    StartStep(columns, f1, false, q);
    var f2 := Mask(f1, ks, Lte(q.start)).value;
    EndStep(columns, f2, false, q);
    var f3 := Mask(f2, ke, Gte(q.end)).value;
    assert kw[0] == (kc, AStr(c)) && kw[1] == (ks, AStr("lte" + IntToString(q.start))) &&
           kw[2] == (ke, AStr("gte" + IntToString(q.end)));
    ThreeSteps(columns, records, kw, f1, f2, f3);
    assert Rows(f3) == Keep(Keep(Keep(Rows(records), ChrHit(q)), StartHit(q)), EndHit(q));
  }

  /** The three conditions together are containment of the query. */
  lemma ContainsQueryKeep(rows: seq<Row>, q: GenomicCoordinate)
    ensures Keep(Keep(Keep(rows, ChrHit(q)), StartHit(q)), EndHit(q)) == Keep(rows, ContainsQuery(q))
  {
    KeepKeep(rows, ChrHit(q), StartHit(q), ChrStartHit(q));
    KeepKeep(rows, ChrStartHit(q), EndHit(q), ContainsQuery(q));
  }

  /** A negative start turns the `lte` keyword into equality with a string,
      which no numeric block start meets: nothing is kept. */
  lemma NegativeStartStep(columns: set<string>, f: Frame, sh: bool, q: GenomicCoordinate)
    requires q.start < 0 && ColName(q.version, "start") in columns
    requires BlockColumns(Rows(f), q.version)
    ensures Step(columns, State(f, sh), ColName(q.version, "start"), AStr("lte" + IntToString(q.start))) ==
            Ok(State([], false))
  {
    var ks, v := ColName(q.version, "start"), "lte" + IntToString(q.start);
    DecodeNegativeBound(q.start);
    var none := (row: Row) => false;
    forall row | row in Rows(f)
      ensures EvalRow(ks, Eq(Str(v)), row) == Ok(false)
    {
    }
    MaskedStep(columns, f, sh, ks, v, Eq(Str(v)), none);
    KeepNone(Rows(f), none);
  }

  /** The `gte<end>` keyword, whatever the end's sign, keeps an empty frame empty. */
  lemma EndStepEmpty(columns: set<string>, q: GenomicCoordinate)
    requires ColName(q.version, "end") in columns
    ensures Step(columns, State([], false), ColName(q.version, "end"), AStr("gte" + IntToString(q.end))) ==
            Ok(State([], false))
  {
    if q.end >= 0 {
      DecodeGte(q.end);
    } else {
      DecodeNegativeBound(q.end);
    }
  }

  /** A negative end turns the `gte` keyword into equality with a string,
      which no numeric block end meets: nothing is kept. */
  lemma NegativeEndStep(columns: set<string>, f: Frame, sh: bool, q: GenomicCoordinate)
    requires q.end < 0 && ColName(q.version, "end") in columns
    requires BlockColumns(Rows(f), q.version)
    ensures Step(columns, State(f, sh), ColName(q.version, "end"), AStr("gte" + IntToString(q.end))) ==
            Ok(State([], false))
  {
    var ke, v := ColName(q.version, "end"), "gte" + IntToString(q.end);
    DecodeNegativeBound(q.end);
    var none := (row: Row) => false;
    forall row | row in Rows(f)
      ensures EvalRow(ke, Eq(Str(v)), row) == Ok(false)
    {
    }
    MaskedStep(columns, f, sh, ke, v, Eq(Str(v)), none);
    KeepNone(Rows(f), none);
  }

  /** A query with a non-negative start and a negative end finds no block
      either, even one that contains it, and fails with `.iloc[0]`'s IndexError. */
  lemma GetDmelNegativeEnd(columns: set<string>, records: Frame, qv: string, rv: string, c: string, s: nat, e: int)
    requires e < 0 && Lacks(c, ':') && PlainName(c)
    requires ColName(qv, "chr") in columns && ColName(qv, "start") in columns && ColName(qv, "end") in columns
    requires BlockColumns(Rows(records), qv)
    ensures GetDmelCoordinates(columns, records, qv, rv, QueryText(c, s, e)) == Err(IndexError)
  {
    var q := GenomicCoordinate(Str(c), s, e, qv);
    QueryParserRoundTrip(c, s, e, qv);
    ChrStep(columns, records, true, q, c);
    var f1 := Mask(records, ColName(qv, "chr"), Eq(Str(c))).value;
    StartStep(columns, f1, false, q);
    var f2 := Mask(f1, ColName(qv, "start"), Lte(s)).value;
    NegativeEndStep(columns, f2, false, q);
    ThreeSteps(columns, records, LookupKwargs(q), f1, f2, []);
  }

  /** A query with a negative start finds no block, on any table of numeric
      block bounds, and fails with the IndexError of `.iloc[0]`. */
  lemma GetDmelNegativeStart(columns: set<string>, records: Frame, qv: string, rv: string, c: string, s: int, e: int)
    requires s < 0 && Lacks(c, ':') && PlainName(c)
    requires ColName(qv, "chr") in columns && ColName(qv, "start") in columns && ColName(qv, "end") in columns
    requires BlockColumns(Rows(records), qv)
    ensures GetDmelCoordinates(columns, records, qv, rv, QueryText(c, s, e)) == Err(IndexError)
  {
    var q := GenomicCoordinate(Str(c), s, e, qv);
    QueryParserRoundTrip(c, s, e, qv);
    ChrStep(columns, records, true, q, c);
    var f1 := Mask(records, ColName(qv, "chr"), Eq(Str(c))).value;
    NegativeStartStep(columns, f1, false, q);
    EndStepEmpty(columns, q);
    ThreeSteps(columns, records, LookupKwargs(q), f1, [], []);
  }

  /** The conversion of a well-formed query translates the first row whose
      block contains it; when no block does, it fails with IndexError. */
  lemma GetDmelTakesFirstHit(columns: set<string>, records: Frame, qv: string, rv: string, c: string, s: nat, e: nat)
    requires Lacks(c, ':') && PlainName(c)
    requires ColName(qv, "chr") in columns && ColName(qv, "start") in columns && ColName(qv, "end") in columns
    requires BlockColumns(Rows(records), qv)
    ensures var q := GenomicCoordinate(Str(c), s, e, qv);
            var hits := Keep(Rows(records), ContainsQuery(q));
            GetDmelCoordinates(columns, records, qv, rv, QueryText(c, s, e)) ==
              if hits == [] then Err(IndexError) else Translate(hits[0], q, rv)
  {
    var q := GenomicCoordinate(Str(c), s, e, qv);
    QueryParserRoundTrip(c, s, e, qv);
    LookupKeepsContainingBlocks(columns, records, q, c);
    var st := FilterSpec(columns, records, "", true, LookupKwargs(q)).value;
    if st.frame != [] {
      assert st.frame[0].row == Rows(st.frame)[0];
    }
  }

  /** The same in terms of table positions: the row used is the first, in
      table order, whose block contains the query. */
  lemma GetDmelUsesFirstMatch(columns: set<string>, records: Frame, qv: string, rv: string, c: string, s: nat, e: nat)
    requires Lacks(c, ':') && PlainName(c)
    requires ColName(qv, "chr") in columns && ColName(qv, "start") in columns && ColName(qv, "end") in columns
    requires BlockColumns(Rows(records), qv)
    ensures var q := GenomicCoordinate(Str(c), s, e, qv);
            var rows := Rows(records);
            var r := GetDmelCoordinates(columns, records, qv, rv, QueryText(c, s, e));
            ((forall j :: 0 <= j < |rows| ==> !ContainsQuery(q)(rows[j])) ==> r == Err(IndexError)) &&
            ((exists j :: 0 <= j < |rows| && ContainsQuery(q)(rows[j])) ==>
              exists i :: 0 <= i < |rows| && ContainsQuery(q)(rows[i]) &&
                          (forall j :: 0 <= j < i ==> !ContainsQuery(q)(rows[j])) &&
                          r == Translate(rows[i], q, rv))
  {
    var q := GenomicCoordinate(Str(c), s, e, qv);
    GetDmelTakesFirstHit(columns, records, qv, rv, c, s, e);
    FirstHit(Rows(records), ContainsQuery(q));
  }

  /** The first kept element is the first one, in order, that passes; none passing keeps nothing. */
  lemma FirstHit<T(!new)>(t: seq<T>, p: T -> bool)
    ensures (forall j :: 0 <= j < |t| ==> !p(t[j])) ==> Keep(t, p) == []
    ensures (exists j :: 0 <= j < |t| && p(t[j])) ==>
              exists i :: 0 <= i < |t| && p(t[i]) && (forall j :: 0 <= j < i ==> !p(t[j])) &&
                          Keep(t, p) != [] && Keep(t, p)[0] == t[i]
  {
    if forall j :: 0 <= j < |t| ==> !p(t[j]) {
      KeepNone(t, p);
    }
    if exists j :: 0 <= j < |t| && p(t[j]) {
      var j :| 0 <= j < |t| && p(t[j]);
      KeepMembers(t, p);
      assert t[j] in Keep(t, p);
      KeepFirst(t, p);
    }
  }

  // ---------------------------------------------------------------------
  // The same conversion with inclusive block ends

  /** Block ends are inclusive; `range(ref_start, ref_end + 1)` holds every
      reference position, and the end offset counts back from `ref_end`. */
  function TranslateInclusive(row: Row, q: GenomicCoordinate, rv: string): (r: Result<GenomicCoordinate>)
    ensures r.Ok? ==> ColName(rv, "start") in row && ColName(rv, "end") in row &&
                      row[ColName(rv, "start")].Num? && row[ColName(rv, "end")].Num? &&
                      row[ColName(rv, "start")].n <= r.value.start <= row[ColName(rv, "end")].n &&
                      row[ColName(rv, "start")].n <= r.value.end <= row[ColName(rv, "end")].n
    ensures r.Ok? ==> ColName(rv, "chr") in row && r.value.chromosome == row[ColName(rv, "chr")] &&
                      r.value.version == rv
  {
    var qv := q.version;
    var bs :- Lookup(row, ColName(qv, "start"));
    var ix1 :- Minus(q.start, bs);
    var be :- Lookup(row, ColName(qv, "end"));
    var ix2 :- Minus(q.end, be);
    var rs :- Lookup(row, ColName(rv, "start"));
    var re :- Lookup(row, ColName(rv, "end"));
    var hi := if re.Num? then Num(re.n + 1) else re;
    var s2 :- RangeAt(rs, hi, ix1);
    var e2 :- RangeAt(rs, hi, ix2 - 1);
    var rc :- Lookup(row, ColName(rv, "chr"));
    Ok(GenomicCoordinate(rc, s2, e2, rv))
  }

  /** Inside an equal-length block, ends included, the corrected translation
      moves the query by the block's offset and keeps its length. */
  lemma TranslateInclusiveInsideBlock(row: Row, q: GenomicCoordinate, rv: string, b: Block)
    requires Holds(row, q.version, rv, b) && EqualLengths(b)
    requires b.bs <= q.start <= q.end <= b.be
    ensures TranslateInclusive(row, q, rv) ==
            Ok(GenomicCoordinate(b.rchr, b.rs + (q.start - b.bs), b.rs + (q.end - b.bs), rv))
  {
  }

  /** Short of the block end, the corrected translation agrees with the code as written. */
  lemma TranslateInclusiveAgrees(row: Row, q: GenomicCoordinate, rv: string, b: Block)
    requires Holds(row, q.version, rv, b) && EqualLengths(b)
    requires b.bs <= q.start <= q.end < b.be
    ensures TranslateInclusive(row, q, rv) == Translate(row, q, rv)
  {
    TranslateInsideBlock(row, q, rv, b);
    TranslateInclusiveInsideBlock(row, q, rv, b);
  }

  /** Translating there and back through the same block gives the query again. */
  lemma TranslateInclusiveRoundTrip(row: Row, q: GenomicCoordinate, rv: string, b: Block)
    requires Holds(row, q.version, rv, b) && EqualLengths(b) && b.qchr == q.chromosome
    requires b.bs <= q.start <= q.end <= b.be
    ensures var t := TranslateInclusive(row, q, rv);
            t.Ok? && TranslateInclusive(row, t.value, q.version) == Ok(q)
  {
    TranslateInclusiveInsideBlock(row, q, rv, b);
    var t := TranslateInclusive(row, q, rv).value;
    var back := Block(b.rchr, b.rs, b.re, b.qchr, b.bs, b.be);
    assert Holds(row, rv, q.version, back);
    TranslateInclusiveInsideBlock(row, t, q.version, back);
  }

  /** `get_dmel_coordinates` with the inclusive translation. */
  function GetDmelCoordinatesInclusive(columns: set<string>, records: Frame, qv: string, rv: string, query: string)
    : (r: Result<GenomicCoordinate>)
    ensures r.Ok? ==> r.value.version == rv && QueryParser(query, qv).Ok?
  {
    var q :- QueryParser(query, qv);
    var st :- FilterSpec(columns, records, "", true, LookupKwargs(q));
    if |st.frame| == 0 then Err(IndexError) else TranslateInclusive(st.frame[0].row, q, rv)
  }

  // ---------------------------------------------------------------------
  // A three-block table between versions 5 and 6

  function BlockRow(c5: string, s5: int, e5: int, c6: string, s6: int, e6: int): Row
  {
    map["v5_chr" := Str(c5), "v5_start" := Num(s5), "v5_end" := Num(e5),
        "v6_chr" := Str(c6), "v6_start" := Num(s6), "v6_end" := Num(e6), "strand" := Str("+")]
  }

  const ExampleColumns: set<string> := {"v5_chr", "v5_start", "v5_end", "v6_chr", "v6_start", "v6_end", "strand"}

  const Block1: Row := BlockRow("2L", 1, 10, "2L", 11, 20)
  const Block2: Row := BlockRow("2L", 20, 30, "2R", 21, 31)
  const Block3: Row := BlockRow("2L", 35, 45, "2R", 25, 35)

  const ExampleRecords: Frame := [Record(0, Block1), Record(1, Block2), Record(2, Block3)]

  lemma ExampleColNames()
    ensures ColName("5", "chr") == "v5_chr" && ColName("5", "start") == "v5_start" && ColName("5", "end") == "v5_end"
    ensures ColName("6", "chr") == "v6_chr" && ColName("6", "start") == "v6_start" && ColName("6", "end") == "v6_end"
  {
  }

  lemma ExampleRows()
    ensures Rows(ExampleRecords) == [Block1, Block2, Block3]
    ensures BlockColumns(Rows(ExampleRecords), "5")
  {
    ExampleColNames();
    var r := ExampleRecords;
    assert r[1..] == [Record(1, Block2), Record(2, Block3)];
    assert r[1..][1..] == [Record(2, Block3)];
  }

  /** A name starting with a digit is a plain chromosome name. */
  lemma DigitNamePlain(c: string)
    requires |c| >= 2 && IsDigit(c[0])
    ensures PlainName(c)
  {
    assert c[..2][0] == c[0];
    DecodePlain(c);
  }

  lemma ExampleTexts()
    ensures QueryText("2L", 1, 10) == "2L:1..10"
    ensures QueryText("2L", 23, 27) == "2L:23..27"
    ensures QueryText("3L", 100, 200) == "3L:100..200"
  {
    ExampleText1();
    ExampleText2();
    ExampleText3();
  }

  lemma ExampleText1()
    ensures QueryText("2L", 1, 10) == "2L:1..10"
  {
    assert IntToString(1) == "1";
    assert IntToString(10) == "10" by { assert NatToString(1) == "1"; }
  }

  lemma ExampleText2()
    ensures QueryText("2L", 23, 27) == "2L:23..27"
  {
    assert IntToString(23) == "23" by { assert NatToString(2) == "2"; }
    assert IntToString(27) == "27" by { assert NatToString(2) == "2"; }
  }

  lemma ExampleText3()
    ensures QueryText("3L", 100, 200) == "3L:100..200"
  {
    Text100();
    Text200();
  }

  lemma Text100()
    ensures IntToString(100) == "100"
  {
    assert NatToString(10) == "10" by { assert NatToString(1) == "1"; }
  }

  lemma Text200()
    ensures IntToString(200) == "200"
  {
    assert NatToString(20) == "20" by { assert NatToString(2) == "2"; }
  }

  /** The lookup preconditions hold on the example table for names such as `2L`. */
  lemma ExampleLookupReady(c: string)
    requires |c| >= 2 && IsDigit(c[0]) && Lacks(c, ':')
    ensures PlainName(c)
    ensures ColName("5", "chr") in ExampleColumns && ColName("5", "start") in ExampleColumns &&
            ColName("5", "end") in ExampleColumns
    ensures BlockColumns(Rows(ExampleRecords), "5")
  {
    DigitNamePlain(c);
    ExampleColNames();
    ExampleRows();
  }

  /** `2L:1..10` lies in the first block, ends and all; its end comes out as 11, not 20. */
  lemma ExampleWholeBlock()
    ensures GetDmelCoordinates(ExampleColumns, ExampleRecords, "5", "6", QueryText("2L", 1, 10)) ==
            Ok(GenomicCoordinate(Str("2L"), 11, 11, "6"))
  {
    assert Lacks("2L", ':');
    ExampleLookupReady("2L");
    ExampleHitFirst(1, 10);
    ExampleTranslateFirst();
    GetDmelTakesFirstHit(ExampleColumns, ExampleRecords, "5", "6", "2L", 1, 10);
  }

  lemma ExampleHitFirst(s: int, e: int)
    requires 1 <= s && e <= 10
    ensures var hits := Keep(Rows(ExampleRecords), ContainsQuery(GenomicCoordinate(Str("2L"), s, e, "5")));
            hits != [] && hits[0] == Block1
  {
    ExampleRows();
    ExampleColNames();
    KeepHead([Block1, Block2, Block3], ContainsQuery(GenomicCoordinate(Str("2L"), s, e, "5")));
  }

  lemma ExampleTranslateFirst()
    ensures Translate(Block1, GenomicCoordinate(Str("2L"), 1, 10, "5"), "6") == Ok(GenomicCoordinate(Str("2L"), 11, 11, "6"))
    ensures TranslateInclusive(Block1, GenomicCoordinate(Str("2L"), 1, 10, "5"), "6") == Ok(GenomicCoordinate(Str("2L"), 11, 20, "6"))
  {
    ExampleColNames();
    var q := GenomicCoordinate(Str("2L"), 1, 10, "5");
    TranslateAtBlockEnd(Block1, q, "6", Block(Str("2L"), 1, 10, Str("2L"), 11, 20));
    TranslateInclusiveInsideBlock(Block1, q, "6", Block(Str("2L"), 1, 10, Str("2L"), 11, 20));
  }

  /** `2L:23..27` lies inside the second block and moves to chromosome 2R. */
  lemma ExampleChromosomeChange()
    ensures GetDmelCoordinates(ExampleColumns, ExampleRecords, "5", "6", QueryText("2L", 23, 27)) ==
            Ok(GenomicCoordinate(Str("2R"), 24, 28, "6"))
  {
    assert Lacks("2L", ':');
    ExampleLookupReady("2L");
    ExampleHitSecond();
    ExampleTranslateSecond();
    GetDmelTakesFirstHit(ExampleColumns, ExampleRecords, "5", "6", "2L", 23, 27);
  }

  lemma ExampleHitSecond()
    ensures var hits := Keep(Rows(ExampleRecords), ContainsQuery(GenomicCoordinate(Str("2L"), 23, 27, "5")));
            hits != [] && hits[0] == Block2
  {
    var q := GenomicCoordinate(Str("2L"), 23, 27, "5");
    ExampleRows();
    ExampleColNames();
    assert !ContainsQuery(q)(Block1) && ContainsQuery(q)(Block2);
    KeepSkip([Block1, Block2, Block3], ContainsQuery(q));
    assert [Block1, Block2, Block3][1..] == [Block2, Block3];
    KeepHead([Block2, Block3], ContainsQuery(q));
  }

  lemma ExampleTranslateSecond()
    ensures Translate(Block2, GenomicCoordinate(Str("2L"), 23, 27, "5"), "6") == Ok(GenomicCoordinate(Str("2R"), 24, 28, "6"))
  {
    ExampleColNames();
    TranslateInsideBlock(Block2, GenomicCoordinate(Str("2L"), 23, 27, "5"), "6", Block(Str("2L"), 20, 30, Str("2R"), 21, 31));
  }

  /** `3L:100..200` lies in no block. */
  lemma ExampleNotFound()
    ensures GetDmelCoordinates(ExampleColumns, ExampleRecords, "5", "6", QueryText("3L", 100, 200)) == Err(IndexError)
  {
    assert Lacks("3L", ':');
    ExampleLookupReady("3L");
    ExampleNoHit();
    GetDmelTakesFirstHit(ExampleColumns, ExampleRecords, "5", "6", "3L", 100, 200);
  }

  lemma ExampleNoHit()
    ensures Keep(Rows(ExampleRecords), ContainsQuery(GenomicCoordinate(Str("3L"), 100, 200, "5"))) == []
  {
    var q := GenomicCoordinate(Str("3L"), 100, 200, "5");
    ExampleRows();
    ExampleColNames();
    var rows := [Block1, Block2, Block3];
    assert !ContainsQuery(q)(rows[0]) && !ContainsQuery(q)(rows[1]) && !ContainsQuery(q)(rows[2]);
    KeepNone(rows, ContainsQuery(q));
  }

  /** With inclusive ends `2L:1..10` maps onto the whole block 11..20. */
  lemma ExampleWholeBlockInclusive()
    ensures GetDmelCoordinatesInclusive(ExampleColumns, ExampleRecords, "5", "6", QueryText("2L", 1, 10)) ==
            Ok(GenomicCoordinate(Str("2L"), 11, 20, "6"))
  {
    var q := GenomicCoordinate(Str("2L"), 1, 10, "5");
    assert Lacks("2L", ':');
    ExampleLookupReady("2L");
    ExampleHitFirst(1, 10);
    ExampleTranslateFirst();
    QueryParserRoundTrip("2L", 1, 10, "5");
    LookupKeepsContainingBlocks(ExampleColumns, ExampleRecords, q, "2L");
    var st := FilterSpec(ExampleColumns, ExampleRecords, "", true, LookupKwargs(q)).value;
    assert st.frame[0].row == Rows(st.frame)[0];
  }

  lemma KeepHead<T(!new)>(t: seq<T>, p: T -> bool)
    requires |t| > 0 && p(t[0])
    ensures Keep(t, p) != [] && Keep(t, p)[0] == t[0]
  {
  }

  lemma KeepSkip<T(!new)>(t: seq<T>, p: T -> bool)
    requires |t| > 0 && !p(t[0])
    ensures Keep(t, p) == Keep(t[1..], p)
  {
  }
}
