/** The `Database` table of classes.py:6-116: a sequence of indexed rows
    and the keyword filter over it (classes.py:13-90). */
module Database {
  import opened Values
  import opened Predicates

  /** One table row together with its index label. */
  datatype Record = Record(index: int, row: Row)

  /** A data frame: its records in row order. */
  type Frame = seq<Record>

  function Rows(f: Frame): (rs: seq<Row>)
    ensures |rs| == |f| && forall i :: 0 <= i < |f| ==> rs[i] == f[i].row
  {
    if f == [] then [] else [f[0].row] + Rows(f[1..])
  }

  /** Every row has exactly the frame's columns. */
  ghost predicate WellFormed(columns: set<string>, f: Frame)
  {
    forall rec :: rec in f ==> rec.row.Keys == columns
  }

  /** A keyword value inside a tuple: a string, a list or an int. */
  datatype Elem = EStr(s: string) | EList(vs: seq<Value>) | EInt(n: int)

  /** A keyword value: a string, a list, an int, a tuple, or any other Python value. */
  datatype Arg = AStr(s: string) | AList(vs: seq<Value>) | AInt(n: int) | ATuple(elems: seq<Elem>) | AOther

  /** Evaluating a predicate on a row; `*` touches no column. */
  function EvalRow(k: string, p: Pred, row: Row): Result<bool>
  {
    if p.Any? then Ok(true) else if k in row then EvalCell(p, row[k]) else Err(KeyError(Str(k)))
  }

  function RowHit(k: string, p: Pred): Row -> bool
  {
    row => EvalRow(k, p, row) == Ok(true)
  }

  /** Boolean indexing `res_df[res_df[k] <op> v]`: fails if any cell fails, else keeps the hits in order. */
  function Mask(f: Frame, k: string, p: Pred): (r: Result<Frame>)
    ensures r.Ok? <==> forall i :: 0 <= i < |f| ==> EvalRow(k, p, f[i].row).Ok?
    ensures r.Ok? ==> Rows(r.value) == Keep(Rows(f), RowHit(k, p))
    ensures r.Ok? ==> IsSubsequence(r.value, f)
  {
    if f == [] then Ok([])
    else
      match EvalRow(k, p, f[0].row)
      case Err(e) => Err(e)
      case Ok(b) =>
        match Mask(f[1..], k, p)
        case Err(e) =>
          assert forall i :: 0 < i < |f| ==> f[i] == f[1..][i - 1];
          Err(e)
        case Ok(rest) =>
          assert forall i :: 0 < i < |f| ==> f[i] == f[1..][i - 1];
          assert Rows(f)[1..] == Rows(f[1..]);
          Ok(if b then [f[0]] + rest else rest)
  }

  /** `f(res_df, k, v)` of classes.py:43-75 once `v` is decoded: `*` returns the frame itself. */
  function Apply(columns: set<string>, f: Frame, k: string, p: Pred): (r: Result<Frame>)
    ensures p.Any? ==> r == Ok(f)
    ensures !p.Any? && k !in columns ==> r == Err(KeyError(Str(k)))
  {
    if p.Any? then Ok(f) else if k !in columns then Err(KeyError(Str(k))) else Mask(f, k, p)
  }

  /** Labels 0, 1, 2, ... as after `pd.merge`. */
  function Relabel(f: Frame, base: int): (r: Frame)
    ensures Rows(r) == Rows(f)
    ensures |r| == |f| && forall i :: 0 <= i < |r| ==> r[i].index == base + i
  {
    if f == [] then [] else [Record(base, f[0].row)] + Relabel(f[1..], base + 1)
  }

  function InRows(right: Frame): Record -> bool
  {
    (rec: Record) => rec.row in Rows(right)
  }

  /** `pd.merge(left, right, how='inner')` on distinct rows: the rows of `left`
      that also occur in `right`, in `left`'s order, with a fresh index. */
  function MergeInner(left: Frame, right: Frame): Frame
  {
    Relabel(Keep(left, InRows(right)), 0)
  }

  /** Where the filter stands: the current frame, and whether it is still the stored table object. */
  datatype State = State(frame: Frame, shared: bool)

  function ElemPred(e: Elem): Result<Pred>
  {
    match e
    case EStr(s) => Decode(s)
    case EList(vs) => Ok(In(vs))
    case EInt(n) => Ok(Eq(Num(n)))
  }

  /** The tuple branch (classes.py:78-82): each element filters and merges the result back. */
  function TupleFold(columns: set<string>, st: State, k: string, es: seq<Elem>): Result<State>
    decreases |es|
  {
    if es == [] then Ok(st)
    else
      var p :- ElemPred(es[0]);
      var tmp :- Apply(columns, st.frame, k, p);
      TupleFold(columns, State(MergeInner(st.frame, tmp), false), k, es[1..])
  }

  /** One keyword (classes.py:78-86). */
  function Step(columns: set<string>, st: State, k: string, a: Arg): Result<State>
  {
    match a
    case AStr(s) =>
      var p :- Decode(s);
      var f :- Apply(columns, st.frame, k, p);
      Ok(State(f, st.shared && p.Any?))
    case AList(vs) =>
      var f :- Apply(columns, st.frame, k, In(vs));
      Ok(State(f, false))
    case AInt(n) =>
      var f :- Apply(columns, st.frame, k, Eq(Num(n)));
      Ok(State(f, false))
    case ATuple(es) => TupleFold(columns, st, k, es)
    case AOther => Ok(st)
  }

  /** The loop over `kwargs.items()` (classes.py:77-86). */
  function KwargsFold(columns: set<string>, st: State, kwargs: seq<(string, Arg)>): Result<State>
    decreases |kwargs|
  {
    if kwargs == [] then Ok(st)
    else
      var st' :- Step(columns, st, kwargs[0].0, kwargs[0].1);
      KwargsFold(columns, st', kwargs[1..])
  }

  // ---------------------------------------------------------------------
  // Sorting (classes.py:87-88)

  /** Python's string order: lexicographic by code point. */
  predicate StrLe(a: string, b: string)
  {
    a == [] || (b != [] && (a[0] < b[0] || (a[0] == b[0] && StrLe(a[1..], b[1..]))))
  }

  lemma {:induction false} StrLeTotal(a: string, b: string)
    ensures StrLe(a, b) || StrLe(b, a)
  {
    if a != [] && b != [] && a[0] == b[0] {
      StrLeTotal(a[1..], b[1..]);
    }
  }

  predicate SameKind(a: Value, b: Value) { a.Num? == b.Num? }

  predicate ValueLe(a: Value, b: Value)
  {
    (a.Num? && b.Num? && a.n <= b.n) || (a.Str? && b.Str? && StrLe(a.s, b.s))
  }

  predicate InOrder(a: Value, b: Value, ascending: bool)
  {
    if ascending then ValueLe(a, b) else ValueLe(b, a)
  }

  lemma InOrderTotal(a: Value, b: Value, ascending: bool)
    requires SameKind(a, b)
    ensures InOrder(a, b, ascending) || InOrder(b, a, ascending)
  {
    if a.Str? { StrLeTotal(a.s, b.s); }
  }

  predicate HasKey(f: Frame, key: string)
  {
    forall rec :: rec in f ==> key in rec.row
  }

  /** All sort keys are numbers, or all are strings: Python can order them. */
  predicate Sortable(f: Frame, key: string)
    requires HasKey(f, key)
  {
    (forall rec :: rec in f ==> rec.row[key].Num?) || (forall rec :: rec in f ==> rec.row[key].Str?)
  }

  /** Row i's key is in order with row i + 1's. */
  predicate InOrderAt(f: Frame, i: int, key: string, ascending: bool)
    requires 0 <= i && i + 1 < |f|
  {
    key in f[i].row && key in f[i + 1].row && InOrder(f[i].row[key], f[i + 1].row[key], ascending)
  }

  /** Each row's key is in order with the next row's. */
  predicate Sorted(f: Frame, key: string, ascending: bool)
  {
    forall i :: 0 <= i && i + 1 < |f| ==> InOrderAt(f, i, key, ascending)
  }

  function Insert(x: Record, s: Frame, key: string, ascending: bool): (r: Frame)
    requires key in x.row && HasKey(s, key)
    ensures multiset(r) == multiset(s) + multiset{x}
    ensures |r| == |s| + 1 && (r[0] == x || (s != [] && r[0] == s[0]))
  {
    if s == [] then [x]
    else if InOrder(x.row[key], s[0].row[key], ascending) then [x] + s
    else
      assert s == [s[0]] + s[1..];
      [s[0]] + Insert(x, s[1..], key, ascending)
  }

  lemma {:induction false} InsertSorted(x: Record, s: Frame, key: string, ascending: bool)
    requires key in x.row && HasKey(s, key)
    requires forall rec :: rec in s ==> SameKind(x.row[key], rec.row[key])
    requires Sorted(s, key, ascending)
    ensures Sorted(Insert(x, s, key, ascending), key, ascending)
  {
    if s == [] {
    } else if InOrder(x.row[key], s[0].row[key], ascending) {
      ConsSorted(x, s, key, ascending);
    } else {
      InOrderTotal(x.row[key], s[0].row[key], ascending);
      assert s[0] in s;
      var rest := Insert(x, s[1..], key, ascending);
      TailSorted(s, key, ascending);
      InsertSorted(x, s[1..], key, ascending);
      assert InOrder(s[0].row[key], rest[0].row[key], ascending) by {
        if s[1..] != [] && rest[0] != x {
          assert InOrderAt(s, 0, key, ascending);
        }
      }
      ConsSorted(s[0], rest, key, ascending);
    }
  }

  /** A record in order with the head of a sorted frame can be put in front of it. */
  lemma ConsSorted(y: Record, f: Frame, key: string, ascending: bool)
    requires key in y.row && Sorted(f, key, ascending)
    requires f != [] ==> key in f[0].row && InOrder(y.row[key], f[0].row[key], ascending)
    ensures Sorted([y] + f, key, ascending)
  {
    var r := [y] + f;
    forall i | 0 <= i && i + 1 < |r| ensures InOrderAt(r, i, key, ascending) {
      if i > 0 {
        assert InOrderAt(f, i - 1, key, ascending);
      }
    }
  }

  /** The rest of a sorted frame is sorted. */
  lemma TailSorted(s: Frame, key: string, ascending: bool)
    requires s != [] && Sorted(s, key, ascending)
    ensures Sorted(s[1..], key, ascending)
  {
    forall i | 0 <= i && i + 1 < |s[1..]| ensures InOrderAt(s[1..], i, key, ascending) {
      assert InOrderAt(s, i + 1, key, ascending);
    }
  }

  function SortRecords(s: Frame, key: string, ascending: bool): (r: Frame)
    requires HasKey(s, key)
    ensures multiset(r) == multiset(s)
  {
    if s == [] then []
    else
      assert s == [s[0]] + s[1..];
      var rest := SortRecords(s[1..], key, ascending);
      assert HasKey(rest, key) by {
        forall rec | rec in rest ensures key in rec.row { assert rec in multiset(s[1..]); }
      }
      Insert(s[0], rest, key, ascending)
  }

  lemma {:induction false} SortRecordsSorted(s: Frame, key: string, ascending: bool)
    requires HasKey(s, key) && Sortable(s, key)
    ensures Sorted(SortRecords(s, key, ascending), key, ascending)
  {
    if s != [] {
      assert s == [s[0]] + s[1..];
      var rest := SortRecords(s[1..], key, ascending);
      assert forall rec :: rec in rest ==> rec in multiset(s[1..]);
      SortRecordsSorted(s[1..], key, ascending);
      assert s[0] in s;
      InsertSorted(s[0], rest, key, ascending);
    }
  }

  /** `sort_values(by=key, ascending=...)`: a missing column is a KeyError,
      keys of mixed kinds a TypeError. */
  function SortFrame(columns: set<string>, f: Frame, key: string, ascending: bool): (r: Result<Frame>)
    ensures r.Ok? <==> key in columns && HasKey(f, key) && Sortable(f, key)
    ensures r.Ok? ==> multiset(r.value) == multiset(f) && Sorted(r.value, key, ascending)
  {
    if key !in columns || !HasKey(f, key) then Err(KeyError(Str(key)))
    else if !Sortable(f, key) then Err(TypeError)
    else
      SortRecordsSorted(f, key, ascending);
      Ok(SortRecords(f, key, ascending))
  }

  /** `Database.filter` as a function of the stored table: the resulting frame,
      and whether that frame is still the stored table (so an in-place sort reaches it). */
  function FilterSpec(columns: set<string>, records: Frame, sortBy: string, ascending: bool,
                      kwargs: seq<(string, Arg)>): Result<State>
  {
    var st :- KwargsFold(columns, State(records, true), kwargs);
    if sortBy == "" then Ok(st)
    else
      var sorted :- SortFrame(columns, st.frame, sortBy, ascending);
      Ok(State(sorted, st.shared))
  }

  // ---------------------------------------------------------------------
  // What a row must satisfy to survive the filter

  predicate ElemHolds(k: string, e: Elem, row: Row)
  {
    var p := ElemPred(e);
    p.Ok? && EvalRow(k, p.value, row) == Ok(true)
  }

  predicate ArgHolds(k: string, a: Arg, row: Row)
  {
    match a
    case AStr(s) => ElemHolds(k, EStr(s), row)
    case AList(vs) => ElemHolds(k, EList(vs), row)
    case AInt(n) => ElemHolds(k, EInt(n), row)
    case ATuple(es) => forall j :: 0 <= j < |es| ==> ElemHolds(k, es[j], row)
    case AOther => true
  }

  /** The conjunction of every keyword's condition. */
  predicate Passes(kwargs: seq<(string, Arg)>, row: Row)
  {
    forall i :: 0 <= i < |kwargs| ==> ArgHolds(kwargs[i].0, kwargs[i].1, row)
  }

  function ElemFn(k: string, e: Elem): Row -> bool { row => ElemHolds(k, e, row) }
  function TupleFn(k: string, es: seq<Elem>): Row -> bool { row => forall j :: 0 <= j < |es| ==> ElemHolds(k, es[j], row) }
  function ArgFn(k: string, a: Arg): Row -> bool { row => ArgHolds(k, a, row) }
  function PassesFn(kwargs: seq<(string, Arg)>): Row -> bool { row => Passes(kwargs, row) }

  // ---------------------------------------------------------------------
  // Lemmas

  /** Filtering records by a condition on their rows commutes with taking the rows. */
  lemma {:induction false} RowsKeep(f: Frame, rp: Record -> bool, q: Row -> bool)
    requires forall rec :: rp(rec) == q(rec.row)
    ensures Rows(Keep(f, rp)) == Keep(Rows(f), q)
  {
    if f != [] {
      RowsKeep(f[1..], rp, q);
      assert Rows(f)[1..] == Rows(f[1..]);
      var rest := Keep(f[1..], rp);
      if rp(f[0]) {
        assert Rows([f[0]] + rest) == [f[0].row] + Rows(rest) by {
          assert ([f[0]] + rest)[1..] == rest;
        }
      }
    }
  }

  /** Filtering one element and merging back keeps exactly that element's hits. */
  lemma MergeBack(columns: set<string>, f: Frame, k: string, e: Elem, p: Pred)
    requires ElemPred(e) == Ok(p) && Apply(columns, f, k, p).Ok?
    ensures Rows(MergeInner(f, Apply(columns, f, k, p).value)) == Keep(Rows(f), ElemFn(k, e))
  {
    var tmp := Apply(columns, f, k, p).value;
    assert Rows(tmp) == Keep(Rows(f), RowHit(k, p)) by {
      if p.Any? { KeepAll(Rows(f), RowHit(k, p)); }
    }
    var q := (row: Row) => row in Rows(tmp);
    KeepMembers(Rows(f), RowHit(k, p));
    RowsKeep(f, InRows(tmp), q);
    KeepCongruent(Rows(f), q, ElemFn(k, e));
  }

  lemma {:induction false} TupleKeeps(columns: set<string>, st: State, k: string, es: seq<Elem>)
    requires TupleFold(columns, st, k, es).Ok?
    ensures Rows(TupleFold(columns, st, k, es).value.frame) == Keep(Rows(st.frame), TupleFn(k, es))
    ensures TupleFold(columns, st, k, es).value.shared ==> es == [] && TupleFold(columns, st, k, es).value == st
    decreases |es|
  {
    if es == [] {
      KeepAll(Rows(st.frame), TupleFn(k, es));
    } else {
      var p := ElemPred(es[0]).value;
      var tmp := Apply(columns, st.frame, k, p).value;
      var st1 := State(MergeInner(st.frame, tmp), false);
      TupleKeeps(columns, st1, k, es[1..]);
      MergeBack(columns, st.frame, k, es[0], p);
      assert forall row :: TupleFn(k, es)(row) == (ElemFn(k, es[0])(row) && TupleFn(k, es[1..])(row)) by {
        forall row ensures TupleFn(k, es)(row) == (ElemFn(k, es[0])(row) && TupleFn(k, es[1..])(row)) {
          assert forall j :: 0 < j < |es| ==> es[j] == es[1..][j - 1];
        }
      }
      KeepKeep(Rows(st.frame), ElemFn(k, es[0]), TupleFn(k, es[1..]), TupleFn(k, es));
    }
  }

  lemma ApplyKeeps(columns: set<string>, f: Frame, k: string, p: Pred)
    requires Apply(columns, f, k, p).Ok?
    ensures Rows(Apply(columns, f, k, p).value) == Keep(Rows(f), RowHit(k, p))
  {
    if p.Any? { KeepAll(Rows(f), RowHit(k, p)); }
  }

  lemma StepStrKeeps(columns: set<string>, st: State, k: string, s: string)
    requires Step(columns, st, k, AStr(s)).Ok?
    ensures Rows(Step(columns, st, k, AStr(s)).value.frame) == Keep(Rows(st.frame), ArgFn(k, AStr(s)))
    ensures Step(columns, st, k, AStr(s)).value.shared ==> st.shared && Step(columns, st, k, AStr(s)).value.frame == st.frame
  {
    var p := Decode(s).value;
    assert Step(columns, st, k, AStr(s)) == Ok(State(Apply(columns, st.frame, k, p).value, st.shared && p.Any?));
    ApplyKeeps(columns, st.frame, k, p);
    KeepCongruent(Rows(st.frame), RowHit(k, p), ArgFn(k, AStr(s)));
  }

  lemma StepListKeeps(columns: set<string>, st: State, k: string, vs: seq<Value>)
    requires Step(columns, st, k, AList(vs)).Ok?
    ensures Rows(Step(columns, st, k, AList(vs)).value.frame) == Keep(Rows(st.frame), ArgFn(k, AList(vs)))
    ensures !Step(columns, st, k, AList(vs)).value.shared
  {
    assert Step(columns, st, k, AList(vs)) == Ok(State(Apply(columns, st.frame, k, In(vs)).value, false));
    ApplyKeeps(columns, st.frame, k, In(vs));
    KeepCongruent(Rows(st.frame), RowHit(k, In(vs)), ArgFn(k, AList(vs)));
  }

  lemma StepIntKeeps(columns: set<string>, st: State, k: string, n: int)
    requires Step(columns, st, k, AInt(n)).Ok?
    ensures Rows(Step(columns, st, k, AInt(n)).value.frame) == Keep(Rows(st.frame), ArgFn(k, AInt(n)))
    ensures !Step(columns, st, k, AInt(n)).value.shared
  {
    assert Step(columns, st, k, AInt(n)) == Ok(State(Apply(columns, st.frame, k, Eq(Num(n))).value, false));
    ApplyKeeps(columns, st.frame, k, Eq(Num(n)));
    KeepCongruent(Rows(st.frame), RowHit(k, Eq(Num(n))), ArgFn(k, AInt(n)));
  }

  lemma StepKeeps(columns: set<string>, st: State, k: string, a: Arg)
    requires Step(columns, st, k, a).Ok?
    ensures Rows(Step(columns, st, k, a).value.frame) == Keep(Rows(st.frame), ArgFn(k, a))
    ensures Step(columns, st, k, a).value.shared ==> st.shared && Step(columns, st, k, a).value.frame == st.frame
  {
    match a
    case AStr(s) => StepStrKeeps(columns, st, k, s);
    case AList(vs) => StepListKeeps(columns, st, k, vs);
    case AInt(n) => StepIntKeeps(columns, st, k, n);
    case ATuple(es) =>
      TupleKeeps(columns, st, k, es);
      KeepCongruent(Rows(st.frame), TupleFn(k, es), ArgFn(k, a));
    case AOther =>
      KeepAll(Rows(st.frame), ArgFn(k, a));
  }

  /** The keyword loop keeps exactly the rows meeting every keyword's
      condition, in order; a frame still shared is the untouched input. */
  lemma {:induction false} FoldKeeps(columns: set<string>, st: State, kwargs: seq<(string, Arg)>)
    requires KwargsFold(columns, st, kwargs).Ok?
    ensures Rows(KwargsFold(columns, st, kwargs).value.frame) == Keep(Rows(st.frame), PassesFn(kwargs))
    ensures KwargsFold(columns, st, kwargs).value.shared ==>
              st.shared && KwargsFold(columns, st, kwargs).value.frame == st.frame
    decreases |kwargs|
  {
    if kwargs == [] {
      KeepAll(Rows(st.frame), PassesFn(kwargs));
    } else {
      var st1 := Step(columns, st, kwargs[0].0, kwargs[0].1).value;
      StepKeeps(columns, st, kwargs[0].0, kwargs[0].1);
      FoldKeeps(columns, st1, kwargs[1..]);
      assert forall row :: (PassesFn(kwargs)(row) ==
          (ArgFn(kwargs[0].0, kwargs[0].1)(row) && PassesFn(kwargs[1..])(row))) by {
        forall row ensures PassesFn(kwargs)(row) ==
            (ArgFn(kwargs[0].0, kwargs[0].1)(row) && PassesFn(kwargs[1..])(row)) {
          assert forall i :: 0 < i < |kwargs| ==> kwargs[i] == kwargs[1..][i - 1];
        }
      }
      KeepKeep(Rows(st.frame), ArgFn(kwargs[0].0, kwargs[0].1), PassesFn(kwargs[1..]), PassesFn(kwargs));
    }
  }

  /** Without a sort, the result is the input rows that satisfy every keyword: a
      subsequence in the original order, and the conjunction of the conditions. */
  lemma FilterKeepsPassingRows(columns: set<string>, records: Frame, ascending: bool,
                               kwargs: seq<(string, Arg)>)
    requires FilterSpec(columns, records, "", ascending, kwargs).Ok?
    ensures var rows := Rows(FilterSpec(columns, records, "", ascending, kwargs).value.frame);
            rows == Keep(Rows(records), PassesFn(kwargs)) &&
            IsSubsequence(rows, Rows(records)) &&
            forall row :: row in rows <==> row in Rows(records) && Passes(kwargs, row)
  {
    FoldKeeps(columns, State(records, true), kwargs);
    KeepIsSubsequence(Rows(records), PassesFn(kwargs));
    KeepMembers(Rows(records), PassesFn(kwargs));
  }

  /** With a sort, the result holds the same rows, each as often, ordered by the key. */
  lemma FilterSortedPermutation(columns: set<string>, records: Frame, sortBy: string, ascending: bool,
                                kwargs: seq<(string, Arg)>)
    requires sortBy != ""
    requires FilterSpec(columns, records, sortBy, ascending, kwargs).Ok?
    ensures var f := FilterSpec(columns, records, sortBy, ascending, kwargs).value.frame;
            multiset(Rows(f)) == multiset(Keep(Rows(records), PassesFn(kwargs))) &&
            Sorted(f, sortBy, ascending)
  {
    var st := KwargsFold(columns, State(records, true), kwargs).value;
    FoldKeeps(columns, State(records, true), kwargs);
    var f := SortFrame(columns, st.frame, sortBy, ascending).value;
    RowsPermutation(f, st.frame);
  }

  lemma {:induction false} RowsPermutation(a: Frame, b: Frame)
    requires multiset(a) == multiset(b)
    ensures multiset(Rows(a)) == multiset(Rows(b))
    decreases |a|
  {
    if a != [] {
      var x := a[0];
      assert x in multiset(b);
      var i :| 0 <= i < |b| && b[i] == x;
      var b' := b[..i] + b[i + 1..];
      assert multiset(a[1..]) == multiset(a) - multiset{x} by {
        MultisetRemove(a, 0);
        assert a[..0] + a[1..] == a[1..];
      }
      assert multiset(b') == multiset(b) - multiset{x} by {
        MultisetRemove(b, i);
      }
      RowsPermutation(a[1..], b');
      assert multiset(Rows(b)) == multiset(Rows(b')) + multiset{x.row} by {
        RowsRemove(b, i);
      }
      assert multiset(Rows(a)) == multiset(Rows(a[1..])) + multiset{x.row} by {
        RowsRemove(a, 0);
        assert a[..0] + a[1..] == a[1..];
      }
    }
  }

  lemma MultisetRemove(b: Frame, i: int)
    requires 0 <= i < |b|
    ensures multiset(b[..i] + b[i + 1..]) == multiset(b) - multiset{b[i]}
  {
    assert b == b[..i] + [b[i]] + b[i + 1..];
  }

  lemma RowsRemove(b: Frame, i: int)
    requires 0 <= i < |b|
    ensures multiset(Rows(b)) == multiset(Rows(b[..i] + b[i + 1..])) + multiset{b[i].row}
  {
    RowsDrop(b, i);
    SeqRemove(Rows(b), i);
  }

  lemma RowsDrop(b: Frame, i: int)
    requires 0 <= i < |b|
    ensures Rows(b[..i] + b[i + 1..]) == Rows(b)[..i] + Rows(b)[i + 1..]
  {
    var l := Rows(b[..i] + b[i + 1..]);
    var r := Rows(b)[..i] + Rows(b)[i + 1..];
    assert |l| == |r|;
    forall k | 0 <= k < |l|
      ensures l[k] == r[k]
    {
      if k < i {
        assert l[k] == b[k].row;
      } else {
        assert l[k] == b[k + 1].row;
      }
    }
  }

  lemma SeqRemove<T>(s: seq<T>, i: int)
    requires 0 <= i < |s|
    ensures multiset(s) == multiset(s[..i] + s[i + 1..]) + multiset{s[i]}
  {
    assert s == s[..i] + [s[i]] + s[i + 1..];
  }

  /** When the frame is still shared after the keyword loop it is the stored
      table itself: no keyword other than `*` strings, empty tuples or
      unsupported values ran. */
  lemma SharedIsStored(columns: set<string>, records: Frame, kwargs: seq<(string, Arg)>)
    requires KwargsFold(columns, State(records, true), kwargs).Ok?
    requires KwargsFold(columns, State(records, true), kwargs).value.shared
    ensures KwargsFold(columns, State(records, true), kwargs).value.frame == records
  {
    FoldKeeps(columns, State(records, true), kwargs);
  }

  /** No keywords, or only `*` values, leave the stored table as it is, still shared. */
  lemma {:induction false} StarsKeepTable(columns: set<string>, st: State, kwargs: seq<(string, Arg)>)
    requires forall i :: 0 <= i < |kwargs| ==> kwargs[i].1 == AStr("*")
    ensures KwargsFold(columns, st, kwargs) == Ok(st)
  {
    if kwargs != [] {
      StarsKeepTable(columns, st, kwargs[1..]);
    }
  }

  lemma FilterStarsIsIdentity(columns: set<string>, records: Frame, ascending: bool,
                              kwargs: seq<(string, Arg)>)
    requires forall i :: 0 <= i < |kwargs| ==> kwargs[i].1 == AStr("*")
    ensures FilterSpec(columns, records, "", ascending, kwargs) == Ok(State(records, true))
  {
    StarsKeepTable(columns, State(records, true), kwargs);
  }

  /** The five comparison tags. */
  datatype Cmp = CGt | CGte | CLt | CLte | CNe

  function Tag(c: Cmp): string
  {
    match c case CGt => "gt" case CGte => "gte" case CLt => "lt" case CLte => "lte" case CNe => "ne"
  }

  predicate Compares(c: Cmp, v: Value, n: nat)
  {
    match c
    case CGt => v.Num? && v.n > n
    case CGte => v.Num? && v.n >= n
    case CLt => v.Num? && v.n < n
    case CLte => v.Num? && v.n <= n
    case CNe => v != Num(n)
  }

  /** A filter with one keyword and no sort is that keyword's step. */
  lemma SingleKeyword(columns: set<string>, records: Frame, k: string, a: Arg)
    ensures FilterSpec(columns, records, "", true, [(k, a)]) == Step(columns, State(records, true), k, a)
  {
    var kwargs := [(k, a)];
    assert kwargs[1..] == [];
    var r := Step(columns, State(records, true), k, a);
    if r.Ok? {
      assert KwargsFold(columns, State(records, true), kwargs) == KwargsFold(columns, r.value, []);
    }
  }

  /** A string keyword that decodes to a column test is that test's mask. */
  lemma StringStep(columns: set<string>, st: State, k: string, v: string, p: Pred)
    requires Decode(v) == Ok(p) && !p.Any? && k in columns
    ensures var m := Mask(st.frame, k, p);
            Step(columns, st, k, AStr(v)) == if m.Ok? then Ok(State(m.value, false)) else Err(m.error)
  {
  }

  /** A single string keyword that decodes to a column test is that test's mask. */
  lemma SingleStringKeyword(columns: set<string>, records: Frame, k: string, v: string, p: Pred)
    requires Decode(v) == Ok(p) && !p.Any? && k in columns
    ensures var r := FilterSpec(columns, records, "", true, [(k, AStr(v))]);
            var m := Mask(records, k, p);
            r.Ok? == m.Ok? && (r.Ok? ==> r.value == State(m.value, false))
  {
    SingleKeyword(columns, records, k, AStr(v));
    StringStep(columns, State(records, true), k, v, p);
  }

  function CmpPred(c: Cmp, n: nat): Pred
  {
    match c case CGt => Gt(n) case CGte => Gte(n) case CLt => Lt(n) case CLte => Lte(n) case CNe => Ne(n)
  }

  lemma DecodeCmp(c: Cmp, n: nat)
    ensures Decode(Tag(c) + NatToString(n)) == Ok(CmpPred(c, n))
  {
    match c {
      case CGt => DecodeGt(n);
      case CGte => DecodeGte(n);
      case CLt => DecodeLt(n);
      case CLte => DecodeLte(n);
      case CNe => DecodeNe(n);
    }
  }

  lemma CmpHit(c: Cmp, n: nat, k: string, row: Row)
    requires k in row && row[k].Num?
    ensures EvalRow(k, CmpPred(c, n), row) == Ok(Compares(c, row[k], n))
  {
  }

  /** `k=<tag>N` on a numeric column keeps exactly the rows whose value compares to N. */
  lemma ComparisonFilter(columns: set<string>, records: Frame, k: string, c: Cmp, n: nat)
    requires WellFormed(columns, records) && k in columns
    requires forall rec :: rec in records ==> rec.row[k].Num?
    ensures var r := FilterSpec(columns, records, "", true, [(k, AStr(Tag(c) + NatToString(n)))]);
            r.Ok? && Rows(r.value.frame) == Keep(Rows(records), (row: Row) => k in row && Compares(c, row[k], n))
  {
    var v := Tag(c) + NatToString(n);
    var p := CmpPred(c, n);
    DecodeCmp(c, n);
    forall i | 0 <= i < |records| ensures EvalRow(k, p, records[i].row).Ok? {
      assert records[i] in records;
      CmpHit(c, n, k, records[i].row);
    }
    SingleStringKeyword(columns, records, k, v, p);
    var q := (row: Row) => k in row && Compares(c, row[k], n);
    forall row | row in Rows(records) ensures RowHit(k, p)(row) == q(row) {
      var i :| 0 <= i < |records| && Rows(records)[i] == row;
      assert records[i] in records;
      CmpHit(c, n, k, row);
    }
    KeepCongruent(Rows(records), RowHit(k, p), q);
  }

  /** The masks for `c/x/` and `nc/x/` both succeed or both fail, and between
      them hold every input row exactly once. */
  lemma MaskPartition(records: Frame, k: string, x: string)
    ensures Mask(records, k, Contains(x)).Ok? == Mask(records, k, NotContains(x)).Ok?
    ensures Mask(records, k, Contains(x)).Ok? ==>
              multiset(Rows(Mask(records, k, Contains(x)).value)) + multiset(Rows(Mask(records, k, NotContains(x)).value))
                == multiset(Rows(records)) &&
              |Mask(records, k, Contains(x)).value| + |Mask(records, k, NotContains(x)).value| == |records|
  {
    MasksSucceedTogether(records, k, x);
    if Mask(records, k, Contains(x)).Ok? {
      MaskMissesAreComplement(records, k, x);
      KeepPartition(Rows(records), RowHit(k, Contains(x)));
    }
  }

  lemma MasksSucceedTogether(records: Frame, k: string, x: string)
    ensures Mask(records, k, Contains(x)).Ok? == Mask(records, k, NotContains(x)).Ok?
  {
    forall i | 0 <= i < |records|
      ensures EvalRow(k, Contains(x), records[i].row).Ok? == EvalRow(k, NotContains(x), records[i].row).Ok?
    {
      if k in records[i].row { ContainsComplement(x, records[i].row[k]); }
    }
  }

  lemma MaskMissesAreComplement(records: Frame, k: string, x: string)
    requires Mask(records, k, Contains(x)).Ok?
    ensures Keep(Rows(records), RowHit(k, NotContains(x))) == Keep(Rows(records), Not(RowHit(k, Contains(x))))
  {
    var rows := Rows(records);
    forall row | row in rows
      ensures RowHit(k, NotContains(x))(row) == Not(RowHit(k, Contains(x)))(row)
    {
      var i :| 0 <= i < |rows| && rows[i] == row;
      assert EvalRow(k, Contains(x), records[i].row).Ok?;
      if k in row { ContainsComplement(x, row[k]); }
    }
    KeepCongruent(rows, RowHit(k, NotContains(x)), Not(RowHit(k, Contains(x))));
  }

  /** `k=c/x/` and `k=nc/x/` split the table: both succeed or both fail, and
      between them they hold every input row exactly once. */
  lemma ContainsPartition(columns: set<string>, records: Frame, k: string, x: string)
    requires |x| > 0 && NoNewline(x) && k in columns
    ensures var c := FilterSpec(columns, records, "", true, [(k, AStr("c/" + x + "/"))]);
            var nc := FilterSpec(columns, records, "", true, [(k, AStr("nc/" + x + "/"))]);
            c.Ok? == nc.Ok? &&
            (c.Ok? ==> multiset(Rows(c.value.frame)) + multiset(Rows(nc.value.frame)) == multiset(Rows(records)) &&
                       |c.value.frame| + |nc.value.frame| == |records|)
  {
    DecodeSubstring(x);
    SingleStringKeyword(columns, records, k, "c/" + x + "/", Contains(x));
    SingleStringKeyword(columns, records, k, "nc/" + x + "/", NotContains(x));
    MaskPartition(records, k, x);
  }

  // ---------------------------------------------------------------------
  // The stored table

  /** A key for `db[key]`: a string or an integer index label. */
  datatype Key = KStr(s: string) | KLabel(n: int)

  /** What `db[key]` returns: a frame, or a single row. */
  datatype Selection = Whole(frame: Frame) | Single(row: Row)

  function LabelIs(n: int): Record -> bool { (rec: Record) => rec.index == n }

  /** The table held by `Database` (classes.py:6-11), with the members the
      converter uses. */
  class Database {
    var columns: set<string>
    var records: Frame
    var description: string

    ghost predicate Valid()
      reads this
    {
      WellFormed(columns, records)
    }

    constructor (columns: set<string>, records: Frame, description: string)
      requires WellFormed(columns, records)
      ensures Valid()
      ensures this.columns == columns && this.records == records && this.description == description
    {
      this.columns := columns;
      this.records := records;
      this.description := description;
    }

    /** `__len__` (classes.py:101-102): the number of rows. */
    function Len(): (n: nat)
      reads this
      ensures n == |Rows(records)|
    {
      |records|
    }

    /** `__getitem__` (classes.py:107-111): `*` is the whole table; an index
        label gives its row, or the frame of its rows when the label repeats. */
    function GetItem(key: Key): (r: Result<Selection>)
      reads this
      ensures key == KStr("*") ==> r == Ok(Whole(records))
      ensures key.KStr? && key.s != "*" ==> r == Err(KeyError(Str(key.s)))
      ensures key.KLabel? ==> (r.Err? <==> forall rec :: rec in records ==> rec.index != key.n)
    {
      match key
      case KStr(s) => if s == "*" then Ok(Whole(records)) else Err(KeyError(Str(s)))
      case KLabel(n) =>
        var hits := Keep(records, LabelIs(n));
        KeepMembers(records, LabelIs(n));
        if |hits| == 0 then
          assert forall rec :: rec in records ==> rec !in hits ==> rec.index != n;
          Err(KeyError(Num(n)))
        else if |hits| == 1 then
          assert hits[0] in hits;
          Ok(Single(hits[0].row))
        else Ok(Whole(hits))
    }

    /** One turn of the keyword loop (classes.py:78-86), on the current frame. */
    method KeywordStep(frame: Frame, shared: bool, k: string, a: Arg) returns (step: Result<State>)
      ensures step == Step(columns, State(frame, shared), k, a)
      ensures step.Ok? && step.value.shared ==> shared && step.value.frame == frame
    {
      match a {
        case AStr(s) =>
          var p := Decode(s);
          if p.Err? {
            step := Err(p.error);
          } else {
            var f := Apply(columns, frame, k, p.value);
            step := if f.Err? then Err(f.error) else Ok(State(f.value, shared && p.value.Any?));
          }
        case AList(vs) =>
          var f := Apply(columns, frame, k, In(vs));
          step := if f.Err? then Err(f.error) else Ok(State(f.value, false));
        case AInt(n) =>
          var f := Apply(columns, frame, k, Eq(Num(n)));
          step := if f.Err? then Err(f.error) else Ok(State(f.value, false));
        case ATuple(es) =>
          step := TupleStep(frame, shared, k, es);
        case AOther =>
          step := Ok(State(frame, shared));
      }
      if step.Ok? {
        StepKeeps(columns, State(frame, shared), k, a);
      }
    }

    /** The tuple branch (classes.py:78-82): filter by each element in turn, merging back. */
    method TupleStep(frame: Frame, shared: bool, k: string, es: seq<Elem>) returns (step: Result<State>)
      ensures step == TupleFold(columns, State(frame, shared), k, es)
    {
      step := Ok(State(frame, shared));
      var j := 0;
      while j < |es| && step.Ok?
        invariant 0 <= j <= |es|
        invariant step.Ok? ==> TupleFold(columns, State(frame, shared), k, es) == TupleFold(columns, step.value, k, es[j..])
        invariant step.Err? ==> TupleFold(columns, State(frame, shared), k, es) == step
      {
        assert es[j..][1..] == es[j + 1..];
        var p := ElemPred(es[j]);
        if p.Err? {
          step := Err(p.error);
        } else {
          var tmp := Apply(columns, step.value.frame, k, p.value);
          if tmp.Err? {
            step := Err(tmp.error);
          } else {
            step := Ok(State(MergeInner(step.value.frame, tmp.value), false));
          }
        }
        j := j + 1;
      }
      if step.Ok? {
        assert es[j..] == [];
      }
    }

    /** `filter` (classes.py:13-90). The keyword loop reassigns the current
        frame step by step; a requested sort is done in place, and so reaches
        the stored table exactly when the current frame is still that table. */
    method Filter(sortBy: string, ascending: bool, kwargs: seq<(string, Arg)>) returns (res: Result<Frame>)
      requires Valid()
      modifies this
      ensures Valid() && columns == old(columns) && description == old(description)
      ensures var spec := FilterSpec(old(columns), old(records), sortBy, ascending, kwargs);
              res == (if spec.Ok? then Ok(spec.value.frame) else Err(spec.error)) &&
              records == (if spec.Ok? && spec.value.shared && sortBy != "" then spec.value.frame else old(records))
    {
      var frame := records;
      var shared := true;
      var i := 0;
      while i < |kwargs|
        invariant 0 <= i <= |kwargs|
        invariant records == old(records) && columns == old(columns) && description == old(description)
        invariant shared ==> frame == records
        invariant KwargsFold(columns, State(records, true), kwargs) == KwargsFold(columns, State(frame, shared), kwargs[i..])
      {
        var k, a := kwargs[i].0, kwargs[i].1;
        var step := KeywordStep(frame, shared, k, a);
        assert kwargs[i..][0] == kwargs[i] && kwargs[i..][1..] == kwargs[i + 1..];
        if step.Err? {
          return Err(step.error);
        }
        frame, shared := step.value.frame, step.value.shared;
        i := i + 1;
      }
      if sortBy != "" {
        var sorted := SortFrame(columns, frame, sortBy, ascending);
        if sorted.Err? {
          return Err(sorted.error);
        }
        frame := sorted.value;
        if shared {
          assert forall rec :: rec in frame ==> rec in multiset(records);
          records := frame;
        }
      }
      res := Ok(frame);
    }
  }

  /** `db['*']` is the whole table and `len(db)` its row count. */
  lemma StarIsWholeTable(db: Database)
    ensures db.GetItem(KStr("*")) == Ok(Whole(db.records))
    ensures db.Len() == |Rows(db.GetItem(KStr("*")).value.frame)|
  {
  }

  /** An index carried by exactly one row selects that row. */
  lemma GetItemUniqueLabel(db: Database, i: int)
    requires 0 <= i < |db.records|
    requires forall j :: 0 <= j < |db.records| && j != i ==> db.records[j].index != db.records[i].index
    ensures db.GetItem(KLabel(db.records[i].index)) == Ok(Single(db.records[i].row))
  {
    KeepUnique(db.records, LabelIs(db.records[i].index), i);
  }

  lemma {:induction false} KeepNone<T(!new)>(t: seq<T>, p: T -> bool)
    requires forall j :: 0 <= j < |t| ==> !p(t[j])
    ensures Keep(t, p) == []
  {
    if t != [] { KeepNone(t[1..], p); }
  }

  lemma {:induction false} KeepUnique<T(!new)>(t: seq<T>, p: T -> bool, i: int)
    requires 0 <= i < |t| && p(t[i])
    requires forall j :: 0 <= j < |t| && j != i ==> !p(t[j])
    ensures Keep(t, p) == [t[i]]
  {
    if i == 0 {
      KeepNone(t[1..], p);
    } else {
      KeepUnique(t[1..], p, i - 1);
    }
  }
}
