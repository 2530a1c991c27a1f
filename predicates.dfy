/** The string-encoded predicate language of `Database.filter`
    (classes.py:44-73): a keyword value such as `gte100` or `c/abc/` is
    decoded into a predicate, which is then evaluated on one cell. */
module Predicates {
  import opened Values

  /** The decoded form of one keyword value. Thresholds are whole numbers. */
  datatype Pred =
    | Any                        // "*"
    | Gt(n: nat)                 // "gtN"
    | Gte(n: nat)                // "gteN"
    | Lt(n: nat)                 // "ltN"
    | Lte(n: nat)                // "lteN"
    | Ne(n: nat)                 // "neN"
    | Contains(sub: string)      // "c/x/"
    | NotContains(sub: string)   // "nc/x/"
    | Eq(v: Value)               // any other string, or an int
    | In(vs: seq<Value>)         // a list

  /** `tag` followed directly by a digit: the guard `^tag\d+`. */
  predicate LeadsDigit(v: string, tag: string)
  {
    StartsWith(v, tag) && |v| > |tag| && IsDigit(v[|tag|])
  }

  /** `\d+$` matched against all of `t`: Python's `$` also matches just before a final newline. */
  function DigitsToEnd(t: string): (r: Option<nat>)
    ensures r.Some? <==> (|t| > 0 && AllDigits(t)) || (|t| > 1 && t[|t| - 1] == '\n' && AllDigits(t[..|t| - 1]))
  {
    if |t| > 0 && AllDigits(t) then Some(DigitsValue(t))
    else if |t| > 1 && t[|t| - 1] == '\n' && AllDigits(t[..|t| - 1]) then Some(DigitsValue(t[..|t| - 1]))
    else None
  }

  /** `re.search('^tag(\d+)$', v)`: the whole value is the tag and a number. */
  function Anchored(v: string, tag: string): Option<nat>
  {
    if StartsWith(v, tag) then DigitsToEnd(v[|tag|..]) else None
  }

  /** `re.search('tag(\d+)$', v)` without `^`: the leftmost position from `from` on
      where the tag begins a number that runs to the end. */
  function Search(v: string, tag: string, from: nat): (r: Option<nat>)
    ensures r.Some? ==> exists p :: from <= p <= |v| && Anchored(v[p..], tag) == r
    ensures r.None? ==> forall p :: from <= p <= |v| ==> Anchored(v[p..], tag).None?
    decreases |v| - from
  {
    if from > |v| then None
    else if Anchored(v[from..], tag).Some? then Anchored(v[from..], tag)
    else Search(v, tag, from + 1)
  }

  predicate NoNewline(s: string) { Lacks(s, '\n') }

  /** The body of `(.+)\/$` for the text after the `c/` or `nc/` tag: a
      non-empty run of non-newline characters, then `/`, then the end (or a final newline). */
  function SlashBody(t: string): (r: Option<string>)
    ensures r.Some? ==> |r.value| > 0 && NoNewline(r.value) &&
                        (t == r.value + "/" || t == r.value + "/\n")
    ensures forall x :: |x| > 0 && NoNewline(x) && (t == x + "/" || t == x + "/\n") ==> r == Some(x)
  {
    if |t| >= 2 && t[|t| - 1] == '/' && NoNewline(t[..|t| - 1]) then Some(t[..|t| - 1])
    else if |t| >= 3 && t[|t| - 2..] == "/\n" && NoNewline(t[..|t| - 2]) then Some(t[..|t| - 2])
    else None
  }

  /** Decoding of one string keyword value, branch by branch. A guard that
      holds but whose full pattern fails is the `AttributeError` of calling
      `.group` on `None`. */
  function Decode(v: string): (r: Result<Pred>)
    ensures r.Err? ==> r.error == AttributeError
  {
    if v == "*" then Ok(Any)
    else if LeadsDigit(v, "gt") then
      (match Anchored(v, "gt") case Some(n) => Ok(Gt(n)) case None => Err(AttributeError))
    else if LeadsDigit(v, "gte") then
      (match Anchored(v, "gte") case Some(n) => Ok(Gte(n)) case None => Err(AttributeError))
    else if LeadsDigit(v, "lt") then
      (match Anchored(v, "lt") case Some(n) => Ok(Lt(n)) case None => Err(AttributeError))
    else if LeadsDigit(v, "lte") then
      (match Search(v, "lte", 0) case Some(n) => Ok(Lte(n)) case None => Err(AttributeError))
    else if LeadsDigit(v, "ne") then
      (match Search(v, "ne", 0) case Some(n) => Ok(Ne(n)) case None => Err(AttributeError))
    else if StartsWith(v, "c/") then
      (match SlashBody(v[2..]) case Some(x) => Ok(Contains(x)) case None => Err(AttributeError))
    else if StartsWith(v, "nc/") then
      (match SlashBody(v[3..]) case Some(x) => Ok(NotContains(x)) case None => Err(AttributeError))
    else Ok(Eq(Str(v)))
  }

  /** One cell against one predicate: ordering a string raises TypeError,
      the `.str` accessor on a number raises AttributeError, equality and
      membership never raise. */
  function EvalCell(p: Pred, c: Value): (r: Result<bool>)
    ensures r.Ok? <==> match p
      case Gt(_) => c.Num?
      case Gte(_) => c.Num?
      case Lt(_) => c.Num?
      case Lte(_) => c.Num?
      case Contains(_) => c.Str?
      case NotContains(_) => c.Str?
      case _ => true
  {
    match p
    case Any => Ok(true)
    case Gt(n) => if c.Num? then Ok(c.n > n) else Err(TypeError)
    case Gte(n) => if c.Num? then Ok(c.n >= n) else Err(TypeError)
    case Lt(n) => if c.Num? then Ok(c.n < n) else Err(TypeError)
    case Lte(n) => if c.Num? then Ok(c.n <= n) else Err(TypeError)
    case Ne(n) => Ok(c != Num(n))
    case Contains(x) => if c.Str? then Ok(HasSubstring(c.s, x)) else Err(AttributeError)
    case NotContains(x) => if c.Str? then Ok(!HasSubstring(c.s, x)) else Err(AttributeError)
    case Eq(v) => Ok(c == v)
    case In(vs) => Ok(c in vs)
  }

  // ---------------------------------------------------------------------
  // Properties of the decoder

  /** Each comparison tag followed by `str(n)` decodes to that comparison with threshold n. */
  lemma DecodeGt(n: nat)
    ensures Decode("gt" + NatToString(n)) == Ok(Gt(n))
  {
    var d := NatToString(n);
    assert ("gt" + d)[..2] == "gt" && ("gt" + d)[2..] == d;
  }

  lemma DecodeGte(n: nat)
    ensures Decode("gte" + NatToString(n)) == Ok(Gte(n))
  {
    var d := NatToString(n);
    var v := "gte" + d;
    assert v[..3] == "gte" && v[3..] == d && v[2] == 'e';
  }

  lemma DecodeLt(n: nat)
    ensures Decode("lt" + NatToString(n)) == Ok(Lt(n))
  {
    var d := NatToString(n);
    var v := "lt" + d;
    assert v[..2] == "lt" && v[2..] == d && v[0] == 'l';
  }

  lemma DecodeLte(n: nat)
    ensures Decode("lte" + NatToString(n)) == Ok(Lte(n))
  {
    var d := NatToString(n);
    var v := "lte" + d;
    assert v[..3] == "lte" && v[3..] == d && v[0] == 'l' && v[2] == 'e';
    assert v[0..] == v;
  }

  lemma DecodeNe(n: nat)
    ensures Decode("ne" + NatToString(n)) == Ok(Ne(n))
  {
    var d := NatToString(n);
    var v := "ne" + d;
    assert v[..2] == "ne" && v[2..] == d && v[0] == 'n';
    assert v[..2][0] == 'n' && v[..3][0] == 'n';
    assert !StartsWith(v, "gt") && !StartsWith(v, "gte") && !StartsWith(v, "lt") && !StartsWith(v, "lte");
    assert v[0..] == v;
    assert Anchored(v, "ne") == Some(n);
  }

  /** A number followed by anything other than digits or one final newline is refused
      for the anchored tags `gt`, `gte` and `lt`. */
  lemma TrailingJunkRefused(tag: string, d: string, junk: string)
    requires tag == "gt" || tag == "gte" || tag == "lt"
    requires |d| > 0 && AllDigits(d)
    requires |junk| > 0 && !IsDigit(junk[0]) && junk != "\n"
    ensures Decode(tag + d + junk) == Err(AttributeError)
  {
    var v := tag + d + junk;
    assert v[..|tag|] == tag;
    assert v[|tag|] == d[0];
    var t := v[|tag|..];
    assert t == d + junk;
    assert t[|d|] == junk[0];
    assert !AllDigits(t);
    if |junk| > 1 {
      assert t[..|t| - 1][|d|] == junk[0];
    } else {
      assert t[|t| - 1] == junk[0];
    }
    assert DigitsToEnd(t).None?;
  }

  /** `gte…` is never read as `gt…`: the `gt` guard needs a digit where `e` stands. */
  lemma GteNotGt(rest: string)
    ensures !LeadsDigit("gte" + rest, "gt")
    ensures !LeadsDigit("lte" + rest, "lt")
  {
    assert ("gte" + rest)[2] == 'e';
    assert ("lte" + rest)[2] == 'e';
  }

  /** The `lte` pattern is unanchored at the start: in `lteNxlteM` the
      threshold is M, taken from the second occurrence. */
  lemma LteSearchesWholeValue(n: nat, m: nat)
    ensures Decode("lte" + NatToString(n) + "xlte" + NatToString(m)) == Ok(Lte(m))
  {
    var d1 := NatToString(n);
    var d2 := NatToString(m);
    var v := "lte" + d1 + "xlte" + d2;
    var k := 3 + |d1|;
    assert v[0] == 'l' && v[1] == 't' && v[2] == 'e' && v[3] == d1[0];
    assert v[..2][0] == 'l' && v[..3][0] == 'l';
    assert !StartsWith(v, "gt") && !StartsWith(v, "gte") && !LeadsDigit(v, "lt");
    assert v[..3] == "lte";
    assert LeadsDigit(v, "lte");
    forall q | 0 <= q <= k
      ensures Anchored(v[q..], "lte").None?
    {
      LteNotAnchoredBefore(d1, d2, q);
    }
    assert v[k + 1..] == "lte" + d2;
    assert ("lte" + d2)[..3] == "lte" && ("lte" + d2)[3..] == d2;
    assert Anchored(v[k + 1..], "lte") == Some(m);
    SearchFrom(v, "lte", 0, k + 1);
  }

  /** No `lteN$` match starts before the `x` of `lte<d1>xlte<d2>`. */
  lemma LteNotAnchoredBefore(d1: string, d2: string, q: int)
    requires |d1| > 0 && AllDigits(d1) && |d2| > 0 && AllDigits(d2)
    requires 0 <= q <= 3 + |d1|
    ensures Anchored(("lte" + d1 + "xlte" + d2)[q..], "lte").None?
  {
    var v := "lte" + d1 + "xlte" + d2;
    var k := 3 + |d1|;
    assert v[k] == 'x';
    if q == 0 {
      var t := v[3..];
      assert t[|d1|] == 'x';
      assert t[|t| - 1] == d2[|d2| - 1];
      assert !AllDigits(t);
      assert !AllDigits(t[..|t| - 1]) by { assert t[..|t| - 1][|d1|] == 'x'; }
    } else {
      assert v[q..][0] == v[q];
      if 3 <= q < k {
        assert v[q] == d1[q - 3];
      }
      assert v[q] != 'l';
      assert v[q..][..3][0] == v[q];
    }
  }

  /** The search settles on the first position where the anchored pattern matches. */
  lemma {:induction false} SearchFrom(v: string, tag: string, from: nat, p: nat)
    requires from <= p <= |v|
    requires forall q :: from <= q < p ==> Anchored(v[q..], tag).None?
    requires Anchored(v[p..], tag).Some?
    ensures Search(v, tag, from) == Anchored(v[p..], tag)
    decreases p - from
  {
    if from < p {
      SearchFrom(v, tag, from + 1, p);
    }
  }

  /** `c/x/` and `nc/x/` decode to the substring test on x and its negation. */
  lemma DecodeSubstring(x: string)
    requires |x| > 0 && NoNewline(x)
    ensures Decode("c/" + x + "/") == Ok(Contains(x))
    ensures Decode("nc/" + x + "/") == Ok(NotContains(x))
  {
    DecodeContains(x);
    DecodeNotContains(x);
  }

  lemma DecodeContains(x: string)
    requires |x| > 0 && NoNewline(x)
    ensures Decode("c/" + x + "/") == Ok(Contains(x))
  {
    var c := "c/" + x + "/";
    assert c[0] == 'c' && c[..2][0] == 'c' && c[..3][0] == 'c';
    assert !StartsWith(c, "gt") && !StartsWith(c, "gte") && !StartsWith(c, "lt") && !StartsWith(c, "lte");
    assert !StartsWith(c, "ne");
    assert c[..2] == "c/";
    assert c[2..] == x + "/";
    assert (x + "/")[..|x|] == x;
  }

  lemma DecodeNotContains(x: string)
    requires |x| > 0 && NoNewline(x)
    ensures Decode("nc/" + x + "/") == Ok(NotContains(x))
  {
    var nc := "nc/" + x + "/";
    assert nc[0] == 'n' && nc[1] == 'c' && nc[..2][0] == 'n' && nc[..3][0] == 'n' && nc[..2][1] == 'c';
    assert !StartsWith(nc, "gt") && !StartsWith(nc, "gte") && !StartsWith(nc, "lt") && !StartsWith(nc, "lte");
    assert !StartsWith(nc, "ne") && !StartsWith(nc, "c/");
    assert nc[..3] == "nc/";
    assert nc[3..] == x + "/";
    assert (x + "/")[..|x|] == x;
  }

  /** Every other string not matched by a guard means equality with itself. */
  lemma DecodePlain(v: string)
    requires v != "*"
    requires !LeadsDigit(v, "gt") && !LeadsDigit(v, "gte") && !LeadsDigit(v, "lt")
    requires !LeadsDigit(v, "lte") && !LeadsDigit(v, "ne")
    requires !StartsWith(v, "c/") && !StartsWith(v, "nc/")
    ensures Decode(v) == Ok(Eq(Str(v)))
  {
  }

  /** `gtx`, `neon` and `gte` match no guard: they mean equality with themselves. */
  lemma DecodePlainExamples()
    ensures Decode("gtx") == Ok(Eq(Str("gtx")))
    ensures Decode("neon") == Ok(Eq(Str("neon")))
    ensures Decode("gte") == Ok(Eq(Str("gte")))
  {
    assert "gtx"[..2][0] != 'c' && "gtx"[..3][0] != 'n';
    assert "neon"[..2][0] != 'c' && "neon"[..3][1] != 'c';
    assert "gte"[..2][0] != 'c' && "gte"[..3][0] != 'n';
    DecodePlain("gtx");
    DecodePlain("neon");
    DecodePlain("gte");
  }

  /** A negative number after `lte` or `gte` makes no comparison: the `-`
      stops every guard, so the value means equality with itself. */
  lemma DecodeNegativeBound(i: int)
    requires i < 0
    ensures Decode("lte" + IntToString(i)) == Ok(Eq(Str("lte" + IntToString(i))))
    ensures Decode("gte" + IntToString(i)) == Ok(Eq(Str("gte" + IntToString(i))))
  {
    var u, w := "lte" + IntToString(i), "gte" + IntToString(i);
    assert u[0] == 'l' && u[2] == 'e' && u[3] == '-' && u[..2][0] == 'l' && u[..3][0] == 'l';
    assert w[0] == 'g' && w[2] == 'e' && w[3] == '-' && w[..2][0] == 'g' && w[..3][0] == 'g';
    DecodePlain(u);
    DecodePlain(w);
  }

  /** The substring test and its negation split every string cell. */
  lemma ContainsComplement(x: string, c: Value)
    ensures EvalCell(Contains(x), c).Ok? == EvalCell(NotContains(x), c).Ok?
    ensures EvalCell(Contains(x), c).Ok? ==>
              EvalCell(NotContains(x), c).value == !EvalCell(Contains(x), c).value
  {
  }
}
