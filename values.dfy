/** Cell values, rows, errors and the small pieces of Python string and
    integer behaviour the converter relies on. */
module Values {

  /** A table cell: pandas holds either an integer or a string here. */
  datatype Value = Num(n: int) | Str(s: string)

  /** One table row, keyed by column name. */
  type Row = map<string, Value>

  /** The Python exceptions the modelled code can raise. */
  datatype Error =
    | KeyError(key: Value)        // missing column or index label
    | TypeError                   // ordering a string against a number, range() of a non-int
    | AttributeError              // `.group` on a failed re.search, `.str` on numbers
    | IndexError                  // list/range index out of bounds, `.iloc[0]` of no rows
    | ValueError(text: string)    // int() refused its argument
    | AssertionError              // wrong item count in a query list
    | NotParsedError              // "Expected number has not been parsed."
    | UnboundLocalError(name: string)

  datatype Option<+T> = None | Some(value: T)

  datatype Result<+T> = Ok(value: T) | Err(error: Error) {
    predicate IsFailure() { Err? }
    function PropagateFailure<U>(): Result<U> requires Err? { Err(error) }
    function Extract(): T requires Ok? { value }
  }

  // ---------------------------------------------------------------------
  // Sequences

  /** `s` keeps the elements of `t` that satisfy `p`, in order. */
  function Keep<T(!new)>(t: seq<T>, p: T -> bool): (r: seq<T>)
    ensures |r| <= |t|
  {
    if t == [] then [] else (if p(t[0]) then [t[0]] else []) + Keep(t[1..], p)
  }

  /** What the filter keeps are exactly the elements that satisfy the condition. */
  lemma {:induction false} KeepMembers<T(!new)>(t: seq<T>, p: T -> bool)
    ensures forall x :: x in Keep(t, p) <==> x in t && p(x)
  {
    if t != [] {
      KeepMembers(t[1..], p);
      assert t == [t[0]] + t[1..];
    }
  }

  /** `a` is obtained from `b` by deleting elements. */
  ghost predicate IsSubsequence<T>(a: seq<T>, b: seq<T>)
  {
    a == [] || (b != [] && ((a[0] == b[0] && IsSubsequence(a[1..], b[1..])) || IsSubsequence(a, b[1..])))
  }

  lemma {:induction false} KeepIsSubsequence<T(!new)>(t: seq<T>, p: T -> bool)
    ensures IsSubsequence(Keep(t, p), t)
  {
    if t != [] {
      KeepIsSubsequence(t[1..], p);
      assert Keep(t, p) == (if p(t[0]) then [t[0]] else []) + Keep(t[1..], p);
      var k := Keep(t, p);
      if p(t[0]) {
        assert k[0] == t[0] && k[1..] == Keep(t[1..], p);
        assert IsSubsequence(k[1..], t[1..]);
      } else {
        assert k == Keep(t[1..], p);
      }
    }
  }

  /** Filtering twice is filtering once by the conjunction. */
  lemma {:induction false} KeepKeep<T(!new)>(t: seq<T>, p: T -> bool, q: T -> bool, pq: T -> bool)
    requires forall x :: pq(x) == (p(x) && q(x))
    ensures Keep(Keep(t, p), q) == Keep(t, pq)
  {
    if t != [] {
      KeepKeep(t[1..], p, q, pq);
      var rest := Keep(t[1..], p);
      if p(t[0]) {
        assert Keep(t, p) == [t[0]] + rest;
        assert ([t[0]] + rest)[1..] == rest;
      } else {
        assert Keep(t, p) == rest;
      }
    }
  }

  /** Filters by pointwise-equal predicates agree. */
  lemma {:induction false} KeepCongruent<T(!new)>(t: seq<T>, p: T -> bool, q: T -> bool)
    requires forall x :: x in t ==> p(x) == q(x)
    ensures Keep(t, p) == Keep(t, q)
  {
    if t != [] {
      KeepCongruent(t[1..], p, q);
    }
  }

  /** Filtering keeps everything exactly when every element passes. */
  lemma {:induction false} KeepAll<T(!new)>(t: seq<T>, p: T -> bool)
    requires forall x :: x in t ==> p(x)
    ensures Keep(t, p) == t
  {
    if t != [] {
      KeepAll(t[1..], p);
    }
  }

  /** The first kept element is the first element, in order, that passes. */
  lemma {:induction false} KeepFirst<T(!new)>(t: seq<T>, p: T -> bool)
    requires Keep(t, p) != []
    ensures exists i :: 0 <= i < |t| && p(t[i]) && Keep(t, p)[0] == t[i] &&
                        forall j :: 0 <= j < i ==> !p(t[j])
  {
    if p(t[0]) {
      assert Keep(t, p)[0] == t[0];
    } else {
      assert Keep(t, p) == Keep(t[1..], p);
      KeepFirst(t[1..], p);
      var i :| 0 <= i < |t[1..]| && p(t[1..][i]) && Keep(t[1..], p)[0] == t[1..][i] &&
               forall j :: 0 <= j < i ==> !p(t[1..][j]);
      assert p(t[i + 1]) && Keep(t, p)[0] == t[i + 1];
      forall j | 0 <= j < i + 1 ensures !p(t[j]) {
        if j > 0 { assert t[j] == t[1..][j - 1]; }
      }
    }
  }

  /** The complement of a condition. */
  function Not<T>(p: T -> bool): T -> bool
  {
    x => !p(x)
  }

  /** Filtering splits a sequence into what passes and what fails. */
  lemma {:induction false} KeepPartition<T(!new)>(t: seq<T>, p: T -> bool)
    ensures |Keep(t, p)| + |Keep(t, Not(p))| == |t|
    ensures multiset(Keep(t, p)) + multiset(Keep(t, Not(p))) == multiset(t)
  {
    if t != [] {
      KeepPartition(t[1..], p);
      assert t == [t[0]] + t[1..];
    }
  }

  // ---------------------------------------------------------------------
  // Strings

  predicate StartsWith(s: string, prefix: string)
  {
    |prefix| <= |s| && s[..|prefix|] == prefix
  }

  /** A string starting with `p + q` starts with `p`. */
  lemma StartsWithLonger(v: string, p: string, q: string)
    ensures StartsWith(v, p + q) ==> StartsWith(v, p)
  {
    if StartsWith(v, p + q) {
      assert v[..|p|] == (p + q)[..|p|];
    }
  }

  /** `x` occurs in `s` starting at position `i`. */
  predicate OccursAt(s: string, x: string, i: int)
  {
    0 <= i && i + |x| <= |s| && s[i..i + |x|] == x
  }

  /** Python's `x in s` for strings (a plain substring test). */
  predicate HasSubstring(s: string, x: string)
  {
    exists i | 0 <= i <= |s| - |x| :: OccursAt(s, x, i)
  }

  /** Index of the first occurrence of `sep` in `s` at or after `from`, or -1. */
  function Find(s: string, sep: string, from: nat): (r: int)
    requires |sep| > 0
    ensures r == -1 || (from <= r && OccursAt(s, sep, r))
    ensures r == -1 ==> forall j :: from <= j ==> !OccursAt(s, sep, j)
    ensures r != -1 ==> forall j :: from <= j < r ==> !OccursAt(s, sep, j)
    decreases |s| - from
  {
    if from + |sep| > |s| then -1
    else if s[from..from + |sep|] == sep then from
    else Find(s, sep, from + 1)
  }

  /** Python's `s.split(sep)` for a non-empty separator. */
  function Split(s: string, sep: string): (r: seq<string>)
    requires |sep| > 0
    ensures |r| >= 1
    decreases |s|
  {
    var i := Find(s, sep, 0);
    if i < 0 then [s] else [s[..i]] + Split(s[i + |sep|..], sep)
  }

  /** `sep.join(parts)`. */
  function Join(parts: seq<string>, sep: string): string
  {
    if |parts| <= 1 then (if parts == [] then "" else parts[0])
    else parts[0] + sep + Join(parts[1..], sep)
  }

  /** `sep.join(s.split(sep)) == s`: splitting loses nothing but the separators. */
  lemma {:induction false} SplitJoin(s: string, sep: string)
    requires |sep| > 0
    ensures Join(Split(s, sep), sep) == s
    decreases |s|
  {
    var i := Find(s, sep, 0);
    if i >= 0 {
      var rest := s[i + |sep|..];
      SplitJoin(rest, sep);
      var ps := Split(s, sep);
      assert ps == [s[..i]] + Split(rest, sep);
      assert ps[1..] == Split(rest, sep);
      assert s == s[..i] + sep + rest by {
        assert s[i..i + |sep|] == sep;
        assert s == s[..i] + s[i..i + |sep|] + rest;
      }
    }
  }

  predicate Lacks(s: string, c: char)
  {
    forall k :: 0 <= k < |s| ==> s[k] != c
  }

  /** A string that shares no character with the separator's first one is not split. */
  lemma SplitNone(x: string, sep: string)
    requires |sep| > 0 && Lacks(x, sep[0])
    ensures Split(x, sep) == [x]
  {
    var i := Find(x, sep, 0);
    assert i == -1;
  }

  /** A string in which the separator does not occur is not split. */
  lemma SplitAbsent(x: string, sep: string)
    requires |sep| > 0 && !HasSubstring(x, sep)
    ensures Split(x, sep) == [x]
  {
    var i := Find(x, sep, 0);
    assert i != -1 ==> OccursAt(x, sep, i);
  }

  /** Splitting `x + sep + y` yields `x` first when `x` cannot hold `sep`. */
  lemma SplitFirst(x: string, sep: string, y: string)
    requires |sep| > 0 && Lacks(x, sep[0])
    ensures Split(x + sep + y, sep) == [x] + Split(y, sep)
  {
    var s := x + sep + y;
    assert s[|x|..|x| + |sep|] == sep;
    assert OccursAt(s, sep, |x|);
    var i := Find(s, sep, 0);
    assert i == |x|;
    assert s[..i] == x;
    assert s[i + |sep|..] == y;
  }

  /** The characters Python's `str.isspace` accepts. */
  predicate IsSpace(c: char)
  {
    c == ' ' || c == '\t' || c == '\n' || c == '\r' || c == '\U{000B}' || c == '\U{000C}' ||
    ('\U{001C}' <= c <= '\U{001F}') || c == '\U{0085}' || c == '\U{00A0}' || c == '\U{1680}' ||
    ('\U{2000}' <= c <= '\U{200A}') || c == '\U{2028}' || c == '\U{2029}' || c == '\U{202F}' ||
    c == '\U{205F}' || c == '\U{3000}'
  }

  /** Python's `s.rstrip()`: the longest prefix not ending in whitespace. */
  function RStrip(s: string): (r: string)
    ensures StartsWith(s, r)
    ensures r == [] || !IsSpace(r[|r| - 1])
    ensures forall k :: |r| <= k < |s| ==> IsSpace(s[k])
  {
    if s == [] || !IsSpace(s[|s| - 1]) then s else RStrip(s[..|s| - 1])
  }

  /** `rstrip` removes exactly a run of trailing whitespace after a non-space character. */
  lemma RStripTrailing(x: string, w: string)
    requires |x| > 0 && !IsSpace(x[|x| - 1])
    requires forall k :: 0 <= k < |w| ==> IsSpace(w[k])
    ensures RStrip(x + w) == x
  {
    var s := x + w;
    var r := RStrip(s);
    assert s[|x| - 1] == x[|x| - 1];
    assert |r| >= |x|;
    assert |r| <= |x| by {
      assert forall k :: |x| <= k < |s| ==> s[k] == w[k - |x|];
    }
    assert r == s[..|x|];
    assert s[..|x|] == x;
  }

  // ---------------------------------------------------------------------
  // Decimal text

  predicate IsDigit(c: char) { '0' <= c <= '9' }

  predicate AllDigits(s: string)
  {
    forall k :: 0 <= k < |s| ==> IsDigit(s[k])
  }

  /** The number a string of decimal digits denotes. */
  function DigitsValue(s: string): nat
    requires AllDigits(s)
  {
    if s == [] then 0 else 10 * DigitsValue(s[..|s| - 1]) + (s[|s| - 1] as int - '0' as int)
  }

  /** Python's `str(n)` for a natural number. */
  function NatToString(n: nat): (r: string)
    ensures |r| > 0 && AllDigits(r) && DigitsValue(r) == n
  {
    var d := [('0' as int + n % 10) as char];
    if n < 10 then d
    else
      var r := NatToString(n / 10) + d;
      assert r[..|r| - 1] == NatToString(n / 10);
      r
  }

  /** Python's `str(i)` for an integer. */
  function IntToString(i: int): string
  {
    if i < 0 then "-" + NatToString(-i) else NatToString(i)
  }

  /** Python's `int(s)`, restricted to an optional `-` followed by decimal digits. */
  function ParseInt(s: string): (r: Result<int>)
    ensures r.Err? ==> r.error == ValueError(s)
  {
    if |s| > 1 && s[0] == '-' && AllDigits(s[1..]) then Ok(0 - DigitsValue(s[1..]) as int)
    else if |s| > 0 && AllDigits(s) then Ok(DigitsValue(s))
    else Err(ValueError(s))
  }

  /** Reading back what `str` wrote gives the original integer. */
  lemma ParseIntToString(i: int)
    ensures ParseInt(IntToString(i)) == Ok(i)
    ensures Lacks(IntToString(i), ':') && Lacks(IntToString(i), '.')
  {
    if i < 0 {
      var t := NatToString(-i);
      assert ("-" + t)[1..] == t;
      assert forall k :: 0 <= k < |"-" + t| ==> k == 0 || ("-" + t)[k] == t[k - 1];
    }
  }
}
