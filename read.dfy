/** The query-list reader `parse_query_list` (read.py:9-44), over the lines
    of the file: lines starting with an ignored prefix are skipped, the rest
    are kept right-stripped, and a header line (a fixed prefix, then N) declares how many
    queries the list must hold. */
module Read {
  import opened Values

  /** How many of the ignored prefixes `line` starts with. */
  function Hits(line: string, avoid: seq<string>): (r: nat)
    ensures r > 0 <==> exists k :: 0 <= k < |avoid| && StartsWith(line, avoid[k])
    ensures r <= |avoid|
  {
    if avoid == [] then 0
    else
      assert forall k :: 0 < k < |avoid| ==> avoid[k] == avoid[1..][k - 1];
      (if StartsWith(line, avoid[0]) then 1 else 0) + Hits(line, avoid[1..])
  }

  /** The line starts with one of the ignored prefixes. */
  predicate Avoided(line: string, avoid: seq<string>)
  {
    exists k :: 0 <= k < |avoid| && StartsWith(line, avoid[k])
  }

  /** The query list the loop builds: every line not skipped, right-stripped, in order. */
  function KeptLines(lines: seq<string>, avoid: seq<string>): (r: seq<string>)
    ensures |r| <= |lines|
  {
    if lines == [] then []
    else (if Hits(lines[0], avoid) > 0 then [] else [RStrip(lines[0])]) + KeptLines(lines[1..], avoid)
  }

  /** `int(line.rstrip().split(header)[1])` (read.py:26). */
  function HeaderValue(line: string, header: string): (r: Result<int>)
    requires |header| > 0
    ensures r.Err? ==> r.error == IndexError || r.error.ValueError?
  {
    var parts := Split(RStrip(line), header);
    if |parts| < 2 then Err(IndexError) else ParseInt(parts[1])
  }

  /** The header count the loop ends with: each line starting with the
      header prefix overwrites it with the integer after the prefix; the first
      such line with no text after the prefix, or no integer there, ends the
      read with an error. */
  function HeaderFold(lines: seq<string>, header: string, cur: Option<int>): Result<Option<int>>
    requires |header| > 0
  {
    if lines == [] then Ok(cur)
    else if StartsWith(lines[0], header) then
      var n :- HeaderValue(lines[0], header);
      HeaderFold(lines[1..], header, Some(n))
    else HeaderFold(lines[1..], header, cur)
  }

  /** What `parse_query_list` returns or raises. An unset count is the
      unbound `exp_itemnum`; a count of 0 is falsy and means "not parsed". */
  function QueryListSpec(lines: seq<string>, header: string, avoid: seq<string>): Result<seq<string>>
  {
    var kept := KeptLines(lines, avoid);
    if header == "" then Ok(kept)
    else
      var exp :- HeaderFold(lines, header, None);
      match exp
      case None => Err(UnboundLocalError("exp_itemnum"))
      case Some(n) =>
        if n == 0 then Err(NotParsedError)
        else if |kept| == n then Ok(kept)
        else Err(AssertionError)
  }

  /** The query list of two parts of a file is the two lists joined. */
  lemma {:induction false} KeptLinesAppend(a: seq<string>, b: seq<string>, avoid: seq<string>)
    ensures KeptLines(a + b, avoid) == KeptLines(a, avoid) + KeptLines(b, avoid)
  {
    if a == [] {
      assert a + b == b;
    } else {
      assert (a + b)[0] == a[0] && (a + b)[1..] == a[1..] + b;
      KeptLinesAppend(a[1..], b, avoid);
      var x := if Hits(a[0], avoid) > 0 then [] else [RStrip(a[0])];
      calc {
        KeptLines(a + b, avoid);
        x + KeptLines(a[1..] + b, avoid);
        x + (KeptLines(a[1..], avoid) + KeptLines(b, avoid));
        (x + KeptLines(a[1..], avoid)) + KeptLines(b, avoid);
      }
    }
  }

  /** One turn of the line loop, as `KeptLines` sees it. */
  lemma KeptLinesSnoc(lines: seq<string>, i: int, avoid: seq<string>)
    requires 0 <= i < |lines|
    ensures KeptLines(lines[..i + 1], avoid) ==
            KeptLines(lines[..i], avoid) + (if Hits(lines[i], avoid) > 0 then [] else [RStrip(lines[i])])
  {
    assert lines[..i + 1] == lines[..i] + [lines[i]];
    KeptLinesAppend(lines[..i], [lines[i]], avoid);
    assert [lines[i]][1..] == [];
  }

  /** One turn of the line loop, as `HeaderFold` sees it. */
  lemma HeaderFoldAt(lines: seq<string>, i: int, header: string, cur: Option<int>)
    requires |header| > 0 && 0 <= i < |lines|
    ensures HeaderFold(lines[i..], header, cur) ==
            if !StartsWith(lines[i], header) then HeaderFold(lines[i + 1..], header, cur)
            else match HeaderValue(lines[i], header)
              case Err(e) => Err(e)
              case Ok(n) => HeaderFold(lines[i + 1..], header, Some(n))
  {
    assert lines[i..][0] == lines[i] && lines[i..][1..] == lines[i + 1..];
  }

  /** The inner loop of read.py:28-31: how many ignored prefixes the line starts with. */
  method CountHits(line: string, avoid: seq<string>) returns (bad: nat)
    ensures bad == Hits(line, avoid)
  {
    bad := 0;
    var j := 0;
    while j < |avoid|
      invariant 0 <= j <= |avoid|
      invariant Hits(line, avoid) == bad + Hits(line, avoid[j..])
    {
      assert avoid[j..][0] == avoid[j] && avoid[j..][1..] == avoid[j + 1..];
      if StartsWith(line, avoid[j]) {
        bad := bad + 1;
      }
      j := j + 1;
    }
    assert avoid[j..] == [];
  }

  /** `parse_query_list`, with the file's lines given. */
  method ParseQueryList(lines: seq<string>, header: string, avoid: seq<string>) returns (r: Result<seq<string>>)
    ensures r == QueryListSpec(lines, header, avoid)
  {
    var queryList: seq<string> := [];
    var exp: Option<int> := None;
    var i := 0;
    while i < |lines|
      invariant 0 <= i <= |lines|
      invariant queryList == KeptLines(lines[..i], avoid)
      invariant header != "" ==> HeaderFold(lines, header, None) == HeaderFold(lines[i..], header, exp)
    {
      var line := lines[i];
      if header != "" {
        HeaderFoldAt(lines, i, header, exp);
      }
      if header != "" && StartsWith(line, header) {
        var n := HeaderValue(line, header);
        if n.Err? {
          assert HeaderFold(lines, header, None) == Err(n.error);
          return Err(n.error);
        }
        exp := Some(n.value);
      }
      var bad := CountHits(line, avoid);
      KeptLinesSnoc(lines, i, avoid);
      if bad == 0 {
        queryList := queryList + [RStrip(line)];
      }
      i := i + 1;
    }
    assert lines[..i] == lines && lines[i..] == [];
    if header != "" {
      assert HeaderFold(lines, header, None) == Ok(exp);
      match exp {
        case None =>
          return Err(UnboundLocalError("exp_itemnum"));
        case Some(n) =>
          if n == 0 {
            return Err(NotParsedError);
          }
          if |queryList| != n {
            return Err(AssertionError);
          }
      }
    }
    r := Ok(queryList);
  }

  // ---------------------------------------------------------------------
  // Properties

  function NotAvoidedFn(avoid: seq<string>): string -> bool
  {
    line => !Avoided(line, avoid)
  }

  function RStripAll(lines: seq<string>): (r: seq<string>)
    ensures |r| == |lines| && forall k :: 0 <= k < |r| ==> r[k] == RStrip(lines[k])
  {
    if lines == [] then [] else [RStrip(lines[0])] + RStripAll(lines[1..])
  }

  /** The kept lines are the lines with no ignored prefix, in input order, each right-stripped. */
  lemma {:induction false} KeptLinesIsFilter(lines: seq<string>, avoid: seq<string>)
    ensures KeptLines(lines, avoid) == RStripAll(Keep(lines, NotAvoidedFn(avoid)))
  {
    if lines != [] {
      KeptLinesIsFilter(lines[1..], avoid);
      var rest := Keep(lines[1..], NotAvoidedFn(avoid));
      if NotAvoidedFn(avoid)(lines[0]) {
        assert Keep(lines, NotAvoidedFn(avoid)) == [lines[0]] + rest;
        assert ([lines[0]] + rest)[1..] == rest;
      }
    }
  }

  /** A prefix of a prefix is a prefix. */
  lemma StartsWithPrefix(line: string, a: string)
    requires StartsWith(RStrip(line), a)
    ensures StartsWith(line, a)
  {
    var r := RStrip(line);
    assert line[..|a|] == r[..|r|][..|a|];
  }

  /** No kept line starts with an ignored prefix. */
  lemma {:induction false} KeptLinesAvoidNothing(lines: seq<string>, avoid: seq<string>)
    ensures forall x, k :: x in KeptLines(lines, avoid) && 0 <= k < |avoid| ==> !StartsWith(x, avoid[k])
  {
    if lines != [] {
      KeptLinesAvoidNothing(lines[1..], avoid);
      if Hits(lines[0], avoid) == 0 {
        forall k | 0 <= k < |avoid| ensures !StartsWith(RStrip(lines[0]), avoid[k]) {
          if StartsWith(RStrip(lines[0]), avoid[k]) {
            StartsWithPrefix(lines[0], avoid[k]);
          }
        }
      }
    }
  }

  /** A result, when there is one, is exactly the kept lines. */
  lemma QueryListIsKeptLines(lines: seq<string>, header: string, avoid: seq<string>)
    requires QueryListSpec(lines, header, avoid).Ok?
    ensures QueryListSpec(lines, header, avoid).value == RStripAll(Keep(lines, NotAvoidedFn(avoid)))
    ensures forall x, k :: x in QueryListSpec(lines, header, avoid).value && 0 <= k < |avoid| ==>
              !StartsWith(x, avoid[k])
  {
    KeptLinesIsFilter(lines, avoid);
    KeptLinesAvoidNothing(lines, avoid);
  }

  // With the default arguments, no "itemnum" header line and no "/*" comment line is ever returned.
  lemma DefaultsDropHeadersAndComments(lines: seq<string>)
    requires QueryListSpec(lines, "itemnum: ", ["itemnum", "/*"]).Ok?
    ensures forall x :: x in QueryListSpec(lines, "itemnum: ", ["itemnum", "/*"]).value ==>
              !StartsWith(x, "itemnum") && !StartsWith(x, "/*") && !StartsWith(x, "itemnum: ")
  {
    var avoid := ["itemnum", "/*"];
    QueryListIsKeptLines(lines, "itemnum: ", avoid);
    assert "itemnum: " == "itemnum" + ": ";
    forall x | x in QueryListSpec(lines, "itemnum: ", avoid).value
      ensures !StartsWith(x, "itemnum") && !StartsWith(x, "/*") && !StartsWith(x, "itemnum: ")
    {
      assert !StartsWith(x, avoid[0]) && !StartsWith(x, avoid[1]);
      StartsWithLonger(x, "itemnum", ": ");
    }
  }

  /** Reading lines in two parts: the header count carries over from the first. */
  lemma {:induction false} HeaderFoldAppend(a: seq<string>, b: seq<string>, header: string, cur: Option<int>)
    requires |header| > 0
    ensures HeaderFold(a + b, header, cur) ==
            match HeaderFold(a, header, cur)
            case Err(e) => Err(e)
            case Ok(x) => HeaderFold(b, header, x)
  {
    if a != [] {
      assert (a + b)[0] == a[0] && (a + b)[1..] == a[1..] + b;
      if StartsWith(a[0], header) {
        if HeaderValue(a[0], header).Ok? {
          HeaderFoldAppend(a[1..], b, header, Some(HeaderValue(a[0], header).value));
        }
      } else {
        HeaderFoldAppend(a[1..], b, header, cur);
      }
    } else {
      assert a + b == b;
    }
  }

  /** Lines without the header prefix leave the count as it was. */
  lemma {:induction false} HeaderFoldNoHeader(lines: seq<string>, header: string, cur: Option<int>)
    requires |header| > 0
    requires forall k :: 0 <= k < |lines| ==> !StartsWith(lines[k], header)
    ensures HeaderFold(lines, header, cur) == Ok(cur)
  {
    if lines != [] {
      HeaderFoldNoHeader(lines[1..], header, cur);
    }
  }

  /** Whitespace after a character, as a line read from a file keeps its `\n`. */
  predicate AllSpace(w: string)
  {
    forall k :: 0 <= k < |w| ==> IsSpace(w[k])
  }

  /** A well-formed header line, the prefix followed by N and any trailing
      whitespace (the line's own newline), sets the count to N. */
  lemma HeaderLine(header: string, n: int, w: string)
    requires |header| > 0 && Lacks(IntToString(n), header[0]) && AllSpace(w)
    ensures HeaderFold([header + IntToString(n) + w], header, None) == Ok(Some(n))
  {
    HeaderLineFrom(header, n, w, None);
  }

  /** The count is the one on the last header line: whatever earlier headers
      said, a well-formed header followed only by other lines decides it. */
  lemma LastHeaderWins(pre: seq<string>, n: int, w: string, post: seq<string>, header: string)
    requires |header| > 0 && Lacks(IntToString(n), header[0]) && AllSpace(w)
    requires HeaderFold(pre, header, None).Ok?
    requires forall k :: 0 <= k < |post| ==> !StartsWith(post[k], header)
    ensures HeaderFold(pre + [header + IntToString(n) + w] + post, header, None) == Ok(Some(n))
  {
    var h := [header + IntToString(n) + w];
    HeaderFoldAppend(pre + h, post, header, None);
    HeaderFoldAppend(pre, h, header, None);
    var x := HeaderFold(pre, header, None).value;
    HeaderLineFrom(header, n, w, x);
    HeaderFoldNoHeader(post, header, Some(n));
  }

  lemma HeaderLineFrom(header: string, n: int, w: string, cur: Option<int>)
    requires |header| > 0 && Lacks(IntToString(n), header[0]) && AllSpace(w)
    ensures HeaderFold([header + IntToString(n) + w], header, cur) == Ok(Some(n))
  {
    var line: string := header + IntToString(n) + w;
    var ls: seq<string> := [line];
    HeaderValueOf(header, n, w);
    assert line[..|header|] == header;
    assert ls[0] == line && ls[1..] == [];
  }

  /** The integer after the prefix, trailing whitespace stripped first. */
  lemma HeaderValueOf(header: string, n: int, w: string)
    requires |header| > 0 && Lacks(IntToString(n), header[0]) && AllSpace(w)
    ensures HeaderValue(header + IntToString(n) + w, header) == Ok(n)
  {
    HeaderStrip(header, n, w);
    HeaderSplit(header, n);
    ParseIntToString(n);
  }

  lemma HeaderStrip(header: string, n: int, w: string)
    requires AllSpace(w)
    ensures RStrip(header + IntToString(n) + w) == header + IntToString(n)
  {
    var d := IntToString(n);
    var h := header + d;
    ParseIntToString(n);
    assert h[|h| - 1] == d[|d| - 1];
    RStripTrailing(h, w);
  }

  lemma HeaderSplit(header: string, n: int)
    requires |header| > 0 && Lacks(IntToString(n), header[0])
    ensures Split(header + IntToString(n), header) == ["", IntToString(n)]
  {
    var d := IntToString(n);
    assert "" + header + d == header + d;
    SplitFirst("", header, d);
    SplitNone(d, header);
  }

  /** A header line read with its newline: `itemnum: 5\n` sets the count to 5. */
  lemma HeaderLineWithNewline()
    ensures HeaderFold(["itemnum: 5\n"], "itemnum: ", None) == Ok(Some(5))
  {
    assert IntToString(5) == "5";
    assert "itemnum: 5\n" == "itemnum: " + IntToString(5) + "\n";
    HeaderLine("itemnum: ", 5, "\n");
  }

  /** With no header prefix there is no count check: the kept lines are returned as they are. */
  lemma NoHeaderPrefixNoCheck(lines: seq<string>, avoid: seq<string>)
    ensures QueryListSpec(lines, "", avoid) == Ok(RStripAll(Keep(lines, NotAvoidedFn(avoid))))
  {
    KeptLinesIsFilter(lines, avoid);
  }

  /** With a header prefix, the outcome is decided by the last header's count:
      missing, zero, different from the number of kept lines, or equal to it. */
  lemma CountCheck(lines: seq<string>, header: string, avoid: seq<string>)
    requires |header| > 0 && HeaderFold(lines, header, None).Ok?
    ensures var exp := HeaderFold(lines, header, None).value;
            var r := QueryListSpec(lines, header, avoid);
            (exp.None? ==> r == Err(UnboundLocalError("exp_itemnum"))) &&
            (exp == Some(0) ==> r == Err(NotParsedError)) &&
            (exp.Some? && exp.value != 0 && exp.value != |KeptLines(lines, avoid)| ==> r == Err(AssertionError)) &&
            (r.Ok? <==> exp.Some? && exp.value != 0 && exp.value == |KeptLines(lines, avoid)|)
  {
  }

  /** A file with no header line at all fails: `exp_itemnum` was never bound. */
  lemma NoHeaderUnbound(lines: seq<string>, header: string, avoid: seq<string>)
    requires |header| > 0
    requires forall k :: 0 <= k < |lines| ==> !StartsWith(lines[k], header)
    ensures QueryListSpec(lines, header, avoid) == Err(UnboundLocalError("exp_itemnum"))
  {
    HeaderFoldNoHeader(lines, header, None);
  }
}
