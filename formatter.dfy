/** `from_GenomicCoord_list_to_DataFrame` (formatter.py:3-22): a list of
    coordinates becomes four parallel columns. */
module Formatter {
  import opened Values
  import opened Coordinates

  /** The four lists the loop fills. */
  datatype Columns = Columns(chromosome: seq<Value>, start: seq<int>, end: seq<int>, version: seq<string>)

  predicate Aligned(c: Columns)
  {
    |c.start| == |c.chromosome| && |c.end| == |c.chromosome| && |c.version| == |c.chromosome|
  }

  /** Reading the columns back row by row. */
  function Zip(c: Columns): (r: seq<GenomicCoordinate>)
    requires Aligned(c)
    ensures |r| == |c.chromosome|
    ensures forall i :: 0 <= i < |r| ==>
              r[i] == GenomicCoordinate(c.chromosome[i], c.start[i], c.end[i], c.version[i])
  {
    seq(|c.chromosome|, i requires 0 <= i < |c.chromosome| =>
      GenomicCoordinate(c.chromosome[i], c.start[i], c.end[i], c.version[i]))
  }

  /** The loop of formatter.py:9-13: one entry per coordinate in every column. */
  method FromGenomicCoordList(coords: seq<GenomicCoordinate>) returns (c: Columns)
    ensures Aligned(c) && |c.chromosome| == |coords|
    ensures forall i :: 0 <= i < |coords| ==>
              c.chromosome[i] == coords[i].chromosome && c.start[i] == coords[i].start &&
              c.end[i] == coords[i].end && c.version[i] == coords[i].version
    ensures Zip(c) == coords
  {
    var chrList: seq<Value> := [];
    var startList: seq<int> := [];
    var endList: seq<int> := [];
    var versionList: seq<string> := [];
    for k := 0 to |coords|
      invariant |chrList| == k && |startList| == k && |endList| == k && |versionList| == k
      invariant forall i :: 0 <= i < k ==>
                  chrList[i] == coords[i].chromosome && startList[i] == coords[i].start &&
                  endList[i] == coords[i].end && versionList[i] == coords[i].version
    {
      var g := coords[k];
      chrList := chrList + [g.chromosome];
      startList := startList + [g.start];
      endList := endList + [g.end];
      versionList := versionList + [g.version];
    }
    c := Columns(chrList, startList, endList, versionList);
  }

  /** The dictionary handed to the DataFrame constructor (formatter.py:15-21). */
  function ColumnDict(c: Columns): (m: map<string, seq<Value>>)
    requires Aligned(c)
    ensures m.Keys == {"chromosome", "start", "end", "version"}
    ensures forall k :: k in m ==> |m[k]| == |c.chromosome|
    ensures forall i :: 0 <= i < |c.chromosome| ==>
              m["chromosome"][i] == c.chromosome[i] && m["start"][i] == Num(c.start[i]) &&
              m["end"][i] == Num(c.end[i]) && m["version"][i] == Str(c.version[i])
  {
    map["chromosome" := c.chromosome,
        "start" := seq(|c.start|, i requires 0 <= i < |c.start| => Num(c.start[i])),
        "end" := seq(|c.end|, i requires 0 <= i < |c.end| => Num(c.end[i])),
        "version" := seq(|c.version|, i requires 0 <= i < |c.version| => Str(c.version[i]))]
  }
}
