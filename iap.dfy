/** iap.py: the lowest published approach minimum per airport, from the
    DAFIF runway table (ARPT/RWY.txt) and terminal minima table
    (TRM/TRM_MIN.txt). The script keeps its tables as parallel Python lists
    and works through them with for-loops; the runway lists stay four
    parallel sequences here, a terminal-minima row is one record. */
module Iap {
  import opened Wrappers
  import opened Text
  import opened Seqs

  // ---------------------------------------------------------------------
  // Runways (iap.py:100-130)

  /** The RWY.txt columns the script reads: the airport (row[0]), the
      two runway-end identifiers (row[1], row[2]), and the length and width
      in feet (row[5], row[6]) as `int()` reads them, None where it raises
      ValueError. */
  datatype RwyRow = RwyRow(arpt: string, highEnd: string, lowEnd: string, length: Option<int>, width: Option<int>)

  /** A tab-separated RWY.txt record, by column; None is the IndexError of
      a record with fewer than seven columns. */
  function ReadRwyRow(row: seq<string>): (r: Option<RwyRow>)
    ensures r.Some? <==> |row| >= 7
    ensures r.Some? ==> r.value.arpt == row[0] && r.value.length == ParseInt(row[5]) && r.value.width == ParseInt(row[6])
  {
    if |row| < 7 then None
    else Some(RwyRow(row[0], row[1], row[2], ParseInt(row[5]), ParseInt(row[6])))
  }

  /** One runway end: an element of each of the four parallel lists. */
  datatype RwyEnd = RwyEnd(arpt: string, rwy: string, length: int, width: int)

  /** `rwy_arpt_raw`, `rwy_rwy_raw`, `rwy_len_raw`, `rwy_wid_raw`. */
  datatype RunwayLists = RunwayLists(arpt: seq<string>, rwy: seq<string>, len: seq<int>, wid: seq<int>)
  {
    /** The four lists have one element per runway end. */
    predicate Aligned() {
      |rwy| == |arpt| && |len| == |arpt| && |wid| == |arpt|
    }

    /** The k-th elements of the four lists, read together. */
    function Ends(): seq<RwyEnd>
      requires Aligned()
    {
      seq(|arpt|, k requires 0 <= k < |arpt| => RwyEnd(arpt[k], rwy[k], len[k], wid[k]))
    }
  }

  /** The four lists that a sequence of runway ends spreads into. */
  function Table(ends: seq<RwyEnd>): (t: RunwayLists)
    ensures t.Aligned() && t.Ends() == ends
  {
    RunwayLists(seq(|ends|, k requires 0 <= k < |ends| => ends[k].arpt),
                seq(|ends|, k requires 0 <= k < |ends| => ends[k].rwy),
                seq(|ends|, k requires 0 <= k < |ends| => ends[k].length),
                seq(|ends|, k requires 0 <= k < |ends| => ends[k].width))
  }

  /** Aligned lists are the table of the ends they form. */
  lemma {:induction false} TableOfEnds(t: RunwayLists)
    requires t.Aligned()
    ensures Table(t.Ends()) == t
  {
    var u := Table(t.Ends());
    assert u.arpt == t.arpt && u.rwy == t.rwy && u.len == t.len && u.wid == t.wid;
  }

  /** `int(row[5])` and `int(row[6])` both succeed. */
  predicate Parsed(row: RwyRow) {
    row.length.Some? && row.width.Some?
  }

  /** The two ends of a parsed row: first the end in row[1], then the one
      in row[2], each with the row's airport, length and width. */
  function EndsOf(row: RwyRow): seq<RwyEnd>
    requires Parsed(row)
  {
    var l, w := row.length.value, row.width.value;
    [RwyEnd(row.arpt, row.highEnd, l, w), RwyEnd(row.arpt, row.lowEnd, l, w)]
  }

  /** The runway ends of the RWY.txt rows, in row order; None where `int()`
      raises ValueError. */
  function RunwayEnds(rows: seq<RwyRow>): (r: Option<seq<RwyEnd>>)
    ensures r.Some? <==> forall k :: 0 <= k < |rows| ==> Parsed(rows[k])
    ensures r.Some? ==> |r.value| == 2 * |rows|
  {
    if rows == [] then Some([])
    else
      match RunwayEnds(Init(rows))
      case None => None
      case Some(e) => if Parsed(Last(rows)) then Some(e + EndsOf(Last(rows))) else None
  }

  /** Each RWY.txt row contributes its two ends at positions 2j and 2j+1. */
  lemma {:induction false} RunwayEndsTwoPerRow(rows: seq<RwyRow>, j: nat)
    requires RunwayEnds(rows).Some? && j < |rows|
    ensures Parsed(rows[j])
    ensures RunwayEnds(rows).value[2 * j..2 * j + 2] == EndsOf(rows[j])
  {
    var e := RunwayEnds(rows).value;
    var init := Init(rows);
    if j < |init| {
      RunwayEndsTwoPerRow(init, j);
      var e' := RunwayEnds(init).value;
      assert e == e' + EndsOf(Last(rows));
      assert e[2 * j..2 * j + 2] == e'[2 * j..2 * j + 2];
      assert init[j] == rows[j];
    } else {
      assert e[2 * j..2 * j + 2] == EndsOf(Last(rows));
    }
  }

  /** Appending one row's ends to the four lists appends them to the list
      of ends they form. */
  lemma {:induction false} EndsAppend(t: RunwayLists, row: RwyRow)
    requires t.Aligned() && Parsed(row)
    ensures var l, w := row.length.value, row.width.value;
      var t' := RunwayLists(t.arpt + [row.arpt, row.arpt], t.rwy + [row.highEnd, row.lowEnd], t.len + [l, l], t.wid + [w, w]);
      t'.Aligned() && t'.Ends() == t.Ends() + EndsOf(row)
  {
  }

  /** The loop that reads RWY.txt (iap.py:107-115). */
  method ExpandRunways(rows: seq<RwyRow>) returns (r: Option<RunwayLists>)
    ensures r.Some? <==> RunwayEnds(rows).Some?
    ensures r.Some? ==> r.value.Aligned() && r.value.Ends() == RunwayEnds(rows).value
  {
    var t := RunwayLists([], [], [], []);
    for i := 0 to |rows|
      invariant RunwayEnds(rows[..i]).Some?
      invariant t.Aligned() && t.Ends() == RunwayEnds(rows[..i]).value
    {
      var row := rows[i];
      assert Init(rows[..i + 1]) == rows[..i] && Last(rows[..i + 1]) == row;
      var l := row.length;
      if l.None? {
        RunwayEndsPrefix(rows, i + 1);
        return None;
      }
      var w := row.width;
      if w.None? {
        RunwayEndsPrefix(rows, i + 1);
        return None;
      }
      EndsAppend(t, row);
      t := RunwayLists(t.arpt + [row.arpt], t.rwy + [row.highEnd], t.len + [l.value], t.wid + [w.value]);
      t := RunwayLists(t.arpt + [row.arpt], t.rwy + [row.lowEnd], t.len + [l.value], t.wid + [w.value]);
    }
    assert rows[..|rows|] == rows;
    return Some(t);
  }

  /** A row that fails to parse makes the whole table fail. */
  lemma {:induction false} RunwayEndsPrefix(rows: seq<RwyRow>, i: nat)
    requires i <= |rows| && RunwayEnds(rows[..i]).None?
    ensures RunwayEnds(rows).None?
  {
    var k :| 0 <= k < i && !Parsed(rows[..i][k]);
    assert rows[k] == rows[..i][k];
  }

  /** The runway filter: both dimensions at least the minimum. */
  predicate LongWide(e: RwyEnd, minLen: int, minWid: int) {
    e.length >= minLen && e.width >= minWid
  }

  /** LongWide as the test the filter applies. */
  function MeetsMinima(minLen: int, minWid: int): RwyEnd -> bool {
    e => LongWide(e, minLen, minWid)
  }

  /** The loop at iap.py:120-130. */
  method FilterRunways(t: RunwayLists, minLen: int, minWid: int) returns (f: RunwayLists)
    requires t.Aligned()
    ensures f.Aligned()
    ensures f.Ends() == Filter(t.Ends(), MeetsMinima(minLen, minWid))
  {
    var arpt, rwy, len, wid := [], [], [], [];
    ghost var keep := MeetsMinima(minLen, minWid);
    for i := 0 to |t.arpt|
      invariant RunwayLists(arpt, rwy, len, wid).Aligned()
      invariant RunwayLists(arpt, rwy, len, wid).Ends() == Filter(t.Ends()[..i], keep)
    {
      assert t.Ends()[..i + 1] == t.Ends()[..i] + [t.Ends()[i]];
      FilterSnoc(t.Ends()[..i], t.Ends()[i], keep);
      if t.len[i] >= minLen && t.wid[i] >= minWid {
        arpt, rwy, len, wid := arpt + [t.arpt[i]], rwy + [t.rwy[i]], len + [t.len[i]], wid + [t.wid[i]];
      }
    }
    assert t.Ends()[..|t.arpt|] == t.Ends();
    f := RunwayLists(arpt, rwy, len, wid);
  }

  /** The filtered lists hold exactly the runway ends that meet both
      minima, in their original order. */
  lemma {:induction false} RunwayFilterExact(t: RunwayLists, minLen: int, minWid: int, f: RunwayLists)
    requires t.Aligned() && f.Aligned()
    requires f.Ends() == Filter(t.Ends(), MeetsMinima(minLen, minWid))
    ensures forall e :: e in f.Ends() <==> e in t.Ends() && e.length >= minLen && e.width >= minWid
    ensures IsSubsequence(f.Ends(), t.Ends())
  {
    FilterKeepsExactly(t.Ends(), MeetsMinima(minLen, minWid));
  }

  // ---------------------------------------------------------------------
  // Terminal minima (iap.py:133-171)

  /** The TRM_MIN.txt columns the script keeps: the airport (row[0]), the
      procedure identifier (row[2]) and the category C decision height,
      height above touchdown, ceiling and visibility (row[15], row[17],
      row[18], row[19]). */
  datatype Procedure = Procedure(arpt: string, ident: string, catcdh: string, catcha: string, catcwc: string, catcwv: string)

  /** A tab-separated TRM_MIN.txt record, by column; None is the
      IndexError of a record with fewer than twenty columns. */
  function ReadTrmRow(row: seq<string>): (r: Option<Procedure>)
    ensures r.Some? <==> |row| >= 20
    ensures r.Some? ==> r.value.arpt == row[0] && r.value.ident == row[2]
  {
    if |row| < 20 then None
    else Some(Procedure(row[0], row[2], row[15], row[17], row[18], row[19]))
  }

  /** The test at iap.py:157-159, once `ident[0]` exists: the type filter
      occurs in the identifier's first character, the identifier does not
      mention COPTER, and the airport has a runway left after filtering. */
  predicate Kept(p: Procedure, typeFilter: string, rwyArpts: seq<string>) {
    && p.ident != []
    && Contains([p.ident[0]], typeFilter)
    && !Contains(p.ident, "COPTER")
    && p.arpt in rwyArpts
  }

  /** Kept as the test the filter applies. */
  function Keeps(typeFilter: string, rwyArpts: seq<string>): Procedure -> bool {
    p => Kept(p, typeFilter, rwyArpts)
  }

  /** The loop at iap.py:156-171; None where an empty identifier makes
      `ident[0]` raise IndexError. */
  method FilterProcedures(procs: seq<Procedure>, typeFilter: string, rwyArpts: seq<string>) returns (r: Option<seq<Procedure>>)
    ensures r.Some? <==> forall k :: 0 <= k < |procs| ==> procs[k].ident != []
    ensures r.Some? ==> r.value == Filter(procs, Keeps(typeFilter, rwyArpts))
  {
    var kept := [];
    ghost var keep := Keeps(typeFilter, rwyArpts);
    for i := 0 to |procs|
      invariant forall k :: 0 <= k < i ==> procs[k].ident != []
      invariant kept == Filter(procs[..i], keep)
    {
      var p := procs[i];
      if p.ident == [] {
        return None;
      }
      assert procs[..i + 1] == procs[..i] + [p];
      FilterSnoc(procs[..i], p, keep);
      if Contains([p.ident[0]], typeFilter) && !Contains(p.ident, "COPTER") && p.arpt in rwyArpts {
        kept := kept + [p];
      }
    }
    assert procs[..|procs|] == procs;
    return Some(kept);
  }

  /** A procedure survives exactly when the type filter is empty or is its
      identifier's first letter, it is not a helicopter procedure and its
      airport kept a runway; survivors keep their order. */
  lemma {:induction false} ProcedureFilterExact(procs: seq<Procedure>, typeFilter: string, rwyArpts: seq<string>)
    ensures forall p :: p in Filter(procs, Keeps(typeFilter, rwyArpts)) <==>
      && p in procs && p.ident != []
      && (typeFilter == "" || typeFilter == [p.ident[0]])
      && !Contains(p.ident, "COPTER") && p.arpt in rwyArpts
    ensures IsSubsequence(Filter(procs, Keeps(typeFilter, rwyArpts)), procs)
  {
    FilterKeepsExactly(procs, Keeps(typeFilter, rwyArpts));
    forall p: Procedure | p.ident != []
      ensures Contains([p.ident[0]], typeFilter) <==> typeFilter == "" || typeFilter == [p.ident[0]]
    {
      ContainsInSingleton(p.ident[0], typeFilter);
    }
  }

  // ---------------------------------------------------------------------
  // First-occurrence index tables (iap.py:173-185)

  /** Position k holds the first occurrence of its value. */
  predicate IsFirst<T(==)>(s: seq<T>, k: int) {
    0 <= k < |s| && s[k] in s && IndexOf(s, s[k]) == k
  }

  /** idx lists, in increasing order, every position where a value of s
      first occurs, then the sentinel `len(s) + 1`. */
  ghost predicate IndexTable<T>(s: seq<T>, idx: seq<int>) {
    && |idx| >= 1 && idx[|idx| - 1] == |s| + 1
    && StrictlyIncreasing(idx)
    && (forall k :: 0 <= k < |idx| - 1 ==> IsFirst(s, idx[k]))
    && (forall j :: 0 <= j < |s| ==> IndexOf(s, s[j]) in idx)
    && (s != [] ==> idx[0] == 0)
  }

  /** The j-th group of an index table is a non-empty slice starting at a
      first occurrence. */
  lemma {:induction false} TableSlice<T>(s: seq<T>, idx: seq<int>, j: int)
    requires IndexTable(s, idx) && 0 <= j < |idx| - 1
    ensures IsFirst(s, idx[j]) && idx[j] < Clamp(idx[j + 1], |s|)
  {
  }

  /** The group that holds the first occurrence of x. */
  lemma {:induction false} TableGroupOf<T>(s: seq<T>, idx: seq<int>, x: T)
    requires IndexTable(s, idx) && x in s
    ensures IndexOf(s, x) in idx && IndexOf(idx, IndexOf(s, x)) < |idx| - 1
  {
    var i := IndexOf(s, x);
    assert s[i] == x;
  }

  /** Where the group that starts at k ends: at the next first occurrence
      of a value, or at the end of s. */
  function GroupEnd<T(==)>(s: seq<T>, k: nat): (e: nat)
    requires k < |s|
    ensures k < e <= |s|
    ensures e < |s| ==> IsFirst(s, e)
    decreases |s| - k
  {
    if k + 1 == |s| || IsFirst(s, k + 1) then k + 1 else GroupEnd(s, k + 1)
  }

  /** No value first occurs inside a group. */
  lemma {:induction false} GroupEndFirst<T>(s: seq<T>, k: nat)
    requires k < |s|
    ensures forall q :: k < q < GroupEnd(s, k) ==> !IsFirst(s, q)
    decreases |s| - k
  {
    if !(k + 1 == |s| || IsFirst(s, k + 1)) {
      GroupEndFirst(s, k + 1);
    }
  }

  /** Slicing between consecutive entries of an index table, with Python's
      clamping of the sentinel, gives the groups GroupEnd describes. */
  lemma {:induction false} TableEnd<T>(s: seq<T>, idx: seq<int>, j: int)
    requires IndexTable(s, idx) && 0 <= j < |idx| - 1
    ensures idx[j] < |s| && Clamp(idx[j + 1], |s|) == GroupEnd(s, idx[j])
  {
    TableSlice(s, idx, j);
    var k := idx[j];
    var e := GroupEnd(s, k);
    var c := Clamp(idx[j + 1], |s|);
    GroupEndFirst(s, k);
    if e < c {
      assert IndexOf(s, s[e]) == e;
    }
  }

  /** `[s.index(a) for a in s]`, made a set, sorted, and closed by the
      sentinel `len(s) + 1`. */
  method FirstIndices<T(==)>(s: seq<T>) returns (idx: seq<int>)
    ensures IndexTable(s, idx)
  {
    var firsts: seq<int> := [];
    for j := 0 to |s|
      invariant |firsts| == j
      invariant forall m :: 0 <= m < j ==> firsts[m] == IndexOf(s, s[m])
    {
      firsts := firsts + [IndexOf(s, s[j])];
    }
    var sorted := SortedSet(firsts, |s|);
    forall v | v in sorted
      ensures IsFirst(s, v)
    {
      var m :| 0 <= m < |s| && firsts[m] == v;
      assert s[v] == s[m];
    }
    if s != [] {
      assert firsts[0] == 0;
      SortedSetHead(sorted, firsts);
    }
    idx := sorted + [|s| + 1];
    assert forall k :: 0 <= k < |idx| - 1 ==> idx[k] == sorted[k];
    assert forall j :: 0 <= j < |s| ==> firsts[j] in sorted;
  }

  /** `list(set(xs))` followed by `sort()`, for values below n: the values
      of xs, each once, in increasing order. Computed by listing the
      candidates below n in order. */
  method SortedSet(xs: seq<int>, n: nat) returns (ys: seq<int>)
    requires forall k :: 0 <= k < |xs| ==> 0 <= xs[k] < n
    ensures StrictlyIncreasing(ys)
    ensures forall v :: v in ys <==> v in xs
    ensures forall k :: 0 <= k < |ys| ==> 0 <= ys[k] < n
  {
    ys := [];
    for v := 0 to n
      invariant StrictlyIncreasing(ys)
      invariant forall k :: 0 <= k < |ys| ==> 0 <= ys[k] < v
      invariant forall w :: w in ys <==> w in xs && w < v
    {
      if v in xs {
        ys := ys + [v];
      }
    }
  }

  /** A strictly increasing list holding 0 and only naturals starts with 0. */
  lemma {:induction false} SortedSetHead(ys: seq<int>, xs: seq<int>)
    requires StrictlyIncreasing(ys) && (forall v :: v in ys <==> v in xs)
    requires forall k :: 0 <= k < |ys| ==> 0 <= ys[k]
    requires 0 in xs
    ensures ys != [] && ys[0] == 0
  {
    var k :| 0 <= k < |ys| && ys[k] == 0;
  }

  // ---------------------------------------------------------------------
  // Designators and names (iap.py:204-211)

  /** What the script reports for a circling approach. */
  const Circling := "&copy;"

  /** Two digits start at position p. */
  predicate TwoDigitsAt(a: string, p: int) {
    0 <= p && p + 1 < |a| && IsDigit(a[p]) && IsDigit(a[p + 1])
  }

  /** The text `[0-9]{2}[LRC]?` matches at p: the two digits, with the
      following letter when it is L, R or C. */
  function MatchAt2(a: string, p: int): (r: string)
    requires TwoDigitsAt(a, p)
    ensures 2 <= |r| <= 3 && IsDigit(r[0]) && IsDigit(r[1])
    ensures |r| == 3 ==> r[2] in "LRC"
    ensures p + |r| <= |a| && r == a[p..p + |r|]
  {
    if p + 2 < |a| && a[p + 2] in "LRC" then a[p..p + 3] else a[p..p + 2]
  }

  function DesignatorFrom(a: string, p: nat): (r: string)
    requires p <= |a|
    ensures r == Circling <==> forall q :: p <= q ==> !TwoDigitsAt(a, q)
    ensures r != Circling ==>
      exists q :: p <= q && TwoDigitsAt(a, q) && (forall q' :: p <= q' < q ==> !TwoDigitsAt(a, q')) && r == MatchAt2(a, q)
    decreases |a| - p
  {
    if p + 1 >= |a| then Circling
    else if TwoDigitsAt(a, p) then MatchAt2(a, p)
    else DesignatorFrom(a, p + 1)
  }

  /** `re.search('[0-9]{2}[LRC]?', a).group(0)`, or the circling mark
      where the search finds nothing: the leftmost two-digit position, with
      the side letter taken when present. */
  function Designator(a: string): (r: string)
    ensures r == Circling <==> forall q :: !TwoDigitsAt(a, q)
    ensures r != Circling ==>
      exists q :: TwoDigitsAt(a, q) && (forall q' :: 0 <= q' < q ==> !TwoDigitsAt(a, q')) && r == MatchAt2(a, q)
  {
    DesignatorFrom(a, 0)
  }

  /** `a.split(' ', maxsplit=1)[1].replace('RW', 'RWY ').strip()`; None
      where there is no space and the index raises IndexError. */
  function ProcedureName(a: string): (r: Option<string>)
    ensures r.None? <==> ' ' !in a
    ensures r.Some? ==> r.value == [] || (!IsSpace(r.value[0]) && !IsSpace(r.value[|r.value| - 1]))
    ensures r.Some? ==> exists k :: (0 <= k < |a| && a[k] == ' ' && ' ' !in a[..k] &&
                                     r.value == Strip(Join("RWY ", SplitOn(a[k + 1..], "RW"))))
  {
    match AfterFirstSpace(a)
    case None => None
    case Some(t) =>
      ReplaceIsJoinOfSplit(t, "RW", "RWY ");
      Some(Strip(ReplaceAll(t, "RW", "RWY ")))
  }

  /** A name without RW and without surrounding blanks is reported as it is
      written after the first space. */
  lemma {:induction false} NameKeptVerbatim(a: string, k: nat)
    requires k < |a| && a[k] == ' ' && ' ' !in a[..k]
    requires a[k + 1..] != [] && !IsSpace(a[k + 1]) && !IsSpace(a[|a| - 1])
    requires !Contains(a[k + 1..], "RW")
    ensures ProcedureName(a) == Some(a[k + 1..])
  {
    var i := IndexOfChar(a, ' ');
    assert i == k;
    var t := a[k + 1..];
    assert AfterFirstSpace(a) == Some(t);
    ReplaceAbsent(t, "RW", "RWY ");
    assert t[|t| - 1] == a[|a| - 1];
  }

  /** The designator of each procedure of a group. */
  function Designators(group: seq<Procedure>): (d: seq<string>)
    ensures |d| == |group| && forall k :: 0 <= k < |group| ==> d[k] == Designator(group[k].ident)
  {
    seq(|group|, k requires 0 <= k < |group| => Designator(group[k].ident))
  }

  /** The name of each procedure of a group; "" stands in where there is
      none, which only happens where the script has already raised. */
  function Names(group: seq<Procedure>): (n: seq<string>)
    ensures |n| == |group|
    ensures forall k :: 0 <= k < |group| && ProcedureName(group[k].ident).Some? ==> Some(n[k]) == ProcedureName(group[k].ident)
  {
    seq(|group|, k requires 0 <= k < |group| => match ProcedureName(group[k].ident) case Some(n) => n case None => "")
  }

  /** The designators and names of the first b procedures of a group. */
  ghost predicate Extracted(group: seq<Procedure>, b: int, desig: seq<string>, names: seq<string>) {
    && 0 <= b <= |group| && |desig| == b && |names| == b
    && forall k :: 0 <= k < b ==>
      ' ' in group[k].ident && desig[k] == Designator(group[k].ident) && Some(names[k]) == ProcedureName(group[k].ident)
  }

  lemma {:induction false} ExtractedStep(group: seq<Procedure>, b: int, desig: seq<string>, names: seq<string>, name: string)
    requires Extracted(group, b, desig, names) && b < |group|
    requires ProcedureName(group[b].ident) == Some(name)
    ensures Extracted(group, b + 1, desig + [Designator(group[b].ident)], names + [name])
  {
  }

  /** The loop at iap.py:204-211 over one airport's procedures. */
  method ExtractIdents(group: seq<Procedure>) returns (r: Option<(seq<string>, seq<string>)>)
    ensures r.Some? <==> forall k :: 0 <= k < |group| ==> ' ' in group[k].ident
    ensures r.Some? ==> Extracted(group, |group|, r.value.0, r.value.1)
    ensures r.Some? ==> r.value == (Designators(group), Names(group))
  {
    var desig, names := [], [];
    for b := 0 to |group|
      invariant Extracted(group, b, desig, names)
    {
      var a := group[b].ident;
      var name := ProcedureName(a);
      if name.None? {
        return None;
      }
      ExtractedStep(group, b, desig, names, name.value);
      desig := desig + [Designator(a)];
      names := names + [name.value];
    }
    assert desig == Designators(group) && names == Names(group);
    return Some((desig, names));
  }

  // ---------------------------------------------------------------------
  // Ordering by height above touchdown (iap.py:213)

  /** Python's `<` on str: code point by code point, a proper prefix first. */
  predicate StrLess(a: string, b: string)
    decreases |a|
  {
    if a == [] then b != []
    else if b == [] then false
    else if a[0] != b[0] then a[0] < b[0]
    else StrLess(a[1..], b[1..])
  }

  lemma {:induction false} StrLessIrreflexive(a: string)
    ensures !StrLess(a, a)
    decreases |a|
  {
    if a != [] {
      StrLessIrreflexive(a[1..]);
    }
  }

  lemma {:induction false} StrLessTrans(a: string, b: string, c: string)
    requires StrLess(a, b) && StrLess(b, c)
    ensures StrLess(a, c)
    decreases |a|
  {
    if a != [] && a[0] == b[0] && b[0] == c[0] {
      StrLessTrans(a[1..], b[1..], c[1..]);
    }
  }

  lemma {:induction false} StrLessTotal(a: string, b: string)
    requires a != b
    ensures StrLess(a, b) || StrLess(b, a)
    decreases |a|
  {
    if a != [] && b != [] && a[0] == b[0] {
      assert a == [a[0]] + a[1..] && b == [b[0]] + b[1..];
      StrLessTotal(a[1..], b[1..]);
    }
  }

  /** Index x comes before index y in `sorted(range(n), key=keys)`: a
      smaller key, or an equal key and a smaller index (the sort is
      stable). */
  predicate Before(keys: seq<string>, x: int, y: int) {
    && 0 <= x < |keys| && 0 <= y < |keys|
    && (StrLess(keys[x], keys[y]) || (keys[x] == keys[y] && x < y))
  }

  predicate SortedBy(keys: seq<string>, order: seq<int>) {
    forall j, l :: 0 <= j < l < |order| ==> Before(keys, order[j], order[l])
  }

  /** Insertion of the index x, larger than every index in o, after every
      element whose key is not greater than its own. */
  function Insert(keys: seq<string>, o: seq<int>, x: int): (r: seq<int>)
    requires 0 <= x < |keys| && forall k :: 0 <= k < |o| ==> 0 <= o[k] < |keys|
    ensures |r| == |o| + 1
    ensures forall v :: v in r <==> v in o || v == x
    ensures forall k :: 0 <= k < |r| ==> r[k] == x || r[k] in o
  {
    if o == [] then [x]
    else if StrLess(keys[x], keys[o[0]]) then [x] + o
    else [o[0]] + Insert(keys, o[1..], x)
  }

  /** `sorted(range(n), key=lambda x: keys[x])`, built by insertion. */
  function StableOrder(keys: seq<string>, n: nat): (r: seq<int>)
    requires n <= |keys|
    ensures |r| == n
    ensures forall v :: v in r <==> 0 <= v < n
    ensures forall k :: 0 <= k < n ==> 0 <= r[k] < n
  {
    if n == 0 then [] else Insert(keys, StableOrder(keys, n - 1), n - 1)
  }

  lemma {:induction false} InsertSorted(keys: seq<string>, o: seq<int>, x: int)
    requires 0 <= x < |keys| && SortedBy(keys, o)
    requires forall k :: 0 <= k < |o| ==> 0 <= o[k] < x
    ensures SortedBy(keys, Insert(keys, o, x))
  {
    if o != [] {
      var r := Insert(keys, o, x);
      if StrLess(keys[x], keys[o[0]]) {
        forall l | 0 <= l < |o|
          ensures Before(keys, x, o[l])
        {
          if l > 0 {
            assert Before(keys, o[0], o[l]);
            if StrLess(keys[o[0]], keys[o[l]]) {
              StrLessTrans(keys[x], keys[o[0]], keys[o[l]]);
            }
          }
        }
        assert forall l :: 1 <= l < |r| ==> r[l] == o[l - 1];
      } else {
        InsertSorted(keys, o[1..], x);
        var t := Insert(keys, o[1..], x);
        assert r == [o[0]] + t;
        if keys[x] != keys[o[0]] {
          StrLessTotal(keys[x], keys[o[0]]);
        }
        assert Before(keys, o[0], x);
        forall l | 0 <= l < |t|
          ensures Before(keys, o[0], t[l])
        {
          assert t[l] in o[1..] || t[l] == x;
          if t[l] != x {
            var m :| 0 <= m < |o[1..]| && o[1..][m] == t[l];
            assert Before(keys, o[0], o[m + 1]);
          }
        }
      }
    }
  }

  /** The order the sort produces lists every index once, by key, with ties
      in index order. */
  lemma {:induction false} StableOrderSorted(keys: seq<string>, n: nat)
    requires n <= |keys|
    ensures SortedBy(keys, StableOrder(keys, n))
  {
    if n > 0 {
      StableOrderSorted(keys, n - 1);
      InsertSorted(keys, StableOrder(keys, n - 1), n - 1);
    }
  }

  // ---------------------------------------------------------------------
  // Choosing one procedure per airport (iap.py:213-239)

  /** The condition at iap.py:217-219: a circling approach, or one for a
      runway end the airport has, with a category C height above
      touchdown. */
  predicate Qualifies(group: seq<Procedure>, desig: seq<string>, rwys: seq<string>, x: int)
    requires |desig| == |group|
  {
    0 <= x < |group| && (desig[x] == Circling || desig[x] in rwys) && group[x].catcha != ""
  }

  /** The height-above-touchdown texts the sort keys on. */
  function Catchas(group: seq<Procedure>): (keys: seq<string>)
    ensures |keys| == |group| && forall k :: 0 <= k < |group| ==> keys[k] == group[k].catcha
  {
    seq(|group|, k requires 0 <= k < |group| => group[k].catcha)
  }

  /** `rwy_len.index(max(rwy_len))`: the first of the longest runway ends. */
  function FirstLongest(len: seq<int>): (r: nat)
    requires len != []
    ensures r < |len|
    ensures forall k :: 0 <= k < |len| ==> len[k] <= len[r]
    ensures forall k :: 0 <= k < r ==> len[k] < len[r]
  {
    if |len| == 1 then 0
    else
      var t := FirstLongest(len[1..]);
      if len[0] >= len[1 + t] then 0 else 1 + t
  }

  /** The runway end reported for a designator: the first longest one for
      a circling approach, otherwise the first end with that designator. */
  predicate ReportsRunway(desig: string, rwys: seq<string>, len: seq<int>, r: int)
    requires |len| == |rwys|
  {
    && 0 <= r < |rwys|
    && (desig == Circling ==>
          (forall k :: 0 <= k < |len| ==> len[k] <= len[r]) && forall k :: 0 <= k < r ==> len[k] < len[r])
    && (desig != Circling ==> rwys[r] == desig && forall k :: 0 <= k < r ==> rwys[k] != desig)
  }

  /** The RWY property: the circling mark for a circling approach, the
      runway end, its length and its width in feet. */
  function RwyLabel(circling: bool, rwy: string, len: int, wid: int): string {
    (if circling then Circling + " " else "") + rwy + " (" + IntToString(len) + "&prime;&times;" + IntToString(wid) + "&prime;)"
  }

  /** The IAP property: the procedure name, then the category C decision
      height, height above touchdown, ceiling without leading zeros and
      visibility. */
  function IapLabel(name: string, p: Procedure): string {
    name + ": <span class='details' title='Class C'>" + p.catcdh + "&prime; [" + p.catcha + "&prime;] ("
      + LStripChar(p.catcwc, '0') + "/" + p.catcwv + ")" + "</span>"
  }

  /** The procedure chosen for an airport (`ii_trm[iii]`), the runway end
      reported with it (`r`) and the two texts appended to `trm_rwy` and
      `trm_iap`. */
  datatype Choice = Choice(index: nat, runway: nat, rwy: string, iap: string)

  /** What is reported for procedure c.index: the runway end chosen for
      its designator and the two texts built from it. */
  predicate Describes(c: Choice, group: seq<Procedure>, desig: seq<string>, names: seq<string>,
                      rwys: seq<string>, len: seq<int>, wid: seq<int>)
    requires |desig| == |group| && |names| == |group| && |len| == |rwys| && |wid| == |rwys|
  {
    && c.index < |group|
    && ReportsRunway(desig[c.index], rwys, len, c.runway)
    && c.rwy == RwyLabel(desig[c.index] == Circling, rwys[c.runway], len[c.runway], wid[c.runway])
    && c.iap == IapLabel(names[c.index], group[c.index])
  }

  /** The while loop at iap.py:213-239 over one airport: the procedures in
      stable ascending order of their height-above-touchdown text, stopping
      at the first that qualifies. */
  method SelectProcedure(group: seq<Procedure>, desig: seq<string>, names: seq<string>,
                         rwys: seq<string>, len: seq<int>, wid: seq<int>) returns (choice: Option<Choice>)
    requires |desig| == |group| && |names| == |group|
    requires |len| == |rwys| && |wid| == |rwys| && rwys != []
    ensures choice.None? <==> forall x :: 0 <= x < |group| ==> !Qualifies(group, desig, rwys, x)
    ensures choice.Some? ==>
      && Qualifies(group, desig, rwys, choice.value.index)
      && (forall y :: Qualifies(group, desig, rwys, y) && y != choice.value.index ==> Before(Catchas(group), choice.value.index, y))
      && Describes(choice.value, group, desig, names, rwys, len, wid)
    ensures choice == Choose(group, desig, names, rwys, len, wid)
  {
    var keys := Catchas(group);
    var order := StableOrder(keys, |keys|);
    var rwy := "";
    var iii := 0;
    choice := None;
    while rwy == "" && iii < |order|
      invariant 0 <= iii <= |order|
      invariant forall m :: 0 <= m < iii ==> !Qualifies(group, desig, rwys, order[m])
      invariant rwy == "" <==> choice.None?
      invariant choice.Some? ==> iii < |order| && choice.value.index == order[iii]
      invariant choice.Some? ==>
        Qualifies(group, desig, rwys, choice.value.index) && Describes(choice.value, group, desig, names, rwys, len, wid)
      decreases |order| - iii + (if rwy == "" then 1 else 0)
    {
      var x := order[iii];
      if (desig[x] == Circling || desig[x] in rwys) && group[x].catcha != "" {
        var c := Report(group, desig, names, rwys, len, wid, x);
        rwy := c.rwy;
        choice := Some(c);
      } else {
        iii := iii + 1;
      }
    }
    ScanOutcome(group, desig, names, rwys, len, wid, order, iii, choice);
    ChooseSpec(group, desig, names, rwys, len, wid);
  }

  /** Where the scan of the sorted order stops determines the reference
      choice: past the end with none, or at the first qualifying procedure. */
  lemma {:induction false} ScanOutcome(group: seq<Procedure>, desig: seq<string>, names: seq<string>,
                                       rwys: seq<string>, len: seq<int>, wid: seq<int>,
                                       order: seq<int>, iii: nat, choice: Option<Choice>)
    requires |desig| == |group| && |names| == |group|
    requires |len| == |rwys| && |wid| == |rwys| && rwys != []
    requires order == StableOrder(Catchas(group), |group|)
    requires iii <= |order| && forall m :: 0 <= m < iii ==> !Qualifies(group, desig, rwys, order[m])
    requires choice.None? ==> iii == |order|
    requires choice.Some? ==>
      && iii < |order| && choice.value.index == order[iii]
      && Qualifies(group, desig, rwys, choice.value.index) && Describes(choice.value, group, desig, names, rwys, len, wid)
    ensures choice == Choose(group, desig, names, rwys, len, wid)
  {
    StableOrderSorted(Catchas(group), |group|);
    if choice.None? {
      forall y | 0 <= y < |group|
        ensures !Qualifies(group, desig, rwys, y)
      {
        assert y in order;
      }
    } else {
      FirstInOrderIsLeast(group, desig, rwys, order, iii);
    }
    ChoiceIsReference(group, desig, names, rwys, len, wid, choice);
  }

  /** What SelectProcedure establishes determines its result: it is the
      reference choice. */
  lemma {:induction false} ChoiceIsReference(group: seq<Procedure>, desig: seq<string>, names: seq<string>,
                                             rwys: seq<string>, len: seq<int>, wid: seq<int>, choice: Option<Choice>)
    requires |desig| == |group| && |names| == |group|
    requires |len| == |rwys| && |wid| == |rwys| && rwys != []
    requires choice.None? <==> forall x :: 0 <= x < |group| ==> !Qualifies(group, desig, rwys, x)
    requires choice.Some? ==>
      && Qualifies(group, desig, rwys, choice.value.index)
      && (forall y :: Qualifies(group, desig, rwys, y) && y != choice.value.index ==> Before(Catchas(group), choice.value.index, y))
      && Describes(choice.value, group, desig, names, rwys, len, wid)
    ensures choice == Choose(group, desig, names, rwys, len, wid)
  {
    LeastSpec(group, desig, rwys, |group|);
    if choice.Some? {
      var c := choice.value;
      LeastUnique(group, desig, rwys, c.index);
      ReportsRunwayUnique(desig[c.index], rwys, len, c.runway);
    }
  }

  /** The texts reported for the qualifying procedure x (iap.py:220-237). */
  method Report(group: seq<Procedure>, desig: seq<string>, names: seq<string>,
                rwys: seq<string>, len: seq<int>, wid: seq<int>, x: nat) returns (c: Choice)
    requires |desig| == |group| && |names| == |group|
    requires |len| == |rwys| && |wid| == |rwys| && rwys != []
    requires Qualifies(group, desig, rwys, x)
    ensures c.index == x && c.rwy != ""
    ensures Describes(c, group, desig, names, rwys, len, wid)
  {
    var r: nat, mark: string;
    if desig[x] == Circling {
      r := FirstLongest(len);
      mark := Circling + " ";
    } else {
      r := IndexOf(rwys, desig[x]);
      IndexOfFirst(rwys, desig[x]);
      mark := "";
    }
    var rwy := mark + rwys[r] + " (" + IntToString(len[r]) + "&prime;&times;" + IntToString(wid[r]) + "&prime;)";
    var iap := names[x] + ": <span class='details' title='Class C'>" + group[x].catcdh + "&prime; ["
      + group[x].catcha + "&prime;] (" + LStripChar(group[x].catcwc, '0') + "/" + group[x].catcwv + ")" + "</span>";
    c := Choice(x, r, rwy, iap);
  }

  /** The first qualifying procedure in the sorted order comes before every
      other qualifying one. */
  lemma {:induction false} FirstInOrderIsLeast(group: seq<Procedure>, desig: seq<string>, rwys: seq<string>, order: seq<int>, i: int)
    requires |desig| == |group|
    requires SortedBy(Catchas(group), order) && forall v :: 0 <= v < |group| ==> v in order
    requires 0 <= i < |order| && forall m :: 0 <= m < i ==> !Qualifies(group, desig, rwys, order[m])
    ensures forall y :: Qualifies(group, desig, rwys, y) && y != order[i] ==> Before(Catchas(group), order[i], y)
  {
    forall y | Qualifies(group, desig, rwys, y) && y != order[i]
      ensures Before(Catchas(group), order[i], y)
    {
      assert y in order;
      var l :| 0 <= l < |order| && order[l] == y;
      assert l > i;
    }
  }

  /** A reference for the choice: among the first n procedures, the one
      that qualifies and comes first by height above touchdown, ties going
      to the lower index. */
  function Least(group: seq<Procedure>, desig: seq<string>, rwys: seq<string>, n: nat): (r: Option<nat>)
    requires |desig| == |group| && n <= |group|
    ensures r.Some? ==> r.value < n && Qualifies(group, desig, rwys, r.value)
  {
    if n == 0 then None
    else
      var m := Least(group, desig, rwys, n - 1);
      if !Qualifies(group, desig, rwys, n - 1) then m
      else if m.Some? && Before(Catchas(group), m.value, n - 1) then m
      else Some(n - 1)
  }

  lemma {:induction false} LeastSpec(group: seq<Procedure>, desig: seq<string>, rwys: seq<string>, n: nat)
    requires |desig| == |group| && n <= |group|
    ensures Least(group, desig, rwys, n).None? <==> forall y :: 0 <= y < n ==> !Qualifies(group, desig, rwys, y)
    ensures Least(group, desig, rwys, n).Some? ==> forall y :: 0 <= y < n && Qualifies(group, desig, rwys, y) && y != Least(group, desig, rwys, n).value ==>
      Before(Catchas(group), Least(group, desig, rwys, n).value, y)
  {
    if n > 0 {
      LeastSpec(group, desig, rwys, n - 1);
      var keys := Catchas(group);
      var m := Least(group, desig, rwys, n - 1);
      var x := n - 1;
      if Qualifies(group, desig, rwys, x) && m.Some? && !Before(keys, m.value, x) {
        StrLessTotal(keys[m.value], keys[x]);
        forall y | 0 <= y < n && Qualifies(group, desig, rwys, y) && y != x
          ensures Before(keys, x, y)
        {
          if y != m.value {
            assert Before(keys, m.value, y);
            if StrLess(keys[m.value], keys[y]) {
              StrLessTrans(keys[x], keys[m.value], keys[y]);
            }
          }
        }
      }
    }
  }

  /** A qualifying procedure that comes before every other qualifying one
      is the reference choice. */
  lemma {:induction false} LeastUnique(group: seq<Procedure>, desig: seq<string>, rwys: seq<string>, x: nat)
    requires |desig| == |group| && Qualifies(group, desig, rwys, x)
    requires forall y :: Qualifies(group, desig, rwys, y) && y != x ==> Before(Catchas(group), x, y)
    ensures Least(group, desig, rwys, |group|) == Some(x)
  {
    LeastSpec(group, desig, rwys, |group|);
    var keys := Catchas(group);
    var z := Least(group, desig, rwys, |group|).value;
    if z != x {
      assert Before(keys, x, z) && Before(keys, z, x);
      if StrLess(keys[x], keys[z]) && StrLess(keys[z], keys[x]) {
        StrLessTrans(keys[x], keys[z], keys[x]);
      }
      StrLessIrreflexive(keys[x]);
    }
  }

  /** The runway end reported for designator d (iap.py:222-227). */
  function RunwayFor(d: string, rwys: seq<string>, len: seq<int>): (r: nat)
    requires |len| == |rwys| && rwys != [] && (d == Circling || d in rwys)
    ensures ReportsRunway(d, rwys, len, r)
  {
    if d == Circling then FirstLongest(len)
    else
      IndexOfFirst(rwys, d);
      IndexOf(rwys, d)
  }

  /** ReportsRunway fixes the runway end. */
  lemma {:induction false} ReportsRunwayUnique(d: string, rwys: seq<string>, len: seq<int>, r: int)
    requires |len| == |rwys| && ReportsRunway(d, rwys, len, r)
    ensures (d == Circling || d in rwys) && r == RunwayFor(d, rwys, len)
  {
  }

  /** The reference choice for one airport: the least qualifying procedure,
      the runway end for its designator and the two texts. */
  function Choose(group: seq<Procedure>, desig: seq<string>, names: seq<string>,
                  rwys: seq<string>, len: seq<int>, wid: seq<int>): Option<Choice>
    requires |desig| == |group| && |names| == |group|
    requires |len| == |rwys| && |wid| == |rwys| && rwys != []
  {
    match Least(group, desig, rwys, |group|)
    case None => None
    case Some(x) =>
      var r := RunwayFor(desig[x], rwys, len);
      Some(Choice(x, r, RwyLabel(desig[x] == Circling, rwys[r], len[r], wid[r]), IapLabel(names[x], group[x])))
  }

  /** The reference choice keeps the script's promise: none exactly when no
      procedure of the group qualifies, otherwise the qualifying procedure
      that comes first in the stable CATCHA order, with the texts of its
      runway end. */
  lemma {:induction false} ChooseSpec(group: seq<Procedure>, desig: seq<string>, names: seq<string>,
                                      rwys: seq<string>, len: seq<int>, wid: seq<int>)
    requires |desig| == |group| && |names| == |group|
    requires |len| == |rwys| && |wid| == |rwys| && rwys != []
    ensures var choice := Choose(group, desig, names, rwys, len, wid);
      && (choice.None? <==> forall x :: 0 <= x < |group| ==> !Qualifies(group, desig, rwys, x))
      && (choice.Some? ==>
           && Qualifies(group, desig, rwys, choice.value.index)
           && (forall y :: Qualifies(group, desig, rwys, y) && y != choice.value.index ==> Before(Catchas(group), choice.value.index, y))
           && Describes(choice.value, group, desig, names, rwys, len, wid))
  {
    LeastSpec(group, desig, rwys, |group|);
  }

  // ---------------------------------------------------------------------
  // The per-airport loop (iap.py:186-239)

  /** `trm_arpt`, `trm_rwy` and `trm_iap`. */
  datatype Minima = Minima(arpt: seq<string>, rwy: seq<string>, iap: seq<string>)

  function Airports(procs: seq<Procedure>): (s: seq<string>)
    ensures |s| == |procs| && forall k :: 0 <= k < |procs| ==> s[k] == procs[k].arpt
  {
    seq(|procs|, k requires 0 <= k < |procs| => procs[k].arpt)
  }

  /** A slice bound as Python reads it: one past the end means the end. */
  function Clamp(j: nat, n: nat): (r: nat)
    ensures r <= n && r <= j && (j <= n ==> r == j)
  {
    if j < n then j else n
  }

  /** The choice the script makes for airport a of the kept procedures
      procs: among a's group, against the runway ends of a's group in the
      runway lists; None where a has no group in either list or no
      procedure of its group qualifies. */
  function ChoiceFor(t: RunwayLists, procs: seq<Procedure>, a: string): Option<Choice> {
    var s := Airports(procs);
    if !t.Aligned() || a !in s || a !in t.arpt then None
    else
      var k := IndexOf(s, a);
      var group := procs[k..GroupEnd(s, k)];
      var lo := IndexOf(t.arpt, a);
      var hi := GroupEnd(t.arpt, lo);
      Choose(group, Designators(group), Names(group), t.rwy[lo..hi], t.len[lo..hi], t.wid[lo..hi])
  }

  /** ChoiceFor as a function of the airport alone. */
  function ChoiceOf(t: RunwayLists, procs: seq<Procedure>): string -> Option<Choice> {
    a => ChoiceFor(t, procs, a)
  }

  /** The airports that have a choice. */
  function HasChoice(choices: string -> Option<Choice>): string -> bool {
    a => choices(a).Some?
  }

  function RwyOf(c: Option<Choice>): string {
    if c.Some? then c.value.rwy else ""
  }

  function IapOf(c: Option<Choice>): string {
    if c.Some? then c.value.iap else ""
  }

  /** The three result lists as a reference: the airports of procs, in order
      of first appearance, that have a choice, each with the texts of its
      choice. */
  function Tabulate(choices: string -> Option<Choice>, procs: seq<Procedure>): Minima {
    var arpts := Filter(FirstOccurrences(Airports(procs)), HasChoice(choices));
    Minima(arpts,
           seq(|arpts|, m requires 0 <= m < |arpts| => RwyOf(choices(arpts[m]))),
           seq(|arpts|, m requires 0 <= m < |arpts| => IapOf(choices(arpts[m]))))
  }

  /** The three lists report each airport of procs that has a choice, once
      and in order of first appearance, with the texts of that choice. */
  lemma {:induction false} TabulateSpec(choices: string -> Option<Choice>, procs: seq<Procedure>)
    ensures var m := Tabulate(choices, procs);
      && |m.rwy| == |m.arpt| && |m.iap| == |m.arpt| && Distinct(m.arpt)
      && (forall a :: a in m.arpt <==> a in Airports(procs) && choices(a).Some?)
      && (forall k :: 0 <= k < |m.arpt| ==>
            choices(m.arpt[k]).Some? && m.rwy[k] == choices(m.arpt[k]).value.rwy && m.iap[k] == choices(m.arpt[k]).value.iap)
      && (forall j, k :: 0 <= j < k < |m.arpt| ==>
            IndexOf(Airports(procs), m.arpt[j]) < IndexOf(Airports(procs), m.arpt[k]))
  {
    var firsts := FirstOccurrences(Airports(procs));
    FilterKeepsExactly(firsts, HasChoice(choices));
    FilterDistinct(firsts, HasChoice(choices));
    FirstOccurrencesOrder(Airports(procs));
    FilterInOrder(firsts, Airports(procs), HasChoice(choices));
    assert InOrderOf(Tabulate(choices, procs).arpt, Airports(procs));
    forall a | a in Airports(procs)
      ensures a in firsts
    {
      var k :| 0 <= k < |Airports(procs)| && Airports(procs)[k] == a;
    }
  }

  /** A group adds exactly its airport to the airports in order of first
      appearance. */
  lemma {:induction false} FirstOccurrencesGroup<T>(s: seq<T>, k: nat, e: nat)
    requires IsFirst(s, k) && k < e <= |s|
    requires forall q :: k < q < e ==> !IsFirst(s, q)
    ensures FirstOccurrences(s[..e]) == FirstOccurrences(s[..k]) + [s[k]]
    decreases e
  {
    var p := s[..e];
    assert Init(p) == s[..e - 1] && Last(p) == s[e - 1];
    if e == k + 1 {
      IndexOfFirst(s, s[k]);
    } else {
      FirstOccurrencesGroup(s, k, e - 1);
      assert !IsFirst(s, e - 1);
      var i := IndexOf(s, s[e - 1]);
      IndexOfFirst(s, s[e - 1]);
      assert i <= e - 1;
      assert s[..e - 1][i] == s[e - 1];
    }
  }

  /** The loop at iap.py:190-239: for each airport of the kept procedures,
      in order of first appearance, the slices of the runway and procedure
      lists that the index tables delimit, the designators and names, and
      at most one chosen procedure. */
  method SelectMinima(t: RunwayLists, procs: seq<Procedure>) returns (r: Option<Minima>)
    requires t.Aligned()
    requires forall k :: 0 <= k < |procs| ==> procs[k].arpt in t.arpt
    ensures r.None? <==> exists k :: 0 <= k < |procs| && ' ' !in procs[k].ident
    ensures r.Some? ==> |r.value.rwy| == |r.value.arpt| && |r.value.iap| == |r.value.arpt|
    ensures r.Some? ==> Distinct(r.value.arpt)
    ensures r.Some? ==> forall m :: 0 <= m < |r.value.arpt| ==> r.value.arpt[m] in Airports(procs)
    ensures r.Some? ==> r.value == Tabulate(ChoiceOf(t, procs), procs)
  {
    var iRwy := FirstIndices(t.arpt);
    var s := Airports(procs);
    var iTrm := FirstIndices(s);
    var m := Minima([], [], []);
    for j := 0 to |iTrm| - 1
      invariant Scanned(procs, Clamp(iTrm[j], |s|), m.arpt)
      invariant Tabulated(ChoiceOf(t, procs), procs, Clamp(iTrm[j], |s|), m)
    {
      var k, end, lo, hi := GroupBounds(t, procs, iRwy, iTrm, j);
      var next := SelectGroup(t, procs, k, end, lo, hi, m);
      if next.None? {
        return None;
      }
      m := next.value;
    }
    assert Clamp(iTrm[|iTrm| - 1], |s|) == |s|;
    ScanDone(procs, m.arpt);
    TabulatedDone(ChoiceOf(t, procs), procs, m);
    return Some(m);
  }

  /** The lists extended by a group's choice, if it has one. */
  function Record(m: Minima, a: string, choice: Option<Choice>): Minima {
    if choice.Some? then Minima(m.arpt + [a], m.rwy + [choice.value.rwy], m.iap + [choice.value.iap]) else m
  }

  /** One pass of the loop at iap.py:190-239, on the group of procedures k
      to end and the runway ends lo to hi of its airport: the designators
      and names, and the lists extended by the group's choice. */
  method SelectGroup(t: RunwayLists, procs: seq<Procedure>, k: nat, end: nat, lo: nat, hi: nat, m: Minima)
    returns (r: Option<Minima>)
    requires t.Aligned() && IsFirst(Airports(procs), k) && end == GroupEnd(Airports(procs), k)
    requires procs[k].arpt in t.arpt && lo == IndexOf(t.arpt, procs[k].arpt) && hi == GroupEnd(t.arpt, lo)
    requires Scanned(procs, k, m.arpt) && Tabulated(ChoiceOf(t, procs), procs, k, m)
    ensures r.None? ==> exists q :: 0 <= q < |procs| && ' ' !in procs[q].ident
    ensures r.Some? ==> Scanned(procs, end, r.value.arpt) && Tabulated(ChoiceOf(t, procs), procs, end, r.value)
  {
    var group := procs[k..end];
    var ids := ExtractIdents(group);
    if ids.None? {
      GroupCrash(procs, k, end);
      return None;
    }
    var choice := SelectProcedure(group, ids.value.0, ids.value.1, t.rwy[lo..hi], t.len[lo..hi], t.wid[lo..hi]);
    GroupChoice(t, procs, k, choice);
    GroupOutcome(t, procs, k, end, m, choice);
    return Some(Record(m, procs[k].arpt, choice));
  }

  /** The bounds of the slices for entry j of the procedures' index table:
      the procedures from k to end, and the runway ends from lo to hi. */
  method GroupBounds(t: RunwayLists, procs: seq<Procedure>, iRwy: seq<int>, iTrm: seq<int>, j: nat)
    returns (k: nat, end: nat, lo: nat, hi: nat)
    requires t.Aligned() && forall k :: 0 <= k < |procs| ==> procs[k].arpt in t.arpt
    requires IndexTable(t.arpt, iRwy) && IndexTable(Airports(procs), iTrm) && j < |iTrm| - 1
    ensures k == Clamp(iTrm[j], |procs|) && IsFirst(Airports(procs), k)
    ensures end == Clamp(iTrm[j + 1], |procs|) && end == GroupEnd(Airports(procs), k)
    ensures procs[k].arpt in t.arpt && lo == IndexOf(t.arpt, procs[k].arpt) && hi == GroupEnd(t.arpt, lo)
  {
    TableEnd(Airports(procs), iTrm, j);
    k := iTrm[j];
    lo, hi := RunwaySlice(t.arpt, iRwy, procs[k].arpt);
    end := Clamp(iTrm[j + 1], |procs|);
  }

  /** The lists after the group at k, given the choice SelectProcedure made
      for it. */
  lemma {:induction false} GroupOutcome(t: RunwayLists, procs: seq<Procedure>, k: nat, end: nat, m: Minima, choice: Option<Choice>)
    requires t.Aligned() && IsFirst(Airports(procs), k) && end == GroupEnd(Airports(procs), k)
    requires Scanned(procs, k, m.arpt) && Tabulated(ChoiceOf(t, procs), procs, k, m)
    requires forall q :: 0 <= q < |procs[k..end]| ==> ' ' in procs[k..end][q].ident
    requires choice == ChoiceOf(t, procs)(procs[k].arpt)
    ensures var m' := Record(m, procs[k].arpt, choice);
      Scanned(procs, end, m'.arpt) && Tabulated(ChoiceOf(t, procs), procs, end, m')
  {
    ScanStep(procs, k, end, m.arpt, choice.Some?);
    TabulateStep(ChoiceOf(t, procs), procs, k, m);
  }

  /** The result lists after the groups that start before `bound`: the
      reference restricted to those groups. */
  ghost predicate Tabulated(choices: string -> Option<Choice>, procs: seq<Procedure>, bound: int, m: Minima) {
    && 0 <= bound <= |procs|
    && m.arpt == Filter(FirstOccurrences(Airports(procs)[..bound]), HasChoice(choices))
    && |m.rwy| == |m.arpt| && |m.iap| == |m.arpt|
    && forall i :: 0 <= i < |m.arpt| ==> m.rwy[i] == RwyOf(choices(m.arpt[i])) && m.iap[i] == IapOf(choices(m.arpt[i]))
  }

  /** The slices the loop passes to SelectProcedure are those ChoiceFor
      reads, so its choice is ChoiceFor's. */
  lemma {:induction false} GroupChoice(t: RunwayLists, procs: seq<Procedure>, k: nat, choice: Option<Choice>)
    requires t.Aligned() && IsFirst(Airports(procs), k) && procs[k].arpt in t.arpt
    requires var group := procs[k..GroupEnd(Airports(procs), k)];
      var lo := IndexOf(t.arpt, procs[k].arpt);
      var hi := GroupEnd(t.arpt, lo);
      choice == Choose(group, Designators(group), Names(group), t.rwy[lo..hi], t.len[lo..hi], t.wid[lo..hi])
    ensures ChoiceOf(t, procs)(procs[k].arpt) == choice
  {
    var s := Airports(procs);
    assert s[k] == procs[k].arpt;
  }

  /** The group at k extends the result lists by its airport, when it has a
      choice. */
  lemma {:induction false} TabulateStep(choices: string -> Option<Choice>, procs: seq<Procedure>, k: nat, m: Minima)
    requires IsFirst(Airports(procs), k) && Tabulated(choices, procs, k, m)
    ensures var a := procs[k].arpt;
      var c := choices(a);
      Tabulated(choices, procs, GroupEnd(Airports(procs), k),
                if c.Some? then Minima(m.arpt + [a], m.rwy + [c.value.rwy], m.iap + [c.value.iap]) else m)
  {
    var s := Airports(procs);
    var e := GroupEnd(s, k);
    var a := procs[k].arpt;
    var c := choices(a);
    GroupEndFirst(s, k);
    FirstOccurrencesGroup(s, k, e);
    assert s[k] == a;
    FilterSnoc(FirstOccurrences(s[..k]), a, HasChoice(choices));
    if c.Some? {
      var m' := Minima(m.arpt + [a], m.rwy + [c.value.rwy], m.iap + [c.value.iap]);
      forall i | 0 <= i < |m'.arpt|
        ensures m'.rwy[i] == RwyOf(choices(m'.arpt[i])) && m'.iap[i] == IapOf(choices(m'.arpt[i]))
      {
        if i < |m.arpt| {
          assert m'.arpt[i] == m.arpt[i] && m'.rwy[i] == m.rwy[i] && m'.iap[i] == m.iap[i];
        }
      }
      assert Tabulated(choices, procs, e, m');
    } else {
      assert m.arpt + [] == m.arpt;
    }
  }

  lemma {:induction false} TabulatedDone(choices: string -> Option<Choice>, procs: seq<Procedure>, m: Minima)
    requires Tabulated(choices, procs, |procs|, m)
    ensures m == Tabulate(choices, procs)
  {
    assert Airports(procs)[..|procs|] == Airports(procs);
  }

  /** `iRwy[iRwy.index(rwy_arpt.index(a))]` and the next entry: the slice of
      the runway lists that starts where airport a first occurs. */
  method RunwaySlice(arpt: seq<string>, iRwy: seq<int>, a: string) returns (lo: nat, hi: nat)
    requires IndexTable(arpt, iRwy) && a in arpt
    ensures lo < hi <= |arpt| && lo == IndexOf(arpt, a) && hi == GroupEnd(arpt, lo)
  {
    TableGroupOf(arpt, iRwy, a);
    var jr := IndexOf(iRwy, IndexOf(arpt, a));
    TableEnd(arpt, iRwy, jr);
    lo, hi := iRwy[jr], Clamp(iRwy[jr + 1], |arpt|);
  }

  /** The loop's state before the group starting at `bound`: the airports
      reported so far are distinct and appear before `bound`, and every
      procedure before `bound` has a space in its identifier. */
  ghost predicate Scanned(procs: seq<Procedure>, bound: int, arpts: seq<string>) {
    && 0 <= bound <= |procs|
    && Distinct(arpts)
    && (forall m :: 0 <= m < |arpts| ==> arpts[m] in Airports(procs)[..bound])
    && (forall q :: 0 <= q < bound ==> ' ' in procs[q].ident)
  }

  lemma {:induction false} ScanStep(procs: seq<Procedure>, k: int, end: int, arpts: seq<string>, chosen: bool)
    requires Scanned(procs, k, arpts) && IsFirst(Airports(procs), k) && k < end <= |procs|
    requires forall q :: 0 <= q < |procs[k..end]| ==> ' ' in procs[k..end][q].ident
    ensures Scanned(procs, end, if chosen then arpts + [procs[k].arpt] else arpts)
  {
    var s := Airports(procs);
    forall q | k <= q < end
      ensures ' ' in procs[q].ident
    {
      assert procs[q] == procs[k..end][q - k];
    }
    assert s[..end] == s[..k] + s[k..end];
    var a := procs[k].arpt;
    IndexOfFirst(s, a);
    assert a == s[k] && a !in s[..k];
    if chosen {
      var arpts' := arpts + [a];
      forall m | 0 <= m < |arpts'|
        ensures arpts'[m] in s[..end]
      {
        if m < |arpts| {
          assert arpts'[m] in s[..k];
        } else {
          assert s[..end][k] == a;
        }
      }
    }
  }

  lemma {:induction false} GroupCrash(procs: seq<Procedure>, k: int, end: int)
    requires 0 <= k <= end <= |procs|
    requires exists q :: 0 <= q < |procs[k..end]| && ' ' !in procs[k..end][q].ident
    ensures exists q :: 0 <= q < |procs| && ' ' !in procs[q].ident
  {
    var q :| 0 <= q < |procs[k..end]| && ' ' !in procs[k..end][q].ident;
    assert procs[k + q] == procs[k..end][q];
  }

  lemma {:induction false} ScanDone(procs: seq<Procedure>, arpts: seq<string>)
    requires Scanned(procs, |procs|, arpts)
    ensures forall m :: 0 <= m < |arpts| ==> arpts[m] in Airports(procs)
  {
    assert Airports(procs)[..|procs|] == Airports(procs);
  }

  // ---------------------------------------------------------------------
  // The whole script (iap.py:80-239)

  /** Some runway end at airport a meets both minima. */
  predicate HasRunway(a: string, ends: seq<RwyEnd>, minLen: int, minWid: int) {
    exists e :: e in ends && e.arpt == a && LongWide(e, minLen, minWid)
  }

  /** Procedure p passes every filter of the script. */
  predicate Reported(p: Procedure, typeFilter: string, ends: seq<RwyEnd>, minLen: int, minWid: int) {
    && p.ident != []
    && (typeFilter == "" || typeFilter == [p.ident[0]]) && !Contains(p.ident, "COPTER")
    && HasRunway(p.arpt, ends, minLen, minWid)
  }

  /** Some procedure of airport a passes every filter of the script. */
  predicate ReportedAirport(a: string, procs: seq<Procedure>, typeFilter: string, ends: seq<RwyEnd>, minLen: int, minWid: int) {
    exists p :: p in procs && p.arpt == a && Reported(p, typeFilter, ends, minLen, minWid)
  }

  /** A kept procedure passed every filter. */
  lemma {:induction false} KeptIsReported(raw: RunwayLists, t: RunwayLists, procs: seq<Procedure>, ks: seq<Procedure>,
                       typeFilter: string, minLen: int, minWid: int, p: Procedure)
    requires raw.Aligned() && t.Aligned() && t.Ends() == Filter(raw.Ends(), MeetsMinima(minLen, minWid))
    requires ks == Filter(procs, Keeps(typeFilter, t.arpt)) && p in ks
    ensures p in procs && Reported(p, typeFilter, raw.Ends(), minLen, minWid)
  {
    ProcedureFilterExact(procs, typeFilter, t.arpt);
    RunwayFilterExact(raw, minLen, minWid, t);
    var i :| 0 <= i < |t.arpt| && t.arpt[i] == p.arpt;
    assert t.Ends()[i] in t.Ends();
  }

  lemma {:induction false} AllReported(raw: RunwayLists, t: RunwayLists, procs: seq<Procedure>, ks: seq<Procedure>,
                    typeFilter: string, minLen: int, minWid: int, arpts: seq<string>)
    requires raw.Aligned() && t.Aligned() && t.Ends() == Filter(raw.Ends(), MeetsMinima(minLen, minWid))
    requires ks == Filter(procs, Keeps(typeFilter, t.arpt))
    requires forall m :: 0 <= m < |arpts| ==> arpts[m] in Airports(ks)
    ensures forall m :: 0 <= m < |arpts| ==> ReportedAirport(arpts[m], procs, typeFilter, raw.Ends(), minLen, minWid)
  {
    forall m | 0 <= m < |arpts|
      ensures ReportedAirport(arpts[m], procs, typeFilter, raw.Ends(), minLen, minWid)
    {
      var k := IndexOf(Airports(ks), arpts[m]);
      assert ks[k] in ks;
      KeptIsReported(raw, t, procs, ks, typeFilter, minLen, minWid, ks[k]);
    }
  }

  /** A procedure that passed every filter is one of the kept ones. */
  lemma {:induction false} ReportedIsKept(raw: RunwayLists, t: RunwayLists, procs: seq<Procedure>, ks: seq<Procedure>,
                       typeFilter: string, minLen: int, minWid: int, p: Procedure)
    requires raw.Aligned() && t.Aligned() && t.Ends() == Filter(raw.Ends(), MeetsMinima(minLen, minWid))
    requires ks == Filter(procs, Keeps(typeFilter, t.arpt))
    requires p in procs && Reported(p, typeFilter, raw.Ends(), minLen, minWid)
    ensures p in ks
  {
    ProcedureFilterExact(procs, typeFilter, t.arpt);
    RunwayFilterExact(raw, minLen, minWid, t);
    var e :| e in raw.Ends() && e.arpt == p.arpt && LongWide(e, minLen, minWid);
    var i :| 0 <= i < |t.Ends()| && t.Ends()[i] == e;
    assert t.arpt[i] == p.arpt;
  }

  /** The kept procedures include one without a space in its identifier
      exactly when some procedure that passed every filter has none. */
  lemma {:induction false} KeptSpaceless(raw: RunwayLists, t: RunwayLists, procs: seq<Procedure>, ks: seq<Procedure>,
                       typeFilter: string, minLen: int, minWid: int)
    requires raw.Aligned() && t.Aligned() && t.Ends() == Filter(raw.Ends(), MeetsMinima(minLen, minWid))
    requires ks == Filter(procs, Keeps(typeFilter, t.arpt))
    ensures (exists k :: 0 <= k < |ks| && ' ' !in ks[k].ident) <==>
            (exists k :: 0 <= k < |procs| && ' ' !in procs[k].ident && Reported(procs[k], typeFilter, raw.Ends(), minLen, minWid))
  {
    if k :| 0 <= k < |ks| && ' ' !in ks[k].ident {
      assert ks[k] in ks;
      KeptIsReported(raw, t, procs, ks, typeFilter, minLen, minWid, ks[k]);
      var q :| 0 <= q < |procs| && procs[q] == ks[k];
    }
    if k :| 0 <= k < |procs| && ' ' !in procs[k].ident && Reported(procs[k], typeFilter, raw.Ends(), minLen, minWid) {
      assert procs[k] in procs;
      ReportedIsKept(raw, t, procs, ks, typeFilter, minLen, minWid, procs[k]);
      var q :| 0 <= q < |ks| && ks[q] == procs[k];
    }
  }

  /** The three result lists as a reference, for runway ends and TRM_MIN.txt
      rows on which the script does not raise: the runway ends that meet
      both minima, the procedures that pass the filters, and for each of
      their airports in order of first appearance its choice. */
  function Expected(ends: seq<RwyEnd>, procs: seq<Procedure>, minLen: int, minWid: int, typeFilter: string): Minima {
    var t := Table(Filter(ends, MeetsMinima(minLen, minWid)));
    var ks := Filter(procs, Keeps(typeFilter, t.arpt));
    Tabulate(ChoiceOf(t, ks), ks)
  }

  /** The script's outcome on RWY.txt and TRM_MIN.txt rows: None where it
      raises, otherwise the reference lists. */
  function Outcome(rows: seq<RwyRow>, procs: seq<Procedure>, minLen: int, minWid: int, typeFilter: string): Option<Minima> {
    match RunwayEnds(rows)
    case None => None
    case Some(ends) =>
      if || (exists k :: 0 <= k < |procs| && procs[k].ident == [])
         || (exists k :: 0 <= k < |procs| && ' ' !in procs[k].ident && Reported(procs[k], typeFilter, ends, minLen, minWid))
      then None
      else Some(Expected(ends, procs, minLen, minWid, typeFilter))
  }

  /** RWY.txt rows and TRM_MIN.txt rows to the three result lists, with the
      `-l`, `-w` and `-t` filters; None where the script raises. */
  method Run(rows: seq<RwyRow>, procs: seq<Procedure>, minLen: int, minWid: int, typeFilter: string) returns (r: Option<Minima>)
    ensures r.None? <==>
      || RunwayEnds(rows).None?
      || (exists k :: 0 <= k < |procs| && procs[k].ident == [])
      || (exists k :: 0 <= k < |procs| && ' ' !in procs[k].ident &&
                      Reported(procs[k], typeFilter, RunwayEnds(rows).value, minLen, minWid))
    ensures r.Some? ==> r.value == Expected(RunwayEnds(rows).value, procs, minLen, minWid, typeFilter)
    ensures r == Outcome(rows, procs, minLen, minWid, typeFilter)
    ensures r.Some? ==> |r.value.rwy| == |r.value.arpt| && |r.value.iap| == |r.value.arpt|
    ensures r.Some? ==> Distinct(r.value.arpt)
    ensures r.Some? ==> RunwayEnds(rows).Some? && forall m :: 0 <= m < |r.value.arpt| ==>
      ReportedAirport(r.value.arpt[m], procs, typeFilter, RunwayEnds(rows).value, minLen, minWid)
  {
    var raw := ExpandRunways(rows);
    if raw.None? {
      return None;
    }
    var t := FilterRunways(raw.value, minLen, minWid);
    RunwayFilterExact(raw.value, minLen, minWid, t);
    var kept := FilterProcedures(procs, typeFilter, t.arpt);
    if kept.None? {
      return None;
    }
    var ks := kept.value;
    forall k | 0 <= k < |ks|
      ensures ks[k].arpt in t.arpt
    {
      assert ks[k] in ks;
      ProcedureFilterExact(procs, typeFilter, t.arpt);
    }
    r := SelectMinima(t, ks);
    KeptSpaceless(raw.value, t, procs, ks, typeFilter, minLen, minWid);
    if r.Some? {
      AllReported(raw.value, t, procs, ks, typeFilter, minLen, minWid, r.value.arpt);
      TableOfEnds(t);
    }
  }

  /** Every record after the header has the columns read from it. */
  predicate Wide(file: seq<seq<string>>, columns: nat) {
    forall k :: 1 <= k < |file| ==> |file[k]| >= columns
  }

  function RwyRows(file: seq<seq<string>>): (rows: seq<RwyRow>)
    requires file != [] && Wide(file, 7)
    ensures |rows| == |file| - 1 && forall k :: 0 <= k < |rows| ==> Some(rows[k]) == ReadRwyRow(file[k + 1])
  {
    seq(|file| - 1, k requires 0 <= k < |file| - 1 => RwyRowAt(file, k + 1))
  }

  /** The runway row read from record k, which is wide enough. */
  function RwyRowAt(file: seq<seq<string>>, k: nat): (row: RwyRow)
    requires k < |file| && |file[k]| >= 7
    ensures Some(row) == ReadRwyRow(file[k])
  {
    ReadRwyRow(file[k]).value
  }

  function TrmRows(file: seq<seq<string>>): (procs: seq<Procedure>)
    requires file != [] && Wide(file, 20)
    ensures |procs| == |file| - 1 && forall k :: 0 <= k < |procs| ==> Some(procs[k]) == ReadTrmRow(file[k + 1])
  {
    seq(|file| - 1, k requires 0 <= k < |file| - 1 => TrmRowAt(file, k + 1))
  }

  /** The procedure read from record k, which is wide enough. */
  function TrmRowAt(file: seq<seq<string>>, k: nat): (proc: Procedure)
    requires k < |file| && |file[k]| >= 20
    ensures Some(proc) == ReadTrmRow(file[k])
  {
    ReadTrmRow(file[k]).value
  }

  /** The script on the records of RWY.txt and TRM_MIN.txt, header first
      (iap.py:104-115 and 139-148, then Run): `next()` on a file without a
      header raises StopIteration, a short record IndexError. */
  method RunFiles(rwyFile: seq<seq<string>>, trmFile: seq<seq<string>>, minLen: int, minWid: int, typeFilter: string)
    returns (r: Option<Minima>)
    ensures r.Some? ==> rwyFile != [] && trmFile != [] && Wide(rwyFile, 7) && Wide(trmFile, 20)
    ensures rwyFile != [] && trmFile != [] && Wide(rwyFile, 7) && Wide(trmFile, 20) ==>
      r == Outcome(RwyRows(rwyFile), TrmRows(trmFile), minLen, minWid, typeFilter)
  {
    if rwyFile == [] {
      return None;
    }
    var rows := ReadEach(rwyFile[1..], ReadRwyRow);
    if rows.None? {
      assert !Wide(rwyFile, 7) by {
        var k :| 0 <= k < |rwyFile| - 1 && ReadRwyRow(rwyFile[1..][k]).None?;
        assert rwyFile[1..][k] == rwyFile[k + 1];
      }
      return None;
    }
    if trmFile == [] {
      return None;
    }
    var procs := ReadEach(trmFile[1..], ReadTrmRow);
    if procs.None? {
      assert !Wide(trmFile, 20) by {
        var k :| 0 <= k < |trmFile| - 1 && ReadTrmRow(trmFile[1..][k]).None?;
        assert trmFile[1..][k] == trmFile[k + 1];
      }
      return None;
    }
    WideFiles(rwyFile, trmFile, rows.value, procs.value);
    r := Run(rows.value, procs.value, minLen, minWid, typeFilter);
  }

  lemma {:induction false} WideFiles(rwyFile: seq<seq<string>>, trmFile: seq<seq<string>>, rows: seq<RwyRow>, procs: seq<Procedure>)
    requires rwyFile != [] && trmFile != []
    requires |rows| == |rwyFile| - 1 && forall k :: 0 <= k < |rows| ==> Some(rows[k]) == ReadRwyRow(rwyFile[1..][k])
    requires |procs| == |trmFile| - 1 && forall k :: 0 <= k < |procs| ==> Some(procs[k]) == ReadTrmRow(trmFile[1..][k])
    ensures Wide(rwyFile, 7) && rows == RwyRows(rwyFile)
    ensures Wide(trmFile, 20) && procs == TrmRows(trmFile)
  {
    forall k | 1 <= k < |rwyFile|
      ensures |rwyFile[k]| >= 7 && Some(rows[k - 1]) == ReadRwyRow(rwyFile[k])
    {
      assert rwyFile[1..][k - 1] == rwyFile[k];
    }
    forall k | 1 <= k < |trmFile|
      ensures |trmFile[k]| >= 20 && Some(procs[k - 1]) == ReadTrmRow(trmFile[k])
    {
      assert trmFile[1..][k - 1] == trmFile[k];
    }
  }
}
