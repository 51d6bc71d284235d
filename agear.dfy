/** agear.py: arresting-gear rows of AGEAR.txt, filtered by country and
    system type, then collapsed into one point feature per airport whose
    RWY property lists the gear of each runway. */
module Agear {
  import opened Wrappers
  import opened Text
  import opened Seqs

  /** One AGEAR.txt row as kept by the reader (agear.py:104-108). */
  datatype GearRow = GearRow(arpt: string, rwy: string, location: string, typ: string)

  /** One ARPT.txt row, the fields the script reads (agear.py:89-95). */
  datatype ArptRow = ArptRow(ident: string, name: string, icao: string, faaHostId: string, lat: real, lon: real)

  datatype Airport = Airport(name: string, icao: string, lat: real, lon: real)

  /** APPC_ABSORBING_SYS.txt and APPC_ENGAGING_DEV.txt as dictionaries. */
  datatype Tables = Tables(absorbing: map<string, string>, engaging: map<string, string>)

  /** The `-c` and `-t` arguments. */
  datatype Filters = Filters(country: string, gearType: string)

  datatype GearFeature = GearFeature(ident: string, name: string, rwy: string, lon: real, lat: real)

  // ---------------------------------------------------------------------
  // Reading (agear.py:93, 107)

  /** The longer of ICAO and FAA_HOST_ID; FAA_HOST_ID on a tie. */
  function IcaoOf(icao: string, faaHostId: string): (r: string)
    ensures r == icao || r == faaHostId
    ensures |r| >= |icao| && |r| >= |faaHostId|
    ensures |icao| <= |faaHostId| ==> r == faaHostId
  {
    if |icao| > |faaHostId| then icao else faaHostId
  }

  /** The entry `arpt[ARPT_IDENT]`: the name and position of the row, and
      the longer of its two identifiers. */
  function AirportOf(row: ArptRow): (a: Airport)
    ensures a.name == row.name && a.lat == row.lat && a.lon == row.lon
    ensures a.icao == IcaoOf(row.icao, row.faaHostId)
    ensures |a.icao| >= |row.icao| && |a.icao| >= |row.faaHostId|
  {
    Airport(row.name, IcaoOf(row.icao, row.faaHostId), row.lat, row.lon)
  }

  /** A raw AGEAR.txt row with LOCATION rewritten as `str(int(LOCATION))`;
      None is the ValueError of a LOCATION that is not an integer. */
  function ReadGearRow(arpt: string, rwy: string, location: string, typ: string): (r: Option<GearRow>)
    ensures r.Some? <==> ParseInt(location).Some?
    ensures r.Some? ==> r.value.arpt == arpt && r.value.rwy == rwy && r.value.typ == typ
    ensures r.Some? ==> ParseInt(r.value.location) == ParseInt(location) && r.value.location != []
    ensures r.Some? ==> (r.value.location[0] == '0' ==> r.value.location == "0")
  {
    match Canonical(location)
    case None => None
    case Some(l) =>
      CanonicalNoLeadingZero(location);
      Some(GearRow(arpt, rwy, l, typ))
  }

  /** The dictionary that `d[key(row)] = value(row)` builds over rows in
      turn, from an empty one. */
  function DictOf<R, V>(rows: seq<R>, key: R -> string, value: R -> V): map<string, V> {
    if rows == [] then map[]
    else DictOf(Init(rows), key, value)[key(Last(rows)) := value(Last(rows))]
  }

  /** The dictionary's keys are the keys read. */
  lemma {:induction false} DictOfKeys<R, V>(rows: seq<R>, key: R -> string, value: R -> V)
    ensures DictOf(rows, key, value).Keys == set k | 0 <= k < |rows| :: key(rows[k])
  {
    if rows != [] {
      var init := Init(rows);
      DictOfKeys(init, key, value);
      var before := set k | 0 <= k < |init| :: key(init[k]);
      var after := set k | 0 <= k < |rows| :: key(rows[k]);
      forall a | a in after
        ensures a in before + {key(Last(rows))}
      {
        var k :| 0 <= k < |rows| && key(rows[k]) == a;
        if k < |init| {
          assert init[k] == rows[k];
        }
      }
      forall a | a in before
        ensures a in after
      {
        var k :| 0 <= k < |init| && key(init[k]) == a;
        assert rows[k] == init[k];
      }
      assert after == before + {key(Last(rows))};
    }
  }

  /** A key maps to the value of the last row that has it. */
  lemma {:induction false} DictOfLastWins<R, V>(rows: seq<R>, key: R -> string, value: R -> V, k: nat)
    requires k < |rows| && forall q :: k < q < |rows| ==> key(rows[q]) != key(rows[k])
    ensures key(rows[k]) in DictOf(rows, key, value) && DictOf(rows, key, value)[key(rows[k])] == value(rows[k])
  {
    var init := Init(rows);
    if k < |init| {
      assert init[k] == rows[k];
      assert key(rows[|init|]) != key(rows[k]);
      forall q | k < q < |init|
        ensures key(init[q]) != key(init[k])
      {
        assert init[q] == rows[q];
      }
      DictOfLastWins(init, key, value, k);
    }
  }

  /** The loops that read a table into a dictionary (agear.py:75-77,
      80-82 and 89-95). */
  method Dictionary<R, V>(rows: seq<R>, key: R -> string, value: R -> V) returns (d: map<string, V>)
    ensures d == DictOf(rows, key, value)
  {
    d := map[];
    for i := 0 to |rows|
      invariant d == DictOf(rows[..i], key, value)
    {
      assert Init(rows[..i + 1]) == rows[..i] && Last(rows[..i + 1]) == rows[i];
      d := d[key(rows[i]) := value(rows[i])];
    }
    assert rows[..|rows|] == rows;
  }

  function ArptIdent(row: ArptRow): string {
    row.ident
  }

  /** The two columns of an APPC_ABSORBING_SYS.txt or APPC_ENGAGING_DEV.txt
      row: a code and its name. */
  function Code(row: (string, string)): string {
    row.0
  }

  function CodeName(row: (string, string)): string {
    row.1
  }

  /** Every AGEAR.txt LOCATION is an integer. */
  predicate AllParse(raw: seq<GearRow>) {
    forall k :: 0 <= k < |raw| ==> ParseInt(raw[k].location).Some?
  }

  /** The AGEAR.txt rows with LOCATION rewritten by ReadGearRow. */
  function GearRows(raw: seq<GearRow>): (gear: seq<GearRow>)
    requires AllParse(raw)
    ensures |gear| == |raw|
    ensures forall k :: 0 <= k < |raw| ==> Some(gear[k]) == ReadGearRow(raw[k].arpt, raw[k].rwy, raw[k].location, raw[k].typ)
  {
    seq(|raw|, k requires 0 <= k < |raw| => ReadGearRow(raw[k].arpt, raw[k].rwy, raw[k].location, raw[k].typ).value)
  }

  /** ReadGearRow on a raw AGEAR.txt row. */
  function ReadRaw(row: GearRow): Option<GearRow> {
    ReadGearRow(row.arpt, row.rwy, row.location, row.typ)
  }

  /** The loop at agear.py:102-108, on the raw rows; None where `int()`
      raises ValueError. */
  method ReadGear(raw: seq<GearRow>) returns (r: Option<seq<GearRow>>)
    ensures r.Some? <==> AllParse(raw)
    ensures r.Some? ==> r.value == GearRows(raw)
  {
    r := ReadEach(raw, ReadRaw);
    if r.Some? {
      assert r.value == GearRows(raw);
    }
  }

  // ---------------------------------------------------------------------
  // Filtering (agear.py:110-119)

  /** The gear TYPE splits into an absorbing-system code, all but its last
      two characters, and an engaging-device code, its last two. */
  function AbsorbingCode(typ: string): string {
    DropLast(typ, 2)
  }

  function EngagingCode(typ: string): string {
    LastN(typ, 2)
  }

  predicate Known(tables: Tables, row: GearRow) {
    AbsorbingCode(row.typ) in tables.absorbing && EngagingCode(row.typ) in tables.engaging
  }

  /** The first two letters of ARPT_IDENT occur in the upper-cased
      country filter, as a substring. */
  predicate CountryPasses(f: Filters, row: GearRow) {
    f.country == "" || Contains(Upper(f.country), Prefix(row.arpt, 2))
  }

  /** Some word of the upper-cased type filter occurs in the absorbing or
      the engaging name of the row's TYPE. */
  predicate TypePasses(f: Filters, tables: Tables, row: GearRow) {
    f.gearType == "" ||
      (&& Known(tables, row)
       && exists t :: t in Words(Upper(f.gearType))
            && (Contains(tables.absorbing[AbsorbingCode(row.typ)], t) || Contains(tables.engaging[EngagingCode(row.typ)], t)))
  }

  /** Whether the row survives, tested in the script's order; None is the
      KeyError of an unknown code, raised only once the country test passed. */
  function Verdict(f: Filters, tables: Tables, row: GearRow): (v: Option<bool>)
    ensures v.None? <==> CountryPasses(f, row) && f.gearType != "" && !Known(tables, row)
    ensures v == Some(true) <==> CountryPasses(f, row) && TypePasses(f, tables, row)
  {
    if f.country != "" && !Contains(Upper(f.country), Prefix(row.arpt, 2)) then Some(false)
    else if f.gearType == "" then Some(true)
    else if !Known(tables, row) then None
    else
      var names := [tables.absorbing[AbsorbingCode(row.typ)], tables.engaging[EngagingCode(row.typ)]];
      Some(exists t :: t in Words(Upper(f.gearType)) && (Contains(names[0], t) || Contains(names[1], t)))
  }

  function Verdicts(f: Filters, tables: Tables): GearRow -> Option<bool> {
    row => Verdict(f, tables, row)
  }

  function Keep(f: Filters, tables: Tables): GearRow -> bool {
    Passing(Verdicts(f, tables))
  }

  /** The filter loop of agear.py:110-119 on the gear rows. */
  method FilterGear(agear: seq<GearRow>, f: Filters, tables: Tables) returns (kept: Option<seq<GearRow>>)
    ensures kept.Some? <==> forall j :: 0 <= j < |agear| ==> Verdict(f, tables, agear[j]).Some?
    ensures kept.Some? ==> kept.value == Filter(agear, Keep(f, tables))
  {
    kept := DeleteFailing(agear, Verdicts(f, tables));
  }

  function Passing<T>(verdict: T -> Option<bool>): T -> bool {
    x => verdict(x) == Some(true)
  }

  /** The backward loop deleting in place from the end of the list: it
      walks from the last row to the first, deletes each row whose verdict
      is false and stops at the first verdict that raises. */
  method DeleteFailing<T>(agear: seq<T>, verdict: T -> Option<bool>) returns (kept: Option<seq<T>>)
    ensures kept.Some? <==> forall j :: 0 <= j < |agear| ==> verdict(agear[j]).Some?
    ensures kept.Some? ==> kept.value == Filter(agear, Passing(verdict))
  {
    var rows := agear;
    var i := |agear|;
    while i > 0
      invariant 0 <= i <= |agear|
      invariant forall j :: i <= j < |agear| ==> verdict(agear[j]).Some?
      invariant rows == agear[..i] + Filter(agear[i..], Passing(verdict))
    {
      i := i - 1;
      assert rows[i] == agear[i];
      var v := verdict(rows[i]);
      if v.None? {
        return None;
      }
      DeleteStep(agear, i, rows, Passing(verdict));
      if !v.value {
        rows := rows[..i] + rows[i + 1..];
      }
    }
    assert agear[0..] == agear;
    return Some(rows);
  }

  /** One step of the backward deletion: dropping row i when it fails, or
      keeping it, extends the filtered tail by one row. */
  lemma {:induction false} DeleteStep<T>(agear: seq<T>, i: nat, rows: seq<T>, keep: T -> bool)
    requires i < |agear| && rows == agear[..i + 1] + Filter(agear[i + 1..], keep)
    ensures keep(agear[i]) ==> rows == agear[..i] + Filter(agear[i..], keep)
    ensures !keep(agear[i]) ==> rows[..i] + rows[i + 1..] == agear[..i] + Filter(agear[i..], keep)
  {
    assert agear[i..][1..] == agear[i + 1..];
    assert agear[..i + 1] == agear[..i] + [agear[i]];
    if !keep(agear[i]) {
      assert rows[..i] == agear[..i];
      assert rows[i + 1..] == Filter(agear[i + 1..], keep);
    }
  }

  /** The survivors are exactly the rows passing both filters, in their
      original relative order. */
  lemma {:induction false} SurvivorsPassFilters(agear: seq<GearRow>, f: Filters, tables: Tables, row: GearRow)
    ensures row in Filter(agear, Keep(f, tables)) <==> row in agear && CountryPasses(f, row) && TypePasses(f, tables, row)
    ensures IsSubsequence(Filter(agear, Keep(f, tables)), agear)
  {
    FilterKeepsExactly(agear, Keep(f, tables));
  }

  /** With an empty country filter, a row survives exactly when it passes
      the type filter. */
  lemma {:induction false} TypeFilterAlone(agear: seq<GearRow>, gearType: string, tables: Tables, row: GearRow)
    ensures row in Filter(agear, Keep(Filters("", gearType), tables)) <==> row in agear && TypePasses(Filters("", gearType), tables, row)
  {
    FilterKeepsExactly(agear, Keep(Filters("", gearType), tables));
  }

  /** With neither filter, the list is left as it is. */
  lemma {:induction false} NoFiltersKeepAll(agear: seq<GearRow>, tables: Tables)
    ensures Filter(agear, Keep(Filters("", ""), tables)) == agear
  {
    if agear != [] {
      NoFiltersKeepAll(agear[1..], tables);
    }
  }

  // ---------------------------------------------------------------------
  // Runs of one airport (agear.py:127-144)

  /** The maximal runs of consecutive rows with the same ARPT_IDENT. */
  function Runs(rows: seq<GearRow>): (runs: seq<seq<GearRow>>)
    ensures rows == [] <==> runs == []
    ensures forall k :: 0 <= k < |runs| ==> runs[k] != []
    ensures rows != [] ==> Last(Last(runs)) == Last(rows)
    decreases |rows|
  {
    if rows == [] then [] else Extend(Runs(Init(rows)), Last(rows))
  }

  /** One more row: it joins the last run when it has that run's airport,
      else it starts a run of its own. */
  function Extend(rs: seq<seq<GearRow>>, x: GearRow): (r: seq<seq<GearRow>>)
    requires forall k :: 0 <= k < |rs| ==> rs[k] != []
    ensures r != [] && Last(r) != [] && Last(Last(r)) == x
    ensures forall k :: 0 <= k < |r| ==> r[k] != []
  {
    if rs != [] && Last(Last(rs)).arpt == x.arpt then Init(rs) + [Last(rs) + [x]] else rs + [[x]]
  }

  /** Every row of a run has the run's airport. */
  predicate Uniform(runs: seq<seq<GearRow>>) {
    forall k: int, j: int :: 0 <= k < |runs| && 0 <= j < |runs[k]| ==> runs[k][j].arpt == runs[k][0].arpt
  }

  /** Neighbouring runs are of different airports. */
  predicate Separated(runs: seq<seq<GearRow>>)
    requires forall k :: 0 <= k < |runs| ==> runs[k] != []
  {
    forall k :: 0 <= k < |runs| - 1 ==> Last(runs[k]).arpt != runs[k + 1][0].arpt
  }

  /** Within a run the airport is the same; neighbouring runs differ. */
  lemma {:induction false} RunsMaximal(rows: seq<GearRow>)
    ensures Uniform(Runs(rows)) && Separated(Runs(rows))
    decreases |rows|
  {
    if rows != [] {
      RunsMaximal(Init(rows));
      ExtendMaximal(Runs(Init(rows)), Last(rows));
    }
  }

  lemma {:induction false} ExtendMaximal(rs: seq<seq<GearRow>>, x: GearRow)
    requires forall k :: 0 <= k < |rs| ==> rs[k] != []
    requires Uniform(rs) && Separated(rs)
    ensures Uniform(Extend(rs, x)) && Separated(Extend(rs, x))
  {
    var rs' := Extend(rs, x);
    if rs != [] && Last(Last(rs)).arpt == x.arpt {
      var m := |rs| - 1;
      assert rs' == rs[..m] + [rs[m] + [x]];
      assert forall k :: 0 <= k < m ==> rs'[k] == rs[k];
      assert rs'[m] == rs[m] + [x];
      assert rs[m][|rs[m]| - 1].arpt == rs[m][0].arpt;
      forall j | 0 <= j < |rs'[m]|
        ensures rs'[m][j].arpt == rs'[m][0].arpt
      {
        assert rs'[m][0] == rs[m][0];
        if j < |rs[m]| {
          assert rs'[m][j] == rs[m][j];
        } else {
          assert rs'[m][j] == x;
        }
      }
      if m > 0 {
        assert rs'[m][0] == rs[m][0];
      }
    } else {
      assert rs' == rs + [[x]];
      assert forall k :: 0 <= k < |rs| ==> rs'[k] == rs[k];
      assert rs'[|rs|] == [x];
      if rs != [] {
        assert Last(rs'[|rs| - 1]) == Last(Last(rs));
      }
    }
  }

  /** Runs(rows + [x]) in terms of Runs(rows): x joins the last run when it
      has the same airport, else starts a new one. */
  lemma {:induction false} RunsSnoc(rows: seq<GearRow>, x: GearRow)
    ensures Runs(rows + [x]) ==
      var rs := Runs(rows);
      if rs != [] && Last(Last(rs)).arpt == x.arpt then Init(rs) + [Last(rs) + [x]] else rs + [[x]]
  {
    assert Init(rows + [x]) == rows && Last(rows + [x]) == x;
  }

  /** Every row of a run is a row of the list. */
  lemma {:induction false} RunsMembers(rows: seq<GearRow>)
    ensures forall k, r :: 0 <= k < |Runs(rows)| && r in Runs(rows)[k] ==> r in rows
    decreases |rows|
  {
    if rows != [] {
      var init, x := Init(rows), Last(rows);
      assert init + [x] == rows;
      RunsMembers(init);
      ExtendMembers(Runs(init), x, init);
    }
  }

  lemma {:induction false} ExtendMembers(rs: seq<seq<GearRow>>, x: GearRow, rows: seq<GearRow>)
    requires forall k :: 0 <= k < |rs| ==> rs[k] != []
    requires forall k, r :: 0 <= k < |rs| && r in rs[k] ==> r in rows
    ensures forall k, r :: 0 <= k < |Extend(rs, x)| && r in Extend(rs, x)[k] ==> r in rows + [x]
  {
    var rs' := Extend(rs, x);
    forall k, r | 0 <= k < |rs'| && r in rs'[k]
      ensures r in rows + [x]
    {
      if k < |rs| - 1 || (k == |rs| - 1 && !(Last(Last(rs)).arpt == x.arpt)) {
        assert rs'[k] == rs[k];
      } else if k == |rs| - 1 {
        assert rs'[k] == rs[k] + [x];
      } else {
        assert rs'[k] == [x];
      }
    }
  }

  function Concat(runs: seq<seq<GearRow>>): seq<GearRow> {
    if runs == [] then [] else Concat(Init(runs)) + Last(runs)
  }

  lemma {:induction false} ConcatSnoc(runs: seq<seq<GearRow>>, r: seq<GearRow>)
    ensures Concat(runs + [r]) == Concat(runs) + r
  {
    assert Init(runs + [r]) == runs;
  }

  /** The runs, put back together, are the rows. */
  lemma {:induction false} RunsCover(rows: seq<GearRow>)
    ensures Concat(Runs(rows)) == rows
    decreases |rows|
  {
    if rows != [] {
      var init, x := Init(rows), Last(rows);
      assert init + [x] == rows;
      RunsCover(init);
      ExtendConcat(Runs(init), x);
    }
  }

  lemma {:induction false} ExtendConcat(rs: seq<seq<GearRow>>, x: GearRow)
    requires forall k :: 0 <= k < |rs| ==> rs[k] != []
    ensures Concat(Extend(rs, x)) == Concat(rs) + [x]
  {
    if rs != [] && Last(Last(rs)).arpt == x.arpt {
      ExtendMergeConcat(rs, x);
    } else {
      ExtendNewConcat(rs, x);
    }
  }

  lemma {:induction false} ExtendMergeConcat(rs: seq<seq<GearRow>>, x: GearRow)
    requires forall k :: 0 <= k < |rs| ==> rs[k] != []
    requires rs != [] && Last(Last(rs)).arpt == x.arpt
    ensures Concat(Extend(rs, x)) == Concat(rs) + [x]
  {
    assert Extend(rs, x) == Init(rs) + [Last(rs) + [x]];
    InitLast(rs);
    ConcatMerge(Init(rs), Last(rs), x);
  }

  lemma {:induction false} ExtendNewConcat(rs: seq<seq<GearRow>>, x: GearRow)
    requires forall k :: 0 <= k < |rs| ==> rs[k] != []
    requires !(rs != [] && Last(Last(rs)).arpt == x.arpt)
    ensures Concat(Extend(rs, x)) == Concat(rs) + [x]
  {
    assert Extend(rs, x) == rs + [[x]];
    ConcatSnoc(rs, [x]);
  }

  lemma {:induction false} ConcatMerge(a: seq<seq<GearRow>>, l: seq<GearRow>, x: GearRow)
    ensures Concat(a + [l + [x]]) == Concat(a + [l]) + [x]
  {
    ConcatSnoc(a, l + [x]);
    ConcatSnoc(a, l);
    assert Concat(a) + (l + [x]) == (Concat(a) + l) + [x];
  }

  /** Where the airport changes, the runs split there. */
  lemma {:induction false} RunsAppendBreak(a: seq<GearRow>, b: seq<GearRow>)
    requires a != [] && b != [] && Last(a).arpt != b[0].arpt
    ensures Runs(a + b) == Runs(a) + Runs(b)
    decreases |b|
  {
    var b', y := Init(b), Last(b);
    assert b == b' + [y];
    assert a + b == (a + b') + [y];
    if b' == [] {
      RunsSnocSingle(a, y);
    } else {
      assert b'[0] == b[0];
      RunsAppendBreak(a, b');
      RunsSnocConcat(Runs(a), Runs(b'), a + b', b', y);
    }
  }

  lemma {:induction false} RunsSnocSingle(a: seq<GearRow>, y: GearRow)
    requires a != [] && Last(a).arpt != y.arpt
    ensures Runs(a + [y]) == Runs(a) + Runs([y])
  {
    RunsSnoc(a, y);
    RunsSnoc([], y);
    assert [] + [y] == [y];
  }

  lemma {:induction false} RunsSnocConcat(ra: seq<seq<GearRow>>, rb: seq<seq<GearRow>>, ab: seq<GearRow>, b: seq<GearRow>, y: GearRow)
    requires Runs(ab) == ra + rb && Runs(b) == rb && rb != []
    ensures Runs(ab + [y]) == ra + Runs(b + [y])
  {
    RunsSnoc(ab, y);
    RunsSnoc(b, y);
    SnocAfterConcat(ra, rb, Last(rb) + [y]);
    SnocAfterConcat(ra, rb, [y]);
  }

  /** How many rows start a run: the first, and each whose airport differs
      from the row before it. */
  function RunStarts(rows: seq<GearRow>): nat
    decreases |rows|
  {
    if rows == [] then 0
    else RunStarts(Init(rows)) + (if |rows| == 1 || Last(rows).arpt != rows[|rows| - 2].arpt then 1 else 0)
  }

  lemma {:induction false} RunsCount(rows: seq<GearRow>)
    ensures |Runs(rows)| == RunStarts(rows)
    decreases |rows|
  {
    if rows != [] {
      RunsCount(Init(rows));
      if |rows| > 1 {
        assert Last(Init(rows)) == rows[|rows| - 2];
      }
    }
  }

  // ---------------------------------------------------------------------
  // The per-runway entries of one airport (agear.py:145-159)

  /** `LOCATION + '&#8242 (' + absorbing name + '/' + engaging name + ')'`;
      None is the KeyError of an unknown code. */
  function Describe(row: GearRow, tables: Tables): (r: Option<string>)
    ensures r.Some? <==> Known(tables, row)
  {
    if Known(tables, row) then
      Some(row.location + "&#8242 (" + tables.absorbing[AbsorbingCode(row.typ)] + "/"
           + tables.engaging[EngagingCode(row.typ)] + ")")
    else None
  }

  predicate Described(rows: seq<GearRow>, tables: Tables) {
    forall r :: r in rows ==> Describe(r, tables).Some?
  }

  /** The `rwy` dictionary: (key, value) pairs in insertion order. */
  type Entries = seq<(string, string)>

  function Keys(e: Entries): (ks: seq<string>)
    ensures |ks| == |e| && forall k :: 0 <= k < |e| ==> ks[k] == e[k].0
  {
    seq(|e|, k requires 0 <= k < |e| => e[k].0)
  }

  /** `rwy[key]`. */
  function Get(e: Entries, key: string): string
    requires key in Keys(e)
  {
    e[IndexOf(Keys(e), key)].1
  }

  /** `rwy[key] = value`: an existing key keeps its place, a new one goes
      last. */
  function Put(e: Entries, key: string, value: string): (r: Entries)
    ensures Keys(r) == if key in Keys(e) then Keys(e) else Keys(e) + [key]
    ensures Get(r, key) == value
    ensures forall k :: k in Keys(e) && k != key ==> Get(r, k) == Get(e, k)
  {
    if key in Keys(e) then
      var i := IndexOf(Keys(e), key);
      var r := e[i := (key, value)];
      assert Keys(r) == Keys(e);
      r
    else
      var r := e + [(key, value)];
      assert Keys(r) == Keys(e) + [key];
      IndexOfSnoc(Keys(e), key);
      r
  }

  /** The `rwy` dictionary after the rows of one run. */
  function RunEntries(run: seq<GearRow>, tables: Tables): (r: Entries)
    requires Described(run, tables)
    ensures run != [] ==> Last(run).rwy in Keys(r)
    decreases |run|
  {
    if run == [] then []
    else
      var x := Last(run);
      var d := Describe(x, tables).value;
      if Init(run) == [] then
        var r := [(x.rwy, d)];
        assert Keys(r) == [x.rwy];
        r
      else
        var e := RunEntries(Init(run), tables);
        if x.rwy != Last(Init(run)).rwy then Put(e, x.rwy, d)
        else Put(e, x.rwy, Get(e, x.rwy) + "&#10;" + d)
  }

  function RwyIdents(run: seq<GearRow>): (ids: seq<string>)
    ensures |ids| == |run| && forall k :: 0 <= k < |run| ==> ids[k] == run[k].rwy
  {
    seq(|run|, k requires 0 <= k < |run| => run[k].rwy)
  }

  /** The runway keys come in the order each runway first appears. */
  lemma {:induction false} EntryKeysFirstSeen(run: seq<GearRow>, tables: Tables)
    requires Described(run, tables)
    ensures Keys(RunEntries(run, tables)) == FirstOccurrences(RwyIdents(run))
    decreases |run|
  {
    if run != [] {
      var ids := RwyIdents(run);
      assert Init(ids) == RwyIdents(Init(run)) && Last(ids) == Last(run).rwy;
      if Init(run) == [] {
        assert Init(ids) == [];
      } else {
        EntryKeysFirstSeen(Init(run), tables);
      }
    }
  }

  /** The rows ending run whose runway is the last one's, unbroken. */
  function Block(run: seq<GearRow>): (b: seq<GearRow>)
    requires run != []
    ensures b != [] && Last(b) == Last(run)
    decreases |run|
  {
    if |run| >= 2 && run[|run| - 2].rwy == Last(run).rwy then Block(Init(run)) + [Last(run)] else [Last(run)]
  }

  /** The last unbroken stretch of rows of runway key. */
  function LastBlock(run: seq<GearRow>, key: string): seq<GearRow>
    requires key in RwyIdents(run)
    decreases |run|
  {
    if Last(run).rwy == key then Block(run)
    else
      assert key in RwyIdents(Init(run)) by {
        var k :| 0 <= k < |run| && RwyIdents(run)[k] == key;
        assert k < |run| - 1;
        assert RwyIdents(Init(run))[k] == key;
      }
      LastBlock(Init(run), key)
  }

  function Descriptions(rows: seq<GearRow>, tables: Tables): (ds: seq<string>)
    requires Described(rows, tables)
    ensures |ds| == |rows|
  {
    if rows == [] then [] else Descriptions(Init(rows), tables) + [Describe(Last(rows), tables).value]
  }

  lemma {:induction false} BlockDescribed(run: seq<GearRow>, tables: Tables)
    requires run != [] && Described(run, tables)
    ensures Described(Block(run), tables)
    ensures forall r :: r in Block(run) ==> r in run
    decreases |run|
  {
    if |run| >= 2 && run[|run| - 2].rwy == Last(run).rwy {
      BlockDescribed(Init(run), tables);
    }
  }

  lemma {:induction false} LastBlockDescribed(run: seq<GearRow>, key: string, tables: Tables)
    requires key in RwyIdents(run) && Described(run, tables)
    ensures Described(LastBlock(run, key), tables)
    decreases |run|
  {
    if Last(run).rwy == key {
      BlockDescribed(run, tables);
    } else {
      var k :| 0 <= k < |run| && RwyIdents(run)[k] == key;
      assert RwyIdents(Init(run))[k] == key;
      LastBlockDescribed(Init(run), key, tables);
    }
  }

  /** Each runway's entry is the descriptions of its last unbroken stretch
      of rows joined by '&#10;': consecutive rows of one runway merge, and a
      runway that comes back after another starts afresh. */
  lemma {:induction false} EntryValue(run: seq<GearRow>, tables: Tables, key: string)
    requires Described(run, tables) && key in RwyIdents(run)
    ensures key in Keys(RunEntries(run, tables))
    ensures Described(LastBlock(run, key), tables)
      && Get(RunEntries(run, tables), key) == Join("&#10;", Descriptions(LastBlock(run, key), tables))
    decreases |run|
  {
    KeyOfEntries(run, tables, key);
    LastBlockDescribed(run, key, tables);
    var x := Last(run);
    if Init(run) == [] || x.rwy != Last(Init(run)).rwy {
      if key == x.rwy {
        FreshEntry(run, tables);
      } else {
        OtherEntry(run, tables, key);
        EntryValue(Init(run), tables, key);
      }
    } else if key != x.rwy {
      OtherEntry(run, tables, key);
      EntryValue(Init(run), tables, key);
    } else {
      MergedEntry(run, tables);
      EntryValue(Init(run), tables, key);
    }
  }

  lemma {:induction false} KeyOfEntries(run: seq<GearRow>, tables: Tables, key: string)
    requires Described(run, tables) && key in RwyIdents(run)
    ensures key in Keys(RunEntries(run, tables))
  {
    EntryKeysFirstSeen(run, tables);
  }

  /** A runway that differs from the row before starts a fresh entry. */
  lemma {:induction false} FreshEntry(run: seq<GearRow>, tables: Tables)
    requires run != [] && Described(run, tables)
    requires Init(run) == [] || Last(run).rwy != Last(Init(run)).rwy
    ensures Last(run).rwy in RwyIdents(run)
    ensures LastBlock(run, Last(run).rwy) == [Last(run)]
    ensures Described([Last(run)], tables)
    ensures Get(RunEntries(run, tables), Last(run).rwy) == Join("&#10;", Descriptions([Last(run)], tables))
  {
    var x := Last(run);
    assert RwyIdents(run)[|run| - 1] == x.rwy;
    if Init(run) != [] {
      assert run[|run| - 2] == Last(Init(run));
    }
    assert Descriptions([x], tables) == [Describe(x, tables).value];
  }

  /** The entries of the other runways are those before the last row. */
  lemma {:induction false} OtherEntry(run: seq<GearRow>, tables: Tables, key: string)
    requires run != [] && Described(run, tables) && key in RwyIdents(run) && key != Last(run).rwy
    ensures Init(run) != [] && key in RwyIdents(Init(run))
    ensures Described(Init(run), tables)
    ensures key in Keys(RunEntries(Init(run), tables))
    ensures LastBlock(run, key) == LastBlock(Init(run), key)
    ensures Get(RunEntries(run, tables), key) == Get(RunEntries(Init(run), tables), key)
  {
    var k :| 0 <= k < |run| && RwyIdents(run)[k] == key;
    assert k < |run| - 1;
    assert RwyIdents(Init(run))[k] == key;
    KeyOfEntries(Init(run), tables, key);
  }

  /** A runway equal to the row before extends that row's entry. */
  lemma {:induction false} MergedEntry(run: seq<GearRow>, tables: Tables)
    requires run != [] && Described(run, tables)
    requires Init(run) != [] && Last(run).rwy == Last(Init(run)).rwy
    ensures Last(run).rwy in RwyIdents(Init(run))
    ensures Described(Init(run), tables) && Described(Block(Init(run)), tables)
    ensures LastBlock(Init(run), Last(run).rwy) == Block(Init(run))
    ensures LastBlock(run, Last(run).rwy) == Block(Init(run)) + [Last(run)]
    ensures Descriptions(LastBlock(run, Last(run).rwy), tables)
      == Descriptions(Block(Init(run)), tables) + [Describe(Last(run), tables).value]
    ensures Join("&#10;", Descriptions(LastBlock(run, Last(run).rwy), tables))
      == Join("&#10;", Descriptions(Block(Init(run)), tables)) + "&#10;" + Describe(Last(run), tables).value
    ensures Get(RunEntries(run, tables), Last(run).rwy)
      == Get(RunEntries(Init(run), tables), Last(run).rwy) + "&#10;" + Describe(Last(run), tables).value
  {
    var init, x := Init(run), Last(run);
    assert RwyIdents(init)[|init| - 1] == x.rwy;
    assert run[|run| - 2] == Last(init);
    BlockDescribed(init, tables);
    var b := Block(run);
    assert b == Block(init) + [x];
    assert Init(b) == Block(init) && Last(b) == x;
    JoinSnoc("&#10;", Descriptions(Block(init), tables), Describe(x, tables).value);
  }


  /** One `<span>` per runway: the entry as its title, the key as its text. */
  function Span(entry: (string, string)): string {
    "<span class='details' title='" + entry.1 + "'>" + entry.0 + "</span>"
  }

  /** The RWY property: the spans joined by ' · ', in key order. */
  function RwyText(e: Entries): string {
    Join(" · ", seq(|e|, k requires 0 <= k < |e| => Span(e[k])))
  }

  // ---------------------------------------------------------------------
  // Features (agear.py:127-159)

  ghost predicate Ready(runs: seq<seq<GearRow>>, tables: Tables, airports: map<string, Airport>) {
    forall k :: 0 <= k < |runs| ==> runs[k] != [] && Described(runs[k], tables) && Last(runs[k]).arpt in airports
  }

  /** The feature of one run: its last row's airport, its runway entries. */
  function RunFeature(run: seq<GearRow>, tables: Tables, airports: map<string, Airport>): GearFeature
    requires run != [] && Described(run, tables) && Last(run).arpt in airports
  {
    var a := airports[Last(run).arpt];
    GearFeature(a.icao, a.name, RwyText(RunEntries(run, tables)), a.lon, a.lat)
  }

  function RunFeatures(runs: seq<seq<GearRow>>, tables: Tables, airports: map<string, Airport>): (fs: seq<GearFeature>)
    requires Ready(runs, tables, airports)
    ensures |fs| == |runs|
  {
    if runs == [] then []
    else
      ReadyInit(runs, tables, airports);
      RunFeatures(Init(runs), tables, airports) + [RunFeature(Last(runs), tables, airports)]
  }

  /** Feature k is built from run k. */
  lemma {:induction false} RunFeaturesAt(runs: seq<seq<GearRow>>, tables: Tables, airports: map<string, Airport>, k: nat)
    requires Ready(runs, tables, airports) && k < |runs|
    ensures RunFeatures(runs, tables, airports)[k] == RunFeature(runs[k], tables, airports)
  {
    ReadyInit(runs, tables, airports);
    if k < |runs| - 1 {
      RunFeaturesAt(Init(runs), tables, airports, k);
    }
  }

  lemma {:induction false} ReadyInit(runs: seq<seq<GearRow>>, tables: Tables, airports: map<string, Airport>)
    requires runs != [] && Ready(runs, tables, airports)
    ensures Ready(Init(runs), tables, airports)
    ensures Last(runs) != [] && Described(Last(runs), tables) && Last(Last(runs)).arpt in airports
    ensures forall k :: 0 <= k < |Init(runs)| ==> Init(runs)[k] == runs[k]
  {
    forall k | 0 <= k < |Init(runs)|
      ensures Init(runs)[k] == runs[k]
    {
    }
  }

  /** The FeatureCollection's features, or None where the script fails:
      an empty list (IndexError on `agear[0]`), an unknown gear code or an
      airport missing from ARPT.txt (KeyError). */
  ghost function Features(agear: seq<GearRow>, tables: Tables, airports: map<string, Airport>): Option<seq<GearFeature>> {
    if agear == [] || !Described(agear, tables) then None
    else
      var runs := Runs(agear);
      if forall k :: 0 <= k < |runs| ==> Last(runs[k]).arpt in airports then
        RunsMembers(agear);
        Some(RunFeatures(runs, tables, airports))
      else None
  }

  /** Exactly one feature per airport run, in order, each built from the
      run's last row. */
  lemma {:induction false} FeaturesPerRun(agear: seq<GearRow>, tables: Tables, airports: map<string, Airport>)
    requires Features(agear, tables, airports).Some?
    ensures var fs := Features(agear, tables, airports).value;
      && |fs| == RunStarts(agear)
      && forall k :: 0 <= k < |fs| ==> fs[k].ident == airports[Last(Runs(agear)[k]).arpt].icao
  {
    RunsCount(agear);
    var runs := Runs(agear);
    RunsMembers(agear);
    forall k | 0 <= k < |runs|
      ensures RunFeatures(runs, tables, airports)[k].ident == airports[Last(runs[k]).arpt].icao
    {
      RunFeaturesAt(runs, tables, airports, k);
    }
  }

  /** The loop's state after the first i rows: `ident` is the airport of
      the open run, `rwy` that run's entries and `out` the features of the
      runs already closed. */
  ghost predicate Grouped(agear: seq<GearRow>, i: int, tables: Tables, airports: map<string, Airport>,
                          ident: string, rwy: Entries, out: seq<GearFeature>)
  {
    && 1 <= i <= |agear|
    && Described(agear[..i], tables)
    && ident == agear[i - 1].arpt
    && Described(Last(Runs(agear[..i])), tables)
    && rwy == RunEntries(Last(Runs(agear[..i])), tables)
    && Ready(Init(Runs(agear[..i])), tables, airports)
    && out == RunFeatures(Init(Runs(agear[..i])), tables, airports)
  }

  /** The grouping loop over the list with a copy of its first row appended
      as a sentinel. */
  method Group(agear: seq<GearRow>, tables: Tables, airports: map<string, Airport>) returns (fc: Option<seq<GearFeature>>)
    ensures fc == Features(agear, tables, airports)
  {
    if |agear| == 0 {
      return None;
    }
    var rows := agear + [agear[0]];
    var ident := "";
    var rwy: Entries := [];
    var out: seq<GearFeature> := [];
    var i := 0;
    while i < |rows|
      invariant i <= |rows| && GroupState(agear, rows, i, tables, airports, ident, rwy, out)
    {
      var ok;
      ok, ident, rwy, out := GroupRow(agear, rows, i, tables, airports, ident, rwy, out);
      if !ok {
        return None;
      }
      i := i + 1;
    }
    return Some(out);
  }

  /** The grouping loop's state before row i of the list with its sentinel:
      nothing yet, a run open after the features of the closed ones, or,
      past the sentinel, every feature. */
  ghost predicate GroupState(agear: seq<GearRow>, rows: seq<GearRow>, i: nat, tables: Tables, airports: map<string, Airport>,
                             ident: string, rwy: Entries, out: seq<GearFeature>)
  {
    && agear != [] && rows == agear + [agear[0]] && i <= |agear| + 1
    && (i == 0 ==> rwy == [] && out == [])
    && (1 <= i <= |agear| ==> Grouped(agear, i, tables, airports, ident, rwy, out))
    && (i == |agear| + 1 ==> Features(agear, tables, airports) == Some(out))
  }

  /** One iteration of the grouping loop, on row i of the list with its
      sentinel: at an airport change, or at the sentinel, the open run
      becomes a feature; then the row opens a run or extends the open one.
      Not ok is the KeyError of a missing airport or an unknown code. */
  method GroupRow(agear: seq<GearRow>, rows: seq<GearRow>, i: nat, tables: Tables, airports: map<string, Airport>,
                  ident: string, rwy: Entries, out: seq<GearFeature>)
    returns (ok: bool, ident': string, rwy': Entries, out': seq<GearFeature>)
    requires i < |rows| && GroupState(agear, rows, i, tables, airports, ident, rwy, out)
    ensures !ok ==> Features(agear, tables, airports) == None
    ensures ok ==> GroupState(agear, rows, i + 1, tables, airports, ident', rwy', out')
  {
    var n := |agear|;
    var row := rows[i];
    ident', rwy', out' := ident, rwy, out;
    if 1 <= i {
      GroupedOpen(agear, i, tables, airports, ident, rwy, out);
      assert rows[i - 1] == agear[i - 1];
    }
    if i < n {
      assert row == agear[i];
    }
    if (row.arpt != ident && |rwy| > 0) || i == n {
      var prev := rows[i - 1];
      if prev.arpt !in airports {
        GroupMissing(agear, i, airports, tables);
        return false, ident', rwy', out';
      }
      var a := airports[prev.arpt];
      GroupClose(agear, i, tables, airports, ident, rwy, out);
      out' := out + [GearFeature(a.icao, a.name, RwyText(rwy), a.lon, a.lat)];
      ident' := row.arpt;
      rwy' := [];
    }
    var d := Describe(row, tables);
    if d.None? {
      GroupUndescribed(agear, if i < n then i else 0, tables, airports);
      return false, ident', rwy', out';
    }
    if rwy' == [] {
      if i == n {
        GroupDone(agear, tables, airports, out');
      } else if i == 0 {
        GroupFirst(agear, tables, airports);
      } else {
        GroupNew(agear, i, tables, airports, out');
      }
      return true, row.arpt, [(row.rwy, d.value)], out';
    }
    GroupSame(agear, i, tables, airports, ident, rwy, out);
    if row.rwy != rows[i - 1].rwy {
      rwy' := Put(rwy, row.rwy, d.value);
    } else {
      rwy' := Put(rwy, row.rwy, Get(rwy, row.rwy) + "&#10;" + d.value);
    }
    return true, ident', rwy', out';
  }

  /** While a run is open its `rwy` dictionary is not empty. */
  lemma {:induction false} GroupedOpen(agear: seq<GearRow>, i: int, tables: Tables, airports: map<string, Airport>,
                    ident: string, rwy: Entries, out: seq<GearFeature>)
    requires Grouped(agear, i, tables, airports, ident, rwy, out)
    ensures |rwy| > 0
  {
    assert |Keys(rwy)| > 0;
  }

  lemma {:induction false} GroupFirst(agear: seq<GearRow>, tables: Tables, airports: map<string, Airport>)
    requires agear != [] && Describe(agear[0], tables).Some?
    ensures Grouped(agear, 1, tables, airports, agear[0].arpt,
                    [(agear[0].rwy, Describe(agear[0], tables).value)], [])
  {
    assert agear[..1] == [agear[0]];
    assert Runs([agear[0]]) == [[agear[0]]];
    assert Init(Runs([agear[0]])) == [];
  }

  /** A row of the open run's airport extends the open run. */
  lemma {:induction false} GroupSame(agear: seq<GearRow>, i: int, tables: Tables, airports: map<string, Airport>,
                  ident: string, rwy: Entries, out: seq<GearFeature>)
    requires Grouped(agear, i, tables, airports, ident, rwy, out)
    requires i < |agear| && agear[i].arpt == ident && Describe(agear[i], tables).Some?
    ensures agear[i].rwy != agear[i - 1].rwy ==>
      Grouped(agear, i + 1, tables, airports, ident, Put(rwy, agear[i].rwy, Describe(agear[i], tables).value), out)
    ensures agear[i].rwy == agear[i - 1].rwy ==> agear[i].rwy in Keys(rwy)
    ensures agear[i].rwy == agear[i - 1].rwy && agear[i].rwy in Keys(rwy) ==>
      Grouped(agear, i + 1, tables, airports, ident,
              Put(rwy, agear[i].rwy, Get(rwy, agear[i].rwy) + "&#10;" + Describe(agear[i], tables).value), out)
  {
    GroupStep(agear, i, tables, airports);
    RunsMembers(agear[..i + 1]);
    var run := Last(Runs(agear[..i]));
    assert Last(run) == Last(agear[..i]) == agear[i - 1];
    RunEntriesSnoc(run, agear[i], tables);
  }

  /** One more row in a run: a new runway gets a fresh entry, a repeated
      one extends the entry of the row before. */
  lemma {:induction false} RunEntriesSnoc(run: seq<GearRow>, x: GearRow, tables: Tables)
    requires run != [] && Described(run, tables) && Describe(x, tables).Some?
    ensures Described(run + [x], tables)
    ensures Init(run + [x]) == run && Last(run + [x]) == x
    ensures Last(run).rwy in Keys(RunEntries(run, tables))
    ensures x.rwy != Last(run).rwy ==>
      RunEntries(run + [x], tables) == Put(RunEntries(run, tables), x.rwy, Describe(x, tables).value)
    ensures x.rwy == Last(run).rwy ==>
      RunEntries(run + [x], tables)
        == Put(RunEntries(run, tables), x.rwy, Get(RunEntries(run, tables), x.rwy) + "&#10;" + Describe(x, tables).value)
  {
    assert Init(run + [x]) == run;
  }

  /** Closing the open run whose airport is known yields its feature. */
  lemma {:induction false} GroupClose(agear: seq<GearRow>, i: int, tables: Tables, airports: map<string, Airport>,
                   ident: string, rwy: Entries, out: seq<GearFeature>)
    requires Grouped(agear, i, tables, airports, ident, rwy, out)
    requires agear[i - 1].arpt in airports
    ensures Ready(Runs(agear[..i]), tables, airports)
    ensures var a := airports[agear[i - 1].arpt];
      out + [GearFeature(a.icao, a.name, RwyText(rwy), a.lon, a.lat)] == RunFeatures(Runs(agear[..i]), tables, airports)
  {
    var runs := Runs(agear[..i]);
    assert Last(Last(runs)) == Last(agear[..i]) == agear[i - 1];
    assert runs == Init(runs) + [Last(runs)];
  }

  /** A row of another airport opens a fresh run after the closed one. */
  lemma {:induction false} GroupNew(agear: seq<GearRow>, i: int, tables: Tables, airports: map<string, Airport>,
                 out: seq<GearFeature>)
    requires 1 <= i < |agear| && agear[i].arpt != agear[i - 1].arpt
    requires Described(agear[..i], tables) && Describe(agear[i], tables).Some?
    requires Ready(Runs(agear[..i]), tables, airports)
    requires out == RunFeatures(Runs(agear[..i]), tables, airports)
    ensures Grouped(agear, i + 1, tables, airports, agear[i].arpt,
                    [(agear[i].rwy, Describe(agear[i], tables).value)], out)
  {
    GroupStep(agear, i, tables, airports);
    var x := agear[i];
    var runs := Runs(agear[..i]);
    var runs' := Runs(agear[..i + 1]);
    assert runs' == runs + [[x]];
    InitLastSnoc(runs, [x]);
    assert agear[..i + 1] == agear[..i] + [x];
    DescribedSnoc(agear[..i], x, tables);
    RunEntriesSingle(x, tables);
  }

  lemma {:induction false} DescribedSnoc(rows: seq<GearRow>, x: GearRow, tables: Tables)
    requires Described(rows, tables) && Describe(x, tables).Some?
    ensures Described(rows + [x], tables)
  {
  }

  /** The entries of a run of one row: its runway and its description. */
  lemma {:induction false} RunEntriesSingle(x: GearRow, tables: Tables)
    requires Describe(x, tables).Some?
    ensures Described([x], tables)
    ensures RunEntries([x], tables) == [(x.rwy, Describe(x, tables).value)]
  {
    assert Init([x]) == [];
  }

  /** A closed run whose airport is missing makes the script fail. */
  lemma {:induction false} GroupMissing(agear: seq<GearRow>, i: int, airports: map<string, Airport>, tables: Tables)
    requires 1 <= i <= |agear|
    requires i < |agear| ==> agear[i].arpt != agear[i - 1].arpt
    requires agear[i - 1].arpt !in airports
    ensures Features(agear, tables, airports) == None
  {
    var runs := Runs(agear[..i]);
    assert Last(agear[..i]) == agear[i - 1];
    if i < |agear| {
      RunsAppendBreak(agear[..i], agear[i..]);
      assert agear[..i] + agear[i..] == agear;
      assert Runs(agear)[|runs| - 1] == Last(runs);
    } else {
      assert agear[..i] == agear;
    }
    FeaturesMissing(agear, tables, airports, |runs| - 1);
  }

  /** A run whose airport is not in ARPT.txt makes the script fail. */
  lemma {:induction false} FeaturesMissing(agear: seq<GearRow>, tables: Tables, airports: map<string, Airport>, k: int)
    requires 0 <= k < |Runs(agear)| && Last(Runs(agear)[k]).arpt !in airports
    ensures Features(agear, tables, airports) == None
  {
  }

  /** A row with an unknown gear code makes the script fail. */
  lemma {:induction false} GroupUndescribed(agear: seq<GearRow>, i: int, tables: Tables, airports: map<string, Airport>)
    requires 0 <= i < |agear| && Describe(agear[i], tables).None?
    ensures Features(agear, tables, airports) == None
  {
    assert agear[i] in agear;
  }

  /** After the last run is closed the features are complete. */
  lemma {:induction false} GroupDone(agear: seq<GearRow>, tables: Tables, airports: map<string, Airport>, out: seq<GearFeature>)
    requires agear != [] && Described(agear[..|agear|], tables)
    requires Ready(Runs(agear[..|agear|]), tables, airports)
    requires out == RunFeatures(Runs(agear[..|agear|]), tables, airports)
    ensures Features(agear, tables, airports) == Some(out)
  {
    assert agear[..|agear|] == agear;
  }

  /** How one more row changes the runs, for the grouping loop. */
  lemma {:induction false} GroupStep(agear: seq<GearRow>, i: nat, tables: Tables, airports: map<string, Airport>)
    requires i < |agear|
    ensures Init(agear[..i + 1]) == agear[..i] && Last(agear[..i + 1]) == agear[i]
    ensures i == 0 ==> Runs(agear[..i + 1]) == [[agear[i]]]
    ensures i > 0 && agear[i].arpt != agear[i - 1].arpt ==>
      Runs(agear[..i + 1]) == Runs(agear[..i]) + [[agear[i]]]
    ensures i > 0 && agear[i].arpt == agear[i - 1].arpt ==>
      && Init(Runs(agear[..i + 1])) == Init(Runs(agear[..i]))
      && Last(Runs(agear[..i + 1])) == Last(Runs(agear[..i])) + [agear[i]]
  {
    assert Init(agear[..i + 1]) == agear[..i];
    if i > 0 {
      assert Last(agear[..i]) == agear[i - 1];
    }
  }

  // ---------------------------------------------------------------------
  // The whole script (agear.py:68-161)

  /** The FeatureCollection's features as a reference: the gear rows read,
      filtered and grouped against the dictionaries read from the other
      three files; None where the script raises. */
  ghost function Expected(raw: seq<GearRow>, arpts: seq<ArptRow>, ab: seq<(string, string)>, en: seq<(string, string)>,
                          f: Filters): Option<seq<GearFeature>>
  {
    var tables := Tables(DictOf(ab, Code, CodeName), DictOf(en, Code, CodeName));
    if !AllParse(raw) then None
    else
      var gear := GearRows(raw);
      if exists k :: 0 <= k < |gear| && Verdict(f, tables, gear[k]).None? then None
      else Features(Filter(gear, Keep(f, tables)), tables, DictOf(arpts, ArptIdent, AirportOf))
  }

  /** agear.py:68-161 from the rows of the four files to the features. */
  method Run(raw: seq<GearRow>, arpts: seq<ArptRow>, ab: seq<(string, string)>, en: seq<(string, string)>, f: Filters)
    returns (fc: Option<seq<GearFeature>>)
    ensures fc == Expected(raw, arpts, ab, en, f)
    ensures fc.Some? ==> AllParse(raw) && |fc.value| == RunStarts(Filter(GearRows(raw), Keep(f, Tables(DictOf(ab, Code, CodeName), DictOf(en, Code, CodeName)))))
  {
    var absorbing := Dictionary(ab, Code, CodeName);
    var engaging := Dictionary(en, Code, CodeName);
    var tables := Tables(absorbing, engaging);
    var airports := Dictionary(arpts, ArptIdent, AirportOf);
    var agear := ReadGear(raw);
    if agear.None? {
      return None;
    }
    var kept := FilterGear(agear.value, f, tables);
    if kept.None? {
      return None;
    }
    fc := Group(kept.value, tables, airports);
    if fc.Some? {
      FeaturesPerRun(kept.value, tables, airports);
    }
  }
}
