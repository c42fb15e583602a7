/** statsLiftoffGFF.py: valid feature types, per-gene coverage attributes,
    per-sequence feature counts, and the three tab-separated reports built
    from them. */
module LiftoffStats {
  import opened Outcomes
  import opened Text
  import opened Gff

  // ---------------------------------------------------------------------
  // getValidFeatures
  // ---------------------------------------------------------------------

  /** The `.` placeholder type, which is not a valid feature type. */
  const Placeholder := "."

  /** types with every "." entry removed, order kept */
  function WithoutPlaceholder(types: seq<string>): (r: seq<string>)
    ensures forall t :: t in r <==> t in types && t != Placeholder
    ensures |r| <= |types|
  {
    if |types| == 0 then []
    else
      var init, t := types[..|types| - 1], types[|types| - 1];
      assert types == init + [t];
      if t == Placeholder then WithoutPlaceholder(init) else WithoutPlaceholder(init) + [t]
  }

  lemma {:induction false} WithoutPlaceholderAppend(a: seq<string>, b: seq<string>)
    ensures WithoutPlaceholder(a + b) == WithoutPlaceholder(a) + WithoutPlaceholder(b)
  {
    if |b| > 0 {
      assert (a + b)[..|a + b| - 1] == a + b[..|b| - 1];
      WithoutPlaceholderAppend(a, b[..|b| - 1]);
    } else {
      assert a + b == a;
    }
  }

  /** Only the "." entry goes: a type list holding it once, at position k,
      loses exactly that entry (and one without it is kept whole, see
      WithoutPlaceholderKeeps). */
  lemma {:induction false} PlaceholderOnlyRemoved(types: seq<string>, k: nat)
    requires k < |types| && types[k] == Placeholder
    requires Placeholder !in types[..k] && Placeholder !in types[k + 1..]
    ensures WithoutPlaceholder(types) == types[..k] + types[k + 1..]
  {
    var before, after := types[..k], types[k + 1..];
    assert types == before + [Placeholder] + after;
    calc {
      WithoutPlaceholder(types);
      { WithoutPlaceholderAppend(before + [Placeholder], after); }
      WithoutPlaceholder(before + [Placeholder]) + WithoutPlaceholder(after);
      { WithoutPlaceholderDrops(before); WithoutPlaceholderKeeps(after); }
      before + after;
    }
  }

  lemma {:induction false} WithoutPlaceholderDrops(before: seq<string>)
    requires Placeholder !in before
    ensures WithoutPlaceholder(before + [Placeholder]) == before
  {
    assert (before + [Placeholder])[..|before|] == before;
    WithoutPlaceholderKeeps(before);
  }

  /** A type list without "." comes back whole. */
  lemma {:induction false} WithoutPlaceholderKeeps(types: seq<string>)
    requires Placeholder !in types
    ensures WithoutPlaceholder(types) == types
  {
    if |types| > 0 {
      WithoutPlaceholderKeeps(types[..|types| - 1]);
      assert types == types[..|types| - 1] + [types[|types| - 1]];
    }
  }

  /** getValidFeatures: the loop appending every type that is not "." (the
      bare `next` in the "." branch does nothing). */
  method GetValidFeatures(db: Store) returns (ft: seq<string>)
    ensures ft == WithoutPlaceholder(FeatureTypes(db))
  {
    var types := FeatureTypes(db);
    ft := [];
    for i := 0 to |types|
      invariant ft == WithoutPlaceholder(types[..i])
    {
      assert types[..i + 1][..i] == types[..i];
      if types[i] == Placeholder {
      } else {
        ft := ft + [types[i]];
      }
    }
    assert types[..|types|] == types;
  }

  // ---------------------------------------------------------------------
  // getAttributeStats
  // ---------------------------------------------------------------------

  const PartialKey := "partial_mapping"
  const LowIdentityKey := "low_identity"

  datatype StatsError =
    | MissingAttribute(key: string)         // f.attributes[key] on an absent key
    | EmptyAttribute(key: string)           // f.attributes[key][0] on an empty list
    | NotAFloat(key: string, text: string)  // the text is not a float literal
    | MissingStats(featuretype: string)     // no lists were gathered for the type

  /** The first value of attribute key. */
  function FirstValue(attrs: map<string, seq<string>>, key: string): Result<string, StatsError>
  {
    if key !in attrs then Err(MissingAttribute(key))
    else if |attrs[key]| == 0 then Err(EmptyAttribute(key))
    else Ok(attrs[key][0])
  }

  /** Index of the first c in s, or |s| when there is none. */
  function Find(s: string, c: char): (k: nat)
    ensures k <= |s| && (k < |s| ==> s[k] == c)
    ensures forall j :: 0 <= j < k ==> s[j] != c
  {
    if |s| == 0 then 0 else if s[0] == c then 0 else 1 + Find(s[1..], c)
  }

  function LowerAscii(s: string): string
  {
    seq(|s|, i requires 0 <= i < |s| => if 'A' <= s[i] <= 'Z' then (s[i] as int + 32) as char else s[i])
  }

  /** digits, with at most one '.', holding at least one digit */
  predicate IsMantissa(m: string)
  {
    var d := Find(m, '.');
    if d == |m| then |m| > 0 && AllDigits(m)
    else |m| > 1 && AllDigits(m[..d]) && AllDigits(m[d + 1..])
  }

  predicate IsExponentDigits(x: string)
  {
    var digits := if |x| > 0 && (x[0] == '+' || x[0] == '-') then x[1..] else x;
    |digits| > 0 && AllDigits(digits)
  }

  /** The texts float() accepts: a signed decimal with optional exponent,
      or a signed inf, infinity or nan in any case. */
  predicate IsFloatText(s: string)
  {
    var body := if |s| > 0 && (s[0] == '+' || s[0] == '-') then s[1..] else s;
    var e := if Find(body, 'e') < Find(body, 'E') then Find(body, 'e') else Find(body, 'E');
    (IsMantissa(body[..e]) && (e == |body| || IsExponentDigits(body[e + 1..]))) ||
    LowerAscii(body) in ["inf", "infinity", "nan"]
  }

  /** The first value of key read as a float, carried as the accepted text. */
  function FloatValue(attrs: map<string, seq<string>>, key: string): Result<string, StatsError>
  {
    match FirstValue(attrs, key)
    case Err(e) => Err(e)
    case Ok(text) => if IsFloatText(text) then Ok(text) else Err(NotAFloat(key, text))
  }

  /** the key is present with at least one value */
  predicate Present(attrs: map<string, seq<string>>, key: string)
  {
    key in attrs && attrs[key] != []
  }

  /** The 0/1 flag: 1 for a present key with a non-empty value list. */
  function Flag(attrs: map<string, seq<string>>, key: string): nat
  {
    if Present(attrs, key) then 1 else 0
  }

  /** The values one iteration of the feature loop appends. */
  datatype CoverageRecord = CoverageRecord(
    id: string, description: string, sequenceId: string, coverage: string,
    partial: nat, lowIdentity: nat)

  /** One feature's record, or the first failing lookup in source order:
      ID, description, sequence_ID, coverage. */
  function CoverageOf(f: Feature): Result<CoverageRecord, StatsError>
  {
    var a := f.attributes;
    match FirstValue(a, "ID")
    case Err(e) => Err(e)
    case Ok(id) =>
      match FirstValue(a, "description")
      case Err(e) => Err(e)
      case Ok(description) =>
        match FloatValue(a, "sequence_ID")
        case Err(e) => Err(e)
        case Ok(sequenceId) =>
          match FloatValue(a, "coverage")
          case Err(e) => Err(e)
          case Ok(coverage) =>
            Ok(CoverageRecord(id, description, sequenceId, coverage,
                              Flag(a, PartialKey), Flag(a, LowIdentityKey)))
  }

  /** A record exists exactly when the four mandatory attributes are
      present with a value each and both numbers parse; no default is
      ever applied to them. */
  lemma {:induction false} MandatoryAttributes(f: Feature)
    ensures var a := f.attributes;
      CoverageOf(f).Ok? <==>
        Present(a, "ID") && Present(a, "description") &&
        Present(a, "sequence_ID") && Present(a, "coverage") &&
        IsFloatText(a["sequence_ID"][0]) && IsFloatText(a["coverage"][0])
    ensures "ID" !in f.attributes ==> CoverageOf(f) == Err(MissingAttribute("ID"))
  {
  }

  /** The lookup error for an attribute that is not present with a value:
      the key is absent, or its value list is empty. */
  function LookupError(attrs: map<string, seq<string>>, key: string): StatsError
  {
    if key in attrs then EmptyAttribute(key) else MissingAttribute(key)
  }

  /** The lookups fail in source order: ID, then description, then
      sequence_ID (absent or not a float), then coverage; the first failing
      one decides the error. */
  lemma {:induction false} CoverageErrorOrder(f: Feature)
    ensures var a := f.attributes;
      (!Present(a, "ID") ==> CoverageOf(f) == Err(LookupError(a, "ID"))) &&
      (Present(a, "ID") && !Present(a, "description") ==>
        CoverageOf(f) == Err(LookupError(a, "description"))) &&
      (Present(a, "ID") && Present(a, "description") && !Present(a, "sequence_ID") ==>
        CoverageOf(f) == Err(LookupError(a, "sequence_ID")))
    ensures var a := f.attributes;
      Present(a, "ID") && Present(a, "description") && Present(a, "sequence_ID") ==>
        (!IsFloatText(a["sequence_ID"][0]) ==>
          CoverageOf(f) == Err(NotAFloat("sequence_ID", a["sequence_ID"][0]))) &&
        (IsFloatText(a["sequence_ID"][0]) && !Present(a, "coverage") ==>
          CoverageOf(f) == Err(LookupError(a, "coverage"))) &&
        (IsFloatText(a["sequence_ID"][0]) && Present(a, "coverage") && !IsFloatText(a["coverage"][0]) ==>
          CoverageOf(f) == Err(NotAFloat("coverage", a["coverage"][0])))
  {
  }

  /** A record holds the first value of each of the four mandatory
      attributes, as given. */
  lemma {:induction false} CoverageFields(f: Feature)
    requires CoverageOf(f).Ok?
    ensures var r, a := CoverageOf(f).value, f.attributes;
      r.id == a["ID"][0] && r.description == a["description"][0] &&
      r.sequenceId == a["sequence_ID"][0] && r.coverage == a["coverage"][0]
  {
  }

  /** The two flags are 0 or 1, and 1 exactly when the attribute is present
      with a value, whatever that value says. */
  lemma {:induction false} CoverageFlags(f: Feature)
    requires CoverageOf(f).Ok?
    ensures var r, a := CoverageOf(f).value, f.attributes;
      r.partial <= 1 && r.lowIdentity <= 1 &&
      (r.partial == 1 <==> Present(a, PartialKey)) &&
      (r.lowIdentity == 1 <==> Present(a, LowIdentityKey))
  {
  }

  /** The six index-aligned lists built for one feature type. */
  datatype Columns = Columns(
    ids: seq<string>, descr: seq<string>, sequenceId: seq<string>, coverage: seq<string>,
    partial: seq<nat>, lowId: seq<nat>)

  /** all six lists have n entries */
  predicate HasLength(c: Columns, n: nat)
  {
    |c.ids| == n && |c.descr| == n && |c.sequenceId| == n && |c.coverage| == n &&
    |c.partial| == n && |c.lowId| == n
  }

  predicate Aligned(c: Columns)
  {
    HasLength(c, |c.sequenceId|)
  }

  function RecordAt(c: Columns, i: nat): CoverageRecord
    requires Aligned(c) && i < |c.sequenceId|
  {
    CoverageRecord(c.ids[i], c.descr[i], c.sequenceId[i], c.coverage[i], c.partial[i], c.lowId[i])
  }

  /** Entry i of the lists is the record of the i-th of the first n
      features. */
  ghost predicate TabulatesPrefix(c: Columns, fs: seq<Feature>, n: nat)
    requires n <= |fs|
  {
    HasLength(c, n) && forall i :: 0 <= i < n ==> CoverageOf(fs[i]) == Ok(RecordAt(c, i))
  }

  ghost predicate Tabulates(c: Columns, fs: seq<Feature>)
  {
    TabulatesPrefix(c, fs, |fs|)
  }

  /** The six appends of one iteration. */
  function Append(c: Columns, r: CoverageRecord): Columns
  {
    Columns(c.ids + [r.id], c.descr + [r.description], c.sequenceId + [r.sequenceId],
            c.coverage + [r.coverage], c.partial + [r.partial], c.lowId + [r.lowIdentity])
  }

  /** Appending the record of the next feature extends the table by it. */
  lemma {:induction false} TabulatesStep(c: Columns, fs: seq<Feature>, n: nat, r: CoverageRecord)
    requires n < |fs| && TabulatesPrefix(c, fs, n) && CoverageOf(fs[n]) == Ok(r)
    ensures TabulatesPrefix(Append(c, r), fs, n + 1)
  {
    var c' := Append(c, r);
    forall i | 0 <= i < n + 1
      ensures CoverageOf(fs[i]) == Ok(RecordAt(c', i))
    {
      if i < n {
        assert RecordAt(c', i) == RecordAt(c, i);
      }
    }
  }

  /** fs[i] is the first feature whose record fails, with error e. */
  ghost predicate FirstFailure(fs: seq<Feature>, e: StatsError)
  {
    exists i :: 0 <= i < |fs| && CoverageOf(fs[i]) == Err(e) &&
      forall j :: 0 <= j < i ==> CoverageOf(fs[j]).Ok?
  }

  ghost predicate AllCovered(db: Store, t: string)
  {
    forall f :: f in FeaturesOfType(db, t) ==> CoverageOf(f).Ok?
  }

  /** The lookups of one iteration of the feature loop, in source order. */
  method ExtractRecord(f: Feature) returns (r: Result<CoverageRecord, StatsError>)
    ensures r == CoverageOf(f)
  {
    var a := f.attributes;
    var id := FirstValue(a, "ID");
    if id.Err? { return Err(id.error); }
    var descr := FirstValue(a, "description");
    if descr.Err? { return Err(descr.error); }
    var seqId := FloatValue(a, "sequence_ID");
    if seqId.Err? { return Err(seqId.error); }
    var coverage := FloatValue(a, "coverage");
    if coverage.Err? { return Err(coverage.error); }
    var partial := if Present(a, PartialKey) then 1 else 0;
    var lowIdentity := if Present(a, LowIdentityKey) then 1 else 0;
    r := Ok(CoverageRecord(id.value, descr.value, seqId.value, coverage.value, partial, lowIdentity));
  }

  /** The inner loop of getAttributeStats for one feature type: the six
      appends of each iteration keep the lists index-aligned. */
  method ExtractColumns(db: Store, ft: string) returns (res: Result<Columns, StatsError>)
    ensures res.Ok? ==> Tabulates(res.value, FeaturesOfType(db, ft))
    ensures res.Err? ==> FirstFailure(FeaturesOfType(db, ft), res.error)
    ensures res.Ok? <==> AllCovered(db, ft)
  {
    var fs := FeaturesOfType(db, ft);
    var cols := Columns([], [], [], [], [], []);
    for i := 0 to |fs|
      invariant TabulatesPrefix(cols, fs, i)
    {
      var r := ExtractRecord(fs[i]);
      if r.Err? {
        assert fs[i] in fs;
        return Err(r.error);
      }
      TabulatesStep(cols, fs, i, r.value);
      cols := Append(cols, r.value);
    }
    forall f | f in fs
      ensures CoverageOf(f).Ok?
    {
      var i :| 0 <= i < |fs| && fs[i] == f;
    }
    res := Ok(cols);
  }

  /** The map after the first n gene types: one entry per type seen, each
      tabulating the features of its type, every one of them covered. */
  ghost predicate StatsUpTo(db: Store, geneTypes: seq<string>, n: nat, stats: map<string, Columns>)
    requires n <= |geneTypes|
  {
    stats.Keys == (set t | t in geneTypes[..n]) &&
    (forall t :: t in stats ==> Tabulates(stats[t], FeaturesOfType(db, t))) &&
    (forall j :: 0 <= j < n ==> AllCovered(db, geneTypes[j]))
  }

  /** One iteration of the type loop: stats.update for the next type. */
  lemma {:induction false} StatsStep(db: Store, geneTypes: seq<string>, n: nat, stats: map<string, Columns>, c: Columns)
    requires n < |geneTypes| && StatsUpTo(db, geneTypes, n, stats)
    requires Tabulates(c, FeaturesOfType(db, geneTypes[n])) && AllCovered(db, geneTypes[n])
    ensures StatsUpTo(db, geneTypes, n + 1, stats[geneTypes[n] := c])
  {
    StatsKeysStep(geneTypes[..n], geneTypes[n], stats, c);
    var seen := geneTypes[..n + 1];
    assert seen == geneTypes[..n] + [geneTypes[n]];
    StatsTabulatesStep(db, stats, geneTypes[n], c);
  }

  lemma {:induction false} StatsKeysStep(seen: seq<string>, ft: string, stats: map<string, Columns>, c: Columns)
    requires stats.Keys == set t | t in seen
    ensures stats[ft := c].Keys == set t | t in seen + [ft]
  {
  }

  lemma {:induction false} StatsTabulatesStep(db: Store, stats: map<string, Columns>, ft: string, c: Columns)
    requires forall t :: t in stats ==> Tabulates(stats[t], FeaturesOfType(db, t))
    requires Tabulates(c, FeaturesOfType(db, ft))
    ensures forall t :: t in stats[ft := c] ==> Tabulates(stats[ft := c][t], FeaturesOfType(db, t))
  {
    forall t | t in stats[ft := c]
      ensures Tabulates(stats[ft := c][t], FeaturesOfType(db, t))
    {
      if t != ft {
        assert stats[ft := c][t] == stats[t];
      }
    }
  }

  /** After the last type the map covers exactly the requested types. */
  lemma {:induction false} StatsComplete(db: Store, geneTypes: seq<string>, stats: map<string, Columns>)
    requires StatsUpTo(db, geneTypes, |geneTypes|, stats)
    ensures stats.Keys == set t | t in geneTypes
    ensures forall t :: t in geneTypes ==> Tabulates(stats[t], FeaturesOfType(db, t))
    ensures forall t :: t in geneTypes ==> AllCovered(db, t)
  {
    assert geneTypes[..|geneTypes|] == geneTypes;
    forall t | t in geneTypes
      ensures AllCovered(db, t)
    {
      var j :| 0 <= j < |geneTypes| && geneTypes[j] == t;
    }
  }

  /** A failing type after n covered ones: the error is that of its first
      failing feature, and not every requested type is covered. */
  lemma {:induction false} StatsFailed(db: Store, geneTypes: seq<string>, n: nat, stats: map<string, Columns>, e: StatsError)
    requires n < |geneTypes| && StatsUpTo(db, geneTypes, n, stats)
    requires FirstFailure(FeaturesOfType(db, geneTypes[n]), e)
    ensures exists i :: (0 <= i < |geneTypes| &&
      FirstFailure(FeaturesOfType(db, geneTypes[i]), e) &&
      forall j :: 0 <= j < i ==> AllCovered(db, geneTypes[j]))
    ensures !forall t :: t in geneTypes ==> AllCovered(db, t)
  {
    var fs := FeaturesOfType(db, geneTypes[n]);
    var k :| 0 <= k < |fs| && CoverageOf(fs[k]) == Err(e) && forall j :: 0 <= j < k ==> CoverageOf(fs[j]).Ok?;
    assert fs[k] in fs;
    assert !AllCovered(db, geneTypes[n]);
  }

  /** getAttributeStats: one set of lists per requested gene type; the
      first failing feature of the first failing type aborts it all. */
  method GetAttributeStats(db: Store, geneTypes: seq<string>)
    returns (res: Result<map<string, Columns>, StatsError>)
    ensures res.Ok? ==> res.value.Keys == set t | t in geneTypes
    ensures res.Ok? ==> forall t :: t in geneTypes ==> Tabulates(res.value[t], FeaturesOfType(db, t))
    ensures res.Ok? <==> forall t :: t in geneTypes ==> AllCovered(db, t)
    ensures res.Err? ==> exists i :: (0 <= i < |geneTypes| &&
      FirstFailure(FeaturesOfType(db, geneTypes[i]), res.error) &&
      forall j :: 0 <= j < i ==> AllCovered(db, geneTypes[j]))
  {
    var stats: map<string, Columns> := map[];
    for i := 0 to |geneTypes|
      invariant StatsUpTo(db, geneTypes, i, stats)
    {
      var cols := ExtractColumns(db, geneTypes[i]);
      if cols.Err? {
        StatsFailed(db, geneTypes, i, stats, cols.error);
        return Err(cols.error);
      }
      StatsStep(db, geneTypes, i, stats, cols.value);
      stats := stats[geneTypes[i] := cols.value];
    }
    StatsComplete(db, geneTypes, stats);
    res := Ok(stats);
  }

  // ---------------------------------------------------------------------
  // writeAttributeStats
  // ---------------------------------------------------------------------

  /** The column names of an attribute report, in order. */
  const AttributeColumns: seq<string> := ["gene_id", "description", "sequence_id", "coverage", "is_partial", "low_identity"]

  /** The header line: the column names, tab-separated. */
  const AttributeHeader := "gene_id" + "\t" + ("description" + "\t" + ("sequence_id" + "\t" +
    ("coverage" + "\t" + ("is_partial" + "\t" + "low_identity"))))

  /** The header is the column names joined with tabs, and splits back
      into them. */
  lemma {:induction false} AttributeHeaderColumns()
    ensures AttributeHeader == Join(AttributeColumns, "\t")
    ensures Split(AttributeHeader, '\t') == AttributeColumns
  {
    var cs := AttributeColumns;
    assert cs[1..] == ["description", "sequence_id", "coverage", "is_partial", "low_identity"];
    assert cs[1..][1..] == ["sequence_id", "coverage", "is_partial", "low_identity"];
    assert cs[1..][1..][1..] == ["coverage", "is_partial", "low_identity"];
    assert cs[1..][1..][1..][1..] == ["is_partial", "low_identity"];
    assert cs[1..][1..][1..][1..][1..] == ["low_identity"];
    SplitJoin(cs, '\t');
  }

  /** One report file: its name and its lines, each written with "\n". */
  datatype Report = Report(filename: string, lines: seq<string>)

  /** The report file of type ft: ft, "mapping_stats" and "tab" joined by dots. */
  function ReportName(ft: string): string
  {
    ft + ".mapping_stats.tab"
  }

  /** The name is the dotted join of the type and the two suffix words, and
      two distinct types never share a file, so no report overwrites
      another unless a type is requested twice. */
  lemma {:induction false} ReportNames(ft: string, other: string)
    ensures ReportName(ft) == Join([ft, "mapping_stats", "tab"], ".")
    ensures ft != other ==> ReportName(ft) != ReportName(other)
  {
    assert [ft, "mapping_stats", "tab"][1..] == ["mapping_stats", "tab"];
    assert ["mapping_stats", "tab"][1..] == ["tab"];
    if ReportName(ft) == ReportName(other) {
      assert |ft| == |other|;
      assert ft == ReportName(ft)[..|ft|];
      assert other == ReportName(other)[..|other|];
    }
  }

  function AttributeFields(c: Columns, i: nat): seq<string>
    requires Aligned(c) && i < |c.sequenceId|
  {
    [c.ids[i], c.descr[i], c.sequenceId[i], c.coverage[i], NatText(c.partial[i]), NatText(c.lowId[i])]
  }

  function AttributeLine(c: Columns, i: nat): string
    requires Aligned(c) && i < |c.sequenceId|
  {
    Join(AttributeFields(c, i), "\t")
  }

  /** The data lines for the first n entries of the lists. */
  function DataLines(c: Columns, n: nat): (r: seq<string>)
    requires Aligned(c) && n <= |c.sequenceId|
    ensures |r| == n
  {
    if n == 0 then [] else DataLines(c, n - 1) + [AttributeLine(c, n - 1)]
  }

  lemma {:induction false} DataLinesContent(c: Columns, n: nat, i: nat)
    requires Aligned(c) && i < n <= |c.sequenceId|
    ensures DataLines(c, n)[i] == AttributeLine(c, i)
  {
    if i < n - 1 {
      DataLinesContent(c, n - 1, i);
    }
  }

  /** The header, then one line per entry of the lists, in order. */
  function AttributeLines(c: Columns): seq<string>
    requires Aligned(c)
  {
    [AttributeHeader] + DataLines(c, |c.sequenceId|)
  }

  /** An attribute report is the header and then, in order, the line of
      each entry of the lists. */
  lemma {:induction false} AttributeLinesContent(c: Columns)
    requires Aligned(c)
    ensures |AttributeLines(c)| == 1 + |c.sequenceId|
    ensures AttributeLines(c)[0] == AttributeHeader
    ensures forall i :: 0 <= i < |c.sequenceId| ==> AttributeLines(c)[i + 1] == AttributeLine(c, i)
  {
    forall i | 0 <= i < |c.sequenceId|
      ensures AttributeLines(c)[i + 1] == AttributeLine(c, i)
    {
      DataLinesContent(c, |c.sequenceId|, i);
    }
  }

  /** The complete file for type ft: its name and all its lines. */
  function ReportOf(values: map<string, Columns>, ft: string): Report
    requires ft in values && Aligned(values[ft])
  {
    Report(ReportName(ft), AttributeLines(values[ft]))
  }

  /** Every requested type has lists, and all lists are aligned. */
  predicate Writable(values: map<string, Columns>, fts: seq<string>)
  {
    forall i :: 0 <= i < |fts| ==> fts[i] in values && Aligned(values[fts[i]])
  }

  lemma {:induction false} WritableStep(values: map<string, Columns>, fts: seq<string>, ft: string)
    requires Writable(values, fts) && ft in values && Aligned(values[ft])
    ensures Writable(values, fts + [ft])
  {
    forall i | 0 <= i < |fts| + 1
      ensures (fts + [ft])[i] in values && Aligned(values[(fts + [ft])[i]])
    {
      if i < |fts| {
        assert (fts + [ft])[i] == fts[i];
      }
    }
  }

  /** The complete files of the types fts, in order. */
  function ReportsOf(values: map<string, Columns>, fts: seq<string>): (r: seq<Report>)
    requires Writable(values, fts)
    ensures |r| == |fts|
  {
    if |fts| == 0 then []
    else ReportsOf(values, fts[..|fts| - 1]) + [ReportOf(values, fts[|fts| - 1])]
  }

  /** File i of the run is the complete file of the i-th requested type. */
  lemma {:induction false} ReportsOfContent(values: map<string, Columns>, fts: seq<string>, i: nat)
    requires Writable(values, fts) && i < |fts|
    ensures ReportsOf(values, fts)[i] == ReportOf(values, fts[i])
  {
    if i < |fts| - 1 {
      ReportsOfContent(values, fts[..|fts| - 1], i);
    }
  }

  /** writeAttributeStats: one file per requested type. The file of a type
      with no entry in values is created and gets its header before
      values.get(ft).get fails. */
  method WriteAttributeStats(ftypes: seq<string>, values: map<string, Columns>)
    returns (reports: seq<Report>, failure: Option<StatsError>)
    requires forall t :: t in values ==> Aligned(values[t])
    ensures failure.None? <==> Writable(values, ftypes)
    ensures failure.None? ==> Writable(values, ftypes) && reports == ReportsOf(values, ftypes)
    ensures failure.Some? ==> (1 <= |reports| <= |ftypes| &&
      var k := |reports| - 1;
      Writable(values, ftypes[..k]) && ftypes[k] !in values &&
      failure.value == MissingStats(ftypes[k]) &&
      reports == ReportsOf(values, ftypes[..k]) + [Report(ReportName(ftypes[k]), [AttributeHeader])])
  {
    reports := [];
    for k := 0 to |ftypes|
      invariant Writable(values, ftypes[..k]) && reports == ReportsOf(values, ftypes[..k])
    {
      var report, missing := WriteAttributeReport(ftypes[k], values);
      if missing {
        reports := reports + [report];
        failure := Some(MissingStats(ftypes[k]));
        assert !Writable(values, ftypes) by {
          assert !(ftypes[k] in values);
        }
        return;
      }
      var next := ftypes[..k + 1];
      assert next == ftypes[..k] + [ftypes[k]];
      WritableStep(values, ftypes[..k], ftypes[k]);
      assert next[..k] == ftypes[..k];
      reports := reports + [report];
    }
    assert ftypes[..|ftypes|] == ftypes;
    failure := None;
  }

  /** One iteration of writeAttributeStats: the file is named and gets its
      header; then the lists of ft are looked up, which fails (missing is
      true) when values has no entry for ft. */
  method WriteAttributeReport(ft: string, values: map<string, Columns>)
    returns (report: Report, missing: bool)
    requires forall t :: t in values ==> Aligned(values[t])
    ensures missing <==> ft !in values
    ensures missing ==> report == Report(ReportName(ft), [AttributeHeader])
    ensures !missing ==> report == ReportOf(values, ft)
  {
    var filename := ReportName(ft);
    var lines := [AttributeHeader];
    if ft !in values {
      return Report(filename, lines), true;
    }
    lines := AttributeReportLines(values[ft]);
    return Report(filename, lines), false;
  }

  /** The lines of one attribute report, written one entry at a time. */
  method AttributeReportLines(c: Columns) returns (lines: seq<string>)
    requires Aligned(c)
    ensures lines == AttributeLines(c)
  {
    lines := [AttributeHeader];
    for i := 0 to |c.sequenceId|
      invariant lines == [AttributeHeader] + DataLines(c, i)
    {
      lines := lines + [AttributeLine(c, i)];
    }
  }

  /** Every data line has the six columns of the header, the last two
      reading back as the 0/1 flags, when no text field holds a tab. */
  lemma {:induction false} AttributeLineFields(c: Columns, i: nat)
    requires Aligned(c) && i < |c.sequenceId|
    requires '\t' !in c.ids[i] && '\t' !in c.descr[i]
    requires '\t' !in c.sequenceId[i] && '\t' !in c.coverage[i]
    ensures Split(AttributeLine(c, i), '\t') == AttributeFields(c, i)
    ensures |Split(AttributeHeader, '\t')| == |AttributeFields(c, i)| == 6
    ensures ParseInt(AttributeFields(c, i)[4]) == Some(c.partial[i])
    ensures ParseInt(AttributeFields(c, i)[5]) == Some(c.lowId[i])
  {
    var fields := AttributeFields(c, i);
    DigitsExclude(fields[4], '\t');
    DigitsExclude(fields[5], '\t');
    SplitJoin(fields, '\t');
    AttributeHeaderColumns();
    NatTextRoundTrip(c.partial[i]);
    NatTextRoundTrip(c.lowId[i]);
  }

  /** A two-digit, one-decimal number is a float literal. */
  lemma {:induction false} DecimalFloat(s: string)
    requires |s| == 4 && IsDigit(s[0]) && IsDigit(s[1]) && s[2] == '.' && IsDigit(s[3])
    ensures IsFloatText(s)
  {
    assert Find(s[3..], '.') == 1;
    assert Find(s[2..], '.') == 0;
    assert Find(s[1..], '.') == 1;
    assert Find(s, '.') == 2;
    assert Find(s[3..], 'e') == 1 && Find(s[3..], 'E') == 1;
    assert Find(s, 'e') == 4 && Find(s, 'E') == 4;
    assert s[..4] == s;
    assert AllDigits(s[..2]) && AllDigits(s[3..]);
  }

  /** A gene with ID GENE1, a description, sequence_ID 97.5, coverage 88.2
      and neither flag gives the record GENE1, the description, 97.5, 88.2,
      0 and 0. */
  lemma {:induction false} CoverageExample(f: Feature)
    requires f.attributes == map["ID" := ["GENE1"], "description" := ["some description"],
                                 "sequence_ID" := ["97.5"], "coverage" := ["88.2"]]
    ensures CoverageOf(f) == Ok(CoverageRecord("GENE1", "some description", "97.5", "88.2", 0, 0))
  {
    var a := f.attributes;
    assert a.Keys == {"ID", "description", "sequence_ID", "coverage"};
    assert PartialKey !in a by {
      assert PartialKey[0] == 'p';
    }
    assert LowIdentityKey !in a by {
      assert LowIdentityKey[0] == 'l';
    }
    DecimalFloat("97.5");
    DecimalFloat("88.2");
  }

  // ---------------------------------------------------------------------
  // getSeqStats
  // ---------------------------------------------------------------------

  /** The processing-commentary pattern matches seqid:
      one of the three words occurs, letter case as written. */
  predicate Denied(seqid: string)
  {
    Contains(seqid, "extracting") || Contains(seqid, "lifting") || Contains(seqid, "aligning")
  }

  /** The sequence ids that are not denied, in order. */
  function Kept(seqids: seq<string>): (r: seq<string>)
    ensures forall s :: s in r <==> s in seqids && !Denied(s)
  {
    if |seqids| == 0 then []
    else
      var init, s := seqids[..|seqids| - 1], seqids[|seqids| - 1];
      assert seqids == init + [s];
      if Denied(s) then Kept(init) else Kept(init) + [s]
  }

  /** Filtering the sequence ids distributes over concatenation, so the
      kept ids keep their order and each occurrence is kept or dropped on
      its own. */
  lemma {:induction false} KeptAppend(a: seq<string>, b: seq<string>)
    ensures Kept(a + b) == Kept(a) + Kept(b)
  {
    if |b| > 0 {
      assert (a + b)[..|a + b| - 1] == a + b[..|b| - 1];
      KeptAppend(a, b[..|b| - 1]);
    } else {
      assert a + b == a;
    }
  }

  datatype TypeCount = TypeCount(featuretype: string, count: nat)

  /** One entry of seq2counts: a sequence and its sorted type counts. */
  datatype SeqCounts = SeqCounts(seqid: string, counts: seq<TypeCount>)

  function KeysOf(counts: seq<TypeCount>): (r: seq<string>)
    ensures |r| == |counts|
  {
    seq(|counts|, i requires 0 <= i < |counts| => counts[i].featuretype)
  }

  function StatSeqids(stats: seq<SeqCounts>): (r: seq<string>)
    ensures |r| == |stats|
  {
    seq(|stats|, i requires 0 <= i < |stats| => stats[i].seqid)
  }

  /** The counts kept for one sequence: the requested types, each once and
      in ascending order, each with the number of its features there. */
  ghost predicate CountsFor(db: Store, seqid: string, ftGen: seq<string>, counts: seq<TypeCount>)
  {
    Ascending(KeysOf(counts)) &&
    (forall t :: t in KeysOf(counts) <==> t in ftGen) &&
    (forall j :: 0 <= j < |counts| ==> counts[j].count == |Region(db, seqid, counts[j].featuretype)|)
  }

  /** The type loop for one sequence: ftcount gets an entry ft -> count for each
      requested type, the count taken by walking the region query. keys
      holds ftcount's keys in insertion order. */
  method TallyTypes(db: Store, seqid: string, ftGen: seq<string>)
    returns (keys: seq<string>, tally: map<string, nat>)
    ensures keys == Dedup(ftGen)
    ensures forall t :: t in tally <==> t in ftGen
    ensures forall t :: t in tally ==> tally[t] == |Region(db, seqid, t)|
  {
    keys := [];
    tally := map[];
    for j := 0 to |ftGen|
      invariant keys == Dedup(ftGen[..j])
      invariant forall t :: t in tally <==> t in ftGen[..j]
      invariant forall t :: t in tally ==> tally[t] == |Region(db, seqid, t)|
    {
      var ft := ftGen[j];
      var region := Region(db, seqid, ft);
      var count := 0;
      for k := 0 to |region|
        invariant count == k
      {
        count := count + 1;
      }
      assert ftGen[..j + 1] == ftGen[..j] + [ft];
      assert ftGen[..j + 1][..j] == ftGen[..j];
      if ft !in tally {
        keys := keys + [ft];
      }
      tally := tally[ft := count];
    }
    assert ftGen[..|ftGen|] == ftGen;
  }

  /** The body of the sequence loop for a kept sequence: the tally, then
      the counts rebuilt in ascending key order. */
  method CountTypes(db: Store, seqid: string, ftGen: seq<string>) returns (counts: seq<TypeCount>)
    ensures CountsFor(db, seqid, ftGen, counts)
  {
    var keys, tally := TallyTypes(db, seqid, ftGen);
    var sorted := Sort(keys);
    counts := seq(|sorted|, i requires 0 <= i < |sorted| => TypeCount(sorted[i], tally[sorted[i]]));
    assert KeysOf(counts) == sorted;
  }

  /** getSeqStats: the kept sequences in store order, each with its counts. */
  method GetSeqStats(db: Store, ftGen: seq<string>) returns (stats: seq<SeqCounts>)
    ensures StatSeqids(stats) == Kept(Seqids(db))
    ensures forall i :: 0 <= i < |stats| ==> CountsFor(db, stats[i].seqid, ftGen, stats[i].counts)
  {
    var seqs := Seqids(db);
    stats := [];
    for i := 0 to |seqs|
      invariant StatSeqids(stats) == Kept(seqs[..i])
      invariant forall k :: 0 <= k < |stats| ==> CountsFor(db, stats[k].seqid, ftGen, stats[k].counts)
    {
      var s := seqs[i];
      assert seqs[..i + 1][..i] == seqs[..i];
      if Denied(s) {
      } else {
        var counts := CountTypes(db, s, ftGen);
        assert StatSeqids(stats + [SeqCounts(s, counts)]) == StatSeqids(stats) + [s];
        stats := stats + [SeqCounts(s, counts)];
      }
    }
    assert seqs[..|seqs|] == seqs;
  }

  /** A sequence whose name holds one of the three words gets no entry,
      and the match is case-sensitive: "Lifting" is kept. */
  lemma {:induction false} DeniedSequencesDropped(db: Store, stats: seq<SeqCounts>)
    requires StatSeqids(stats) == Kept(Seqids(db))
    ensures forall i :: 0 <= i < |stats| ==> !Denied(stats[i].seqid)
    ensures forall s :: s in Seqids(db) && !Denied(s) ==> s in StatSeqids(stats)
    ensures !Denied("Lifting")
  {
    forall i | 0 <= i < |stats|
      ensures !Denied(stats[i].seqid)
    {
      assert StatSeqids(stats)[i] == stats[i].seqid;
    }
    ContainsAt("Lifting", "extracting");
    ContainsAt("Lifting", "lifting");
    ContainsAt("Lifting", "aligning");
    assert !OccursAt("Lifting", "lifting", 0) by {
      assert "Lifting"[0] != "lifting"[0];
    }
  }

  // ---------------------------------------------------------------------
  // writeSeqStats
  // ---------------------------------------------------------------------

  /** The count recorded for ft, if any. */
  function Lookup(counts: seq<TypeCount>, ft: string): Option<nat>
  {
    if |counts| == 0 then None
    else if counts[0].featuretype == ft then Some(counts[0].count)
    else Lookup(counts[1..], ft)
  }

  /** The text of a count cell: "None" when the type has no count. */
  function CountText(counts: seq<TypeCount>, ft: string): string
  {
    match Lookup(counts, ft)
    case Some(n) => NatText(n)
    case None => "None"
  }

  /** The header: "Feature", a tab, then the sequence ids joined by tabs. */
  function SeqHeader(stats: seq<SeqCounts>): string
  {
    "Feature\t" + Join(StatSeqids(stats), "\t")
  }

  function SeqRowFields(stats: seq<SeqCounts>, ft: string): (r: seq<string>)
    ensures |r| == 1 + |stats|
  {
    [ft] + seq(|stats|, j requires 0 <= j < |stats| => CountText(stats[j].counts, ft))
  }

  /** The line for type ft: the type, then its count on each sequence. */
  function SeqRow(stats: seq<SeqCounts>, ft: string): string
  {
    Join(SeqRowFields(stats, ft), "\t")
  }

  /** writeSeqStats: the header, then one line per type of ft_gen, built by
      writing the type and then "\t" + count for each sequence. */
  method WriteSeqStats(ftGen: seq<string>, stats: seq<SeqCounts>) returns (lines: seq<string>)
    ensures |lines| == 1 + |ftGen|
    ensures lines[0] == SeqHeader(stats)
    ensures forall i :: 0 <= i < |ftGen| ==> lines[i + 1] == SeqRow(stats, ftGen[i])
  {
    var seqs := StatSeqids(stats);
    lines := ["Feature\t" + Join(seqs, "\t")];
    for i := 0 to |ftGen|
      invariant |lines| == 1 + i && lines[0] == SeqHeader(stats)
      invariant forall k :: 0 <= k < i ==> lines[k + 1] == SeqRow(stats, ftGen[k])
    {
      var ft := ftGen[i];
      var line := ft;
      for j := 0 to |seqs|
        invariant line == Join(SeqRowFields(stats, ft)[..j + 1], "\t")
      {
        var text := CountText(stats[j].counts, ft);
        JoinSnoc(SeqRowFields(stats, ft)[..j + 1], "\t", text);
        assert SeqRowFields(stats, ft)[..j + 2] == SeqRowFields(stats, ft)[..j + 1] + [text];
        line := line + "\t" + text;
      }
      assert SeqRowFields(stats, ft)[..|seqs| + 1] == SeqRowFields(stats, ft);
      lines := lines + [line];
    }
  }

  /** Lookup finds the count of a type the sorted counts hold. */
  lemma {:induction false} LookupFinds(counts: seq<TypeCount>, j: nat)
    requires j < |counts| && NoDup(KeysOf(counts))
    ensures Lookup(counts, counts[j].featuretype) == Some(counts[j].count)
  {
    if j > 0 {
      assert KeysOf(counts)[0] != KeysOf(counts)[j];
      assert KeysOf(counts[1..]) == KeysOf(counts)[1..];
      LookupFinds(counts[1..], j - 1);
    }
  }

  /** On the counts getSeqStats builds, every cell of the per-sequence
      report is the number of features of that type on that sequence; the
      "None" text never appears. */
  lemma {:induction false} SeqReportCounts(db: Store, ftGen: seq<string>, stats: seq<SeqCounts>, ft: string, j: nat)
    requires forall i :: 0 <= i < |stats| ==> CountsFor(db, stats[i].seqid, ftGen, stats[i].counts)
    requires ft in ftGen && j < |stats|
    ensures CountText(stats[j].counts, ft) == NatText(|Region(db, stats[j].seqid, ft)|)
  {
    var counts := stats[j].counts;
    assert ft in KeysOf(counts);
    var k :| 0 <= k < |counts| && KeysOf(counts)[k] == ft;
    forall a, b | 0 <= a < b < |counts|
      ensures KeysOf(counts)[a] != KeysOf(counts)[b]
    {
      LessIrreflexive(KeysOf(counts)[a]);
    }
    LookupFinds(counts, k);
  }

  /** With names free of tabs, every line of the per-sequence report has
      1 + |sequences| fields and the header names the sequences in map
      order; with no sequence at all the header still has two fields while
      each row has one. */
  lemma {:induction false} SeqReportShape(stats: seq<SeqCounts>, ft: string)
    requires '\t' !in ft
    requires forall i :: 0 <= i < |stats| ==> '\t' !in stats[i].seqid
    ensures |Split(SeqRow(stats, ft), '\t')| == 1 + |stats|
    ensures |stats| > 0 ==> Split(SeqHeader(stats), '\t') == ["Feature"] + StatSeqids(stats)
    ensures |stats| == 0 ==> Split(SeqHeader(stats), '\t') == ["Feature", ""]
  {
    var fields := SeqRowFields(stats, ft);
    forall i | 0 <= i < |fields|
      ensures '\t' !in fields[i]
    {
      if i > 0 {
        match Lookup(stats[i - 1].counts, ft)
        case Some(n) => DigitsExclude(NatText(n), '\t');
        case None =>
      }
    }
    SplitJoin(fields, '\t');
    assert SeqHeader(stats) == "Feature" + ['\t'] + Join(StatSeqids(stats), "\t");
    if |stats| > 0 {
      SplitJoin(StatSeqids(stats), '\t');
      SplitAfterPiece("Feature", '\t', Join(StatSeqids(stats), "\t"));
    } else {
      SplitAfterPiece("Feature", '\t', "");
      assert Split("", '\t') == [""];
    }
  }

  // ---------------------------------------------------------------------
  // writeSummaryStats
  // ---------------------------------------------------------------------

  const SummaryHeader := Join(["feature_type", "count"], "\t")

  /** A summary line: the type and its feature count, tab-separated. */
  function SummaryLine(db: Store, f: string): string
  {
    Join([f, NatText(|FeaturesOfType(db, f)|)], "\t")
  }

  /** writeSummaryStats: the header, then one line per type, in order. */
  method WriteSummaryStats(ft: seq<string>, db: Store) returns (lines: seq<string>)
    ensures |lines| == 1 + |ft| && lines[0] == SummaryHeader
    ensures forall i :: 0 <= i < |ft| ==> lines[i + 1] == SummaryLine(db, ft[i])
  {
    lines := [SummaryHeader];
    for i := 0 to |ft|
      invariant |lines| == 1 + i && lines[0] == SummaryHeader
      invariant forall k :: 0 <= k < i ==> lines[k + 1] == SummaryLine(db, ft[k])
    {
      var c := |FeaturesOfType(db, ft[i])|;
      lines := lines + [Join([ft[i], NatText(c)], "\t")];
    }
  }

  /** A summary line splits into the type and a count that reads back as
      the number of features of that type in the store. */
  lemma {:induction false} SummaryLineFields(db: Store, f: string)
    requires '\t' !in f
    ensures var fields := Split(SummaryLine(db, f), '\t');
      |fields| == 2 && fields[0] == f &&
      ParseInt(fields[1]) == Some(|FeaturesOfType(db, f)|)
  {
    var n := |FeaturesOfType(db, f)|;
    DigitsExclude(NatText(n), '\t');
    SplitJoin([f, NatText(n)], '\t');
    NatTextRoundTrip(n);
  }

  /** The summary header splits into its two column names. */
  lemma {:induction false} SummaryHeaderFields()
    ensures Split(SummaryHeader, '\t') == ["feature_type", "count"]
  {
    SplitJoin(["feature_type", "count"], '\t');
  }
}
