/**
 * The naming and type-inference rules of the CSV ingester (src/ingest.py):
 * table and column name sanitising, the PostgreSQL type ladder of
 * `infer_pg_type`, and which files of the data directory are loaded,
 * reported missing or ignored. pandas' number and date parsing are passed in
 * as `Parsers`; database and file I/O are not modelled.
 */
module Ingest {
  import opened Results
  import opened Text

  // ---------------------------------------------------------------------------
  // Names
  // ---------------------------------------------------------------------------

  /** `[a-z0-9_]`: the characters a sanitised name may contain. */
  predicate IsIdentChar(c: char) {
    'a' <= c <= 'z' || '0' <= c <= '9' || c == '_'
  }

  /** `[a-zA-Z0-9_]`. */
  predicate IsWordChar(c: char) {
    IsIdentChar(c) || 'A' <= c <= 'Z'
  }

  /** What `re.sub(r"[^a-z0-9_]", "_", …)` makes of one lower-cased character. */
  function TableChar(c: char): (r: char)
    ensures IsIdentChar(r)
  {
    var l := LowerChar(c);
    if IsIdentChar(l) then l else '_'
  }

  /** The four characters `\.csv` matches under `re.I`. */
  predicate IsCsvExt(t: string)
    requires |t| == 4
  {
    t[0] == '.' && (t[1] == 'c' || t[1] == 'C') && (t[2] == 's' || t[2] == 'S') && (t[3] == 'v' || t[3] == 'V')
  }

  /** `\.csv$` matching at the very end of the name. */
  predicate EndsCsv(s: string) {
    |s| >= 4 && IsCsvExt(s[|s| - 4..])
  }

  /** `\.csv$` matching just before a final newline, which `$` also allows. */
  predicate EndsCsvNewline(s: string) {
    |s| >= 5 && s[|s| - 1] == '\n' && IsCsvExt(s[|s| - 5..|s| - 1])
  }

  predicate HasCsvSuffix(s: string) {
    EndsCsv(s) || EndsCsvNewline(s)
  }

  /** `re.sub(r"\.csv$", "", s, flags=re.I)`. */
  function DropCsvSuffix(s: string): (r: string)
    ensures |r| == |s| - (if HasCsvSuffix(s) then 4 else 0)
  {
    if EndsCsv(s) then s[..|s| - 4]
    else if EndsCsvNewline(s) then s[..|s| - 5] + "\n"
    else s
  }

  /** `sanitize_table_name(fname)`: drop a trailing `.csv` in any case,
      lower-case, and turn every character outside `[a-z0-9_]` into `_`. */
  function SanitizeTableName(fname: string): (r: string)
    ensures forall i :: 0 <= i < |r| ==> IsIdentChar(r[i])
    ensures |r| == |fname| - (if HasCsvSuffix(fname) then 4 else 0)
    ensures forall i :: 0 <= i < |r| && !(EndsCsvNewline(fname) && i == |r| - 1) ==> r[i] == TableChar(fname[i])
    ensures EndsCsvNewline(fname) ==> r[|r| - 1] == '_'
    ensures '.' !in r
  {
    var stem := DropCsvSuffix(fname);
    seq(|stem|, i requires 0 <= i < |stem| => TableChar(stem[i]))
  }

  /** A name already in `[a-z0-9_]` is its own table name: it has no `.` for
      the suffix rule, and the other two steps keep every character. */
  lemma SanitizeIdentName(x: string)
    requires forall i :: 0 <= i < |x| ==> IsIdentChar(x[i])
    ensures SanitizeTableName(x) == x
  {
    assert !EndsCsv(x) by {
      if |x| >= 4 {
        assert IsIdentChar(x[|x| - 4]);
        assert x[|x| - 4..][0] == x[|x| - 4];
      }
    }
    assert !EndsCsvNewline(x) by {
      if |x| >= 5 {
        assert IsIdentChar(x[|x| - 1]);
      }
    }
    var r := SanitizeTableName(x);
    forall i | 0 <= i < |x|
      ensures r[i] == x[i]
    {
      assert IsIdentChar(x[i]);
    }
  }

  /** Sanitising twice changes nothing. */
  lemma SanitizeTableNameIdempotent(fname: string)
    ensures SanitizeTableName(SanitizeTableName(fname)) == SanitizeTableName(fname)
  {
    SanitizeIdentName(SanitizeTableName(fname));
  }

  /** `re.sub(r"[^a-zA-Z0-9_]", "_", col).lower()`: the column-name rule of `create_table`. */
  function SafeColumn(col: string): (r: string)
    ensures |r| == |col|
    ensures forall i :: 0 <= i < |r| ==> IsIdentChar(r[i])
    ensures forall i :: 0 <= i < |r| ==> (IsWordChar(col[i]) <==> r[i] == LowerChar(col[i]))
    ensures forall i :: 0 <= i < |r| ==> r[i] == (if IsWordChar(col[i]) then LowerChar(col[i]) else '_')
  {
    var replaced := seq(|col|, i requires 0 <= i < |col| => if IsWordChar(col[i]) then col[i] else '_');
    Lower(replaced)
  }

  /** The column rule (substitute, then lower-case) and the table rule (lower-case,
      then substitute) agree on every name without a `.csv` suffix. */
  lemma SafeColumnMatchesTableName(name: string)
    requires !HasCsvSuffix(name)
    ensures SafeColumn(name) == SanitizeTableName(name)
  {
    var a := SafeColumn(name);
    var b := SanitizeTableName(name);
    forall i | 0 <= i < |name|
      ensures a[i] == b[i]
    {
    }
  }

  // ---------------------------------------------------------------------------
  // Type inference
  // ---------------------------------------------------------------------------

  /** The column types `infer_pg_type` returns: TEXT, BOOLEAN, BIGINT,
      NUMERIC(18,6) and TIMESTAMP. */
  datatype PgType = PgText | PgBoolean | PgBigInt | PgNumeric | PgTimestamp

  const ColumnTypeOverrides: map<string, PgType> := map[
    "delivered_late" := PgBoolean,
    "late_flag" := PgBoolean,
    "ontime_flag" := PgBoolean,
    "is_delivered" := PgBoolean,
    "is_heavy_bulky" := PgBoolean,
    "order_id" := PgText,
    "customer_id" := PgText,
    "customer_unique_id" := PgText,
    "cust_uid" := PgText,
    "seller_id" := PgText,
    "product_id" := PgText,
    "product_category_name" := PgText,
    "payment_type" := PgText,
    "customer_state" := PgText,
    "seller_state" := PgText,
    "n_items" := PgNumeric
  ]

  const BooleanTokens: set<string> := {"true", "false", "0", "1", "yes", "no", "t", "f", "y", "n"}

  /** Substrings of a column name that hint at a flag column. */
  const BoolNameHints: seq<string> := ["_flag", "is_", "has_", "delivered_late", "late_flag", "ontime"]

  /** Sample sizes: values inspected, raw strings checked for a decimal look,
      values checked for a date hint, values handed to the date parser. */
  const ValueSample: nat := 10000
  const DecimalSample: nat := 2000
  const DateHintSample: nat := 50

  /** pandas' parsers, which the model does not reimplement: `toNumeric` is
      `pd.to_numeric(errors="raise")` (`None` where it raises; a `None` entry is
      a NaN result), `toDatetime` says whether `pd.to_datetime(errors="raise")`
      succeeds. Both see the non-null values' string forms. */
  datatype Parsers = Parsers(
    toNumeric: seq<string> -> Option<seq<Option<real>>>,
    toDatetime: seq<string> -> bool)

  /** `series.dropna()`: a cell is `None` when null, else its `str(v)` form. */
  function NonNull(series: seq<Option<string>>): (r: seq<string>)
    ensures |r| <= |series|
    ensures forall v :: v in r <==> Some(v) in series
  {
    if series == [] then []
    else if series[0].None? then NonNull(series[1..])
    else [series[0].value] + NonNull(series[1..])
  }

  /** `dropna()` keeps order and repeats: a concatenation drops to the
      concatenation of the dropped parts. */
  lemma {:induction false} NonNullAppend(a: seq<Option<string>>, b: seq<Option<string>>)
    ensures NonNull(a + b) == NonNull(a) + NonNull(b)
  {
    if a == [] {
      assert a + b == b;
    } else {
      ConsAppend(a, b);
      NonNullAppend(a[1..], b);
      var h := if a[0].None? then [] else [a[0].value];
      assert NonNull(a + b) == h + NonNull(a[1..] + b);
      assert NonNull(a) == h + NonNull(a[1..]);
      AppendAssoc(h, NonNull(a[1..]), NonNull(b));
    }
  }

  /** A null cell is dropped and a present one kept. */
  lemma NonNullSingle(v: Option<string>)
    ensures NonNull([v]) == (if v.None? then [] else [v.value])
  {
    assert [v][1..] == [];
  }

  /** `head(n)` / `[:n]` for a non-negative `n`. */
  function Take<T>(s: seq<T>, n: nat): (r: seq<T>)
    ensures |r| == if |s| <= n then |s| else n
    ensures forall i :: 0 <= i < |r| ==> r[i] == s[i]
  {
    if |s| <= n then s else s[..n]
  }

  /** `[str(v).strip() for v in sample]`. */
  function StripAll(vs: seq<string>): (r: seq<string>)
    ensures |r| == |vs|
    ensures forall i :: 0 <= i < |vs| ==> r[i] == Strip(vs[i])
  {
    if vs == [] then [] else [Strip(vs[0])] + StripAll(vs[1..])
  }

  /** The non-empty strings of a list, in order. */
  function NonEmpty(vs: seq<string>): (r: seq<string>)
    ensures |r| <= |vs|
    ensures forall v :: v in r <==> v in vs && v != []
  {
    if vs == [] then []
    else if vs[0] == [] then NonEmpty(vs[1..])
    else [vs[0]] + NonEmpty(vs[1..])
  }

  /** The empty-string filter keeps order and repeats. */
  lemma {:induction false} NonEmptyAppend(a: seq<string>, b: seq<string>)
    ensures NonEmpty(a + b) == NonEmpty(a) + NonEmpty(b)
  {
    if a == [] {
      assert a + b == b;
    } else {
      ConsAppend(a, b);
      NonEmptyAppend(a[1..], b);
      var h := if a[0] == [] then [] else [a[0]];
      assert NonEmpty(a + b) == h + NonEmpty(a[1..] + b);
      assert NonEmpty(a) == h + NonEmpty(a[1..]);
      AppendAssoc(h, NonEmpty(a[1..]), NonEmpty(b));
    }
  }

  /** An empty string is dropped and any other kept. */
  lemma NonEmptySingle(v: string)
    ensures NonEmpty([v]) == (if v == [] then [] else [v])
  {
    assert [v][1..] == [];
  }

  /** `vals_nb`: the stripped values of the sample that are not empty. */
  function NonBlankValues(vs: seq<string>): (r: seq<string>)
    ensures forall v :: v in r <==> v in StripAll(vs) && v != []
  {
    NonEmpty(StripAll(vs))
  }

  /** `vals_nb` is built value by value, in sample order: a value contributes
      its stripped form unless that is empty. */
  lemma NonBlankValuesAppend(a: seq<string>, b: seq<string>)
    ensures NonBlankValues(a + b) == NonBlankValues(a) + NonBlankValues(b)
  {
    StripAllAppend(a, b);
    NonEmptyAppend(StripAll(a), StripAll(b));
  }

  lemma {:induction false} StripAllAppend(a: seq<string>, b: seq<string>)
    ensures StripAll(a + b) == StripAll(a) + StripAll(b)
  {
    if a == [] {
      assert a + b == b;
    } else {
      ConsAppend(a, b);
      StripAllAppend(a[1..], b);
      AppendAssoc([Strip(a[0])], StripAll(a[1..]), StripAll(b));
    }
  }

  lemma NonBlankValuesSingle(v: string)
    ensures NonBlankValues([v]) == (if IsBlank(v) then [] else [Strip(v)])
  {
    assert StripAll([v]) == [Strip(v)];
    NonEmptySingle(Strip(v));
  }

  /** `cname = (col_name or "").strip().lower()`. */
  function ColumnKey(colName: string): string {
    Lower(Strip(colName))
  }

  predicate NameHintsBool(key: string) {
    exists h :: h in BoolNameHints && IsInfix(h, key)
  }

  /** `lows <= BOOLEAN_TOKENS`, with `lows` the lower-cased non-blank values. */
  predicate AllBooleanTokens(vals: seq<string>) {
    forall v :: v in vals ==> Lower(v) in BooleanTokens
  }

  /** The BOOLEAN test: only boolean tokens, and at least one value unless the name hints a flag. */
  predicate IsBoolColumn(vals: seq<string>, key: string) {
    AllBooleanTokens(vals) && (|vals| > 0 || NameHintsBool(key))
  }

  /** `lows`: the set of lower-cased non-blank values. */
  function Lows(vals: seq<string>): set<string> {
    set v | v in vals :: Lower(v)
  }

  /** The BOOLEAN test as line 58 writes it: a non-empty sample whose lower-cased
      set lies within the tokens, or a flag-like name and the same inclusion. */
  lemma IsBoolColumnLows(vals: seq<string>, key: string)
    ensures IsBoolColumn(vals, key) <==>
              (|vals| > 0 && Lows(vals) <= BooleanTokens) || (NameHintsBool(key) && Lows(vals) <= BooleanTokens)
  {
    if Lows(vals) <= BooleanTokens {
      forall v | v in vals
        ensures Lower(v) in BooleanTokens
      {
        assert Lower(v) in Lows(vals);
      }
    }
  }

  /** `("." in v) or ("e" in v.lower())`. */
  predicate DecimalLook(v: string) {
    '.' in v || 'e' in Lower(v)
  }

  /** Some of the first 2000 non-blank strings contains `.` or `e`/`E`. */
  predicate LooksDecimal(vals: seq<string>) {
    exists v :: v in Take(vals, DecimalSample) && DecimalLook(v)
  }

  /** `vals_nb[:2000]` by position: the decimal look is decided by the first
      2000 values only, and by any one of them. */
  lemma LooksDecimalAt(vals: seq<string>)
    ensures LooksDecimal(vals) <==> exists i :: 0 <= i < |vals| && i < DecimalSample && DecimalLook(vals[i])
  {
    var t := Take(vals, DecimalSample);
    if LooksDecimal(vals) {
      var v :| v in t && DecimalLook(v);
      var i :| 0 <= i < |t| && t[i] == v;
      assert vals[i] == v;
    }
    if exists i :: 0 <= i < |vals| && i < DecimalSample && DecimalLook(vals[i]) {
      var i :| 0 <= i < |vals| && i < DecimalSample && DecimalLook(vals[i]);
      assert t[i] == vals[i];
    }
  }

  /** `(nums.dropna() % 1 == 0).all()`. */
  predicate AllIntegral(nums: seq<Option<real>>) {
    forall i :: 0 <= i < |nums| && nums[i].Some? ==> nums[i].value.Floor as real == nums[i].value
  }

  /** `DATE_HINT_PAT = re.compile(r"[-/T:]", re.I)`, so a lower-case `t` counts too. */
  predicate HasDateHint(v: string) {
    '-' in v || '/' in v || 'T' in v || 't' in v || ':' in v
  }

  predicate AnyDateHint(vs: seq<string>) {
    exists v :: v in Take(vs, DateHintSample) && HasDateHint(v)
  }

  /** `infer_pg_type(series, col_name)`: empty → TEXT; name override; BOOLEAN;
      numeric (NUMERIC(18,6) or BIGINT); TIMESTAMP; otherwise TEXT. */
  function InferPgType(series: seq<Option<string>>, colName: string, parsers: Parsers): (r: PgType)
    ensures var s := NonNull(series);
      var key := ColumnKey(colName);
      var vals := NonBlankValues(Take(s, ValueSample));
      var early := s != [] && key !in ColumnTypeOverrides && !IsBoolColumn(vals, key);
      && (s == [] ==> r == PgText)
      && (s != [] && key in ColumnTypeOverrides ==> r == ColumnTypeOverrides[key])
      && (s != [] && key !in ColumnTypeOverrides && IsBoolColumn(vals, key) ==> r == PgBoolean)
      && (r == PgBoolean <==>
            s != [] && (if key in ColumnTypeOverrides then ColumnTypeOverrides[key] == PgBoolean else IsBoolColumn(vals, key)))
      && (r == PgBigInt <==>
            early && parsers.toNumeric(s).Some? && !LooksDecimal(vals) && AllIntegral(parsers.toNumeric(s).value))
      && (early && parsers.toNumeric(s).Some? && LooksDecimal(vals) ==> r == PgNumeric)
      && (early && parsers.toNumeric(s).Some? && !LooksDecimal(vals) && !AllIntegral(parsers.toNumeric(s).value) ==> r == PgNumeric)
      && (r == PgTimestamp <==>
            early && parsers.toNumeric(s).None? && AnyDateHint(s) && parsers.toDatetime(Take(s, ValueSample)))
      && (early && parsers.toNumeric(s).None? && !(AnyDateHint(s) && parsers.toDatetime(Take(s, ValueSample))) ==> r == PgText)
  {
    var s := NonNull(series);
    if s == [] then PgText
    else
      var key := ColumnKey(colName);
      if key in ColumnTypeOverrides then ColumnTypeOverrides[key]
      else
        var vals := NonBlankValues(Take(s, ValueSample));
        if IsBoolColumn(vals, key) then PgBoolean
        else ValueType(s, vals, parsers)
  }

  /** The steps after the BOOLEAN test: the numeric types when `to_numeric`
      accepts the values, else TIMESTAMP when a sampled value looks like a
      date and `to_datetime` accepts them, else TEXT. */
  function ValueType(s: seq<string>, vals: seq<string>, parsers: Parsers): (r: PgType)
    ensures r != PgBoolean
    ensures r == PgBigInt <==>
              parsers.toNumeric(s).Some? && !LooksDecimal(vals) && AllIntegral(parsers.toNumeric(s).value)
    ensures r == PgNumeric <==>
              parsers.toNumeric(s).Some? && (LooksDecimal(vals) || !AllIntegral(parsers.toNumeric(s).value))
    ensures r == PgTimestamp <==>
              parsers.toNumeric(s).None? && AnyDateHint(s) && parsers.toDatetime(Take(s, ValueSample))
    ensures r == PgText <==>
              parsers.toNumeric(s).None? && !(AnyDateHint(s) && parsers.toDatetime(Take(s, ValueSample)))
  {
    match parsers.toNumeric(s)
    case Some(nums) =>
      if LooksDecimal(vals) then PgNumeric
      else if AllIntegral(nums) then PgBigInt
      else PgNumeric
    case None =>
      if AnyDateHint(s) && parsers.toDatetime(Take(s, ValueSample)) then PgTimestamp
      else PgText
  }

  /** A non-empty column of only 0/1 strings is BOOLEAN, never BIGINT, whatever
      pandas' number parser would say, unless its name is overridden. */
  lemma ZeroOneIsBoolean(series: seq<Option<string>>, colName: string, parsers: Parsers)
    requires ColumnKey(colName) !in ColumnTypeOverrides
    requires exists v :: Some(v) in series
    requires forall v :: Some(v) in series ==> v == "0" || v == "1"
    ensures InferPgType(series, colName, parsers) == PgBoolean
  {
    var s := NonNull(series);
    var v0 :| Some(v0) in series;
    assert v0 in s;
    assert forall v :: v in s ==> v == "0" || v == "1";
    ZeroOneSample(s);
  }

  /** The sample of a non-empty list of 0/1 strings passes the BOOLEAN test. */
  lemma ZeroOneSample(s: seq<string>)
    requires s != []
    requires forall v :: v in s ==> v == "0" || v == "1"
    ensures forall key :: IsBoolColumn(NonBlankValues(Take(s, ValueSample)), key)
  {
    var t := Take(s, ValueSample);
    forall i | 0 <= i < |t|
      ensures t[i] == "0" || t[i] == "1"
    {
      assert t[i] == s[i] && s[i] in s;
    }
    var vals := NonBlankValues(t);
    ZeroOneStripped(t);
    ZeroOneTokens(vals);
  }

  /** 0/1 strings are boolean tokens. */
  lemma ZeroOneTokens(vals: seq<string>)
    requires forall v :: v in vals ==> v == "0" || v == "1"
    ensures AllBooleanTokens(vals)
  {
    ZeroOneLower();
  }

  lemma ZeroOneLower()
    ensures Lower("0") == "0" && Lower("1") == "1"
    ensures "0" in BooleanTokens && "1" in BooleanTokens
  {
    assert Lower("0")[0] == '0';
    assert Lower("1")[0] == '1';
  }

  lemma ZeroOneUnstripped()
    ensures Strip("0") == "0" && Strip("1") == "1"
  {
    StripUnchanged("0");
    StripUnchanged("1");
  }

  /** Stripping keeps 0/1 strings as they are and drops none of them. */
  lemma ZeroOneStripped(t: seq<string>)
    requires t != []
    requires forall i :: 0 <= i < |t| ==> t[i] == "0" || t[i] == "1"
    ensures NonBlankValues(t) != []
    ensures forall v :: v in NonBlankValues(t) ==> v == "0" || v == "1"
  {
    var st := StripAll(t);
    forall i | 0 <= i < |t|
      ensures st[i] == t[i]
    {
      ZeroOneUnstripped();
    }
    assert st == t;
    NonEmptyKeepsAll(t);
  }

  lemma NonEmptyKeepsAll(vs: seq<string>)
    requires forall i :: 0 <= i < |vs| ==> vs[i] != []
    ensures NonEmpty(vs) == vs
  {
  }

  lemma NonEmptyDropsAll(vs: seq<string>)
    requires forall i :: 0 <= i < |vs| ==> vs[i] == []
    ensures NonEmpty(vs) == []
  {
  }

  /** An all-null column is TEXT whatever its name, even one with an override:
      the emptiness test runs first. */
  lemma EmptyColumnIsText(series: seq<Option<string>>, colName: string, parsers: Parsers)
    requires forall i :: 0 <= i < |series| ==> series[i].None?
    ensures InferPgType(series, colName, parsers) == PgText
  {
    NoValues(series);
  }

  lemma NoValues(series: seq<Option<string>>)
    requires forall i :: 0 <= i < |series| ==> series[i].None?
    ensures NonNull(series) == []
  {
  }

  /** A column whose non-null values are all blank, under a name without an
      override that hints a flag, is BOOLEAN: with no non-blank value the token
      test holds vacuously. */
  lemma BlankFlagColumnIsBoolean(series: seq<Option<string>>, colName: string, parsers: Parsers)
    requires ColumnKey(colName) !in ColumnTypeOverrides && NameHintsBool(ColumnKey(colName))
    requires exists v :: Some(v) in series
    requires forall v :: Some(v) in series ==> IsBlank(v)
    ensures InferPgType(series, colName, parsers) == PgBoolean
  {
    var s := NonNull(series);
    var v0 :| Some(v0) in series;
    assert v0 in s;
    var t := Take(s, ValueSample);
    forall i | 0 <= i < |t|
      ensures IsBlank(t[i])
    {
      assert t[i] == s[i] && s[i] in s;
    }
    BlankSample(t);
  }

  /** Stripping a list of blank strings leaves no non-blank value. */
  lemma BlankSample(t: seq<string>)
    requires forall i :: 0 <= i < |t| ==> IsBlank(t[i])
    ensures NonBlankValues(t) == []
  {
    NonEmptyDropsAll(StripAll(t));
  }

  // ---------------------------------------------------------------------------
  // File selection
  // ---------------------------------------------------------------------------

  /** `FILE_WHITELIST`, listed in ascending order. */
  const WhitelistNames: seq<string> := [
    "features_orders.csv",
    "order_items_clean.csv",
    "order_reviews_dedup.csv",
    "payments_order_agg.csv",
    "products_clean.csv"
  ]

  const FileWhitelist: set<string> := set x | x in WhitelistNames

  /** `{x.lower() for x in FILE_WHITELIST}`. */
  function WhitelistLower(): set<string> {
    set x | x in FileWhitelist :: Lower(x)
  }

  predicate EndsWith(s: string, suffix: string) {
    |suffix| <= |s| && s[|s| - |suffix|..] == suffix
  }

  /** `f.lower().endswith(".csv")`. */
  predicate IsCsvName(f: string) {
    EndsWith(Lower(f), ".csv")
  }

  function FilterCsv(listing: seq<string>): (r: seq<string>)
    ensures forall f :: f in r <==> f in listing && IsCsvName(f)
  {
    if listing == [] then []
    else if IsCsvName(listing[0]) then [listing[0]] + FilterCsv(listing[1..])
    else FilterCsv(listing[1..])
  }

  /** The filter keeps order and repeats: it distributes over concatenation. */
  lemma {:induction false} FilterCsvAppend(a: seq<string>, b: seq<string>)
    ensures FilterCsv(a + b) == FilterCsv(a) + FilterCsv(b)
  {
    if a == [] {
      assert a + b == b;
    } else {
      ConsAppend(a, b);
      FilterCsvAppend(a[1..], b);
      var h := if IsCsvName(a[0]) then [a[0]] else [];
      assert FilterCsv(a + b) == h + FilterCsv(a[1..] + b);
      assert FilterCsv(a) == h + FilterCsv(a[1..]);
      AppendAssoc(h, FilterCsv(a[1..]), FilterCsv(b));
    }
  }

  /** One name is kept exactly when it passes the test. */
  lemma FilterCsvSingle(f: string)
    ensures FilterCsv([f]) == (if IsCsvName(f) then [f] else [])
  {
    assert [f][1..] == [];
  }

  function FilterWhitelisted(csvs: seq<string>): (r: seq<string>)
    ensures forall f :: f in r <==> f in csvs && Lower(f) in WhitelistLower()
  {
    if csvs == [] then []
    else if Lower(csvs[0]) in WhitelistLower() then [csvs[0]] + FilterWhitelisted(csvs[1..])
    else FilterWhitelisted(csvs[1..])
  }

  /** The filter keeps order and repeats: it distributes over concatenation. */
  lemma {:induction false} FilterWhitelistedAppend(a: seq<string>, b: seq<string>)
    ensures FilterWhitelisted(a + b) == FilterWhitelisted(a) + FilterWhitelisted(b)
  {
    if a == [] {
      assert a + b == b;
    } else {
      ConsAppend(a, b);
      FilterWhitelistedAppend(a[1..], b);
      var h := if Lower(a[0]) in WhitelistLower() then [a[0]] else [];
      assert FilterWhitelisted(a + b) == h + FilterWhitelisted(a[1..] + b);
      assert FilterWhitelisted(a) == h + FilterWhitelisted(a[1..]);
      AppendAssoc(h, FilterWhitelisted(a[1..]), FilterWhitelisted(b));
    }
  }

  /** One name is kept exactly when it passes the test. */
  lemma FilterWhitelistedSingle(f: string)
    ensures FilterWhitelisted([f]) == (if Lower(f) in WhitelistLower() then [f] else [])
  {
    assert [f][1..] == [];
  }

  /** The whitelist entries no listed CSV lower-cases to, as a list. */
  function Absent(wanted: seq<string>, csvs: seq<string>): (r: seq<string>)
    ensures forall x :: x in r <==> x in wanted && forall f :: f in csvs ==> Lower(f) != x
  {
    if wanted == [] then []
    else if exists f :: f in csvs && Lower(f) == wanted[0] then Absent(wanted[1..], csvs)
    else [wanted[0]] + Absent(wanted[1..], csvs)
  }

  function Exclude(xs: seq<string>, drop: seq<string>): (r: seq<string>)
    ensures forall x :: x in r <==> x in xs && x !in drop
  {
    if xs == [] then []
    else if xs[0] in drop then Exclude(xs[1..], drop)
    else [xs[0]] + Exclude(xs[1..], drop)
  }

  /** A whitelist-style name: a stem in `[a-z0-9_]` followed by `.csv`. */
  predicate IsPlainCsvName(x: string) {
    |x| > 4 && EndsWith(x, ".csv") && forall i :: 0 <= i < |x| - 4 ==> IsIdentChar(x[i])
  }

  lemma PlainCsvNameIsLower(x: string)
    requires IsPlainCsvName(x)
    ensures Lower(x) == x
  {
    forall i | 0 <= i < |x|
      ensures LowerChar(x[i]) == x[i]
    {
      if i >= |x| - 4 {
        assert x[i] == x[|x| - 4..][i - (|x| - 4)];
      }
    }
  }

  lemma WhitelistPlain0()
    ensures IsPlainCsvName("features_orders.csv")
  {
  }

  lemma WhitelistPlain1()
    ensures IsPlainCsvName("order_items_clean.csv")
  {
  }

  lemma WhitelistPlain2()
    ensures IsPlainCsvName("order_reviews_dedup.csv")
  {
  }

  lemma WhitelistPlain3()
    ensures IsPlainCsvName("payments_order_agg.csv")
  {
  }

  lemma WhitelistPlain4()
    ensures IsPlainCsvName("products_clean.csv")
  {
  }

  lemma WhitelistPlain()
    ensures forall x :: x in FileWhitelist ==> IsPlainCsvName(x)
  {
    WhitelistPlain0();
    WhitelistPlain1();
    WhitelistPlain2();
    WhitelistPlain3();
    WhitelistPlain4();
  }

  /** The whitelist is written in lower case, so lower-casing it changes nothing. */
  lemma WhitelistIsLower()
    ensures WhitelistLower() == FileWhitelist
  {
    WhitelistPlain();
    forall x | x in FileWhitelist
      ensures Lower(x) == x
    {
      PlainCsvNameIsLower(x);
    }
  }

  /** The lower-cased whitelist as a list. */
  function WhitelistList(): (r: seq<string>)
    ensures forall x :: x in r <==> x in WhitelistLower()
  {
    WhitelistIsLower();
    WhitelistNames
  }

  /** What `main` computes from the directory listing before loading anything. */
  datatype Selection = Selection(allCsvs: seq<string>, files: seq<string>, missing: seq<string>, ignored: seq<string>)

  /** `all_csvs`, `files`, `missing` and `ignored` of `main`. */
  function SelectFiles(listing: seq<string>): (sel: Selection)
    ensures forall f :: f in sel.allCsvs <==> f in listing && IsCsvName(f)
    ensures forall f :: f in sel.files <==> f in listing && Lower(f) in WhitelistLower()
    ensures forall f :: f in sel.files ==> f in sel.allCsvs
    ensures StrictlyIncreasing(sel.missing)
    ensures forall x :: x in sel.missing <==> x in WhitelistLower() && forall f :: f in sel.allCsvs ==> Lower(f) != x
    ensures forall f :: f in sel.files ==> Lower(f) !in sel.missing
    ensures StrictlyIncreasing(sel.ignored)
    ensures forall f :: f in sel.ignored <==> f in sel.allCsvs && f !in sel.files
  {
    var all := FilterCsv(listing);
    var files := FilterWhitelisted(all);
    WhitelistedAreCsv(listing);
    Selection(all, files, SortUnique(Absent(WhitelistList(), all)), SortUnique(Exclude(all, files)))
  }

  /** Every whitelisted name ends in `.csv`, so the CSV filter loses no whitelisted file. */
  lemma WhitelistedAreCsv(listing: seq<string>)
    ensures forall f :: f in listing && Lower(f) in WhitelistLower() ==> IsCsvName(f)
  {
    WhitelistIsLower();
    WhitelistPlain();
  }

  /** A name that lower-cases to `stem + ".csv"`, with `stem` already in
      `[a-z0-9_]`, is sanitised to `stem`. */
  lemma CsvNameSanitised(f: string, w: string)
    requires Lower(f) == w && IsPlainCsvName(w)
    ensures SanitizeTableName(f) == w[..|w| - 4]
  {
    assert IsCsvExt(f[|f| - 4..]) by {
      assert forall i :: |f| - 4 <= i < |f| ==> LowerChar(f[i]) == w[i];
      assert w[|w| - 4..] == ".csv";
    }
    var r := SanitizeTableName(f);
    forall i | 0 <= i < |f| - 4
      ensures r[i] == w[i]
    {
      assert LowerChar(f[i]) == w[i];
    }
  }

  /** A whitelisted file (exactly the files `SelectFiles` loads) becomes the
      table named by its lower-cased name without `.csv`: for these names
      sanitising only lower-cases. */
  lemma WhitelistedTableName(f: string)
    requires Lower(f) in WhitelistLower()
    ensures |f| > 4 && SanitizeTableName(f) == Lower(f)[..|f| - 4]
  {
    WhitelistIsLower();
    WhitelistPlain();
    CsvNameSanitised(f, Lower(f));
  }

  datatype IngestError =
    | NoDataDir             // data_clean/ is not a directory
    | NoWhitelistedFiles    // nothing to load

  /** The checks of `main` around the selection: a missing data directory and
      an empty load list abort; otherwise the selection is used. `listing` is
      `None` when the directory does not exist. */
  function PlanIngest(listing: Option<seq<string>>): (r: Result<Selection, IngestError>)
    ensures listing.None? ==> r == Err(NoDataDir)
    ensures listing.Some? ==> (r == Err(NoWhitelistedFiles) <==> forall f :: f in listing.value ==> Lower(f) !in WhitelistLower())
    ensures r.Ok? ==> r.value == SelectFiles(listing.value) && |r.value.files| > 0
  {
    match listing
    case None => Err(NoDataDir)
    case Some(names) =>
      var sel := SelectFiles(names);
      if sel.files == [] then
        Err(NoWhitelistedFiles)
      else
        assert sel.files[0] in names && Lower(sel.files[0]) in WhitelistLower();
        Ok(sel)
  }
}
