/**
 * The simulator's input boundary (src/ab_simulator.py): the comma-separated
 * grid lists, the churn-prediction table, the order-value snapshot, and the
 * left merge of the two tables. File existence and CSV reading are inputs:
 * a file is `None` when it does not exist, otherwise its header and rows.
 */
module Loaders {
  import opened Results
  import opened Text
  import opened Numeric

  // ---------------------------------------------------------------------------
  // Grid lists
  // ---------------------------------------------------------------------------

  /** The `ValueError` raised for a malformed list: the option name and its raw text. */
  datatype ListError = BadList(name: string, raw: string)

  /** The pieces that survive `if x.strip() != ""`, in order. */
  function NonBlank(segs: seq<string>): (r: seq<string>)
    ensures forall i :: 0 <= i < |r| ==> !IsBlank(r[i])
    ensures forall x :: x in r <==> x in segs && !IsBlank(x)
  {
    if segs == [] then []
    else if Strip(segs[0]) == [] then NonBlank(segs[1..])
    else [segs[0]] + NonBlank(segs[1..])
  }

  /** The filter keeps order and repeats: a concatenation filters to the
      concatenation of the filtered parts, and one piece is kept exactly when
      it is not blank (`NonBlankSingle`). */
  lemma {:induction false} NonBlankAppend(a: seq<string>, b: seq<string>)
    ensures NonBlank(a + b) == NonBlank(a) + NonBlank(b)
  {
    if a == [] {
      assert a + b == b;
    } else {
      ConsAppend(a, b);
      NonBlankStep(a + b);
      NonBlankStep(a);
      NonBlankAppend(a[1..], b);
      var h := if Strip(a[0]) == [] then [] else [a[0]];
      AppendAssoc(h, NonBlank(a[1..]), NonBlank(b));
    }
  }

  /** One unfolding of the filter on a non-empty list. */
  lemma NonBlankStep(segs: seq<string>)
    requires segs != []
    ensures NonBlank(segs) == (if Strip(segs[0]) == [] then [] else [segs[0]]) + NonBlank(segs[1..])
  {
  }

  lemma NonBlankSingle(x: string)
    ensures NonBlank([x]) == (if IsBlank(x) then [] else [x])
  {
    assert [x][1..] == [];
  }

  /** Applies `float()` to every piece; `None` as soon as one piece does not parse. */
  function ParseAll(segs: seq<string>, parse: string -> Option<real>): (r: Option<seq<real>>)
    ensures r.Some? <==> forall i :: 0 <= i < |segs| ==> parse(segs[i]).Some?
    ensures r.Some? ==> |r.value| == |segs|
    ensures r.Some? ==> forall i :: 0 <= i < |segs| ==> r.value[i] == parse(segs[i]).value
  {
    if segs == [] then Some([])
    else
      match parse(segs[0])
      case None => None
      case Some(x) =>
        match ParseAll(segs[1..], parse)
        case None => None
        case Some(xs) => Some([x] + xs)
  }

  /** `parse_floats(csv_str, name)`. `parse` is Python's `float()` on one raw
      (unstripped) piece: `None` where it raises. */
  function ParseFloats(csv: string, name: string, parse: string -> Option<real>): (r: Result<seq<real>, ListError>)
    ensures var segs := NonBlank(Split(csv, ','));
      && (r.Ok? <==> forall i :: 0 <= i < |segs| ==> parse(segs[i]).Some?)
      && (r.Ok? ==> |r.value| == |segs|)
      && (r.Ok? ==> forall i :: 0 <= i < |segs| ==> r.value[i] == parse(segs[i]).value)
      && (r.Err? ==> r.error == BadList(name, csv))
  {
    var segs := NonBlank(Split(csv, ','));
    var parsed := ParseAll(segs, parse);
    if parsed.Some? then Ok(parsed.value) else Err(BadList(name, csv))
  }

  /** Writing the values comma-separated and parsing them back gives them again:
      when every piece is non-blank, comma-free and parses to `xs[i]`, the
      joined list parses to exactly `xs`. */
  lemma ParseFloatsOfJoin(pieces: seq<string>, xs: seq<real>, name: string, parse: string -> Option<real>)
    requires |pieces| > 0 && |pieces| == |xs|
    requires forall i :: 0 <= i < |pieces| ==> ',' !in pieces[i] && !IsBlank(pieces[i])
    requires forall i :: 0 <= i < |pieces| ==> parse(pieces[i]) == Some(xs[i])
    ensures ParseFloats(Join(pieces, ','), name, parse) == Ok(xs)
  {
    SplitJoin(pieces, ',');
    NonBlankKeepsAll(pieces);
    var parsed := ParseAll(pieces, parse);
    assert parsed.Some?;
    assert parsed.value == xs;
  }

  lemma {:induction false} NonBlankKeepsAll(segs: seq<string>)
    requires forall i :: 0 <= i < |segs| ==> !IsBlank(segs[i])
    ensures NonBlank(segs) == segs
  {
    if segs != [] {
      NonBlankKeepsAll(segs[1..]);
    }
  }

  /** A list option holding only commas and whitespace gives an empty grid, whatever the parser. */
  lemma ParseFloatsBlank(csv: string, name: string, parse: string -> Option<real>)
    requires forall i :: 0 <= i < |csv| ==> csv[i] == ',' || IsSpace(csv[i])
    ensures ParseFloats(csv, name, parse) == Ok([])
  {
    var segs := Split(csv, ',');
    forall i | 0 <= i < |segs|
      ensures IsBlank(segs[i])
    {
      SplitPiecesFromText(csv, ',', i);
      forall k | 0 <= k < |segs[i]|
        ensures IsSpace(segs[i][k])
      {
        assert segs[i][k] in segs[i];
        assert segs[i][k] in csv;
        assert segs[i][k] != ',';
      }
    }
    NonBlankDropsAll(segs);
  }

  /** Every character of a split piece comes from the text. */
  lemma {:induction false} SplitPiecesFromText(s: string, sep: char, i: int)
    requires 0 <= i < |Split(s, sep)|
    ensures forall c :: c in Split(s, sep)[i] ==> c in s
    decreases |s|
  {
    if s != [] {
      var rest := Split(s[1..], sep);
      if s[0] == sep {
        if i > 0 {
          SplitPiecesFromText(s[1..], sep, i - 1);
        }
      } else if i == 0 {
        SplitPiecesFromText(s[1..], sep, 0);
      } else {
        SplitPiecesFromText(s[1..], sep, i);
      }
    }
  }

  lemma {:induction false} NonBlankDropsAll(segs: seq<string>)
    requires forall i :: 0 <= i < |segs| ==> IsBlank(segs[i])
    ensures NonBlank(segs) == []
  {
    if segs != [] {
      NonBlankDropsAll(segs[1..]);
    }
  }

  // ---------------------------------------------------------------------------
  // Churn predictions
  // ---------------------------------------------------------------------------

  datatype PredRow = PredRow(uid: string, churnProb: real)

  /** A read prediction CSV: its header and the `cust_uid`/`churn_prob` values of each row. */
  datatype PredsFile = PredsFile(columns: set<string>, rows: seq<PredRow>)

  datatype LoadError =
    | MissingFile(path: string)                          // FileNotFoundError
    | MissingColumns(path: string, need: set<string>)    // ValueError naming the path and the required columns
    | UsecolsNotFound(missing: set<string>)              // pandas' ValueError naming the absent `usecols`

  const PredColumns: set<string> := {"cust_uid", "churn_prob"}

  /** Rows strictly ascending by `uid`, so no uid repeats. */
  ghost predicate UidIncreasing(s: seq<PredRow>) {
    forall i, j :: 0 <= i < j < |s| ==> Less(s[i].uid, s[j].uid)
  }

  /** The customer ids a table mentions. */
  ghost function Uids(s: seq<PredRow>): set<string> {
    if s == [] then {} else {s[0].uid} + Uids(s[1..])
  }

  lemma {:induction false} UidsMember(s: seq<PredRow>, u: string)
    ensures u in Uids(s) <==> exists i :: 0 <= i < |s| && s[i].uid == u
  {
    if s != [] {
      UidsMember(s[1..], u);
      if u in Uids(s[1..]) {
        var i :| 0 <= i < |s[1..]| && s[1..][i].uid == u;
        assert s[i + 1].uid == u;
      }
      if exists i :: 0 <= i < |s| && s[i].uid == u {
        var i :| 0 <= i < |s| && s[i].uid == u;
        if i > 0 {
          assert s[1..][i - 1].uid == u;
        }
      }
    }
  }

  /** In a uid-ascending table two rows with the same uid are the same row. */
  lemma SameUidSameIndex(s: seq<PredRow>, i: int, j: int)
    requires UidIncreasing(s)
    requires 0 <= i < |s| && 0 <= j < |s| && s[i].uid == s[j].uid
    ensures i == j
  {
    if i < j {
      LessIrreflexive(s[i].uid);
    } else if j < i {
      LessIrreflexive(s[j].uid);
    }
  }

  /** `r` is `acc` with `x` merged in: its rows come from `acc` or are `x`, it
      covers exactly their uids, and each row's probability is at least that of
      every row of `acc` or `x` sharing its uid. */
  ghost predicate Absorbs(acc: seq<PredRow>, x: PredRow, r: seq<PredRow>) {
    && (forall i :: 0 <= i < |r| ==> r[i] in acc || r[i] == x)
    && Uids(r) == Uids(acc) + {x.uid}
    && (forall i :: 0 <= i < |r| && r[i].uid == x.uid ==> r[i].churnProb >= x.churnProb)
    && (forall i, j :: 0 <= i < |r| && 0 <= j < |acc| && r[i].uid == acc[j].uid ==> r[i].churnProb >= acc[j].churnProb)
  }

  /** Merges `x` into a uid-ascending table, keeping the larger probability on a uid clash. */
  function InsertMax(acc: seq<PredRow>, x: PredRow): (r: seq<PredRow>)
    requires UidIncreasing(acc)
    ensures UidIncreasing(r)
    ensures forall i :: 0 <= i < |r| ==> r[i] in acc || r[i] == x
    ensures Uids(r) == Uids(acc) + {x.uid}
    ensures forall i :: 0 <= i < |r| && r[i].uid == x.uid ==> r[i].churnProb >= x.churnProb
    ensures forall i, j :: 0 <= i < |r| && 0 <= j < |acc| && r[i].uid == acc[j].uid ==> r[i].churnProb >= acc[j].churnProb
    decreases |acc|
  {
    if acc == [] then [x]
    else if Less(x.uid, acc[0].uid) then
      InsertMaxFront(acc, x);
      [x] + acc
    else if x.uid == acc[0].uid then
      var top := if x.churnProb > acc[0].churnProb then x else acc[0];
      InsertMaxClash(acc, x, top);
      [top] + acc[1..]
    else
      var t := InsertMax(acc[1..], x);
      InsertMaxLater(acc, x, t);
      [acc[0]] + t
  }

  /** A uid below the table's first is below all of them. */
  lemma BelowAll(acc: seq<PredRow>, x: PredRow)
    requires UidIncreasing(acc) && acc != [] && Less(x.uid, acc[0].uid)
    ensures forall j :: 0 <= j < |acc| ==> Less(x.uid, acc[j].uid)
  {
    forall j | 0 < j < |acc|
      ensures Less(x.uid, acc[j].uid)
    {
      LessTransitive(x.uid, acc[0].uid, acc[j].uid);
    }
  }

  lemma InsertMaxFront(acc: seq<PredRow>, x: PredRow)
    requires UidIncreasing(acc) && acc != [] && Less(x.uid, acc[0].uid)
    ensures UidIncreasing([x] + acc) && Absorbs(acc, x, [x] + acc)
  {
    var r := [x] + acc;
    assert r[1..] == acc;
    BelowAll(acc, x);
    FrontProbs(acc, x);
  }

  /** Putting `x` in front keeps every probability bound: its uid is new. */
  lemma FrontProbs(acc: seq<PredRow>, x: PredRow)
    requires UidIncreasing(acc)
    requires forall j :: 0 <= j < |acc| ==> Less(x.uid, acc[j].uid)
    ensures var r := [x] + acc;
      && (forall i :: 0 <= i < |r| && r[i].uid == x.uid ==> r[i].churnProb >= x.churnProb)
      && (forall i, j :: 0 <= i < |r| && 0 <= j < |acc| && r[i].uid == acc[j].uid ==> r[i].churnProb >= acc[j].churnProb)
  {
    var r := [x] + acc;
    LessIrreflexive(x.uid);
    forall i, j | 0 <= i < |r| && 0 <= j < |acc| && r[i].uid == acc[j].uid
      ensures r[i].churnProb >= acc[j].churnProb
    {
      if i > 0 {
        assert r[i] == acc[i - 1];
        SameUidSameIndex(acc, i - 1, j);
      }
    }
  }

  lemma InsertMaxClash(acc: seq<PredRow>, x: PredRow, top: PredRow)
    requires UidIncreasing(acc) && acc != [] && x.uid == acc[0].uid
    requires top == (if x.churnProb > acc[0].churnProb then x else acc[0])
    ensures UidIncreasing([top] + acc[1..]) && Absorbs(acc, x, [top] + acc[1..])
  {
    var r := [top] + acc[1..];
    assert r[1..] == acc[1..];
    assert acc == [acc[0]] + acc[1..];
    ClashProbs(acc, x, top);
  }

  /** Replacing the clashing head by the larger-probability row keeps every probability bound. */
  lemma ClashProbs(acc: seq<PredRow>, x: PredRow, top: PredRow)
    requires UidIncreasing(acc) && acc != [] && x.uid == acc[0].uid
    requires top == (if x.churnProb > acc[0].churnProb then x else acc[0])
    ensures var r := [top] + acc[1..];
      && (forall i :: 0 <= i < |r| && r[i].uid == x.uid ==> r[i].churnProb >= x.churnProb)
      && (forall i, j :: 0 <= i < |r| && 0 <= j < |acc| && r[i].uid == acc[j].uid ==> r[i].churnProb >= acc[j].churnProb)
  {
    var r := [top] + acc[1..];
    forall i | 0 <= i < |r| && r[i].uid == x.uid
      ensures r[i].churnProb >= x.churnProb
    {
      if i > 0 {
        assert r[i] == acc[i];
        SameUidSameIndex(acc, 0, i);
      }
    }
    forall i, j | 0 <= i < |r| && 0 <= j < |acc| && r[i].uid == acc[j].uid
      ensures r[i].churnProb >= acc[j].churnProb
    {
      if i == 0 {
        SameUidSameIndex(acc, 0, j);
      } else {
        assert r[i] == acc[i];
        SameUidSameIndex(acc, i, j);
      }
    }
  }

  lemma InsertMaxLater(acc: seq<PredRow>, x: PredRow, t: seq<PredRow>)
    requires UidIncreasing(acc) && acc != [] && x.uid != acc[0].uid && !Less(x.uid, acc[0].uid)
    requires UidIncreasing(t) && Absorbs(acc[1..], x, t)
    ensures UidIncreasing([acc[0]] + t) && Absorbs(acc, x, [acc[0]] + t)
  {
    LessTotal(x.uid, acc[0].uid);
    var r := [acc[0]] + t;
    assert r[1..] == t;
    assert acc == [acc[0]] + acc[1..];
    forall j | 0 <= j < |t|
      ensures Less(acc[0].uid, t[j].uid)
    {
      if t[j] != x {
        var k :| 0 <= k < |acc[1..]| && acc[1..][k] == t[j];
        assert acc[k + 1] == t[j];
      }
    }
    forall i | 0 <= i < |r| && r[i].uid == x.uid
      ensures r[i].churnProb >= x.churnProb
    {
      assert i > 0;
      assert r[i] == t[i - 1];
    }
    forall i, j | 0 <= i < |r| && 0 <= j < |acc| && r[i].uid == acc[j].uid
      ensures r[i].churnProb >= acc[j].churnProb
    {
      if i == 0 {
        SameUidSameIndex(acc, 0, j);
      } else if j == 0 {
        assert Less(acc[0].uid, t[i - 1].uid);
        LessIrreflexive(acc[0].uid);
      } else {
        assert r[i] == t[i - 1] && acc[j] == acc[1..][j - 1];
      }
    }
  }

  /** `sort_values(["cust_uid", "churn_prob"], ascending=[True, False])
      .drop_duplicates("cust_uid", keep="first")`. */
  function Dedup(rows: seq<PredRow>): (r: seq<PredRow>)
    ensures UidIncreasing(r)
    ensures forall i :: 0 <= i < |r| ==> r[i] in rows
    ensures Uids(r) == Uids(rows)
    ensures forall i, j :: 0 <= i < |r| && 0 <= j < |rows| && r[i].uid == rows[j].uid ==> r[i].churnProb >= rows[j].churnProb
  {
    if rows == [] then []
    else
      var acc := Dedup(rows[1..]);
      var r := InsertMax(acc, rows[0]);
      assert rows == [rows[0]] + rows[1..];
      DedupStep(rows[0], rows[1..], acc, r);
      r
  }

  /** The inductive step of `Dedup`: the probability bound carries over from
      the tail through the merged table. */
  lemma DedupStep(head: PredRow, tail: seq<PredRow>, acc: seq<PredRow>, r: seq<PredRow>)
    requires Uids(acc) == Uids(tail)
    requires forall i, j :: 0 <= i < |acc| && 0 <= j < |tail| && acc[i].uid == tail[j].uid ==> acc[i].churnProb >= tail[j].churnProb
    requires forall i :: 0 <= i < |r| && r[i].uid == head.uid ==> r[i].churnProb >= head.churnProb
    requires forall i, j :: 0 <= i < |r| && 0 <= j < |acc| && r[i].uid == acc[j].uid ==> r[i].churnProb >= acc[j].churnProb
    ensures forall i, j :: 0 <= i < |r| && 0 <= j < |[head] + tail| && r[i].uid == ([head] + tail)[j].uid ==> r[i].churnProb >= ([head] + tail)[j].churnProb
  {
    var rows := [head] + tail;
    forall i, j | 0 <= i < |r| && 0 <= j < |rows| && r[i].uid == rows[j].uid
      ensures r[i].churnProb >= rows[j].churnProb
    {
      if j > 0 {
        assert rows[j] == tail[j - 1];
        UidsMember(tail, rows[j].uid);
        UidsMember(acc, rows[j].uid);
        var k :| 0 <= k < |acc| && acc[k].uid == rows[j].uid;
      }
    }
  }

  /** `load_preds(path)`. */
  function LoadPreds(path: string, file: Option<PredsFile>): (r: Result<seq<PredRow>, LoadError>)
    ensures file.None? ==> r == Err(MissingFile(path))
    ensures file.Some? && !(PredColumns <= file.value.columns) ==> r == Err(MissingColumns(path, PredColumns))
    ensures file.Some? && PredColumns <= file.value.columns ==> r.Ok?
    ensures r.Ok? ==> UidIncreasing(r.value) && Uids(r.value) == Uids(file.value.rows)
    ensures r.Ok? ==> forall i :: 0 <= i < |r.value| ==> r.value[i] in file.value.rows
    ensures r.Ok? ==> forall i, j :: 0 <= i < |r.value| && 0 <= j < |file.value.rows| && r.value[i].uid == file.value.rows[j].uid
                        ==> r.value[i].churnProb >= file.value.rows[j].churnProb
  {
    match file
    case None => Err(MissingFile(path))
    case Some(f) =>
      if !(PredColumns <= f.columns) then Err(MissingColumns(path, PredColumns))
      else Ok(Dedup(f.rows))
  }

  /** A loaded prediction table has one row per customer, and that row carries
      the customer's largest churn probability among the input rows. */
  lemma LoadPredsOnePerCustomer(path: string, file: Option<PredsFile>, i: int, j: int)
    requires LoadPreds(path, file).Ok?
    requires 0 <= i < |LoadPreds(path, file).value| && 0 <= j < |LoadPreds(path, file).value|
    ensures i != j ==> LoadPreds(path, file).value[i].uid != LoadPreds(path, file).value[j].uid
    ensures exists k :: 0 <= k < |file.value.rows| && file.value.rows[k] == LoadPreds(path, file).value[i]
    ensures forall k :: 0 <= k < |file.value.rows| && file.value.rows[k].uid == LoadPreds(path, file).value[i].uid ==>
              file.value.rows[k].churnProb <= LoadPreds(path, file).value[i].churnProb
  {
    var r := LoadPreds(path, file).value;
    if i < j {
      LessIrreflexive(r[i].uid);
    } else if j < i {
      LessIrreflexive(r[j].uid);
    }
    assert r[i] in file.value.rows;
  }

  // ---------------------------------------------------------------------------
  // Order-value snapshot and the merge
  // ---------------------------------------------------------------------------

  /** One snapshot row: `avg_order_value` is `None` for an empty cell. */
  datatype AovRow = AovRow(uid: string, avgOrderValue: Option<real>)
  datatype AovFile = AovFile(columns: set<string>, rows: seq<AovRow>)
  datatype AovEntry = AovEntry(uid: string, avgOrderValue: real)

  const AovColumns: set<string> := {"cust_uid", "avg_order_value"}

  /** `load_aov(path)`: a missing file gives an empty table; otherwise the two
      columns are read, and empty order values become 0. A header lacking
      either column makes `read_csv(usecols=…)` raise a ValueError that names
      the columns it did not find. */
  function LoadAov(path: string, file: Option<AovFile>): (r: Result<seq<AovEntry>, LoadError>)
    ensures file.None? ==> r == Ok([])
    ensures file.Some? && !(AovColumns <= file.value.columns) ==> r == Err(UsecolsNotFound(AovColumns - file.value.columns))
    ensures r.Err? ==> r.error.UsecolsNotFound? && r.error.missing != {} && r.error.missing <= AovColumns
    ensures file.Some? && AovColumns <= file.value.columns ==>
              && r.Ok? && |r.value| == |file.value.rows|
              && forall i :: 0 <= i < |r.value| ==>
                   && r.value[i].uid == file.value.rows[i].uid
                   && (file.value.rows[i].avgOrderValue.None? ==> r.value[i].avgOrderValue == 0.0)
                   && (file.value.rows[i].avgOrderValue.Some? ==> r.value[i].avgOrderValue == file.value.rows[i].avgOrderValue.value)
  {
    match file
    case None => Ok([])
    case Some(f) =>
      if !(AovColumns <= f.columns) then
        assert "cust_uid" !in f.columns || "avg_order_value" !in f.columns;
        Err(UsecolsNotFound(AovColumns - f.columns))
      else Ok(seq(|f.rows|, i requires 0 <= i < |f.rows| => AovEntry(f.rows[i].uid, f.rows[i].avgOrderValue.GetOr(0.0))))
  }

  /** A row of the merged frame handed to the simulator; `avgOrderValue` is
      NaN when the snapshot has no row for the customer. */
  datatype Customer = Customer(uid: string, churnProb: real, avgOrderValue: Stat)

  /** The snapshot's order values for `uid`, in snapshot order. */
  function Matches(snap: seq<AovEntry>, uid: string): (r: seq<real>)
    ensures |r| <= |snap|
    ensures (|r| == 0) <==> forall e :: e in snap ==> e.uid != uid
  {
    if snap == [] then []
    else if snap[0].uid == uid then [snap[0].avgOrderValue] + Matches(snap[1..], uid)
    else Matches(snap[1..], uid)
  }

  /** The merged rows one prediction contributes: one per snapshot match, or one NaN row. */
  function MergeRow(p: PredRow, snap: seq<AovEntry>): (r: seq<Customer>)
    ensures |r| > 0
    ensures forall i :: 0 <= i < |r| ==> r[i].uid == p.uid && r[i].churnProb == p.churnProb
    ensures (forall e :: e in snap ==> e.uid != p.uid) ==> r == [Customer(p.uid, p.churnProb, NaN)]
    ensures (exists e :: e in snap && e.uid == p.uid) ==>
              && |r| == |Matches(snap, p.uid)|
              && forall i :: 0 <= i < |r| ==> r[i].avgOrderValue == Finite(Matches(snap, p.uid)[i])
  {
    var m := Matches(snap, p.uid);
    if m == [] then [Customer(p.uid, p.churnProb, NaN)]
    else seq(|m|, i requires 0 <= i < |m| => Customer(p.uid, p.churnProb, Finite(m[i])))
  }

  /** `preds.merge(snap, on="cust_uid", how="left")`: prediction order is kept,
      and each prediction is repeated once per matching snapshot row. */
  function MergeLeft(preds: seq<PredRow>, snap: seq<AovEntry>): (r: seq<Customer>)
    ensures |r| >= |preds|
  {
    if preds == [] then [] else MergeRow(preds[0], snap) + MergeLeft(preds[1..], snap)
  }

  /** The merge works prediction by prediction: merging a concatenation is
      concatenating the merges (and one prediction merges to its `MergeRow`). */
  lemma {:induction false} MergeLeftAppend(a: seq<PredRow>, b: seq<PredRow>, snap: seq<AovEntry>)
    ensures MergeLeft(a + b, snap) == MergeLeft(a, snap) + MergeLeft(b, snap)
  {
    if a != [] {
      var ab := a + b;
      assert ab[0] == a[0];
      assert ab[1..] == a[1..] + b;
      MergeLeftAppend(a[1..], b, snap);
      assert MergeLeft(ab, snap) == MergeRow(a[0], snap) + MergeLeft(a[1..] + b, snap);
    } else {
      assert a + b == b;
    }
  }

  lemma MergeLeftSingle(p: PredRow, snap: seq<AovEntry>)
    ensures MergeLeft([p], snap) == MergeRow(p, snap)
  {
    assert [p][1..] == [];
    assert MergeLeft([p], snap) == MergeRow(p, snap) + MergeLeft([], snap);
  }

  /** No prediction row is lost: each one's customer and churn probability
      appear in the merged frame. */
  lemma MergeLeftKeeps(preds: seq<PredRow>, snap: seq<AovEntry>, i: int)
    requires 0 <= i < |preds|
    ensures exists q :: 0 <= q < |MergeLeft(preds, snap)| &&
              MergeLeft(preds, snap)[q].uid == preds[i].uid && MergeLeft(preds, snap)[q].churnProb == preds[i].churnProb
  {
    var before, after := preds[..i], preds[i + 1..];
    assert preds == before + ([preds[i]] + after);
    MergeLeftAppend(before, [preds[i]] + after, snap);
    MergeLeftAppend([preds[i]], after, snap);
    MergeLeftSingle(preds[i], snap);
    var prefix := MergeLeft(before, snap);
    var row := MergeRow(preds[i], snap);
    var r := MergeLeft(preds, snap);
    assert r == prefix + (row + MergeLeft(after, snap));
    assert r[|prefix|] == row[0];
  }

  /** The order value a uid-unique snapshot holds for `uid`, or NaN. */
  function Lookup(snap: seq<AovEntry>, uid: string): Stat {
    if snap == [] then NaN
    else if snap[0].uid == uid then Finite(snap[0].avgOrderValue)
    else Lookup(snap[1..], uid)
  }

  ghost predicate UniqueSnapshot(snap: seq<AovEntry>) {
    forall i, j :: 0 <= i < j < |snap| ==> snap[i].uid != snap[j].uid
  }

  lemma {:induction false} MatchesUnique(snap: seq<AovEntry>, uid: string)
    requires UniqueSnapshot(snap)
    ensures |Matches(snap, uid)| <= 1
    ensures Lookup(snap, uid).NaN? <==> Matches(snap, uid) == []
    ensures Lookup(snap, uid).Finite? ==> Matches(snap, uid) == [Lookup(snap, uid).value]
  {
    if snap != [] {
      MatchesUnique(snap[1..], uid);
      if snap[0].uid == uid {
        assert forall e :: e in snap[1..] ==> e.uid != uid by {
          forall e | e in snap[1..] ensures e.uid != uid {
            var j :| 0 <= j < |snap[1..]| && snap[1..][j] == e;
            assert snap[j + 1] == e;
          }
        }
      }
    }
  }

  /** With a snapshot holding at most one row per customer, the left merge keeps
      the prediction table's rows one for one and attaches each customer's
      order value, or NaN when the snapshot lacks the customer. */
  lemma {:induction false} MergeLeftUnique(preds: seq<PredRow>, snap: seq<AovEntry>)
    requires UniqueSnapshot(snap)
    ensures |MergeLeft(preds, snap)| == |preds|
    ensures forall i :: 0 <= i < |preds| ==>
              MergeLeft(preds, snap)[i] == Customer(preds[i].uid, preds[i].churnProb, Lookup(snap, preds[i].uid))
  {
    if preds != [] {
      MatchesUnique(snap, preds[0].uid);
      MergeLeftUnique(preds[1..], snap);
      var head := MergeRow(preds[0], snap);
      assert head == [Customer(preds[0].uid, preds[0].churnProb, Lookup(snap, preds[0].uid))];
      forall i | 0 <= i < |preds|
        ensures MergeLeft(preds, snap)[i] == Customer(preds[i].uid, preds[i].churnProb, Lookup(snap, preds[i].uid))
      {
        if i > 0 {
          assert MergeLeft(preds, snap)[i] == MergeLeft(preds[1..], snap)[i - 1];
          assert preds[1..][i - 1] == preds[i];
        }
      }
    }
  }
}
