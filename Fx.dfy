/**
  The spot-rate fetcher (scripts/fetch_seb_fx.py): from the decoded JSON envelope of
  the bank's FX API it takes the first snapshot, builds one seven-column row per
  currency record, normalises the rates, and overwrites fx_rates_sek.csv.

  The envelope is given already decoded; the request, the API key and JSON decoding
  are not modelled. Python's `float()` on a field value is the parameter `parseFloat`
  (`None` where `float()` raises).
*/
module Fx {
  import opened Wrappers
  import opened Files
  import opened Numbers

  // ---------------------------------------------------------------------------
  // The decoded envelope. A field read with `.get(key, "")` is an Option: None when
  // the key is absent. The keys the script reads with `[key]` are Options too: their
  // absence is a KeyError.

  datatype RateRecord = RateRecord(
    listedCurrency: Option<string>,
    exchangeRate: Option<string>,
    bidRate: Option<string>,
    offerRate: Option<string>,
    lastUpdatedTime: Option<string>)

  datatype SpotSnapshot = SpotSnapshot(retrievalDate: Option<string>, midRates: Option<seq<RateRecord>>)

  datatype Envelope = Envelope(unitCurrency: Option<string>, spotRates: Option<seq<SpotSnapshot>>)

  /** Why a run stops before writing anything. */
  datatype FxError =
    | MissingKey(key: string)  // KeyError from a `[key]` lookup
    | NoSpotRates              // the RuntimeError raised for an empty snapshot list

  /** What the rows are built from: the unit currency, the first snapshot's date and records. */
  datatype Source = Source(unitCode: string, retrievalDate: string, records: seq<RateRecord>)

  /**
    The lookups at the top of the script, in their order: `unit_currency`, the snapshot
    list (which must not be empty), then the first snapshot's `retrieval_date` and its
    list of records. Later snapshots are never looked at.
  */
  function Extract(env: Envelope): (r: Result<Source, FxError>)
    ensures env.unitCurrency.None? ==> r == Failure(MissingKey("unit_currency"))
    ensures env.unitCurrency.Some? && env.spotRates.None? ==> r == Failure(MissingKey("fx_spot_exchange_rates"))
    ensures env.unitCurrency.Some? && env.spotRates == Some([]) ==> r == Failure(NoSpotRates)
    ensures (env.unitCurrency.Some? && env.spotRates.Some? && |env.spotRates.value| > 0
             && env.spotRates.value[0].retrievalDate.None?)
            ==> r == Failure(MissingKey("retrieval_date"))
    ensures (env.unitCurrency.Some? && env.spotRates.Some? && |env.spotRates.value| > 0
             && env.spotRates.value[0].retrievalDate.Some? && env.spotRates.value[0].midRates.None?)
            ==> r == Failure(MissingKey("fx_spot_mid_exchange_rates"))
    ensures r.Success? <==>
      && env.unitCurrency.Some? && env.spotRates.Some? && |env.spotRates.value| > 0
      && env.spotRates.value[0].retrievalDate.Some? && env.spotRates.value[0].midRates.Some?
    ensures r.Success? ==>
      && r.value.unitCode == env.unitCurrency.value
      && r.value.retrievalDate == env.spotRates.value[0].retrievalDate.value
      && r.value.records == env.spotRates.value[0].midRates.value
  {
    if env.unitCurrency.None? then Failure(MissingKey("unit_currency"))
    else if env.spotRates.None? then Failure(MissingKey("fx_spot_exchange_rates"))
    else if env.spotRates.value == [] then Failure(NoSpotRates)
    else if env.spotRates.value[0].retrievalDate.None? then Failure(MissingKey("retrieval_date"))
    else if env.spotRates.value[0].midRates.None? then Failure(MissingKey("fx_spot_mid_exchange_rates"))
    else
      Success(Source(env.unitCurrency.value, env.spotRates.value[0].retrievalDate.value,
                     env.spotRates.value[0].midRates.value))
  }

  /** Only the first snapshot matters: whatever follows it changes nothing. */
  lemma LaterSnapshotsIgnored(unit: Option<string>, first: SpotSnapshot, later: seq<SpotSnapshot>)
    ensures Extract(Envelope(unit, Some([first] + later))) == Extract(Envelope(unit, Some([first])))
  {
  }

  // ---------------------------------------------------------------------------
  // safe_float and the scale rule

  /**
    The scale rule: the feed sometimes sends a rate multiplied by 1000, so a value above
    100 is divided by 1000. It never increases a value, and everything up to 100000 ends
    up at most 100.
  */
  function Scale(v: real): (r: real)
    ensures r <= v
    ensures v <= 100000.0 ==> r <= 100.0
    ensures v > 100.0 ==> r * 1000.0 == v
    ensures v <= 100.0 ==> r == v
  {
    if v > 100.0 then v / 1000.0 else v
  }

  /** Scaling a scaled value again changes nothing exactly when the raw value is at most 100000. */
  lemma ScaleIdempotentIff(v: real)
    ensures Scale(Scale(v)) == Scale(v) <==> v <= 100000.0
  {
    if v > 100000.0 {
      assert Scale(v) == v / 1000.0 && Scale(v) > 100.0;
      assert Scale(Scale(v)) == v / 1000000.0;
    }
  }

  lemma ScaleExample()
    ensures Scale(10523.0) == 10.523
    ensures Scale(100.0) == 100.0
    ensures Scale(100.5) == 0.1005
  {
  }

  /** What safe_float returns: a float, or the empty string when `float()` raises. */
  datatype SafeValue = Float(x: real) | EmptyString

  /** safe_float never raises: a value `float()` cannot read gives the empty string. */
  function SafeFloat(v: string, parseFloat: string -> Option<real>): (r: SafeValue)
    ensures parseFloat(v).None? <==> r == EmptyString
    ensures parseFloat(v).Some? ==> r == Float(Scale(parseFloat(v).value))
  {
    match parseFloat(v)
    case None => EmptyString
    case Some(x) => Float(Scale(x))
  }

  // ---------------------------------------------------------------------------
  // Rows

  /**
    A row value: text, or `f"{arg:.6f}"` for the value `arg` safe_float returned. How
    `:.6f` renders a float, and that it fails on the empty string, are not modelled.
  */
  datatype Column = Text(s: string) | Fixed6(arg: SafeValue)

  /**
    The seven dictionary keys. A row only ever holds these keys, so they are an
    enumeration; `FieldName` gives the key's text, which is also its header cell.
  */
  datatype Field = RetrievalDate | ListedCurrency | ExchangeRate | BidRate | OfferRate | LastUpdatedTime | UnitCurrency

  function FieldName(f: Field): string {
    match f
    case RetrievalDate => "retrieval_date"
    case ListedCurrency => "listed_currency"
    case ExchangeRate => "exchange_rate"
    case BidRate => "bid_rate"
    case OfferRate => "offer_rate"
    case LastUpdatedTime => "last_updated_time"
    case UnitCurrency => "unit_currency"
  }

  /** `writer.fieldnames`: the column order of the file. */
  const Fields: seq<Field> :=
    [RetrievalDate, ListedCurrency, ExchangeRate, BidRate, OfferRate, LastUpdatedTime, UnitCurrency]

  /** The column of a field: the order names every field, and each only once. */
  function Position(f: Field): (j: nat)
    ensures j < |Fields| && Fields[j] == f
    ensures forall i :: 0 <= i < |Fields| && Fields[i] == f ==> i == j
  {
    match f
    case RetrievalDate => 0
    case ListedCurrency => 1
    case ExchangeRate => 2
    case BidRate => 3
    case OfferRate => 4
    case LastUpdatedTime => 5
    case UnitCurrency => 6
  }

  type Row = map<Field, Column>

  /** A row that holds a value under every name of `writer.fieldnames`. */
  predicate Complete(row: Row) {
    forall j :: 0 <= j < |Fields| ==> Fields[j] in row
  }

  /** `.get(key, "")`: the value, or the empty string when the key is absent. */
  function OrEmpty(v: Option<string>): (s: string)
    ensures v.None? ==> s == ""
    ensures v.Some? ==> s == v.value
  {
    v.GetOr("")
  }

  /** Python truthiness of a value read with `.get(key, "")`: absent and `""` are false. */
  function Truthy(v: Option<string>): (b: bool)
    ensures b <==> OrEmpty(v) != ""
  {
    v.Some? && v.value != ""
  }

  /** A rate column: empty for a missing or empty field, else safe_float's value formatted. */
  function RateColumn(v: Option<string>, parseFloat: string -> Option<real>): (c: Column)
    ensures c == Text("") <==> !Truthy(v)
  {
    if Truthy(v) then Fixed6(SafeFloat(v.value, parseFloat)) else Text("")
  }

  /** The dictionary appended for one currency record; it has all seven field names. */
  function BuildRow(src: Source, r: RateRecord, parseFloat: string -> Option<real>): (row: Row)
    ensures Complete(row)
  {
    map[
      RetrievalDate := Text(src.retrievalDate),
      ListedCurrency := Text(OrEmpty(r.listedCurrency)),
      ExchangeRate := RateColumn(r.exchangeRate, parseFloat),
      BidRate := RateColumn(r.bidRate, parseFloat),
      OfferRate := RateColumn(r.offerRate, parseFloat),
      LastUpdatedTime := Text(OrEmpty(r.lastUpdatedTime)),
      UnitCurrency := Text(src.unitCode)
    ]
  }

  /**
    The per-field rules: every row carries the snapshot's retrieval date and the unit
    currency; a missing currency code or update time is empty; a missing or empty rate is
    empty, and a present one is safe_float's value.
  */
  lemma RowColumns(src: Source, r: RateRecord, parseFloat: string -> Option<real>)
    ensures var row := BuildRow(src, r, parseFloat);
      && row[RetrievalDate] == Text(src.retrievalDate)
      && row[UnitCurrency] == Text(src.unitCode)
      && (r.listedCurrency.None? ==> row[ListedCurrency] == Text(""))
      && (r.listedCurrency.Some? ==> row[ListedCurrency] == Text(r.listedCurrency.value))
      && (r.lastUpdatedTime.None? ==> row[LastUpdatedTime] == Text(""))
      && (r.lastUpdatedTime.Some? ==> row[LastUpdatedTime] == Text(r.lastUpdatedTime.value))
      && (row[ExchangeRate] == Text("") <==> !Truthy(r.exchangeRate))
      && (row[BidRate] == Text("") <==> !Truthy(r.bidRate))
      && (row[OfferRate] == Text("") <==> !Truthy(r.offerRate))
      && (Truthy(r.exchangeRate) ==> row[ExchangeRate] == Fixed6(SafeFloat(r.exchangeRate.value, parseFloat)))
      && (Truthy(r.bidRate) ==> row[BidRate] == Fixed6(SafeFloat(r.bidRate.value, parseFloat)))
      && (Truthy(r.offerRate) ==> row[OfferRate] == Fixed6(SafeFloat(r.offerRate.value, parseFloat)))
  {
  }

  /** The `for r in ...` loop: one row per record of the first snapshot, in order. */
  method BuildRows(src: Source, parseFloat: string -> Option<real>) returns (rows: seq<Row>)
    ensures |rows| == |src.records|
    ensures forall i :: 0 <= i < |rows| ==> rows[i] == BuildRow(src, src.records[i], parseFloat)
  {
    rows := [];
    for i := 0 to |src.records|
      invariant |rows| == i
      invariant forall j :: 0 <= j < i ==> rows[j] == BuildRow(src, src.records[j], parseFloat)
    {
      var r := src.records[i];
      var listed := OrEmpty(r.listedCurrency);
      var lastUpdated := OrEmpty(r.lastUpdatedTime);
      rows := rows + [map[
        RetrievalDate := Text(src.retrievalDate),
        ListedCurrency := Text(listed),
        ExchangeRate := RateColumn(r.exchangeRate, parseFloat),
        BidRate := RateColumn(r.bidRate, parseFloat),
        OfferRate := RateColumn(r.offerRate, parseFloat),
        LastUpdatedTime := Text(lastUpdated),
        UnitCurrency := Text(src.unitCode)
      ]];
    }
  }

  /**
    A US dollar record whose rate arrives as "10523", with an empty bid rate and no
    offer rate, is written with the rate 10.523 and two empty rate columns.
  */
  lemma DollarExample(src: Source)
    ensures var row := BuildRow(src, RateRecord(Some("USD"), Some("10523"), Some(""), None, None), ParseDecimal);
      && row[ExchangeRate] == Fixed6(Float(10.523))
      && row[BidRate] == Text("")
      && row[OfferRate] == Text("")
      && row[ListedCurrency] == Text("USD")
      && row[LastUpdatedTime] == Text("")
  {
    DollarRate();
  }

  lemma DollarRate()
    ensures SafeFloat("10523", ParseDecimal) == Float(10.523)
  {
    assert IsDigits("10523") by {
      assert forall i :: 0 <= i < 5 ==> "10523"[i] in "0123456789";
    }
    ParseWhole("10523");
    assert DigitsValue("10523") == 10523 by {
      assert "10523"[..4] == "1052" && "1052"[..3] == "105" && "105"[..2] == "10";
      assert "10"[..1] == "1" && "1"[..0] == "";
    }
    assert Scale(10523.0) == 10.523;
  }

  // ---------------------------------------------------------------------------
  // Filling and writing

  /**
    `filled` is `row` after the fill loop: it has every field name, keeps every value
    `row` already had, and holds `""` under each field name `row` lacked.
  */
  ghost predicate Filled(row: Row, filled: Row) {
    && Complete(filled)
    && (forall f :: f in row ==> f in filled && filled[f] == row[f])
    && (forall f :: f in filled && f !in row ==> filled[f] == Text(""))
  }

  /** On a row that already has every field name the fill loop changes nothing. */
  lemma FillIsNoOp(row: Row, filled: Row)
    requires Complete(row)
    requires Filled(row, filled)
    ensures filled == row
  {
    forall f | f in filled
      ensures f in row
    {
      assert Fields[Position(f)] == f;
    }
    assert filled.Keys == row.Keys;
  }

  /** Every row the script builds has all field names, so filling leaves all of them as built. */
  lemma FillKeepsBuiltRows(rows: seq<Row>, filled: seq<Row>)
    requires |filled| == |rows|
    requires forall i :: 0 <= i < |rows| ==> Complete(rows[i]) && Filled(rows[i], filled[i])
    ensures filled == rows
  {
    forall i | 0 <= i < |rows|
      ensures filled[i] == rows[i]
    {
      FillIsNoOp(rows[i], filled[i]);
    }
  }

  /** `writer.writerow(row)`: the row's values in field-name order. */
  function Line(row: Row): (line: seq<Column>)
    requires Complete(row)
    ensures |line| == |Fields|
    ensures forall j :: 0 <= j < |Fields| ==> line[j] == row[Fields[j]]
  {
    seq(|Fields|, j requires 0 <= j < |Fields| => row[Fields[j]])
  }

  /**
    `writer.writeheader()`: the field names, in column order. The second ensures is the
    fact other members use: header cell `j` names the field of line column `j`.
  */
  function Header(): (h: seq<Column>)
    ensures |h| == |Fields|
    ensures forall j :: 0 <= j < |Fields| ==> h[j] == Text(FieldName(Fields[j]))
  {
    seq(|Fields|, j requires 0 <= j < |Fields| => Text(FieldName(Fields[j])))
  }

  /** The fill loop for one row: `row[key] = ""` for every field name the row lacks. */
  method FillRow(row: Row) returns (filled: Row)
    ensures Filled(row, filled)
  {
    filled := row;
    for n := 0 to |Fields|
      invariant forall j :: 0 <= j < n ==> Fields[j] in filled
      invariant forall f :: f in row ==> f in filled && filled[f] == row[f]
      invariant forall f :: f in filled && f !in row ==> filled[f] == Text("")
    {
      var key := Fields[n];
      if key !in filled {
        filled := filled[key := Text("")];
      }
    }
  }

  /**
    `writer.writeheader()` and then, for each row, the fill loop over the field names
    (mutating the row in place) followed by `writer.writerow(row)`.
  */
  method FillAndWrite(rows: seq<Row>) returns (filled: seq<Row>, lines: seq<seq<Column>>)
    ensures |filled| == |rows|
    ensures forall i :: 0 <= i < |rows| ==> Filled(rows[i], filled[i])
    ensures |lines| == |rows| + 1 && lines[0] == Header()
    ensures forall i :: 0 <= i < |rows| ==> Complete(filled[i]) && lines[i + 1] == Line(filled[i])
  {
    filled := rows;
    lines := [Header()];
    for i := 0 to |rows|
      invariant |filled| == |rows| && |lines| == i + 1 && lines[0] == Header()
      invariant forall j :: 0 <= j < i ==> Filled(rows[j], filled[j])
      invariant forall j :: 0 <= j < i ==> Complete(filled[j]) && lines[j + 1] == Line(filled[j])
    {
      var row := FillRow(rows[i]);
      filled := filled[i := row];
      lines := lines + [Line(row)];
    }
  }

  /** The line written for one record: its seven columns in order. */
  function DataLine(src: Source, r: RateRecord, parseFloat: string -> Option<real>): (line: seq<Column>)
    ensures |line| == 7
    ensures && line[0] == Text(src.retrievalDate)
            && line[1] == Text(OrEmpty(r.listedCurrency))
            && line[2] == RateColumn(r.exchangeRate, parseFloat)
            && line[3] == RateColumn(r.bidRate, parseFloat)
            && line[4] == RateColumn(r.offerRate, parseFloat)
            && line[5] == Text(OrEmpty(r.lastUpdatedTime))
            && line[6] == Text(src.unitCode)
  {
    Line(BuildRow(src, r, parseFloat))
  }

  const CsvPath: string := "fx_rates_sek.csv"

  /**
    The file the script writes: the seven-column header, then one line per record of the
    first snapshot, in order.
  */
  function FxFile(src: Source, parseFloat: string -> Option<real>): (f: seq<seq<Column>>)
    ensures |f| == |src.records| + 1
    ensures f[0] == Header()
    ensures forall k :: 0 <= k < |src.records| ==> f[k + 1] == DataLine(src, src.records[k], parseFloat)
  {
    [Header()] + seq(|src.records|, k requires 0 <= k < |src.records| => DataLine(src, src.records[k], parseFloat))
  }

  /**
    Every data line of the file carries the snapshot's retrieval date first and the unit
    currency last, and each of its three rate columns is empty exactly when that field of
    its record is missing or empty.
  */
  lemma FxFileColumns(src: Source, parseFloat: string -> Option<real>)
    ensures forall k :: 0 <= k < |src.records| ==>
      && |FxFile(src, parseFloat)[k + 1]| == 7
      && FxFile(src, parseFloat)[k + 1][0] == Text(src.retrievalDate)
      && FxFile(src, parseFloat)[k + 1][6] == Text(src.unitCode)
      && (FxFile(src, parseFloat)[k + 1][2] == Text("") <==> !Truthy(src.records[k].exchangeRate))
      && (FxFile(src, parseFloat)[k + 1][3] == Text("") <==> !Truthy(src.records[k].bidRate))
      && (FxFile(src, parseFloat)[k + 1][4] == Text("") <==> !Truthy(src.records[k].offerRate))
  {
    var f := FxFile(src, parseFloat);
    forall k | 0 <= k < |src.records|
      ensures |f[k + 1]| == 7 && f[k + 1][0] == Text(src.retrievalDate) && f[k + 1][6] == Text(src.unitCode)
      ensures f[k + 1][2] == Text("") <==> !Truthy(src.records[k].exchangeRate)
      ensures f[k + 1][3] == Text("") <==> !Truthy(src.records[k].bidRate)
      ensures f[k + 1][4] == Text("") <==> !Truthy(src.records[k].offerRate)
    {
      var line := DataLine(src, src.records[k], parseFloat);
      assert f[k + 1] == line;
    }
  }

  /**
    The whole script after the fetch. A failed lookup or an empty snapshot list stops the
    run before any file is touched; otherwise fx_rates_sek.csv is overwritten (not
    appended to) with the header and one line per record, and the count reported is the
    number of rows.
  */
  method RunFx(disk: Disk<seq<seq<Column>>>, env: Envelope, parseFloat: string -> Option<real>)
    returns (result: Result<nat, FxError>)
    modifies disk
    ensures Extract(env).Failure? ==>
      result == Failure(Extract(env).error) && disk.files == old(disk.files)
    ensures Extract(env).Success? ==>
      && result == Success(|Extract(env).value.records|)
      && disk.files == old(disk.files)[CsvPath := FxFile(Extract(env).value, parseFloat)]
  {
    var extracted := Extract(env);
    if extracted.Failure? {
      return Failure(extracted.error);
    }
    var src := extracted.value;
    var rows := BuildRows(src, parseFloat);
    var filled, lines := FillAndWrite(rows);
    FillKeepsBuiltRows(rows, filled);
    ghost var f := FxFile(src, parseFloat);
    forall i | 0 <= i < |lines|
      ensures lines[i] == f[i]
    {
      if i > 0 {
        assert lines[i] == Line(rows[i - 1]) == DataLine(src, src.records[i - 1], parseFloat);
      }
    }
    assert lines == f;
    disk.Overwrite(CsvPath, lines);
    result := Success(|rows|);
  }
}
