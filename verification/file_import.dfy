/**
 * FileImportService: the per-row validator buildAssetDTO, the spreadsheet and
 * CSV field extraction around it, the row loop that builds the import report,
 * and the dispatch on the file name's suffix.
 */
module FileImport {
  import opened Wrappers
  import opened Decimals
  import opened Text
  import opened DecimalText
  import opened Assets

  /** null or empty once trimmed */
  predicate NullOrBlank(o: Option<string>) {
    o.None? || IsBlank(o.value)
  }

  /** String concatenation's rendering of a possibly-null string. */
  function TextOf(o: Option<string>): string {
    o.GetOr("null")
  }

  /** new BigDecimal(text), where a null text fails like malformed text. */
  function ParseText(o: Option<string>): (r: Option<Decimal>)
    ensures r.Some? <==> o.Some? && ParseDecimal(o.value).Some?
    ensures r.Some? ==> r == ParseDecimal(o.value)
  {
    if o.None? then None else ParseDecimal(o.value)
  }

  /** The checks of buildAssetDTO that can fail, each carrying the text it rejected. */
  datatype RowError =
    | SymbolRequired
    | NameRequired
    | TypeRequired
    | InvalidType(text: string)
    | InvalidQuantity(text: string)
    | InvalidAvgBuyPrice(text: string)
    | InvalidCurrentPrice(text: string)

  /** The message each check throws. */
  function Message(e: RowError): string {
    match e
    case SymbolRequired => "Symbol is required"
    case NameRequired => "Name is required"
    case TypeRequired => "Asset type is required"
    case InvalidType(t) => "Invalid asset type: " + t + ". Valid types are: STOCK, BOND, ETF, CRYPTO, CASH"
    case InvalidQuantity(t) => "Invalid quantity: " + t
    case InvalidAvgBuyPrice(t) => "Invalid average buy price: " + t
    case InvalidCurrentPrice(t) => "Invalid current price: " + t
  }

  /** The asset request buildAssetDTO produces: the fields it always sets. */
  datatype Candidate = Candidate(
    symbol: string,
    name: string,
    assetType: AssetType,
    quantity: Decimal,
    avgBuyPrice: Decimal,
    currentPrice: Option<Decimal>)

  /** The AssetDTO handed to the service: no id and no computed values. */
  function ToRequest(c: Candidate): (d: AssetDto)
    ensures d.id.None? && d.currentValue.None? && d.investedValue.None?
    ensures d.symbol == Some(c.symbol) && d.name == Some(c.name) && d.assetType == Some(c.assetType)
    ensures d.quantity == Some(c.quantity) && d.avgBuyPrice == Some(c.avgBuyPrice) && d.currentPrice == c.currentPrice
  {
    AssetDto(None, Some(c.symbol), Some(c.name), Some(c.assetType), Some(c.quantity), Some(c.avgBuyPrice),
             c.currentPrice, None, None)
  }

  /** The six text fields of a row: symbol, name, type, quantity, average buy price, current price. */
  datatype Fields = Fields(
    symbol: Option<string>,
    name: Option<string>,
    assetType: Option<string>,
    quantity: Option<string>,
    avgBuyPrice: Option<string>,
    currentPrice: Option<string>)

  /** The type check: the upper-cased text names a constant. */
  predicate KnownType(f: Fields)
    requires f.assetType.Some?
  {
    ValueOf(ToUpper(f.assetType.value)).Some?
  }

  /** The current price is parsed only when it is present and not blank. */
  predicate CurrentPriceParses(f: Fields) {
    NullOrBlank(f.currentPrice) || ParseDecimal(f.currentPrice.value).Some?
  }

  /**
   * buildAssetDTO: the checks in order, symbol, name, type present, type
   * known, quantity, average buy price, current price; the first that fails
   * decides the error. Symbol and name are trimmed; the numbers are parsed as
   * given, without trimming.
   */
  function BuildCandidate(f: Fields): (r: Result<Candidate, RowError>)
    ensures r == Failure(SymbolRequired) <==> NullOrBlank(f.symbol)
    ensures r == Failure(NameRequired) <==> !NullOrBlank(f.symbol) && NullOrBlank(f.name)
    ensures r == Failure(TypeRequired) <==>
      !NullOrBlank(f.symbol) && !NullOrBlank(f.name) && NullOrBlank(f.assetType)
    ensures r.Failure? && r.error.InvalidType? <==>
      !NullOrBlank(f.symbol) && !NullOrBlank(f.name) && !NullOrBlank(f.assetType) && !KnownType(f)
    ensures r.Failure? && r.error.InvalidQuantity? <==>
      !NullOrBlank(f.symbol) && !NullOrBlank(f.name) && !NullOrBlank(f.assetType) && KnownType(f)
      && ParseText(f.quantity).None?
    ensures r.Failure? && r.error.InvalidAvgBuyPrice? <==>
      !NullOrBlank(f.symbol) && !NullOrBlank(f.name) && !NullOrBlank(f.assetType) && KnownType(f)
      && ParseText(f.quantity).Some? && ParseText(f.avgBuyPrice).None?
    ensures r.Failure? && r.error.InvalidCurrentPrice? <==>
      !NullOrBlank(f.symbol) && !NullOrBlank(f.name) && !NullOrBlank(f.assetType) && KnownType(f)
      && ParseText(f.quantity).Some? && ParseText(f.avgBuyPrice).Some? && !CurrentPriceParses(f)
    ensures r.Failure? && r.error.InvalidType? ==> r.error.text == f.assetType.value
    ensures r.Failure? && r.error.InvalidQuantity? ==> r.error.text == TextOf(f.quantity)
    ensures r.Failure? && r.error.InvalidAvgBuyPrice? ==> r.error.text == TextOf(f.avgBuyPrice)
    ensures r.Failure? && r.error.InvalidCurrentPrice? ==> r.error.text == f.currentPrice.value
    ensures r.Success? ==>
      && f.symbol.Some? && r.value.symbol == Trim(f.symbol.value) && r.value.symbol != ""
      && f.name.Some? && r.value.name == Trim(f.name.value) && r.value.name != ""
      && f.assetType.Some? && TypeName(r.value.assetType) == ToUpper(f.assetType.value)
      && f.quantity.Some? && ParseDecimal(f.quantity.value) == Some(r.value.quantity)
      && f.avgBuyPrice.Some? && ParseDecimal(f.avgBuyPrice.value) == Some(r.value.avgBuyPrice)
      && (r.value.currentPrice.None? <==> NullOrBlank(f.currentPrice))
      && (r.value.currentPrice.Some? ==> ParseDecimal(f.currentPrice.value) == r.value.currentPrice)
  {
    if NullOrBlank(f.symbol) then Failure(SymbolRequired)
    else if NullOrBlank(f.name) then Failure(NameRequired)
    else if NullOrBlank(f.assetType) then Failure(TypeRequired)
    else
      match ValueOf(ToUpper(f.assetType.value))
      case None => Failure(InvalidType(f.assetType.value))
      case Some(t) =>
        match ParseText(f.quantity)
        case None => Failure(InvalidQuantity(TextOf(f.quantity)))
        case Some(quantity) =>
          match ParseText(f.avgBuyPrice)
          case None => Failure(InvalidAvgBuyPrice(TextOf(f.avgBuyPrice)))
          case Some(avgBuyPrice) =>
            if NullOrBlank(f.currentPrice) then
              Success(Candidate(Trim(f.symbol.value), Trim(f.name.value), t, quantity, avgBuyPrice, None))
            else
              match ParseDecimal(f.currentPrice.value)
              case None => Failure(InvalidCurrentPrice(f.currentPrice.value))
              case Some(price) =>
                Success(Candidate(Trim(f.symbol.value), Trim(f.name.value), t, quantity, avgBuyPrice, Some(price)))
  }

  /** The prefix parseExcelRow and parseCSVRecord put on every exception they catch. */
  const DataFormatPrefix: string := "Invalid data format: "

  /** A spreadsheet cell as POI types it; a numeric cell carries the text getCellValue renders for it. */
  datatype Cell =
    | TextCell(text: string)
    | NumericCell(shown: string)
    | BooleanCell(value: bool)
    | BlankCell
    | OtherCell

  /** A sheet row: row.getCell(i) is the i-th entry, or null past the end. */
  type SheetRow = seq<Option<Cell>>

  /** getCellValue: text, numeric and boolean cells give text; null, blank and other cells give null. */
  function CellValue(c: Option<Cell>): (r: Option<string>)
    ensures r.None? <==> c.None? || c.value.BlankCell? || c.value.OtherCell?
    ensures c.Some? && c.value.TextCell? ==> r == Some(c.value.text)
  {
    match c
    case None => None
    case Some(TextCell(s)) => Some(s)
    case Some(NumericCell(shown)) => Some(shown)
    case Some(BooleanCell(b)) => Some(if b then "true" else "false")
    case Some(BlankCell) => None
    case Some(OtherCell) => None
  }

  function CellAt(row: SheetRow, i: nat): Option<Cell> {
    if i < |row| then row[i] else None
  }

  /**
   * parseExcelRow's six fields: the value of each of the first six cells,
   * untrimmed, and null for a cell past the end of the row.
   */
  function SheetFields(row: SheetRow): (f: Fields)
    ensures f.symbol == CellValue(CellAt(row, 0)) && f.name == CellValue(CellAt(row, 1))
    ensures f.assetType == CellValue(CellAt(row, 2)) && f.quantity == CellValue(CellAt(row, 3))
    ensures f.avgBuyPrice == CellValue(CellAt(row, 4)) && f.currentPrice == CellValue(CellAt(row, 5))
    ensures |row| == 0 ==> f.symbol.None?
    ensures |row| <= 5 ==> f.currentPrice.None?
    ensures |row| > 2 && row[2].Some? && row[2].value.TextCell? ==> f.assetType == Some(row[2].value.text)
  {
    Fields(CellValue(CellAt(row, 0)), CellValue(CellAt(row, 1)), CellValue(CellAt(row, 2)),
           CellValue(CellAt(row, 3)), CellValue(CellAt(row, 4)), CellValue(CellAt(row, 5)))
  }

  /** The outcome of one row's parse: the candidate, or the wrapped message. */
  function Wrapped(r: Result<Candidate, RowError>): (w: Result<Candidate, string>)
    ensures w.Success? <==> r.Success?
    ensures w.Success? ==> w.value == r.value
    ensures w.Failure? ==> w.error == DataFormatPrefix + Message(r.error)
  {
    match r
    case Success(c) => Success(c)
    case Failure(e) => Failure(DataFormatPrefix + Message(e))
  }

  /** parseExcelRow: validate the first six cells as they are, and wrap any failure. */
  function ParseSheetRow(row: SheetRow): (r: Result<Candidate, string>)
    ensures r.Failure? ==> exists e :: r.error == DataFormatPrefix + Message(e)
    ensures |row| == 0 ==> r == Failure(DataFormatPrefix + Message(SymbolRequired))
    ensures r.Success? ==>
      && CellValue(CellAt(row, 0)).Some? && r.value.symbol == Trim(CellValue(CellAt(row, 0)).value)
      && CellValue(CellAt(row, 1)).Some? && r.value.name == Trim(CellValue(CellAt(row, 1)).value)
      && CellValue(CellAt(row, 2)).Some? && TypeName(r.value.assetType) == ToUpper(CellValue(CellAt(row, 2)).value)
      && CellValue(CellAt(row, 3)).Some? && ParseDecimal(CellValue(CellAt(row, 3)).value) == Some(r.value.quantity)
      && CellValue(CellAt(row, 4)).Some? && ParseDecimal(CellValue(CellAt(row, 4)).value) == Some(r.value.avgBuyPrice)
      && (r.value.currentPrice.None? <==> NullOrBlank(CellValue(CellAt(row, 5))))
  {
    Wrapped(BuildCandidate(SheetFields(row)))
  }

  /** parseCSVRecord's six fields: each trimmed, and the sixth null when the record has only five. */
  function CsvFields(record: seq<string>): (f: Fields)
    requires |record| >= 5
    ensures f.symbol.Some? && f.name.Some? && f.assetType.Some? && f.quantity.Some? && f.avgBuyPrice.Some?
    ensures f.symbol == Some(Trim(record[0])) && f.name == Some(Trim(record[1]))
    ensures f.assetType == Some(Trim(record[2]))
    ensures f.quantity == Some(Trim(record[3])) && f.avgBuyPrice == Some(Trim(record[4]))
    ensures f.currentPrice.None? <==> |record| == 5
    ensures |record| > 5 ==> f.currentPrice == Some(Trim(record[5]))
  {
    Fields(Some(Trim(record[0])), Some(Trim(record[1])), Some(Trim(record[2])),
           Some(Trim(record[3])), Some(Trim(record[4])),
           if |record| > 5 then Some(Trim(record[5])) else None)
  }

  /**
   * parseCSVRecord: a record of fewer than five fields fails at the first
   * missing index, with the record's own out-of-bounds message (a library
   * text, here a parameter taking the index and the record's length);
   * otherwise the trimmed fields are validated. Failures are wrapped.
   */
  function ParseCsvRecord(record: seq<string>, outOfBounds: (nat, nat) -> string): (r: Result<Candidate, string>)
    ensures |record| < 5 ==> r == Failure(DataFormatPrefix + outOfBounds(|record|, |record|))
    ensures |record| >= 5 ==> r == Wrapped(BuildCandidate(CsvFields(record)))
    ensures |record| >= 5 && r.Failure? ==> exists e :: r.error == DataFormatPrefix + Message(e)
  {
    if |record| < 5 then Failure(DataFormatPrefix + outOfBounds(|record|, |record|))
    else Wrapped(BuildCandidate(CsvFields(record)))
  }

  /** The three presence failures keep distinct messages once wrapped. */
  lemma WrappedRequired(r: Result<Candidate, RowError>)
    ensures Wrapped(r) == Failure(DataFormatPrefix + Message(SymbolRequired)) <==> r == Failure(SymbolRequired)
    ensures Wrapped(r) == Failure(DataFormatPrefix + Message(NameRequired)) <==> r == Failure(NameRequired)
    ensures Wrapped(r) == Failure(DataFormatPrefix + Message(TypeRequired)) <==> r == Failure(TypeRequired)
  {
    if r.Failure? {
      var m := Message(r.error);
      assert (DataFormatPrefix + m)[|DataFormatPrefix|..] == m;
      assert |m| > 0 && (m[0] == 'I' <==> !r.error.SymbolRequired? && !r.error.NameRequired? && !r.error.TypeRequired?);
      assert r.error.SymbolRequired? <==> m[0] == 'S';
      assert r.error.NameRequired? <==> m[0] == 'N';
      assert r.error.TypeRequired? <==> m[0] == 'A';
    }
  }

  /** Blank is blank whether or not the text was trimmed first. */
  lemma BlankAfterTrim(s: string)
    ensures IsBlank(Trim(s)) <==> IsBlank(s)
  {
    TrimIdempotent(s);
  }

  /**
   * An accepted CSV record: symbol and name are its trimmed first two
   * fields, the type is the third field trimmed and upper-cased, the numbers
   * are the trimmed fourth to sixth fields, and the current price is absent
   * exactly when the record has five fields or a blank sixth.
   */
  lemma CsvRecordAccepted(record: seq<string>, outOfBounds: (nat, nat) -> string)
    requires ParseCsvRecord(record, outOfBounds).Success?
    ensures var c := ParseCsvRecord(record, outOfBounds).value;
      && |record| >= 5
      && c.symbol == Trim(record[0]) && c.name == Trim(record[1])
      && TypeName(c.assetType) == ToUpper(Trim(record[2]))
      && ParseDecimal(Trim(record[3])) == Some(c.quantity)
      && ParseDecimal(Trim(record[4])) == Some(c.avgBuyPrice)
      && (c.currentPrice.None? <==> |record| == 5 || IsBlank(record[5]))
      && (c.currentPrice.Some? ==> ParseDecimal(Trim(record[5])) == c.currentPrice)
  {
    if |record| > 5 {
      BlankAfterTrim(record[5]);
    }
  }

  /**
   * The presence checks of a CSV record of five or more fields look at the
   * trimmed fields, so a field of spaces counts as missing.
   */
  lemma CsvRecordRequired(record: seq<string>, outOfBounds: (nat, nat) -> string)
    requires |record| >= 5
    ensures var r := ParseCsvRecord(record, outOfBounds);
      && (r == Failure(DataFormatPrefix + Message(SymbolRequired)) <==> IsBlank(record[0]))
      && (r == Failure(DataFormatPrefix + Message(NameRequired)) <==> !IsBlank(record[0]) && IsBlank(record[1]))
      && (r == Failure(DataFormatPrefix + Message(TypeRequired)) <==>
            !IsBlank(record[0]) && !IsBlank(record[1]) && IsBlank(record[2]))
  {
    WrappedRequired(BuildCandidate(CsvFields(record)));
    BlankAfterTrim(record[0]);
    BlankAfterTrim(record[1]);
    BlankAfterTrim(record[2]);
  }

  /** The constant names are already upper case. */
  lemma UpperTypeName(t: AssetType)
    ensures ToUpper(TypeName(t)) == TypeName(t)
  {
    var n := TypeName(t);
    assert forall i :: 0 <= i < |n| ==> 'A' <= n[i] <= 'Z';
  }

  /** A trimmed, non-empty text is not blank and trims to itself. */
  lemma TrimmedNotBlank(s: string)
    requires IsTrimmedForm(s) && s != ""
    ensures Trim(s) == s && !IsBlank(s)
  {
    TrimOfPadded("", s, "");
    assert "" + s + "" == s;
  }

  /** No constant name is blank. */
  lemma TypeNameNotBlank(t: AssetType)
    ensures !IsBlank(TypeName(t))
  {
    var n := TypeName(t);
    assert !IsTrimmed(n[0]);
    assert !IsTrimmed(n[|n| - 1]);
    TrimmedNotBlank(n);
  }

  /** A plain decimal string starts with a sign or a digit, and ends with a digit. */
  lemma PlainStringTrimmed(d: Decimal)
    requires d.scale >= 0
    ensures IsTrimmedForm(PlainString(d)) && PlainString(d) != ""
  {
    var s := PlainString(d);
    var m := Abs(d.unscaled);
    var sign := if d.unscaled < 0 then "-" else "";
    if d.scale == 0 {
      var w := NatToString(m);
      assert s == sign + w;
      assert s[|s| - 1] == w[|w| - 1];
      assert s[0] == '-' || s[0] == w[0];
    } else {
      var (whole, fraction) := DivMod(m, Pow10(d.scale));
      var w := NatToString(whole);
      var f := PadDigits(fraction, d.scale);
      assert s == sign + (w + ("." + f));
      assert s[|s| - 1] == f[|f| - 1];
      assert s[0] == '-' || s[0] == w[0];
    }
  }

  /** A candidate a file can express: trimmed non-empty texts, numbers of a scale toString writes plainly. */
  predicate Expressible(c: Candidate) {
    && IsTrimmedForm(c.symbol) && c.symbol != ""
    && IsTrimmedForm(c.name) && c.name != ""
    && 0 <= c.quantity.scale <= IntMax
    && 0 <= c.avgBuyPrice.scale <= IntMax
    && (c.currentPrice.Some? ==> 0 <= c.currentPrice.value.scale <= IntMax)
  }

  /** The six texts of a candidate, written out plainly. */
  function Rendered(c: Candidate): (f: Fields)
    requires Expressible(c)
    ensures f.symbol == Some(c.symbol) && f.name == Some(c.name) && f.assetType == Some(TypeName(c.assetType))
  {
    Fields(Some(c.symbol), Some(c.name), Some(TypeName(c.assetType)),
           Some(PlainString(c.quantity)), Some(PlainString(c.avgBuyPrice)),
           match c.currentPrice case None => None case Some(p) => Some(PlainString(p)))
  }

  /** buildAssetDTO accepts the plain rendering of a candidate and gives the candidate back. */
  lemma BuildRenderedRoundTrip(c: Candidate)
    requires Expressible(c)
    ensures BuildCandidate(Rendered(c)) == Success(c)
  {
    var f := Rendered(c);
    assert !NullOrBlank(f.symbol) && Trim(c.symbol) == c.symbol by { TrimmedNotBlank(c.symbol); }
    assert !NullOrBlank(f.name) && Trim(c.name) == c.name by { TrimmedNotBlank(c.name); }
    assert !NullOrBlank(f.assetType) by { TypeNameNotBlank(c.assetType); }
    assert ValueOf(ToUpper(f.assetType.value)) == Some(c.assetType) by { UpperTypeName(c.assetType); }
    assert ParseText(f.quantity) == Some(c.quantity) by { PlainStringRoundTrip(c.quantity); }
    assert ParseText(f.avgBuyPrice) == Some(c.avgBuyPrice) by { PlainStringRoundTrip(c.avgBuyPrice); }
    if c.currentPrice.Some? {
      var p := c.currentPrice.value;
      assert f.currentPrice == Some(PlainString(p));
      assert !NullOrBlank(f.currentPrice) && ParseDecimal(PlainString(p)) == Some(p) by {
        PlainStringRoundTrip(p);
        PlainStringTrimmed(p);
        TrimmedNotBlank(PlainString(p));
      }
    }
  }

  /** A text with the same padding on both sides. */
  function Padded(pad: string, x: string): string {
    pad + x + pad
  }

  lemma TrimPadded(pad: string, x: string)
    requires AllTrimmed(pad) && IsTrimmedForm(x)
    ensures Trim(Padded(pad, x)) == x
  {
    TrimOfPadded(pad, x, pad);
  }

  /** The rendering of a candidate as CSV fields, each with the same padding on both sides. */
  function PaddedRecord(c: Candidate, pad: string): (r: seq<string>)
    requires Expressible(c)
    ensures |r| == if c.currentPrice.Some? then 6 else 5
  {
    var f := Rendered(c);
    var first := [Padded(pad, c.symbol), Padded(pad, c.name), Padded(pad, TypeName(c.assetType)),
                  Padded(pad, f.quantity.value), Padded(pad, f.avgBuyPrice.value)];
    match f.currentPrice
    case None => first
    case Some(p) => first + [Padded(pad, p)]
  }

  /** Trimming the padded fields gives back the rendered texts. */
  lemma PaddedFields(c: Candidate, pad: string)
    requires Expressible(c) && AllTrimmed(pad)
    ensures |PaddedRecord(c, pad)| >= 5 && CsvFields(PaddedRecord(c, pad)) == Rendered(c)
  {
    var f := Rendered(c);
    var r := PaddedRecord(c, pad);
    var q, a := f.quantity.value, f.avgBuyPrice.value;
    assert r[0] == Padded(pad, c.symbol) && r[1] == Padded(pad, c.name);
    assert r[2] == Padded(pad, TypeName(c.assetType));
    assert r[3] == Padded(pad, q) && r[4] == Padded(pad, a);
    assert Trim(r[0]) == c.symbol by { TrimPadded(pad, c.symbol); }
    assert Trim(r[1]) == c.name by { TrimPadded(pad, c.name); }
    assert Trim(r[2]) == TypeName(c.assetType) by {
      TypeNameTrimmed(c.assetType);
      TrimPadded(pad, TypeName(c.assetType));
    }
    assert Trim(r[3]) == q by {
      PlainStringTrimmed(c.quantity);
      TrimPadded(pad, q);
    }
    assert Trim(r[4]) == a by {
      PlainStringTrimmed(c.avgBuyPrice);
      TrimPadded(pad, a);
    }
    if c.currentPrice.Some? {
      var p := f.currentPrice.value;
      assert r[5] == Padded(pad, p);
      assert Trim(r[5]) == p by {
        PlainStringTrimmed(c.currentPrice.value);
        TrimPadded(pad, p);
      }
    }
  }

  /** The CSV path trims away any padding and accepts the rendering of a candidate. */
  lemma CsvRoundTrip(c: Candidate, pad: string, outOfBounds: (nat, nat) -> string)
    requires Expressible(c) && AllTrimmed(pad)
    ensures ParseCsvRecord(PaddedRecord(c, pad), outOfBounds) == Success(c)
  {
    PaddedFields(c, pad);
    BuildRenderedRoundTrip(c);
  }

  /** A sheet row of text cells holding the given texts. */
  function TextRow(texts: seq<string>): (row: SheetRow)
    ensures |row| == |texts|
    ensures forall i :: 0 <= i < |texts| ==> row[i] == Some(TextCell(texts[i]))
  {
    if texts == [] then [] else TextRow(texts[..|texts| - 1]) + [Some(TextCell(texts[|texts| - 1]))]
  }

  /**
   * The two paths differ only in trimming: a row of text cells whose texts
   * have nothing to trim is parsed exactly as the CSV record of the same
   * texts.
   */
  lemma SheetMatchesCsv(texts: seq<string>, outOfBounds: (nat, nat) -> string)
    requires |texts| >= 5 && forall i :: 0 <= i < |texts| ==> IsTrimmedForm(texts[i])
    ensures ParseSheetRow(TextRow(texts)) == ParseCsvRecord(texts, outOfBounds)
  {
    var row := TextRow(texts);
    forall i | 0 <= i < |texts|
      ensures Trim(texts[i]) == texts[i]
    {
      TrimOfPadded("", texts[i], "");
      assert "" + texts[i] + "" == texts[i];
    }
    assert SheetFields(row) == CsvFields(texts);
  }

  /**
   * A spreadsheet row of text cells holding a candidate's plain texts, with
   * the sixth cell missing when there is no current price, gives the
   * candidate back.
   */
  lemma SheetRoundTrip(c: Candidate)
    requires Expressible(c)
    ensures ParseSheetRow(TextRow(PaddedRecord(c, ""))) == Success(c)
  {
    var texts := PaddedRecord(c, "");
    PaddedTextsTrimmed(c);
    SheetMatchesCsv(texts, (i: nat, n: nat) => "");
    CsvRoundTrip(c, "", (i: nat, n: nat) => "");
  }

  /**
   * Without a current price, a sixth cell that is blank, empty text or
   * spaces is read as no current price, and the candidate still comes back.
   */
  lemma SheetRoundTripBlankPrice(c: Candidate, last: Option<Cell>)
    requires Expressible(c) && c.currentPrice.None? && NullOrBlank(CellValue(last))
    ensures ParseSheetRow(TextRow(PaddedRecord(c, "")) + [last]) == Success(c)
  {
    var texts := PaddedRecord(c, "");
    var row := TextRow(texts) + [last];
    assert SheetFields(row) == SheetFields(TextRow(texts)).(currentPrice := CellValue(last));
    SheetRoundTrip(c);
    BlankPriceIgnored(SheetFields(TextRow(texts)), CellValue(last));
  }

  /** buildAssetDTO treats a missing and a blank current price alike. */
  lemma BlankPriceIgnored(f: Fields, price: Option<string>)
    requires NullOrBlank(f.currentPrice) && NullOrBlank(price)
    ensures BuildCandidate(f.(currentPrice := price)) == BuildCandidate(f)
  {
  }

  /** With no padding, the rendered texts have nothing to trim. */
  lemma PaddedTextsTrimmed(c: Candidate)
    requires Expressible(c)
    ensures var texts := PaddedRecord(c, "");
      forall i :: 0 <= i < |texts| ==> IsTrimmedForm(texts[i])
  {
    var texts := PaddedRecord(c, "");
    var f := Rendered(c);
    assert texts[0] == c.symbol by { Unpadded(c.symbol); }
    assert texts[1] == c.name by { Unpadded(c.name); }
    assert IsTrimmedForm(texts[2]) by {
      Unpadded(TypeName(c.assetType));
      TypeNameTrimmed(c.assetType);
    }
    assert IsTrimmedForm(texts[3]) by {
      Unpadded(f.quantity.value);
      PlainStringTrimmed(c.quantity);
    }
    assert IsTrimmedForm(texts[4]) by {
      Unpadded(f.avgBuyPrice.value);
      PlainStringTrimmed(c.avgBuyPrice);
    }
    if c.currentPrice.Some? {
      assert IsTrimmedForm(texts[5]) by {
        Unpadded(f.currentPrice.value);
        PlainStringTrimmed(c.currentPrice.value);
      }
    }
  }

  lemma Unpadded(x: string)
    ensures Padded("", x) == x
  {
    assert "" + x + "" == x;
  }

  /** A constant name is its own trimmed form. */
  lemma TypeNameTrimmed(t: AssetType)
    ensures IsTrimmedForm(TypeName(t)) && TypeName(t) != ""
  {
    var n := TypeName(t);
    assert !IsTrimmed(n[0]) && !IsTrimmed(n[|n| - 1]);
  }

  /**
   * The spreadsheet path does not trim the type: a padded type name that the
   * CSV path accepts fails the spreadsheet path's type check.
   */
  lemma SheetKeepsTypePadding(c: Candidate, pad: string)
    requires Expressible(c) && AllTrimmed(pad) && pad != ""
    ensures var f := Rendered(c);
      var padded := Padded(pad, TypeName(c.assetType));
      var row := [Some(TextCell(c.symbol)), Some(TextCell(c.name)), Some(TextCell(padded)),
                  Some(TextCell(f.quantity.value)), Some(TextCell(f.avgBuyPrice.value))];
      ParseSheetRow(row) == Failure(DataFormatPrefix + Message(InvalidType(padded)))
  {
    var f := Rendered(c);
    var padded := Padded(pad, TypeName(c.assetType));
    var row := [Some(TextCell(c.symbol)), Some(TextCell(c.name)), Some(TextCell(padded)),
                Some(TextCell(f.quantity.value)), Some(TextCell(f.avgBuyPrice.value))];
    var g := SheetFields(row);
    assert g.symbol == Some(c.symbol) && g.name == Some(c.name) && g.assetType == Some(padded);
    TrimmedNotBlank(c.symbol);
    TrimmedNotBlank(c.name);
    PaddedTypeUnknown(c.assetType, pad);
    assert BuildCandidate(g) == Failure(InvalidType(padded));
  }

  /** A padded constant name is not blank, and upper-casing it names no constant. */
  lemma PaddedTypeUnknown(t: AssetType, pad: string)
    requires AllTrimmed(pad) && pad != ""
    ensures !IsBlank(Padded(pad, TypeName(t))) && ValueOf(ToUpper(Padded(pad, TypeName(t)))).None?
  {
    var padded := Padded(pad, TypeName(t));
    TypeNameTrimmed(t);
    TrimPadded(pad, TypeName(t));
    var u := ToUpper(padded);
    assert u[0] == UpperChar(pad[0]) && IsTrimmed(u[0]);
    forall k: AssetType
      ensures TypeName(k) != u
    {
      TypeNameTrimmed(k);
    }
  }

  /** What became of one data row: the sink's response, or the message of the exception caught. */
  datatype Outcome = Imported(asset: AssetDto) | Rejected(message: string)

  /** ImportResultDTO */
  datatype ImportReport = ImportReport(
    totalRows: int,
    successCount: int,
    failureCount: int,
    errors: seq<string>,
    importedAssets: seq<AssetDto>)

  const EmptyReport: ImportReport := ImportReport(0, 0, 0, [], [])

  /** The number the loops give the data row at index i: the header is row 1. */
  function RowNumber(i: nat): nat {
    i + 2
  }

  /** String.format("Row %d: %s", n, message) */
  function RowMessage(n: nat, message: string): string {
    "Row " + NatToString(n) + ": " + message
  }

  /**
   * One pass of the loop body: a row that failed to parse never reaches the
   * sink; otherwise the sink (createAsset) answers and may change its state.
   */
  function Step<S>(s: S, parsed: Result<Candidate, string>, sink: (S, Candidate) -> (S, Result<AssetDto, string>))
    : (r: (S, Outcome))
    ensures parsed.Failure? ==> r == (s, Rejected(parsed.error))
    ensures parsed.Success? ==> r.0 == sink(s, parsed.value).0
    ensures parsed.Success? ==> (r.1.Imported? <==> sink(s, parsed.value).1.Success?)
    ensures r.1.Imported? ==> sink(s, parsed.value).1 == Success(r.1.asset)
    ensures parsed.Success? && r.1.Rejected? ==> sink(s, parsed.value).1 == Failure(r.1.message)
  {
    match parsed
    case Failure(m) => (s, Rejected(m))
    case Success(c) =>
      var (s', response) := sink(s, c);
      (s', match response case Success(d) => Imported(d) case Failure(m) => Rejected(m))
  }

  /** The report after one more row: the try block's two updates, or the catch block's two. */
  function Record(report: ImportReport, rowNumber: nat, o: Outcome): (r: ImportReport)
    ensures r.totalRows == report.totalRows + 1
    ensures o.Imported? ==> r == report.(totalRows := report.totalRows + 1,
      successCount := report.successCount + 1, importedAssets := report.importedAssets + [o.asset])
    ensures o.Rejected? ==> r == report.(totalRows := report.totalRows + 1,
      failureCount := report.failureCount + 1, errors := report.errors + [RowMessage(rowNumber, o.message)])
  {
    match o
    case Imported(d) =>
      report.(totalRows := report.totalRows + 1, successCount := report.successCount + 1,
              importedAssets := report.importedAssets + [d])
    case Rejected(m) =>
      report.(totalRows := report.totalRows + 1, failureCount := report.failureCount + 1,
              errors := report.errors + [RowMessage(rowNumber, m)])
  }

  /**
   * The row loop of importExcel and importCSV over the parsed data rows, in
   * order, threading the sink's state. Every row is counted once, and once
   * more as either a success or a failure.
   */
  function ImportRows<S>(s: S, parsed: seq<Result<Candidate, string>>,
                         sink: (S, Candidate) -> (S, Result<AssetDto, string>)): (r: (S, ImportReport))
    ensures r.1.totalRows == |parsed|
    ensures r.1.successCount + r.1.failureCount == r.1.totalRows
    ensures r.1.successCount >= 0 && r.1.failureCount >= 0
    ensures |r.1.errors| == r.1.failureCount && |r.1.importedAssets| == r.1.successCount
  {
    if |parsed| == 0 then (s, EmptyReport)
    else
      var n := |parsed| - 1;
      var (s1, report) := ImportRows(s, parsed[..n], sink);
      var (s2, o) := Step(s1, parsed[n], sink);
      (s2, Record(report, RowNumber(n), o))
  }

  /** The reference for the loop: each row's outcome in order, and the final state. */
  function Outcomes<S>(s: S, parsed: seq<Result<Candidate, string>>,
                       sink: (S, Candidate) -> (S, Result<AssetDto, string>)): (r: (S, seq<Outcome>))
    ensures |r.1| == |parsed|
  {
    if |parsed| == 0 then (s, [])
    else
      var n := |parsed| - 1;
      var (s1, outs) := Outcomes(s, parsed[..n], sink);
      var (s2, o) := Step(s1, parsed[n], sink);
      (s2, outs + [o])
  }

  /** The state the sink is in when row k is reached. */
  function StateBefore<S>(s: S, parsed: seq<Result<Candidate, string>>,
                          sink: (S, Candidate) -> (S, Result<AssetDto, string>), k: nat): S
    requires k <= |parsed|
  {
    Outcomes(s, parsed[..k], sink).0
  }

  /** Each row's outcome is one step from the state the rows before it left. */
  lemma {:induction false} OutcomeOfRow<S>(s: S, parsed: seq<Result<Candidate, string>>,
                                           sink: (S, Candidate) -> (S, Result<AssetDto, string>), k: nat)
    requires k < |parsed|
    ensures Outcomes(s, parsed, sink).1[k] == Step(StateBefore(s, parsed, sink, k), parsed[k], sink).1
    ensures Outcomes(s, parsed[..k + 1], sink).0 == Step(StateBefore(s, parsed, sink, k), parsed[k], sink).0
  {
    var n := |parsed| - 1;
    assert parsed[..k + 1][..k] == parsed[..k];
    if k < n {
      OutcomeOfRow(s, parsed[..n], sink, k);
      assert parsed[..n][..k] == parsed[..k];
      assert parsed[..n][..k + 1] == parsed[..k + 1];
    } else {
      assert parsed[..k + 1] == parsed;
    }
  }

  /** The indices of the rejected rows, in increasing order. */
  function FailedIndices(outs: seq<Outcome>): (r: seq<nat>)
    ensures forall j :: 0 <= j < |r| ==> r[j] < |outs| && outs[r[j]].Rejected?
    ensures forall j, k :: 0 <= j < k < |r| ==> r[j] < r[k]
    ensures forall i :: 0 <= i < |outs| && outs[i].Rejected? ==> i in r
  {
    if |outs| == 0 then []
    else
      var n := |outs| - 1;
      var init := FailedIndices(outs[..n]);
      if outs[n].Rejected? then init + [n] else init
  }

  /** The indices of the imported rows, in increasing order. */
  function ImportedIndices(outs: seq<Outcome>): (r: seq<nat>)
    ensures forall j :: 0 <= j < |r| ==> r[j] < |outs| && outs[r[j]].Imported?
    ensures forall j, k :: 0 <= j < k < |r| ==> r[j] < r[k]
    ensures forall i :: 0 <= i < |outs| && outs[i].Imported? ==> i in r
  {
    if |outs| == 0 then []
    else
      var n := |outs| - 1;
      var init := ImportedIndices(outs[..n]);
      if outs[n].Imported? then init + [n] else init
  }

  /** The error lines the rejected outcomes produce, in row order. */
  function ErrorsOf(outs: seq<Outcome>): seq<string> {
    if |outs| == 0 then []
    else
      var n := |outs| - 1;
      ErrorsOf(outs[..n]) + if outs[n].Rejected? then [RowMessage(RowNumber(n), outs[n].message)] else []
  }

  /** The responses of the imported outcomes, in row order. */
  function AssetsOf(outs: seq<Outcome>): seq<AssetDto> {
    if |outs| == 0 then []
    else
      var n := |outs| - 1;
      AssetsOf(outs[..n]) + if outs[n].Imported? then [outs[n].asset] else []
  }

  /** The loop's report lists the errors and the imported assets of the rows' outcomes. */
  lemma {:induction false} ReportOfOutcomes<S>(s: S, parsed: seq<Result<Candidate, string>>,
                                               sink: (S, Candidate) -> (S, Result<AssetDto, string>))
    ensures ImportRows(s, parsed, sink).0 == Outcomes(s, parsed, sink).0
    ensures ImportRows(s, parsed, sink).1.errors == ErrorsOf(Outcomes(s, parsed, sink).1)
    ensures ImportRows(s, parsed, sink).1.importedAssets == AssetsOf(Outcomes(s, parsed, sink).1)
  {
    if |parsed| > 0 {
      var n := |parsed| - 1;
      ReportOfOutcomes(s, parsed[..n], sink);
      var outs := Outcomes(s, parsed, sink).1;
      assert outs[..n] == Outcomes(s, parsed[..n], sink).1;
    }
  }

  /** The j-th error is the j-th rejected row's message under that row's number. */
  lemma {:induction false} ErrorsByIndex(outs: seq<Outcome>)
    ensures var failed := FailedIndices(outs);
      && |ErrorsOf(outs)| == |failed|
      && forall j :: 0 <= j < |failed| ==> ErrorsOf(outs)[j] == RowMessage(RowNumber(failed[j]), outs[failed[j]].message)
  {
    if |outs| > 0 {
      var n := |outs| - 1;
      var init := outs[..n];
      ErrorsByIndex(init);
      var before := FailedIndices(init);
      forall j | 0 <= j < |before|
        ensures outs[before[j]] == init[before[j]]
      {
      }
    }
  }

  /** The j-th imported asset is the j-th accepted row's response. */
  lemma {:induction false} AssetsByIndex(outs: seq<Outcome>)
    ensures var accepted := ImportedIndices(outs);
      && |AssetsOf(outs)| == |accepted|
      && forall j :: 0 <= j < |accepted| ==> AssetsOf(outs)[j] == outs[accepted[j]].asset
  {
    if |outs| > 0 {
      var n := |outs| - 1;
      var init := outs[..n];
      AssetsByIndex(init);
      var before := ImportedIndices(init);
      forall j | 0 <= j < |before|
        ensures outs[before[j]] == init[before[j]]
      {
      }
    }
  }

  /**
   * The loop's report in row order: the j-th error carries the number of the
   * j-th rejected row, and the j-th imported asset is the j-th accepted row's response.
   */
  lemma ReportInRowOrder<S>(s: S, parsed: seq<Result<Candidate, string>>,
                            sink: (S, Candidate) -> (S, Result<AssetDto, string>))
    ensures var outs := Outcomes(s, parsed, sink).1;
      var failed := FailedIndices(outs);
      var accepted := ImportedIndices(outs);
      var report := ImportRows(s, parsed, sink).1;
      && |report.errors| == |failed|
      && (forall j :: 0 <= j < |failed| ==> report.errors[j] == RowMessage(RowNumber(failed[j]), outs[failed[j]].message))
      && |report.importedAssets| == |accepted|
      && (forall j :: 0 <= j < |accepted| ==> report.importedAssets[j] == outs[accepted[j]].asset)
  {
    var outs := Outcomes(s, parsed, sink).1;
    ReportOfOutcomes(s, parsed, sink);
    ErrorsByIndex(outs);
    AssetsByIndex(outs);
  }

  /** The sequence without its k-th element. */
  function Without<T>(xs: seq<T>, k: nat): (r: seq<T>)
    requires k < |xs|
    ensures |r| == |xs| - 1
  {
    xs[..k] + xs[k + 1..]
  }

  /**
   * A row that leaves the sink's state as it found it can be taken out of
   * the file without changing any other row's outcome or the final state.
   */
  lemma {:induction false} DropRow<S>(s: S, parsed: seq<Result<Candidate, string>>,
                                      sink: (S, Candidate) -> (S, Result<AssetDto, string>), k: nat)
    requires k < |parsed|
    requires Step(StateBefore(s, parsed, sink, k), parsed[k], sink).0 == StateBefore(s, parsed, sink, k)
    ensures Outcomes(s, Without(parsed, k), sink).0 == Outcomes(s, parsed, sink).0
    ensures Outcomes(s, Without(parsed, k), sink).1 == Without(Outcomes(s, parsed, sink).1, k)
  {
    var n := |parsed| - 1;
    var init := parsed[..n];
    var outs := Outcomes(s, parsed, sink).1;
    if k == n {
      assert Without(parsed, k) == init;
      assert Without(outs, k) == outs[..n];
      DropLastRow(s, parsed, sink);
    } else {
      assert outs[..n] == Outcomes(s, init, sink).1;
      assert init[..k] == parsed[..k];
      DropRow(s, init, sink, k);
      WithoutLast(parsed, k);
      WithoutLast(outs, k);
    }
  }

  /** The last row, when it leaves the state as it found it, can be dropped. */
  lemma DropLastRow<S>(s: S, parsed: seq<Result<Candidate, string>>,
                       sink: (S, Candidate) -> (S, Result<AssetDto, string>))
    requires |parsed| > 0
    requires var n := |parsed| - 1;
      Step(StateBefore(s, parsed, sink, n), parsed[n], sink).0 == StateBefore(s, parsed, sink, n)
    ensures Outcomes(s, parsed[..|parsed| - 1], sink).0 == Outcomes(s, parsed, sink).0
    ensures Outcomes(s, parsed[..|parsed| - 1], sink).1 == Outcomes(s, parsed, sink).1[..|parsed| - 1]
  {
  }

  /** Taking out an element before the last keeps the last one last. */
  lemma WithoutLast<T>(xs: seq<T>, k: nat)
    requires k < |xs| - 1
    ensures var w := Without(xs, k);
      w[..|w| - 1] == Without(xs[..|xs| - 1], k) && w[|w| - 1] == xs[|xs| - 1]
      && w == Without(xs[..|xs| - 1], k) + [xs[|xs| - 1]]
  {
    var w := Without(xs, k);
    assert w[..|w| - 1] == Without(xs[..|xs| - 1], k);
  }

  /** A row that fails to parse never reaches the sink, so it can be taken out without effect on the others. */
  lemma ParseFailureIsolated<S>(s: S, parsed: seq<Result<Candidate, string>>,
                                sink: (S, Candidate) -> (S, Result<AssetDto, string>), k: nat)
    requires k < |parsed| && parsed[k].Failure?
    ensures Outcomes(s, parsed, sink).1[k] == Rejected(parsed[k].error)
    ensures Outcomes(s, Without(parsed, k), sink).0 == Outcomes(s, parsed, sink).0
    ensures Outcomes(s, Without(parsed, k), sink).1 == Without(Outcomes(s, parsed, sink).1, k)
  {
    OutcomeOfRow(s, parsed, sink, k);
    DropRow(s, parsed, sink, k);
  }

  /** Why an upload produced no report: a bad request, or a failure of the file's reader. */
  datatype ImportError = InvalidUpload(message: string) | ReadFailure(message: string)

  const FileNameRequired: string := "File name is required"
  const UnsupportedFormat: string := "Unsupported file format. Please upload .xlsx or .csv file"

  /** The first sheet of a workbook as its row iterator yields it, header included, or the reader's failure. */
  datatype Workbook = Sheet(rows: seq<SheetRow>) | UnreadableWorkbook(message: string)

  /**
   * The records a CSV reader with the first record as header yields after
   * that header, and the failure that ended the iteration early, if any.
   */
  datatype CsvRecords = CsvRecords(records: seq<seq<string>>, failure: Option<string>)

  /** The rows after the header, which is skipped whatever it holds. */
  function DataRows(rows: seq<SheetRow>): (r: seq<SheetRow>)
    ensures |r| == if |rows| == 0 then 0 else |rows| - 1
    ensures forall i :: 0 <= i < |r| ==> r[i] == rows[i + 1]
  {
    if |rows| == 0 then [] else rows[1..]
  }

  function ParsedSheetRows(rows: seq<SheetRow>): (r: seq<Result<Candidate, string>>)
    ensures |r| == |rows| && forall i :: 0 <= i < |rows| ==> r[i] == ParseSheetRow(rows[i])
  {
    seq(|rows|, i requires 0 <= i < |rows| => ParseSheetRow(rows[i]))
  }

  function ParsedRecords(records: seq<seq<string>>, outOfBounds: (nat, nat) -> string)
    : (r: seq<Result<Candidate, string>>)
    ensures |r| == |records| && forall i :: 0 <= i < |records| ==> r[i] == ParseCsvRecord(records[i], outOfBounds)
  {
    seq(|records|, i requires 0 <= i < |records| => ParseCsvRecord(records[i], outOfBounds))
  }

  /** importExcel: skip the header row, then run the row loop over the remaining rows. */
  function ImportSheet<S>(s: S, workbook: Workbook, sink: (S, Candidate) -> (S, Result<AssetDto, string>))
    : (r: (S, Result<ImportReport, ImportError>))
    ensures workbook.UnreadableWorkbook? ==> r == (s, Failure(ReadFailure(workbook.message)))
    ensures workbook.Sheet? ==> r.1.Success? && r.1.value.totalRows == |DataRows(workbook.rows)|
  {
    match workbook
    case UnreadableWorkbook(m) => (s, Failure(ReadFailure(m)))
    case Sheet(rows) =>
      var (s', report) := ImportRows(s, ParsedSheetRows(DataRows(rows)), sink);
      (s', Success(report))
  }

  /**
   * importCSV: the row loop over the records after the header. A failure of
   * the reader ends the import with that failure, but the rows before it have
   * already reached the sink.
   */
  function ImportCsv<S>(s: S, csv: CsvRecords, outOfBounds: (nat, nat) -> string,
                        sink: (S, Candidate) -> (S, Result<AssetDto, string>))
    : (r: (S, Result<ImportReport, ImportError>))
    ensures r.0 == ImportRows(s, ParsedRecords(csv.records, outOfBounds), sink).0
    ensures csv.failure.Some? ==> r.1 == Failure(ReadFailure(csv.failure.value))
    ensures csv.failure.None? ==> r.1.Success? && r.1.value.totalRows == |csv.records|
  {
    var (s', report) := ImportRows(s, ParsedRecords(csv.records, outOfBounds), sink);
    match csv.failure
    case Some(m) => (s', Failure(ReadFailure(m)))
    case None => (s', Success(report))
  }

  /**
   * importFile: a null name is refused; otherwise the lower-cased name's
   * suffix picks the spreadsheet or the CSV reader, and any other suffix is
   * refused. A refused upload leaves the sink untouched.
   */
  function ImportFile<S>(s: S, fileName: Option<string>, workbook: Workbook, csv: CsvRecords,
                         outOfBounds: (nat, nat) -> string, sink: (S, Candidate) -> (S, Result<AssetDto, string>))
    : (r: (S, Result<ImportReport, ImportError>))
    ensures fileName.None? ==> r == (s, Failure(InvalidUpload(FileNameRequired)))
    ensures fileName.Some? && EndsWith(ToLower(fileName.value), ".xlsx") ==> r == ImportSheet(s, workbook, sink)
    ensures fileName.Some? && !EndsWith(ToLower(fileName.value), ".xlsx") && EndsWith(ToLower(fileName.value), ".csv")
      ==> r == ImportCsv(s, csv, outOfBounds, sink)
    ensures fileName.Some? && !EndsWith(ToLower(fileName.value), ".xlsx") && !EndsWith(ToLower(fileName.value), ".csv")
      ==> r == (s, Failure(InvalidUpload(UnsupportedFormat)))
  {
    match fileName
    case None => (s, Failure(InvalidUpload(FileNameRequired)))
    case Some(name) =>
      if EndsWith(ToLower(name), ".xlsx") then ImportSheet(s, workbook, sink)
      else if EndsWith(ToLower(name), ".csv") then ImportCsv(s, csv, outOfBounds, sink)
      else (s, Failure(InvalidUpload(UnsupportedFormat)))
  }

  /** Upper-casing a file name does not change where it is routed. */
  lemma DispatchIgnoresCase<S>(s: S, name: string, workbook: Workbook, csv: CsvRecords,
                               outOfBounds: (nat, nat) -> string, sink: (S, Candidate) -> (S, Result<AssetDto, string>))
    ensures ImportFile(s, Some(ToUpper(name)), workbook, csv, outOfBounds, sink)
         == ImportFile(s, Some(name), workbook, csv, outOfBounds, sink)
  {
    assert ToLower(ToUpper(name)) == ToLower(name);
  }

  /** A name ending in neither suffix, such as "portfolio.pdf", is refused before anything is read. */
  lemma PdfRefused<S>(s: S, workbook: Workbook, csv: CsvRecords,
                      outOfBounds: (nat, nat) -> string, sink: (S, Candidate) -> (S, Result<AssetDto, string>))
    ensures ImportFile(s, Some("portfolio.pdf"), workbook, csv, outOfBounds, sink)
         == (s, Failure(InvalidUpload(UnsupportedFormat)))
  {
    var name := "portfolio.pdf";
    LowerOfLowerCase(name);
    assert !EndsWith(name, ".xlsx") by { assert name[|name| - 5] == 'o'; }
    assert !EndsWith(name, ".csv") by { assert name[|name| - 3] == 'p'; }
  }

  /** A text without upper-case letters is its own lower case. */
  lemma LowerOfLowerCase(s: string)
    requires forall i :: 0 <= i < |s| ==> !('A' <= s[i] <= 'Z')
    ensures ToLower(s) == s
  {
  }

  /** A file holding only its header gives an empty report and leaves the sink untouched. */
  lemma HeaderOnly<S>(s: S, header: SheetRow, outOfBounds: (nat, nat) -> string,
                      sink: (S, Candidate) -> (S, Result<AssetDto, string>))
    ensures ImportSheet(s, Sheet([header]), sink) == (s, Success(EmptyReport))
    ensures ImportCsv(s, CsvRecords([], None), outOfBounds, sink) == (s, Success(EmptyReport))
  {
    assert ParsedSheetRows(DataRows([header])) == [];
    assert ParsedRecords([], outOfBounds) == [];
  }

  /** A row that fails to parse is reported under its row number with its wrapped message. */
  lemma ParseFailureReported<S>(s: S, parsed: seq<Result<Candidate, string>>,
                                sink: (S, Candidate) -> (S, Result<AssetDto, string>), k: nat)
    requires k < |parsed| && parsed[k].Failure?
    ensures RowMessage(RowNumber(k), parsed[k].error) in ImportRows(s, parsed, sink).1.errors
  {
    var outs := Outcomes(s, parsed, sink).1;
    OutcomeOfRow(s, parsed, sink, k);
    ReportOfOutcomes(s, parsed, sink);
    ErrorsByIndex(outs);
    var failed := FailedIndices(outs);
    var j :| 0 <= j < |failed| && failed[j] == k;
    assert ErrorsOf(outs)[j] == RowMessage(RowNumber(k), parsed[k].error);
  }

  /** A data row whose symbol cell holds empty text fails the first check. */
  lemma EmptySymbolRejected(row: SheetRow)
    requires |row| > 0 && row[0] == Some(TextCell(""))
    ensures ParseSheetRow(row) == Failure(DataFormatPrefix + Message(SymbolRequired))
  {
    assert IsBlank("");
  }

  /** The second data row is reported as row 3. */
  lemma SecondDataRowNumber(message: string)
    ensures RowMessage(RowNumber(1), message) == "Row 3: " + message
  {
    assert NatToString(3) == "3";
  }
}
