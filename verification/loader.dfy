/**
 * Reading the two CSV exports. A file is given as the records Python's
 * `csv.reader` yields (each a list of cell strings); the first record is the
 * header, as `csv.DictReader` takes it, and empty records (blank lines) are
 * skipped. Opening files and decoding text are not modelled.
 */
module Loader {
  import opened Wrappers
  import opened Text
  import opened Numbers
  import opened Ledger
  import opened Seqs

  /** Columns the ledger validator requires, compared after normalisation. */
  const LedgerRequired: set<string> := {"txid", "refid", "time", "type", "asset", "amount"}

  /** Columns the wallet validator requires, compared case-sensitively. */
  const WalletRequired: set<string> := {"Date", "Type", "Amount"}

  /** The columns the ledger loader reads from every row, in the order it reads them. */
  const LoaderColumns: seq<string> := ["txid", "refid", "time", "type", "subtype", "aclass", "asset", "amount", "fee", "balance"]

  /** The header, or `None` for a file without any record. */
  function FieldNames(records: seq<seq<string>>): Option<seq<string>>
  {
    if |records| == 0 then None else Some(records[0])
  }

  /** The data rows `csv.DictReader` yields: every record after the header except blank ones. */
  function DataRows(records: seq<seq<string>>): (rows: seq<seq<string>>)
    ensures forall i | 0 <= i < |rows| :: |rows[i]| > 0
    ensures forall r :: r in rows <==> |records| > 1 && r in records[1..] && |r| > 0
    ensures |records| > 0 ==> rows == Filter(records[1..], IsRecord)
  {
    if |records| <= 1 then []
    else
      var rows := NonBlank(records[1..]);
      assert forall i | 0 <= i < |rows| :: rows[i] in rows;
      rows
  }

  /** A record that is not a blank line. */
  predicate IsRecord(r: seq<string>)
  {
    |r| > 0
  }

  /** Skips blank records, keeping the others in order. */
  function NonBlank(records: seq<seq<string>>): (rows: seq<seq<string>>)
    ensures rows == Filter(records, IsRecord)
  {
    if |records| == 0 then []
    else
      var first := [records[0]];
      assert first + records[1..] == records;
      assert first[..0] == [];
      FilterAppend(first, records[1..], IsRecord);
      (if |records[0]| == 0 then [] else first) + NonBlank(records[1..])
  }

  // ---------------------------------------------------------------------------
  // Header validation

  datatype Verdict = Valid | EmptyFile | MissingColumns(missing: set<string>)

  /** A ledger header as the validator compares it: stripped, quotes removed, lower-cased. */
  function NormalizeLedgerHeader(h: string): string
  {
    Lower(RemoveQuotes(Strip(h)))
  }

  /** A wallet header as the validator compares it: stripped and quotes removed. */
  function NormalizeWalletHeader(h: string): string
  {
    RemoveQuotes(Strip(h))
  }

  /** Some non-empty header normalises to `column`. */
  predicate Offers(names: seq<string>, normalize: string -> string, column: string)
  {
    exists i | 0 <= i < |names| :: names[i] != "" && normalize(names[i]) == column
  }

  /** The shared check of both validators: a header is required, then every required column. */
  function Validate(records: seq<seq<string>>, required: set<string>, normalize: string -> string): (v: Verdict)
    ensures v == EmptyFile <==> |records| == 0 || |records[0]| == 0
    ensures v == Valid <==> |records| > 0 && |records[0]| > 0 && forall c | c in required :: Offers(records[0], normalize, c)
    ensures v.MissingColumns? ==> v.missing != {} && forall c :: c in v.missing <==> c in required && !Offers(records[0], normalize, c)
  {
    if |records| == 0 || |records[0]| == 0 then EmptyFile
    else
      var names := records[0];
      var headers := set i | 0 <= i < |names| && names[i] != "" :: normalize(names[i]);
      assert forall c :: c in headers <==> Offers(names, normalize, c) by {
        forall c | Offers(names, normalize, c) ensures c in headers {
          var i :| 0 <= i < |names| && names[i] != "" && normalize(names[i]) == c;
        }
      }
      var missing := required - headers;
      if missing == {} then
        assert forall c | c in required :: c in headers by {
          forall c | c in required ensures c in headers {
            assert c !in missing;
          }
        }
        Valid
      else MissingColumns(missing)
  }

  /** `validate_kraken_ledger` on the file's records (the message is `LedgerMessage`). */
  function ValidateLedger(records: seq<seq<string>>): (v: Verdict)
    ensures v == EmptyFile <==> |records| == 0 || |records[0]| == 0
    ensures v == Valid <==> |records| > 0 && |records[0]| > 0 && forall c | c in LedgerRequired :: Offers(records[0], NormalizeLedgerHeader, c)
    ensures v.MissingColumns? ==> v.missing != {} && forall c :: c in v.missing <==> c in LedgerRequired && !Offers(records[0], NormalizeLedgerHeader, c)
  {
    Validate(records, LedgerRequired, NormalizeLedgerHeader)
  }

  /** `validate_wallet_csv` on the file's records (the message is `WalletMessage`). */
  function ValidateWallet(records: seq<seq<string>>): (v: Verdict)
    ensures v == EmptyFile <==> |records| == 0 || |records[0]| == 0
    ensures v == Valid <==> |records| > 0 && |records[0]| > 0 && forall c | c in WalletRequired :: Offers(records[0], NormalizeWalletHeader, c)
    ensures v.MissingColumns? ==> v.missing != {} && forall c :: c in v.missing <==> c in WalletRequired && !Offers(records[0], NormalizeWalletHeader, c)
  {
    Validate(records, WalletRequired, NormalizeWalletHeader)
  }

  function Join(xs: seq<string>, sep: string): string
  {
    if |xs| == 0 then "" else if |xs| == 1 then xs[0] else xs[0] + sep + Join(xs[1..], sep)
  }

  lemma {:induction false} JoinContains(xs: seq<string>, sep: string, i: nat)
    requires i < |xs|
    ensures Contains(Join(xs, sep), xs[i])
    decreases |xs|
  {
    var j := Join(xs, sep);
    if i == 0 {
      if |xs| == 1 {
        assert xs[0] <= j;
      } else {
        assert j == xs[0] + (sep + Join(xs[1..], sep));
        assert xs[0] <= j;
      }
    } else {
      JoinContains(xs[1..], sep, i - 1);
      assert j == (xs[0] + sep) + Join(xs[1..], sep);
      ContainsExtendedBefore(xs[0] + sep, Join(xs[1..], sep), xs[i]);
    }
  }

  /** The text naming the missing columns; Python's set order is unspecified, ascending order is used. */
  function MissingList(missing: set<string>): (m: string)
    ensures forall c | c in missing :: Contains(m, c)
    ensures exists xs: seq<string> | |xs| == |missing| && (forall c :: c in xs <==> c in missing) :: m == Join(xs, ", ")
  {
    var cols := SortedSet(missing);
    forall c | c in missing ensures Contains(Join(cols, ", "), c) {
      var i :| 0 <= i < |cols| && cols[i] == c;
      JoinContains(cols, ", ", i);
    }
    Join(cols, ", ")
  }

  /** The message `validate_kraken_ledger` returns with its verdict. */
  function LedgerMessage(v: Verdict): (m: string)
    ensures v.Valid? ==> m == "Valid Kraken Ledger"
    ensures v.EmptyFile? ==> m == "Empty CSV file."
    ensures v.MissingColumns? ==> "Missing columns: " <= m && forall c | c in v.missing :: Contains(m, c)
    ensures v.MissingColumns? ==>
              exists xs: seq<string> | |xs| == |v.missing| && (forall c :: c in xs <==> c in v.missing) ::
                m == "Missing columns: " + Join(xs, ", ")
  {
    match v
    case Valid => "Valid Kraken Ledger"
    case EmptyFile => "Empty CSV file."
    case MissingColumns(missing) =>
      var list := MissingList(missing);
      assert list == Join(SortedSet(missing), ", ");
      forall c | c in missing ensures Contains("Missing columns: " + list, c) {
        ContainsExtendedBefore("Missing columns: ", list, c);
      }
      "Missing columns: " + list
  }

  /** The message `validate_wallet_csv` returns with its verdict. */
  function WalletMessage(v: Verdict): (m: string)
    ensures v.Valid? ==> m == "Valid Wallet CSV"
    ensures v.EmptyFile? ==> m == "Empty CSV file."
    ensures v.MissingColumns? ==> "Missing columns: " <= m && forall c | c in v.missing :: Contains(m, c)
    ensures v.MissingColumns? ==>
              exists xs: seq<string> | |xs| == |v.missing| && (forall c :: c in xs <==> c in v.missing) ::
                m == "Missing columns: " + Join(xs, ", ") + ". Ensure this is a Trezor Suite export."
  {
    match v
    case Valid => "Valid Wallet CSV"
    case EmptyFile => "Empty CSV file."
    case MissingColumns(missing) =>
      var list := MissingList(missing);
      var m := "Missing columns: " + list + ". Ensure this is a Trezor Suite export.";
      assert list == Join(SortedSet(missing), ", ");
      forall c | c in missing ensures Contains(m, c) {
        ContainsExtendedBefore("Missing columns: ", list, c);
        ContainsExtendedAfter("Missing columns: " + list, ". Ensure this is a Trezor Suite export.", c);
      }
      m
  }

  // ---------------------------------------------------------------------------
  // Ledger rows

  datatype LoadError =
    | RaggedRow(cells: nat, columns: nat)  // a short row gets `None` cells, a long one a list: `.strip()` fails on both
    | MissingColumn(name: string)          // `row[name]` on a header without that column

  /**
   * The cleaning applied to every ledger cell: strip, then keep the characters
   * that are not double quotes, in order. Whitespace that sat inside quotes at
   * an end of the cell survives.
   */
  function CleanField(v: string): (r: string)
    ensures r == Filter(Strip(v), NotQuote)
    ensures '"' !in r && |r| <= |v|
    ensures '"' !in v && (|v| == 0 || (!IsSpace(v[0]) && !IsSpace(v[|v| - 1]))) ==> r == v
  {
    StripFacts(v);
    RemoveQuotesSpec(Strip(v));
    RemoveQuotes(Strip(v))
  }

  lemma StripFacts(v: string)
    ensures |Strip(v)| <= |v| && (forall i | 0 <= i < |Strip(v)| :: Strip(v)[i] in v)
    ensures |v| == 0 || (!IsSpace(v[0]) && !IsSpace(v[|v| - 1])) ==> Strip(v) == v
  {
    var k := StripSpec(v);
    assert forall i | 0 <= i < |Strip(v)| :: Strip(v)[i] == v[k + i];
    if |v| > 0 && !IsSpace(v[0]) && !IsSpace(v[|v| - 1]) {
      StripKeepsTrimmed(v);
    }
  }

  /** The position whose cell a `dict(zip(names, cells))` keeps for `key`: the last one. */
  function LastIndex(names: seq<string>, key: string): (i: nat)
    requires key in names
    ensures i < |names| && names[i] == key
    ensures forall j | i < j < |names| :: names[j] != key
  {
    if names[|names| - 1] == key then |names| - 1 else LastIndex(names[..|names| - 1], key)
  }

  /** The first of `columns` that the header lacks. */
  function FirstMissing(names: seq<string>, columns: seq<string>): (r: Option<string>)
    ensures r.None? <==> forall k | k in columns :: k in names
    ensures r.Some? ==> exists i | 0 <= i < |columns| :: columns[i] == r.value && r.value !in names
                                 && forall j | 0 <= j < i :: columns[j] in names
  {
    if |columns| == 0 then None
    else if columns[0] !in names then Some(columns[0])
    else
      var r := FirstMissing(names, columns[1..]);
      if r.Some? then
        var i :| 0 <= i < |columns[1..]| && columns[1..][i] == r.value && r.value !in names
               && forall j | 0 <= j < i :: columns[1..][j] in names;
        assert columns[i + 1] == r.value;
        r
      else r
  }

  /** The cell of column `key`; `dict(zip(names, cells))` keeps the last of repeated columns. */
  function Cell(names: seq<string>, cells: seq<string>, key: string): string
    requires |cells| == |names| && key in names
  {
    cells[LastIndex(names, key)]
  }

  /** The cleaned cell of column `key` in a raw row (`""` when the header lacks it). */
  function Field(names: seq<string>, cells: seq<string>, key: string): string
    requires |cells| == |names|
  {
    if key in names then CleanField(cells[LastIndex(names, key)]) else ""
  }


  /** Every cell of a row cleaned, as `load_csv` does before reading any column. */
  function CleanRow(cells: seq<string>): (r: seq<string>)
    ensures |r| == |cells|
  {
    seq(|cells|, i requires 0 <= i < |cells| => CleanField(cells[i]))
  }

  /** The transaction of a row whose header has every column the loader reads. */
  function BuildTransaction(names: seq<string>, cells: seq<string>): Transaction
    requires |cells| == |names| && forall k | k in LoaderColumns :: k in names
  {
    Transaction(
      txid := Cell(names, cells, "txid"),
      refid := Cell(names, cells, "refid"),
      time := Cell(names, cells, "time"),
      kind := Cell(names, cells, "type"),
      subtype := Cell(names, cells, "subtype"),
      assetClass := Cell(names, cells, "aclass"),
      asset := Cell(names, cells, "asset"),
      amount := ParseFloat(Cell(names, cells, "amount")),
      fee := ParseFloat(Cell(names, cells, "fee")),
      balance := ParseFloat(Cell(names, cells, "balance")))
  }

  /** One iteration of `load_csv`: clean every cell, then build the transaction. */
  function LoadRow(names: seq<string>, cells: seq<string>): (r: Result<Transaction, LoadError>)
    ensures |cells| != |names| ==> r == Err(RaggedRow(|cells|, |names|))
    ensures |cells| == |names| ==> (r.Ok? <==> forall k | k in LoaderColumns :: k in names)
    ensures |cells| == |names| && r.Err? ==>
              r.error.MissingColumn? && r.error.name !in names
              && exists i | 0 <= i < |LoaderColumns| :: LoaderColumns[i] == r.error.name
                   && forall j | 0 <= j < i :: LoaderColumns[j] in names
    ensures r.Ok? ==>
              && r.value.txid == Field(names, cells, "txid") && r.value.refid == Field(names, cells, "refid")
              && r.value.time == Field(names, cells, "time") && r.value.kind == Field(names, cells, "type")
              && r.value.subtype == Field(names, cells, "subtype") && r.value.assetClass == Field(names, cells, "aclass")
              && r.value.asset == Field(names, cells, "asset")
              && r.value.amount == ParseFloat(Field(names, cells, "amount"))
              && r.value.fee == ParseFloat(Field(names, cells, "fee"))
              && r.value.balance == ParseFloat(Field(names, cells, "balance"))
  {
    if |cells| != |names| then Err(RaggedRow(|cells|, |names|))
    else
      match FirstMissing(names, LoaderColumns)
      case Some(k) => Err(MissingColumn(k))
      case None =>
        var cleaned := CleanRow(cells);
        assert forall k | k in LoaderColumns :: Cell(names, cleaned, k) == Field(names, cells, k);
        Ok(BuildTransaction(names, cleaned))
  }

  /** Converts every row in order, stopping at the first row whose conversion fails. */
  function ConvertAll<T(==), E(==)>(rows: seq<seq<string>>, convert: seq<string> -> Result<T, E>): (r: Result<seq<T>, E>)
    ensures r.Ok? ==> |r.value| == |rows| && forall i | 0 <= i < |rows| :: convert(rows[i]) == Ok(r.value[i])
    ensures r.Err? ==> exists i | 0 <= i < |rows| :: convert(rows[i]) == Err(r.error)
                                 && forall j | 0 <= j < i :: convert(rows[j]).Ok?
  {
    if |rows| == 0 then Ok([])
    else
      match convert(rows[0])
      case Err(e) => Err(e)
      case Ok(t) =>
        match ConvertAll(rows[1..], convert)
        case Err(e) =>
          var i :| 0 <= i < |rows[1..]| && convert(rows[1..][i]) == Err(e)
                 && forall j | 0 <= j < i :: convert(rows[1..][j]).Ok?;
          assert convert(rows[i + 1]) == Err(e);
          assert forall j | 1 <= j <= i :: convert(rows[j]) == convert(rows[1..][j - 1]);
          Err(e)
        case Ok(ts) =>
          assert forall i | 1 <= i < |rows| :: convert(rows[i]) == convert(rows[1..][i - 1]);
          Ok([t] + ts)
  }

  /** `load_csv` on the file's records; a file without a header yields no transactions. */
  function LoadLedger(records: seq<seq<string>>): (r: Result<seq<Transaction>, LoadError>)
    ensures |records| == 0 ==> r == Ok([])
    ensures r.Ok? ==> |r.value| == |DataRows(records)|
                      && forall i | 0 <= i < |DataRows(records)| :: LoadRow(records[0], DataRows(records)[i]) == Ok(r.value[i])
    ensures r.Err? ==> exists i | 0 <= i < |DataRows(records)| :: LoadRow(records[0], DataRows(records)[i]) == Err(r.error)
                          && forall j | 0 <= j < i :: LoadRow(records[0], DataRows(records)[j]).Ok?
  {
    match FieldNames(records)
    case None => Ok([])
    case Some(names) => ConvertAll(DataRows(records), cells => LoadRow(names, cells))
  }

  lemma PlainHeaderNormalizes(h: string)
    requires |h| > 0 && !IsSpace(h[0]) && !IsSpace(h[|h| - 1]) && '"' !in h
    requires forall i | 0 <= i < |h| :: !IsAsciiUpper(h[i])
    ensures NormalizeLedgerHeader(h) == h && NormalizeWalletHeader(h) == h
  {
    StripKeepsTrimmed(h);
    RemoveQuotesSpec(h);
    LowerSpec(h);
  }

  lemma PlainHeaderOffered(names: seq<string>, i: nat)
    requires i < |names| && |names[i]| > 0 && !IsSpace(names[i][0]) && !IsSpace(names[i][|names[i]| - 1])
    requires '"' !in names[i] && forall k | 0 <= k < |names[i]| :: !IsAsciiUpper(names[i][k])
    ensures Offers(names, NormalizeLedgerHeader, names[i])
  {
    PlainHeaderNormalizes(names[i]);
  }

  /** A header that offers each of the six required columns passes the ledger validator. */
  lemma OfferedEverywhereValidates(names: seq<string>)
    requires |names| > 0
    requires Offers(names, NormalizeLedgerHeader, "txid")
    requires Offers(names, NormalizeLedgerHeader, "refid")
    requires Offers(names, NormalizeLedgerHeader, "time")
    requires Offers(names, NormalizeLedgerHeader, "type")
    requires Offers(names, NormalizeLedgerHeader, "asset")
    requires Offers(names, NormalizeLedgerHeader, "amount")
    ensures ValidateLedger([names]) == Valid
  {
  }

  /** The header with exactly the six columns the ledger validator asks for. */
  const SixColumns: seq<string> := ["txid", "refid", "time", "type", "asset", "amount"]

  lemma SixColumnOffered(i: nat, c: string)
    requires i < |SixColumns| && SixColumns[i] == c
    ensures Offers(SixColumns, NormalizeLedgerHeader, c)
  {
    PlainHeaderOffered(SixColumns, i);
  }

  /** The six lower-case column names on their own pass the ledger validator. */
  lemma SixColumnHeaderValidates()
    ensures ValidateLedger([SixColumns]) == Valid
  {
    SixColumnOffered(0, "txid");
    SixColumnOffered(1, "refid");
    SixColumnOffered(2, "time");
    SixColumnOffered(3, "type");
    SixColumnOffered(4, "asset");
    SixColumnOffered(5, "amount");
    OfferedEverywhereValidates(SixColumns);
  }

  /**
   * The ledger validator accepts a header the loader cannot read: the validator
   * requires six columns, but `load_csv` also reads `subtype`, `aclass`, `fee`
   * and `balance`, and raises on the first of them that is missing.
   */
  lemma ValidatedLedgerMayNotLoad(records: seq<seq<string>>)
    requires |records| > 0 && records[0] == SixColumns
    requires |DataRows(records)| > 0 && |DataRows(records)[0]| == |SixColumns|
    ensures ValidateLedger(records) == Valid
    ensures LoadLedger(records) == Err(MissingColumn("subtype"))
  {
    SixColumnHeaderValidates();
    SubtypeMissing(DataRows(records)[0]);
    FirstRowFails(records, MissingColumn("subtype"));
  }

  lemma SubtypeMissing(cells: seq<string>)
    requires |cells| == |SixColumns|
    ensures LoadRow(SixColumns, cells) == Err(MissingColumn("subtype"))
  {
    assert LoaderColumns[4] == "subtype" && "subtype" !in SixColumns;
    assert forall j | 0 <= j < 4 :: LoaderColumns[j] in SixColumns;
  }

  /** A ledger whose first data row fails to load fails with that row's error. */
  lemma FirstRowFails(records: seq<seq<string>>, e: LoadError)
    requires |records| > 0 && |DataRows(records)| > 0 && LoadRow(records[0], DataRows(records)[0]) == Err(e)
    ensures LoadLedger(records) == Err(e)
  {
    var rows := DataRows(records);
    var r := LoadLedger(records);
    assert r.Err?;
    var i :| 0 <= i < |rows| && LoadRow(records[0], rows[i]) == Err(r.error)
           && forall j | 0 <= j < i :: LoadRow(records[0], rows[j]).Ok?;
    assert i == 0;
  }

  /** Offered under the identity normalisation: the exact column name is in the header. */
  lemma OffersVerbatim(names: seq<string>, c: string)
    requires c != ""
    ensures Offers(names, h => h, c) <==> c in names
  {
    if c in names {
      var i :| 0 <= i < |names| && names[i] == c;
      assert (h => h)(names[i]) == c;
    }
  }

  /** The validator the loader needs: every column it reads, spelled exactly as it looks it up. */
  function ValidateLedgerForLoading(records: seq<seq<string>>): (v: Verdict)
    ensures v == EmptyFile <==> |records| == 0 || |records[0]| == 0
    ensures v == Valid <==> |records| > 0 && |records[0]| > 0 && forall k | k in LoaderColumns :: k in records[0]
    ensures v.MissingColumns? ==> v.missing != {} && forall c :: c in v.missing <==> c in LoaderColumns && c !in records[0]
  {
    var columns := set k | k in LoaderColumns;
    if |records| > 0 then
      forall c | c in columns ensures Offers(records[0], h => h, c) <==> c in records[0] {
        OffersVerbatim(records[0], c);
      }
      Validate(records, columns, h => h)
    else
      Validate(records, columns, h => h)
  }

  /** Whatever the corrected validator accepts, the original validator accepts too. */
  lemma LoadingValidatorIsStricter(records: seq<seq<string>>)
    requires ValidateLedgerForLoading(records) == Valid
    ensures ValidateLedger(records) == Valid
  {
    var names := records[0];
    forall c | c in LedgerRequired ensures Offers(names, NormalizeLedgerHeader, c) {
      assert c in LoaderColumns;
      var i :| 0 <= i < |names| && names[i] == c;
      PlainHeaderNormalizes(c);
    }
  }

  /** After the corrected validation, every data row with one cell per column loads. */
  lemma ValidatedLedgerLoads(records: seq<seq<string>>)
    requires ValidateLedgerForLoading(records) == Valid
    requires forall i | 0 <= i < |DataRows(records)| :: |DataRows(records)[i]| == |records[0]|
    ensures LoadLedger(records).Ok?
  {
  }
}
