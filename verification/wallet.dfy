/**
 * `load_wallet_csv`: the receive rows of a wallet export. Each data row is a
 * `csv.DictReader` dictionary; only rows whose upper-cased `Type` mentions
 * `RECV` or `RECEIVED` are kept. A row whose amount is not a number is skipped
 * (`ValueError`); a `None` cell read through `.upper()` or `float()` raises an
 * error the loop does not catch, which ends the scan with the receipts so far.
 */
module Wallet {
  import opened Wrappers
  import opened Text
  import opened Numbers
  import opened Ledger
  import Loader

  /** What `row.get(key, default)` finds in a `csv.DictReader` row. */
  datatype CellValue =
    | Absent            // the header has no such column: the default is returned
    | NoneValue         // the row is shorter than the header: the cell is Python's `None`
    | Present(text: string)

  /** `row.get(key)`: the last column of that name wins; a cell past the row's end is `None`. */
  function DictGet(names: seq<string>, cells: seq<string>, key: string): (v: CellValue)
    ensures key !in names ==> v.Absent?
    ensures forall i | 0 <= i < |names| && names[i] == key && (forall j | i < j < |names| :: names[j] != key) ::
              v == if i < |cells| then Present(cells[i]) else NoneValue
    ensures v.Present? ==> v.text in cells
    ensures key in names && |cells| >= |names| ==> v.Present?
  {
    if key !in names then Absent
    else
      var i := Loader.LastIndex(names, key);
      if i < |cells| then Present(cells[i]) else NoneValue
  }

  /** The outcome of one iteration of the loader's loop. */
  datatype RowOutcome =
    | Keep(receipt: Receipt)
    | Skip    // not a receive row, or its amount is not a number
    | Abort   // an uncaught error: the loader returns what it has collected

  /** `'RECV' in t.upper() or 'RECEIVED' in t.upper()`. */
  predicate IsReceiveType(t: string)
  {
    Contains(Upper(t), "RECV") || Contains(Upper(t), "RECEIVED")
  }

  /** One row of the wallet export. */
  function ReadWalletRow(names: seq<string>, cells: seq<string>): (o: RowOutcome)
    ensures DictGet(names, cells, "Type").NoneValue? ==> o.Abort?
    ensures DictGet(names, cells, "Type").Absent? ==> o.Skip?
    ensures DictGet(names, cells, "Type").Present? && !IsReceiveType(DictGet(names, cells, "Type").text) ==> o.Skip?
    ensures o.Keep? ==> DictGet(names, cells, "Type").Present? && IsReceiveType(DictGet(names, cells, "Type").text)
    ensures o.Keep? && DictGet(names, cells, "Amount").Present? ==>
              PythonFloat(DictGet(names, cells, "Amount").text) == Some(o.receipt.amount)
    ensures o.Keep? && DictGet(names, cells, "Amount").Absent? ==> o.receipt.amount == 0.0
    ensures DictGet(names, cells, "Type").Present? && IsReceiveType(DictGet(names, cells, "Type").text) ==>
              && (DictGet(names, cells, "Amount").NoneValue? ==> o.Abort?)
              && (DictGet(names, cells, "Amount").Present? && PythonFloat(DictGet(names, cells, "Amount").text).None? ==> o.Skip?)
              && (DictGet(names, cells, "Amount").Absent? ==> o.Keep?)
              && (DictGet(names, cells, "Amount").Present? && PythonFloat(DictGet(names, cells, "Amount").text).Some? ==> o.Keep?)
    ensures o.Keep? ==> match DictGet(names, cells, "Date")
                        case Absent => o.receipt.date == Some("")
                        case NoneValue => o.receipt.date.None?
                        case Present(d) => o.receipt.date == Some(d)
  {
    match DictGet(names, cells, "Type")
    case NoneValue => Abort
    case Absent => Skip   // the default '' never mentions a receive
    case Present(t) =>
      if !IsReceiveType(t) then Skip
      else
        var date := match DictGet(names, cells, "Date")
                    case Absent => Some("")
                    case NoneValue => None
                    case Present(d) => Some(d);
        match DictGet(names, cells, "Amount")
        case Absent => Keep(Receipt(0.0, date))
        case NoneValue => Abort
        case Present(a) =>
          match PythonFloat(a)
          case None => Skip
          case Some(v) => Keep(Receipt(v, date))
  }

  /** The receipts of the outcomes in order, ignoring skipped rows and aborts. */
  function Kept(outs: seq<RowOutcome>): (r: seq<Receipt>)
    ensures |r| <= |outs|
  {
    if |outs| == 0 then []
    else Kept(outs[..|outs| - 1]) + (if outs[|outs| - 1].Keep? then [outs[|outs| - 1].receipt] else [])
  }

  /** The position of the first abort, or the number of outcomes when none aborts. */
  function FirstAbort(outs: seq<RowOutcome>): (k: nat)
    ensures k <= |outs|
    ensures forall i | 0 <= i < k :: !outs[i].Abort?
    ensures k < |outs| ==> outs[k].Abort?
  {
    if |outs| == 0 then 0
    else if outs[0].Abort? then 0
    else 1 + FirstAbort(outs[1..])
  }

  /** The loader's loop over the outcomes: collect receipts until the first abort. */
  function Gather(outs: seq<RowOutcome>): (r: seq<Receipt>)
    ensures |r| <= |outs|
    ensures forall x | x in r :: Keep(x) in outs
  {
    if |outs| == 0 then []
    else match outs[0]
      case Abort => []
      case Skip => Gather(outs[1..])
      case Keep(r) => [r] + Gather(outs[1..])
  }

  lemma {:induction false} KeptPrepend(o: RowOutcome, outs: seq<RowOutcome>)
    ensures Kept([o] + outs) == Kept([o]) + Kept(outs)
    decreases |outs|
  {
    if |outs| == 0 {
      assert [o] + outs == [o];
    } else {
      var init := outs[..|outs| - 1];
      assert ([o] + outs)[..|[o] + outs| - 1] == [o] + init;
      KeptPrepend(o, init);
    }
  }

  /** The loop collects exactly the kept receipts of the rows before the first abort. */
  lemma {:induction false} GatherIsKeptBeforeAbort(outs: seq<RowOutcome>)
    ensures Gather(outs) == Kept(outs[..FirstAbort(outs)])
    decreases |outs|
  {
    if |outs| > 0 && !outs[0].Abort? {
      GatherIsKeptBeforeAbort(outs[1..]);
      var k := FirstAbort(outs);
      assert outs[..k] == [outs[0]] + outs[1..][..k - 1];
      KeptPrepend(outs[0], outs[1..][..k - 1]);
      assert Kept([outs[0]]) == Kept([]) + (if outs[0].Keep? then [outs[0].receipt] else []);
    } else if |outs| > 0 {
      assert outs[..0] == [];
    }
  }

  /** Every kept receipt is the receipt of some outcome. */
  lemma {:induction false} KeptFrom(outs: seq<RowOutcome>, x: Receipt)
    requires x in Kept(outs)
    ensures Keep(x) in outs
    decreases |outs|
  {
    var init := outs[..|outs| - 1];
    if x in Kept(init) {
      KeptFrom(init, x);
      assert Keep(x) in init;
    } else {
      assert outs[|outs| - 1] == Keep(x);
    }
  }

  /** The outcome of every data row under `header`, in file order. */
  function Outcomes(header: seq<string>, rows: seq<seq<string>>): (outs: seq<RowOutcome>)
    ensures |outs| == |rows| && forall i | 0 <= i < |rows| :: outs[i] == ReadWalletRow(header, rows[i])
  {
    seq(|rows|, i requires 0 <= i < |rows| => ReadWalletRow(header, rows[i]))
  }

  /**
   * `load_wallet_csv` on the file's records: the receipts of the rows before
   * the first aborting row, in file order.
   */
  function LoadWallet(records: seq<seq<string>>): (r: seq<Receipt>)
    ensures |records| == 0 ==> r == []
    ensures |records| > 0 ==>
              var outs := Outcomes(records[0], Loader.DataRows(records));
              r == Kept(outs[..FirstAbort(outs)])
    ensures var rows := Loader.DataRows(records);
            |r| <= |rows|
            && forall x | x in r :: exists i | 0 <= i < |rows| :: ReadWalletRow(records[0], rows[i]) == Keep(x)
  {
    if |records| == 0 then []
    else
      var rows := Loader.DataRows(records);
      var outs := Outcomes(records[0], rows);
      GatherIsKeptBeforeAbort(outs);
      forall x | x in Gather(outs) ensures exists i | 0 <= i < |rows| :: ReadWalletRow(records[0], rows[i]) == Keep(x) {
        var i :| 0 <= i < |outs| && outs[i] == Keep(x);
      }
      Gather(outs)
  }

  /** With no aborting row, the loader keeps every receive row with a numeric amount, in file order. */
  lemma WalletKeepsAllWithoutAbort(records: seq<seq<string>>)
    requires |records| > 0
    requires forall i | 0 <= i < |Loader.DataRows(records)| :: !ReadWalletRow(records[0], Loader.DataRows(records)[i]).Abort?
    ensures LoadWallet(records) == Kept(Outcomes(records[0], Loader.DataRows(records)))
  {
    var outs := Outcomes(records[0], Loader.DataRows(records));
    assert FirstAbort(outs) == |outs|;
    assert outs[..|outs|] == outs;
  }

  /** The receive types of the wallet export are recognised in any letter case. */
  lemma ReceiveTypes()
    ensures IsReceiveType("Recv") && IsReceiveType("recv") && IsReceiveType("RECEIVED")
  {
    assert Upper("Recv") == "RECV";
    assert Upper("recv") == "RECV";
    assert Upper("RECEIVED") == "RECEIVED";
    assert "RECV" <= "RECV";
    assert "RECEIVED" <= "RECEIVED";
  }
}
