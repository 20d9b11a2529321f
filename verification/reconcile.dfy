/**
 * `verify_withdrawals`: every BTC withdrawal of the ledger, in ledger order, is
 * paired with the earliest wallet receipt not yet paired whose amount the
 * withdrawal explains: the same amount, or the amount less one of the two
 * usual network fees. The receipts left over are orphans; the totals compare
 * everything sent with everything received.
 */
module Reconcile {
  import opened Wrappers
  import opened Ledger
  import opened Seqs

  /** Amounts closer than this count as equal. */
  const ExactTolerance: real := 0.00000001
  /** Tolerance for the amount less a fee. */
  const FeeTolerance: real := 0.000001
  /** The two withdrawal fees a receipt may be short by. */
  const SmallFee: real := 0.00001
  const LargeFee: real := 0.00002

  predicate IsBtcWithdrawal(t: Transaction)
  {
    t.asset == "BTC" && t.kind == "withdrawal"
  }

  /** The three rules: exact, less the small fee, less the large fee. */
  predicate Tolerates(received: real, sent: real)
  {
    || Abs(received - sent) < ExactTolerance
    || Abs(received - (sent - SmallFee)) < FeeTolerance
    || Abs(received - (sent - LargeFee)) < FeeTolerance
  }

  /**
   * The amount sent, and that amount less either fee, are accepted; nothing
   * above the sent amount or below it less the large fee is; and a receipt
   * short by less than the small fee but more than the exact tolerance is
   * rejected.
   */
  lemma ToleranceWindow(received: real, sent: real)
    ensures Tolerates(sent, sent) && Tolerates(sent - SmallFee, sent) && Tolerates(sent - LargeFee, sent)
    ensures Tolerates(received, sent) ==> sent - LargeFee - FeeTolerance < received < sent + ExactTolerance
    ensures sent - SmallFee + FeeTolerance <= received <= sent - ExactTolerance ==> !Tolerates(received, sent)
  {
  }

  /** The BTC withdrawals of the ledger, in ledger order. */
  function Withdrawals(txs: seq<Transaction>): (ws: seq<Transaction>)
    ensures forall t :: t in ws <==> t in txs && IsBtcWithdrawal(t)
  {
    Filter(txs, IsBtcWithdrawal)
  }

  /** A receipt still available for `sent` under the consumed flags. */
  predicate Available(receipts: seq<Receipt>, consumed: seq<bool>, sent: real, j: nat)
    requires |consumed| == |receipts| && j < |receipts|
  {
    !consumed[j] && Tolerates(receipts[j].amount, sent)
  }

  /** The first available receipt at or after `start`. */
  function PickFrom(receipts: seq<Receipt>, consumed: seq<bool>, sent: real, start: nat): (r: Option<nat>)
    requires |consumed| == |receipts| && start <= |receipts|
    ensures r.Some? ==> start <= r.value < |receipts| && Available(receipts, consumed, sent, r.value)
                        && forall j | start <= j < r.value :: !Available(receipts, consumed, sent, j)
    ensures r.None? ==> forall j | start <= j < |receipts| :: !Available(receipts, consumed, sent, j)
    decreases |receipts| - start
  {
    if start == |receipts| then None
    else if Available(receipts, consumed, sent, start) then Some(start)
    else PickFrom(receipts, consumed, sent, start + 1)
  }

  /** The inner loop for one withdrawal: the earliest available receipt, if any. */
  function Pick(receipts: seq<Receipt>, consumed: seq<bool>, sent: real): (r: Option<nat>)
    requires |consumed| == |receipts|
    ensures r.Some? ==> r.value < |receipts| && Available(receipts, consumed, sent, r.value)
                        && forall j | 0 <= j < r.value :: !Available(receipts, consumed, sent, j)
    ensures r.None? <==> forall j | 0 <= j < |receipts| :: !Available(receipts, consumed, sent, j)
  {
    PickFrom(receipts, consumed, sent, 0)
  }

  /** The flags after marking the picked receipt as found. */
  function Mark(consumed: seq<bool>, pick: Option<nat>): (r: seq<bool>)
    requires pick.Some? ==> pick.value < |consumed|
    ensures |r| == |consumed|
  {
    if pick.Some? then consumed[pick.value := true] else consumed
  }

  function NoneFound(n: nat): (r: seq<bool>)
    ensures |r| == n && forall i | 0 <= i < n :: !r[i]
  {
    seq(n, i => false)
  }

  /** The outer loop: the pick for every withdrawal, and the flags at the end. */
  function Scan(receipts: seq<Receipt>, ws: seq<Transaction>): (r: (seq<Option<nat>>, seq<bool>))
    ensures |r.0| == |ws| && |r.1| == |receipts|
    ensures forall k | 0 <= k < |ws| :: r.0[k].Some? ==> r.0[k].value < |receipts| && r.1[r.0[k].value]
    ensures forall k, l | 0 <= k < l < |ws| :: r.0[k].Some? && r.0[l].Some? ==> r.0[k].value != r.0[l].value
    ensures forall i | 0 <= i < |receipts| :: r.1[i] ==> exists k | 0 <= k < |ws| :: r.0[k] == Some(i)
  {
    if |ws| == 0 then ([], NoneFound(|receipts|))
    else
      var (picks, mid) := Scan(receipts, ws[..|ws| - 1]);
      var p := Pick(receipts, mid, Abs(ws[|ws| - 1].amount));
      assert forall k | 0 <= k < |picks| :: (picks + [p])[k] == picks[k];
      assert p.Some? ==> (picks + [p])[|picks|] == p;
      (picks + [p], Mark(mid, p))
  }

  // ---------------------------------------------------------------------------
  // The result

  datatype Match = Match(krakenDate: string, amount: real, walletDate: Option<string>, walletAmount: real)

  datatype Totals = Totals(krakenOut: real, walletIn: real, diff: real)

  datatype Verification = Verification(matches: seq<Match>, orphans: seq<Receipt>, totals: Totals)

  /** The matches of the picks, in withdrawal order. */
  function MatchesOf(receipts: seq<Receipt>, ws: seq<Transaction>, picks: seq<Option<nat>>): (ms: seq<Match>)
    requires |picks| == |ws| && forall k | 0 <= k < |picks| :: picks[k].Some? ==> picks[k].value < |receipts|
    ensures |ms| <= |ws|
    ensures forall m | m in ms :: exists k | 0 <= k < |ws| :: picks[k].Some? && m == MatchFor(receipts, ws[k], picks[k].value)
  {
    if |ws| == 0 then []
    else
      var k := |ws| - 1;
      var init := MatchesOf(receipts, ws[..k], picks[..k]);
      assert forall k' | 0 <= k' < k :: ws[..k][k'] == ws[k'] && picks[..k][k'] == picks[k'];
      init
      + match picks[k]
        case None => []
        case Some(j) => [MatchFor(receipts, ws[k], j)]
  }

  /** The report line of a withdrawal matched to receipt `j`: its date and magnitude, the receipt's date and amount. */
  function MatchFor(receipts: seq<Receipt>, w: Transaction, j: nat): Match
    requires j < |receipts|
  {
    Match(w.time, Abs(w.amount), receipts[j].date, receipts[j].amount)
  }

  /** The receipts whose flag is `want`, in their original order. */
  function Flagged(receipts: seq<Receipt>, flags: seq<bool>, want: bool): (r: seq<Receipt>)
    requires |flags| == |receipts|
    ensures |r| <= |receipts|
    ensures forall x :: x in r <==> exists i | 0 <= i < |receipts| :: flags[i] == want && receipts[i] == x
  {
    if |receipts| == 0 then []
    else
      var n := |receipts| - 1;
      var init := Flagged(receipts[..n], flags[..n], want);
      assert forall i | 0 <= i < n :: receipts[..n][i] == receipts[i] && flags[..n][i] == flags[i];
      init + (if flags[n] == want then [receipts[n]] else [])
  }

  /** Flagging a concatenation flags each part: the receipts keep their original order. */
  lemma {:induction false} FlaggedAppend(a: seq<Receipt>, fa: seq<bool>, b: seq<Receipt>, fb: seq<bool>, want: bool)
    requires |fa| == |a| && |fb| == |b|
    ensures Flagged(a + b, fa + fb, want) == Flagged(a, fa, want) + Flagged(b, fb, want)
    decreases |b|
  {
    if |b| == 0 {
      assert a + b == a;
      assert fa + fb == fa;
    } else {
      var n := |b| - 1;
      assert (a + b)[..|a| + n] == a + b[..n];
      assert (fa + fb)[..|a| + n] == fa + fb[..n];
      FlaggedAppend(a, fa, b[..n], fb[..n], want);
    }
  }

  /** One receipt is kept iff its flag is the one wanted. */
  lemma FlaggedOne(x: Receipt, f: bool, want: bool)
    ensures Flagged([x], [f], want) == if f == want then [x] else []
  {
    assert [x][..0] == [];
    assert [f][..0] == [];
  }

  function ReceiptAmount(r: Receipt): real { r.amount }

  function WalletAmount(m: Match): real { m.walletAmount }

  function SentAmount(t: Transaction): real { Abs(t.amount) }

  /**
   * `verify_withdrawals` on the ledger and the wallet's receipts: the totals
   * are the sent BTC, the received BTC and their difference; there is at most
   * one match per withdrawal, and every orphan is a receipt.
   */
  function Verify(txs: seq<Transaction>, receipts: seq<Receipt>): (v: Verification)
    ensures v.totals.krakenOut == SumOf(Withdrawals(txs), SentAmount)
    ensures v.totals.walletIn == SumOf(receipts, ReceiptAmount)
    ensures v.totals.diff == v.totals.walletIn - v.totals.krakenOut
    ensures |v.matches| <= |Withdrawals(txs)| && |v.orphans| <= |receipts|
    ensures forall x | x in v.orphans :: x in receipts
  {
    var ws := Withdrawals(txs);
    var (picks, found) := Scan(receipts, ws);
    var out, into := SumOf(ws, SentAmount), SumOf(receipts, ReceiptAmount);
    Verification(MatchesOf(receipts, ws, picks), Flagged(receipts, found, false), Totals(out, into, into - out))
  }

  // ---------------------------------------------------------------------------
  // Greedy matching

  /** The scan of a prefix of the withdrawals is the prefix of the scan. */
  lemma {:induction false} ScanPrefix(receipts: seq<Receipt>, ws: seq<Transaction>, k: nat)
    requires k <= |ws|
    ensures Scan(receipts, ws[..k]).0 == Scan(receipts, ws).0[..k]
    decreases |ws|
  {
    if k < |ws| {
      var init := ws[..|ws| - 1];
      assert init[..k] == ws[..k];
      ScanPrefix(receipts, init, k);
    } else {
      assert ws[..k] == ws;
    }
  }

  /**
   * Each withdrawal takes the earliest receipt that is unconsumed when its turn
   * comes and satisfies one of the rules; it stays unmatched only when no such
   * receipt exists.
   */
  lemma GreedyEarliest(receipts: seq<Receipt>, ws: seq<Transaction>, k: nat)
    requires k < |ws|
    ensures var consumed := Scan(receipts, ws[..k]).1;
            Scan(receipts, ws).0[k] == Pick(receipts, consumed, Abs(ws[k].amount))
  {
    ScanPrefix(receipts, ws, k + 1);
    var prefix := ws[..k + 1];
    assert prefix[..|prefix| - 1] == ws[..k] && prefix[|prefix| - 1] == ws[k];
    var (picks, mid) := Scan(receipts, ws[..k]);
    var p := Pick(receipts, mid, Abs(ws[k].amount));
    assert Scan(receipts, prefix).0 == picks + [p];
    assert Scan(receipts, ws).0[k] == Scan(receipts, prefix).0[k];
  }

  // ---------------------------------------------------------------------------
  // Counting and summing

  function CountFlagged(flags: seq<bool>, want: bool): nat
  {
    if |flags| == 0 then 0
    else CountFlagged(flags[..|flags| - 1], want) + (if flags[|flags| - 1] == want then 1 else 0)
  }

  function SumFlagged(receipts: seq<Receipt>, flags: seq<bool>, want: bool): real
    requires |flags| == |receipts|
  {
    if |receipts| == 0 then 0.0
    else
      var n := |receipts| - 1;
      SumFlagged(receipts[..n], flags[..n], want) + (if flags[n] == want then receipts[n].amount else 0.0)
  }

  /** Setting one unset flag moves one receipt from the unset to the set side. */
  lemma {:induction false} FlipOne(receipts: seq<Receipt>, flags: seq<bool>, p: nat)
    requires |flags| == |receipts| && p < |flags| && !flags[p]
    ensures CountFlagged(flags[p := true], true) == CountFlagged(flags, true) + 1
    ensures SumFlagged(receipts, flags[p := true], true) == SumFlagged(receipts, flags, true) + receipts[p].amount
    decreases |flags|
  {
    var n := |flags| - 1;
    var flipped := flags[p := true];
    if p < n {
      assert flipped[..n] == flags[..n][p := true];
      FlipOne(receipts[..n], flags[..n], p);
    } else {
      assert flipped[..n] == flags[..n];
    }
  }

  lemma {:induction false} NoneFoundCounts(receipts: seq<Receipt>)
    ensures CountFlagged(NoneFound(|receipts|), true) == 0
    ensures SumFlagged(receipts, NoneFound(|receipts|), true) == 0.0
    decreases |receipts|
  {
    if |receipts| > 0 {
      var n := |receipts| - 1;
      assert NoneFound(|receipts|)[..n] == NoneFound(n);
      NoneFoundCounts(receipts[..n]);
    }
  }

  /** Every match consumed one receipt, and the matched amounts are the consumed receipts' amounts. */
  lemma {:induction false} MatchesAreConsumed(receipts: seq<Receipt>, ws: seq<Transaction>)
    ensures var (picks, found) := Scan(receipts, ws);
            var ms := MatchesOf(receipts, ws, picks);
            |ms| == CountFlagged(found, true) && SumOf(ms, WalletAmount) == SumFlagged(receipts, found, true)
    decreases |ws|
  {
    if |ws| == 0 {
      NoneFoundCounts(receipts);
    } else {
      var k := |ws| - 1;
      var (picks, mid) := Scan(receipts, ws[..k]);
      MatchesAreConsumed(receipts, ws[..k]);
      var p := Pick(receipts, mid, Abs(ws[k].amount));
      var (allPicks, found) := Scan(receipts, ws);
      assert allPicks == picks + [p];
      assert allPicks[..k] == picks;
      var before := MatchesOf(receipts, ws[..k], picks);
      if p.Some? {
        FlipOne(receipts, mid, p.value);
        var m := Match(ws[k].time, Abs(ws[k].amount), receipts[p.value].date, receipts[p.value].amount);
        assert MatchesOf(receipts, ws, allPicks) == before + [m];
        assert (before + [m])[..|before|] == before;
      } else {
        assert MatchesOf(receipts, ws, allPicks) == before + [];
        assert before + [] == before;
      }
    }
  }

  /** The set and unset flags split the count and the sum of the receipts. */
  lemma {:induction false} FlagsPartition(receipts: seq<Receipt>, flags: seq<bool>)
    requires |flags| == |receipts|
    ensures CountFlagged(flags, true) + |Flagged(receipts, flags, false)| == |receipts|
    ensures SumFlagged(receipts, flags, true) + SumOf(Flagged(receipts, flags, false), ReceiptAmount) == SumOf(receipts, ReceiptAmount)
    decreases |receipts|
  {
    if |receipts| > 0 {
      var n := |receipts| - 1;
      FlagsPartition(receipts[..n], flags[..n]);
      var rest := Flagged(receipts[..n], flags[..n], false);
      if !flags[n] {
        assert (rest + [receipts[n]])[..|rest|] == rest;
      } else {
        assert rest + [] == rest;
      }
    }
  }

  /** Every receipt is either matched or an orphan: `|matches| + |orphans| == |receipts|`. */
  lemma MatchesAndOrphansCoverReceipts(txs: seq<Transaction>, receipts: seq<Receipt>)
    ensures var v := Verify(txs, receipts);
            |v.matches| + |v.orphans| == |receipts|
  {
    var ws := Withdrawals(txs);
    MatchesAreConsumed(receipts, ws);
    FlagsPartition(receipts, Scan(receipts, ws).1);
  }

  /** The matched wallet amounts and the orphans' amounts add up to everything received. */
  lemma MatchedAndOrphanAmountsAddUp(txs: seq<Transaction>, receipts: seq<Receipt>)
    ensures var v := Verify(txs, receipts);
            SumOf(v.matches, WalletAmount) + SumOf(v.orphans, ReceiptAmount) == v.totals.walletIn
  {
    var ws := Withdrawals(txs);
    MatchesAreConsumed(receipts, ws);
    FlagsPartition(receipts, Scan(receipts, ws).1);
  }

  // ---------------------------------------------------------------------------
  // The loop as written

  /** The outer loop's step: one more withdrawal extends the scan and the matches by its pick. */
  lemma ScanStep(receipts: seq<Receipt>, ws: seq<Transaction>, k: nat)
    requires k < |ws|
    ensures var (picks, found) := Scan(receipts, ws[..k]);
            var p := Pick(receipts, found, Abs(ws[k].amount));
            && Scan(receipts, ws[..k + 1]).1 == Mark(found, p)
            && MatchesOf(receipts, ws[..k + 1], Scan(receipts, ws[..k + 1]).0)
               == MatchesOf(receipts, ws[..k], picks) + (if p.Some? then [MatchFor(receipts, ws[k], p.value)] else [])
  {
    var next := ws[..k + 1];
    assert next[..k] == ws[..k];
    var picks := Scan(receipts, ws[..k]).0;
    var p := Pick(receipts, Scan(receipts, ws[..k]).1, Abs(ws[k].amount));
    assert Scan(receipts, next).0 == picks + [p];
    assert (picks + [p])[..k] == picks;
  }

  /** The inner loop: the first receipt not yet found that the withdrawal explains. */
  method FindReceipt(receipts: seq<Receipt>, found: seq<bool>, sent: real) returns (best: Option<nat>)
    requires |found| == |receipts|
    ensures best == Pick(receipts, found, sent)
  {
    best := None;
    var j := 0;
    while j < |receipts|
      invariant 0 <= j <= |receipts|
      invariant forall i | 0 <= i < j :: !Available(receipts, found, sent, i)
    {
      if !found[j] && Tolerates(receipts[j].amount, sent) {
        best := Some(j);
        assert Available(receipts, found, sent, j);
        return;
      }
      j := j + 1;
    }
  }

  /** The closing loop: the receipts never found, in order. */
  method CollectOrphans(receipts: seq<Receipt>, found: seq<bool>) returns (orphans: seq<Receipt>)
    requires |found| == |receipts|
    ensures orphans == Flagged(receipts, found, false)
  {
    orphans := [];
    var i := 0;
    while i < |receipts|
      invariant 0 <= i <= |receipts|
      invariant orphans == Flagged(receipts[..i], found[..i], false)
    {
      assert receipts[..i + 1][..i] == receipts[..i];
      assert found[..i + 1][..i] == found[..i];
      if !found[i] {
        orphans := orphans + [receipts[i]];
      }
      i := i + 1;
    }
    assert receipts[..i] == receipts && found[..i] == found;
  }

  /** The reconciliation with a mutable found flag per receipt, as the source runs it. */
  method VerifyWithdrawals(txs: seq<Transaction>, receipts: seq<Receipt>) returns (v: Verification)
    ensures v == Verify(txs, receipts)
  {
    var ws := Withdrawals(txs);
    var found := NoneFound(|receipts|);
    var matches: seq<Match> := [];
    var k := 0;
    while k < |ws|
      invariant 0 <= k <= |ws|
      invariant found == Scan(receipts, ws[..k]).1
      invariant matches == MatchesOf(receipts, ws[..k], Scan(receipts, ws[..k]).0)
    {
      var sent := Abs(ws[k].amount);
      var best := FindReceipt(receipts, found, sent);
      ScanStep(receipts, ws, k);
      if best.Some? {
        matches := matches + [MatchFor(receipts, ws[k], best.value)];
      }
      found := Mark(found, best);
      k := k + 1;
    }
    assert ws[..k] == ws;
    var orphans := CollectOrphans(receipts, found);
    var out, into := SumOf(ws, SentAmount), SumOf(receipts, ReceiptAmount);
    v := Verification(matches, orphans, Totals(out, into, into - out));
  }
}
