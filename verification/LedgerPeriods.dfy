/**
  One period of the ledger in terms of prices: what the holdings are worth at
  its end, and what a change of weights costs.
*/
module LedgerPeriods {
  import opened Reals
  import opened FiniteSums
  import opened Ledger
  import opened LedgerRuns

  // ---------------------------------------------------------------- marking to market

  /**
    What the holding of a symbol is worth at the end of a period: the units that
    its share of the equity e bought at the first price, at the second price. A
    symbol without both prices or outside the period returns keeps its worth.
  */
  function Worth(w: Weights, e: real, symbols: set<string>, from: Weights, to: Weights, s: string): real {
    if s in symbols && IsPriced(from, to, s) then Quotient(e * Get(w, s), from[s]) * to[s] else e * Get(w, s)
  }

  ghost function Holding(w: Weights, e: real, symbols: set<string>, from: Weights, to: Weights): string -> real {
    (s: string) => Worth(w, e, symbols, from, to, s)
  }

  ghost function HoldingsWorth(w: Weights, e: real, symbols: set<string>, from: Weights, to: Weights): real {
    SumOver(Holding(w, e, symbols, from, to), w.Keys)
  }

  lemma HoldingScalars(units: real, from: real, to: real, ret: real, e: real, w: real, worth: real, gain: real)
    requires units * from == e * w && from * (1.0 + ret) == to && worth == units * to && gain == w * ret
    ensures IsShare(worth, e, w, gain)
  {
    assert units * (from * (1.0 + ret)) == (units * from) * (1.0 + ret);
    assert (e * w) * (1.0 + ret) == e * w + e * (w * ret);
  }

  lemma Unchanged(e: real, w: real, ret: real)
    requires ret == 0.0
    ensures IsShare(e * w, e, w, w * ret)
  {
  }

  lemma HoldingIs(w: Weights, e: real, rets: Weights, from: Weights, to: Weights, s: string)
    requires LeadFromTo(rets, from, to)
    ensures IsShare(Holding(w, e, rets.Keys, from, to)(s), e, Entry(w)(s), Contribution(w, rets)(s))
  {
    hide IsShare;
    if s in rets && IsPriced(from, to, s) {
      assert Contribution(w, rets)(s) == Get(w, s) * rets[s];
      HoldingScalars(Quotient(e * Get(w, s), from[s]), from[s], to[s], rets[s], e, Get(w, s),
                     Worth(w, e, rets.Keys, from, to, s), Contribution(w, rets)(s));
    } else {
      Unchanged(e, Get(w, s), Get(rets, s));
    }
  }

  lemma HoldingsAre(w: Weights, e: real, rets: Weights, new': Weights, from: Weights, to: Weights)
    requires LeadFromTo(rets, from, to)
    ensures IsShare(HoldingsWorth(w, e, rets.Keys, from, to), e, Total(w), Gross(w, rets, new'))
  {
    GrossIs(w, rets, new');
    hide Holding, Entry, Contribution, LeadFromTo, Universe, IsShare, Gross;
    forall s ensures IsShare(Holding(w, e, rets.Keys, from, to)(s), e, Entry(w)(s), Contribution(w, rets)(s)) {
      HoldingIs(w, e, rets, from, to, s);
    }
    SumOverShare(Holding(w, e, rets.Keys, from, to), e, Entry(w), Contribution(w, rets), w.Keys);
  }

  /** Only the symbols held contribute. */
  lemma GrossIs(w: Weights, rets: Weights, new': Weights)
    ensures Gross(w, rets, new') == SumOver(Contribution(w, rets), w.Keys)
  {
    var u := Universe(w, rets, new');
    forall s | s in u - w.Keys ensures Contribution(w, rets)(s) == 0.0 {
      assert Get(w, s) == 0.0;
    }
    hide Contribution;
    SumOverExtend(Contribution(w, rets), w.Keys, u);
  }

  /**
    A rebalance marks the previous weights to market: the new equity is the part
    that was not invested, plus what the holdings are worth at the new prices,
    less the fee on the turnover, clamped at zero.
  */
  lemma MarkedToMarket(t: Table, r: Rebalance, from: Weights, to: Weights)
    requires LeadFromTo(r.rets, from, to)
    ensures var w, e := PrevWeights(t, r), PrevEquity(t);
      IsClampedWorth(NewRow(t, r).equity, e, Total(w), HoldingsWorth(w, e, r.rets.Keys, from, to),
                     NewRow(t, r).fee)
    ensures NewRow(t, r).fee == r.feeRate * NewRow(t, r).turnover
    ensures NewRow(t, r).turnover == L1Turnover(PrevWeights(t, r), r.rets, r.weights)
  {
    hide *;
    var w, e := PrevWeights(t, r), PrevEquity(t);
    RowParts(t, r, w);
    RowEquityIs(t, r);
    RunPnlIs(t, r, w);
    HoldingsAre(w, e, r.rets, r.weights, from, to);
    WorthScalars(e, Total(w), Gross(w, r.rets, r.weights), NewRow(t, r).fee, RunPnl(t, r).net, RunPnl(t, r).equity,
                 HoldingsWorth(w, e, r.rets.Keys, from, to), NewRow(t, r).equity);
  }

  /** equity = max(0, e (1 - invested) + holdings - e fee) */
  ghost predicate IsClampedWorth(equity: real, e: real, invested: real, holdings: real, fee: real) {
    equity == Max(0.0, e * (1.0 - invested) + holdings - e * fee)
  }

  lemma WorthScalars(e: real, total: real, gross: real, fee: real, net: real, raw: real, holdings: real, equity: real)
    requires IsShare(holdings, e, total, gross) && net == gross - fee && raw == e * (1.0 + net)
    requires equity == Max(0.0, raw)
    ensures IsClampedWorth(equity, e, total, holdings, fee)
  {
    assert e * (1.0 + (gross - fee)) == e * (1.0 - total) + e * (total + gross) - e * fee;
  }

  lemma RowParts(t: Table, r: Rebalance, w: Weights)
    requires w == PrevWeights(t, r)
    ensures NewRow(t, r).turnover == L1Turnover(w, r.rets, r.weights)
    ensures NewRow(t, r).fee == r.feeRate * NewRow(t, r).turnover
  {
    hide PrevWeights, PrevEquity, PrevCumulative, Gross, L1Turnover;
  }

  // ---------------------------------------------------------------- keeping the weights

  /** The weighted relative price change of a symbol. */
  ghost function Gain(w: Weights, from: Weights, to: Weights): string -> real {
    (s: string) => if IsPriced(from, to, s) then Get(w, s) * Quotient(to[s] - from[s], from[s]) else 0.0
  }

  lemma ReturnIsChange(from: real, to: real, ret: real)
    requires from > 0.0 && from * (1.0 + ret) == to
    ensures ret == Quotient(to - from, from)
  {
    var q := Quotient(to - from, from);
    assert q * from == to - from && ret * from == to - from;
    CancelOrder(from, q, ret);
  }

  lemma GainIs(w: Weights, rets: Weights, from: Weights, to: Weights, s: string)
    requires LeadFromTo(rets, from, to) && s in rets && IsPriced(from, to, s)
    ensures Contribution(w, rets)(s) == Gain(w, from, to)(s)
  {
    ReturnIsChange(from[s], to[s], rets[s]);
  }

  lemma GainsAre(w: Weights, rets: Weights, new': Weights, from: Weights, to: Weights)
    requires LeadFromTo(rets, from, to) && forall s :: s in w ==> s in rets && IsPriced(from, to, s)
    ensures Gross(w, rets, new') == SumOver(Gain(w, from, to), w.Keys)
  {
    GrossIs(w, rets, new');
    forall s | s in w ensures Contribution(w, rets)(s) == Gain(w, from, to)(s) {
      GainIs(w, rets, from, to, s);
    }
    hide Gain, Contribution, Gross, LeadFromTo;
    SumOverCongruence(Contribution(w, rets), Gain(w, from, to), w.Keys);
  }

  /** Keeping the weights costs nothing. */
  lemma NoTurnover(w: Weights, rets: Weights, new': Weights)
    requires NewOrPrevious(w, new') == w
    ensures L1Turnover(w, rets, new') == 0.0
  {
    SumOverExtend(Change(w, w), {}, Universe(w, rets, new'));
  }

  /** The clamped product of an equity with one plus a gain. */
  ghost predicate Grows(e: real, gain: real, equity: real) {
    equity == Max(0.0, e * (1.0 + gain))
  }

  /** A run that keeps its weights multiplies the equity by one plus the weighted relative price changes. */
  lemma KeptWeights(t: Table, r: Rebalance, from: Weights, to: Weights)
    requires LeadFromTo(r.rets, from, to) && NewOrPrevious(PrevWeights(t, r), r.weights) == PrevWeights(t, r)
    requires forall s :: s in PrevWeights(t, r) ==> s in r.rets && IsPriced(from, to, s)
    ensures NewRow(t, r).turnover == 0.0 && NewRow(t, r).fee == 0.0
    ensures Grows(PrevEquity(t), SumOver(Gain(PrevWeights(t, r), from, to), PrevWeights(t, r).Keys), NewRow(t, r).equity)
  {
    hide *;
    var w := PrevWeights(t, r);
    RowParts(t, r, w);
    RowEquityIs(t, r);
    RunPnlIs(t, r, w);
    NoTurnover(w, r.rets, r.weights);
    GainsAre(w, r.rets, r.weights, from, to);
    GrowthIs(PrevEquity(t), Gross(w, r.rets, r.weights), r.feeRate, L1Turnover(w, r.rets, r.weights),
             RunPnl(t, r).net, RunPnl(t, r).equity, NewRow(t, r).equity, NewRow(t, r).fee);
  }

  lemma GrowthIs(e: real, gain: real, feeRate: real, l1: real, net: real, raw: real, equity: real, fee: real)
    requires l1 == 0.0 && net == gain - feeRate * l1 && raw == e * (1.0 + net) && equity == Max(0.0, raw)
    requires fee == feeRate * l1
    ensures Grows(e, gain, equity) && fee == 0.0
  {
  }

  // ---------------------------------------------------------------- the turnover

  ghost function Bought(w: Weights, w': Weights): string -> real {
    (s: string) => Max(0.0, Get(w', s) - Get(w, s))
  }

  ghost function Sold(w: Weights, w': Weights): string -> real {
    (s: string) => Max(0.0, Get(w, s) - Get(w', s))
  }

  ghost function TotalBought(w: Weights, w': Weights): real {
    SumOver(Bought(w, w'), w.Keys + w'.Keys)
  }

  ghost function TotalSold(w: Weights, w': Weights): real {
    SumOver(Sold(w, w'), w.Keys + w'.Keys)
  }

  /**
    The turnover is what is bought plus what is sold, over all symbols of either
    map; what is bought less what is sold is the change of the total. So between
    weights of the same total half the turnover is what is bought.
  */
  lemma TurnoverIsBoughtAndSold(w: Weights, rets: Weights, new': Weights)
    ensures var w' := NewOrPrevious(w, new');
      && L1Turnover(w, rets, new') == TotalBought(w, w') + TotalSold(w, w')
      && Total(w') - Total(w) == TotalBought(w, w') - TotalSold(w, w')
  {
    var w' := NewOrPrevious(w, new');
    var u := w.Keys + w'.Keys;
    TotalOver(w, u);
    TotalOver(w', u);
    TurnoverIs(w, rets, new', w');
    hide *;
    ChangeParts(w, w', u);
    TotalsAre(w, w');
  }

  lemma TotalsAre(w: Weights, w': Weights)
    ensures TotalBought(w, w') == SumOver(Bought(w, w'), w.Keys + w'.Keys)
    ensures TotalSold(w, w') == SumOver(Sold(w, w'), w.Keys + w'.Keys)
  {
    hide Bought, Sold;
  }

  lemma TurnoverIs(w: Weights, rets: Weights, new': Weights, w': Weights)
    requires w' == NewOrPrevious(w, new')
    ensures L1Turnover(w, rets, new') == SumOver(Change(w, w'), w.Keys + w'.Keys)
  {
    assert L1Turnover(w, rets, new') == SumOver(Change(w, w'), Universe(w, rets, new'));
    hide L1Turnover, NewOrPrevious;
    ChangesOver(w, w', Universe(w, rets, new'));
  }

  lemma ChangesOver(w: Weights, w': Weights, all: set<string>)
    requires w.Keys + w'.Keys <= all
    ensures SumOver(Change(w, w'), all) == SumOver(Change(w, w'), w.Keys + w'.Keys)
  {
    forall s | s !in w && s !in w' ensures Change(w, w')(s) == 0.0 {
      assert Get(w, s) == 0.0 && Get(w', s) == 0.0;
    }
    hide Change;
    SumOverExtend(Change(w, w'), w.Keys + w'.Keys, all);
  }

  ghost function NetBought(w: Weights, w': Weights): string -> real {
    (s: string) => Get(w', s) - Get(w, s)
  }

  lemma ChangeParts(w: Weights, w': Weights, u: set<string>)
    ensures SumOver(Change(w, w'), u) == SumOver(Bought(w, w'), u) + SumOver(Sold(w, w'), u)
    ensures SumOver(Entry(w'), u) - SumOver(Entry(w), u) == SumOver(Bought(w, w'), u) - SumOver(Sold(w, w'), u)
  {
    forall s ensures Change(w, w')(s) == Bought(w, w')(s) + Sold(w, w')(s)
             ensures Bought(w, w')(s) == NetBought(w, w')(s) + Sold(w, w')(s)
             ensures Entry(w')(s) == Entry(w)(s) + NetBought(w, w')(s) {
    }
    hide *;
    SumOverAdd(Change(w, w'), Bought(w, w'), Sold(w, w'), u);
    SumOverAdd(Bought(w, w'), NetBought(w, w'), Sold(w, w'), u);
    SumOverAdd(Entry(w'), Entry(w), NetBought(w, w'), u);
  }

  /** Between weights of the same total, half the turnover is what is bought, and it is what the fee is taken on. */
  lemma HalfTurnoverIsBought(w: Weights, rets: Weights, e: real, new': Weights, feeRate: real, cumulative: real)
    requires Total(w) == Total(NewOrPrevious(w, new'))
    ensures var p, bought := PnlOf(w, rets, e, new', feeRate, cumulative, true), TotalBought(w, NewOrPrevious(w, new'));
      && p.turnover == bought && p.fee == feeRate * bought
      && p.cumulativePnl - cumulative == p.periodPnl == p.equity - e
  {
    TurnoverIsBoughtAndSold(w, rets, new');
    hide Gross, L1Turnover, TotalBought, Total, TotalSold, NewOrPrevious;
  }
}
