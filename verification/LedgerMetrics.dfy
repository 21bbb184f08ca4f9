/**
  The gateway's metrics computed from tables the rebalance engine wrote.
*/
module LedgerMetrics {
  import opened Reals
  import opened Ledger
  import opened LedgerRuns
  import opened RiskMetrics

  // ---------------------------------------------------------------- the query

  /** The times of the table in increasing order. */
  ghost predicate IsTimeOrder(t: Table, times: seq<int>) {
    && (forall i, j :: 0 <= i < j < |times| ==> times[i] < times[j])
    && (forall i :: 0 <= i < |times| ==> times[i] in t)
    && (forall k :: k in t ==> k in times)
  }

  function Store(time: int, r: Row): StoredRow {
    StoredRow(time, Some(r.equity), Some(r.vol), Some(r.sharpe), Some(r.turnover), Some(r.fee))
  }

  function StoreAll(t: Table, times: seq<int>): (rows: seq<StoredRow>)
    requires forall i :: 0 <= i < |times| ==> times[i] in t
    ensures |rows| == |times|
  {
    seq(|times|, i requires 0 <= i < |times| => Store(times[i], t[times[i]]))
  }

  /** How many rows a lookback leaves out. */
  function Skipped(n: nat, lookback: nat): (from: nat)
    ensures from <= n
  {
    if lookback <= n then n - lookback else 0
  }

  /** ORDER BY time DESC LIMIT lookback, given the times of the table in order. */
  function Query(t: Table, times: seq<int>, lookback: nat): seq<StoredRow>
    requires forall i :: 0 <= i < |times| ==> times[i] in t
  {
    Reversed(StoreAll(t, times[Skipped(|times|, lookback)..]))
  }

  lemma ReversedTwice(rows: seq<StoredRow>)
    ensures Reversed(Points(Reversed(rows))) == Points(rows)
  {
  }

  /**
    The query returns the newest rows: as many as there are, up to the lookback,
    latest first, and none that it leaves out is later than one it returns.
  */
  lemma QueryIsNewest(t: Table, times: seq<int>, lookback: nat, rows: seq<StoredRow>)
    requires IsTimeOrder(t, times) && rows == Query(t, times, lookback)
    ensures |rows| == if |times| < lookback then |times| else lookback
    ensures forall i, j :: 0 <= i < j < |rows| ==> rows[i].time > rows[j].time
    ensures forall i :: 0 <= i < |rows| ==> rows[i].time in t && rows[i] == Store(rows[i].time, t[rows[i].time])
    ensures forall k, i :: k in t && 0 <= i < |rows| && k > rows[i].time ==> exists j :: 0 <= j < i && rows[j].time == k
  {
    QueryRows(t, times, lookback, rows);
    hide Query, Store;
    forall k, i | k in t && 0 <= i < |rows| && k > rows[i].time ensures exists j :: 0 <= j < i && rows[j].time == k {
      var j := RowOfLater(t, times, rows, k, i);
    }
    LatestFirst(t, times, rows);
  }

  lemma LatestFirst(t: Table, times: seq<int>, rows: seq<StoredRow>)
    requires IsTimeOrder(t, times) && |rows| <= |times|
    requires forall i :: 0 <= i < |rows| ==> rows[i].time == times[|times| - 1 - i]
    ensures forall i, j :: 0 <= i < j < |rows| ==> rows[i].time > rows[j].time
    ensures forall i :: 0 <= i < |rows| ==> rows[i].time in t
  {
  }

  lemma RowOfLater(t: Table, times: seq<int>, rows: seq<StoredRow>, k: int, i: nat) returns (j: nat)
    requires IsTimeOrder(t, times) && |rows| <= |times| && i < |rows| && k in t && k > rows[i].time
    requires forall i :: 0 <= i < |rows| ==> rows[i].time == times[|times| - 1 - i]
    ensures j < i && rows[j].time == k
  {
    var p :| 0 <= p < |times| && times[p] == k;
    assert times[|times| - 1 - i] < times[p];
    j := |times| - 1 - p;
  }

  /** Row i of the query is the one at the i-th time from the end. */
  lemma QueryRows(t: Table, times: seq<int>, lookback: nat, rows: seq<StoredRow>)
    requires IsTimeOrder(t, times) && rows == Query(t, times, lookback)
    ensures |rows| == if |times| < lookback then |times| else lookback
    ensures forall i :: 0 <= i < |rows| ==> var k := times[|times| - 1 - i]; rows[i].time == k && rows[i] == Store(k, t[k])
  {
    var n, from := |times|, Skipped(|times|, lookback);
    forall i | 0 <= i < |rows| ensures rows[i] == Store(times[n - 1 - i], t[times[n - 1 - i]]) {
      assert times[from..][n - from - 1 - i] == times[n - 1 - i];
    }
    hide Query, IsTimeOrder;
  }

  /** The metrics are as of the latest row of the table, and report its volatility and Sharpe proxy. */
  lemma ReportedLatest(t: Table, times: seq<int>, lookback: nat, sqrt: real -> real)
    requires IsTimeOrder(t, times) && |times| > 0 && lookback > 0
    ensures t != map[]
    ensures var m, row := MetricsOf(Reversed(Points(Query(t, times, lookback))), sqrt), t[LatestTime(t)];
      && m.asOf == Some(LatestTime(t)) && m.vol == Some(row.vol) && m.sharpe == Some(row.sharpe)
      && m.observations == if |times| < lookback then |times| else lookback
  {
    var rows := Query(t, times, lookback);
    QueryIsNewest(t, times, lookback, rows);
    assert rows[0].time in t;
    assert rows[0].time == LatestTime(t);
    LatestOfMetrics(rows, sqrt);
    hide MetricsOf, Query;
  }

  lemma LatestOfMetrics(rows: seq<StoredRow>, sqrt: real -> real)
    requires |rows| > 0
    ensures var m := MetricsOf(Reversed(Points(rows)), sqrt);
      m.asOf == Some(rows[0].time) && m.vol == rows[0].vol && m.sharpe == rows[0].sharpe && m.observations == |rows|
  {
    hide RealizedSharpe, TurnoverSum, FeeDragSum, Drawdown, Returns;
  }

  /** After runs at strictly increasing times these are the time, volatility and Sharpe proxy of the last run. */
  lemma ReportedLastRun(rs: seq<Rebalance>, times: seq<int>, lookback: nat, sqrt: real -> real)
    requires StrictlyForward(map[], rs) && |rs| > 0 && lookback > 0 && IsTimeOrder(RunAll(map[], rs), times)
    ensures var m, r := MetricsOf(Reversed(Points(Query(RunAll(map[], rs), times, lookback))), sqrt), rs[|rs| - 1];
      m.asOf == Some(r.now) && m.vol == Some(r.vol) && m.sharpe == Some(r.sharpe)
  {
    var t, n := RunAll(map[], rs), |rs| - 1;
    TableIsTrace(map[], rs);
    TraceRecords(map[], rs, n);
    assert rs[n].now in t && t[rs[n].now] == Trace(map[], rs)[n];
    hide RunAll, Trace, MetricsOf, Query;
    assert rs[n].now in times;
    assert LatestTime(t) == rs[n].now;
    ReportedLatest(t, times, lookback, sqrt);
  }

  /** A row records the weights and the risk of its run. */
  lemma {:induction false} TraceRecords(t: Table, rs: seq<Rebalance>, i: nat)
    requires i < |rs|
    ensures var row := Trace(t, rs)[i]; row.weights == rs[i].weights && row.vol == rs[i].vol && row.sharpe == rs[i].sharpe
    decreases |rs|
  {
    hide RunPnl;
    if i > 0 {
      TraceRecords(Rebalanced(t, rs[0]), rs[1..], i - 1);
    }
  }

  /** Every selected equity of a reachable table is non-negative. */
  lemma SelectedNonNegative(rs: seq<Rebalance>, times: seq<int>, lookback: nat)
    requires IsTimeOrder(RunAll(map[], rs), times)
    ensures NonNegative(Equities(Reversed(Points(Query(RunAll(map[], rs), times, lookback)))))
  {
    var t := RunAll(map[], rs);
    EmptyTableIsBalanced();
    EveryReachableTableIsConsistent(map[], rs);
    var from := Skipped(|times|, lookback);
    ReversedTwice(StoreAll(t, times[from..]));
    var es := Equities(Points(StoreAll(t, times[from..])));
    forall i | 0 <= i < |es| ensures es[i] >= 0.0 {
      assert times[from..][i] in t;
    }
  }

  /**
    For every table reachable by the engine, under any clock, and every
    lookback, the reported drawdown is the quadratic maximum over the selected
    equities and lies in [0, 1].
  */
  lemma ReportedDrawdown(rs: seq<Rebalance>, times: seq<int>, lookback: nat, ps: seq<Point>, sqrt: real -> real)
    requires IsTimeOrder(RunAll(map[], rs), times) && |times| > 0 && lookback > 0
    requires ps == Reversed(Points(Query(RunAll(map[], rs), times, lookback)))
    ensures |ps| > 0
    ensures IsMaxDrawdown(Equities(ps), |ps|, MetricsOf(ps, sqrt).maxDrawdown)
    ensures 0.0 <= MetricsOf(ps, sqrt).maxDrawdown <= 1.0
  {
    SelectedNonNegative(rs, times, lookback);
    MetricsDrawdown(ps, sqrt);
    hide MetricsOf, IsMaxDrawdown;
    DrawdownIsQuadratic(Equities(ps), |ps|);
    DrawdownNotNegative(Equities(ps), |ps|);
  }

  lemma MetricsDrawdown(ps: seq<Point>, sqrt: real -> real)
    requires |ps| > 0
    ensures MetricsOf(ps, sqrt).maxDrawdown == Drawdown(Equities(ps), |ps|)
  {
    hide RealizedSharpe, TurnoverSum, FeeDragSum, Drawdown;
  }

  lemma DrawdownNotNegative(es: seq<real>, k: nat)
    requires 0 < |es| && k <= |es| && IsMaxDrawdown(es, k, Drawdown(es, k))
    ensures Drawdown(es, k) >= 0.0
  {
    hide Fall, Drawdown;
  }

  // ---------------------------------------------------------------- gateway returns are engine returns

  /** The rows in the order the runs wrote them. */
  ghost function Trace(t: Table, rs: seq<Rebalance>): (rows: seq<Row>)
    ensures |rows| == |rs|
    decreases |rs|
  {
    if |rs| == 0 then [] else [NewRow(t, rs[0])] + Trace(Rebalanced(t, rs[0]), rs[1..])
  }

  /** The net return each run applied. */
  ghost function Nets(t: Table, rs: seq<Rebalance>): (nets: seq<real>)
    ensures |nets| == |rs|
    decreases |rs|
  {
    if |rs| == 0 then [] else [RunPnl(t, rs[0]).net] + Nets(Rebalanced(t, rs[0]), rs[1..])
  }

  ghost function TraceEquities(t: Table, rs: seq<Rebalance>): (es: seq<real>)
    ensures |es| == |rs|
    ensures forall i :: 0 <= i < |rs| ==> es[i] == Trace(t, rs)[i].equity
  {
    seq(|rs|, i requires 0 <= i < |rs| => Trace(t, rs)[i].equity)
  }

  /** A row that no later run overwrites stays as it is. */
  lemma {:induction false} Untouched(t: Table, rs: seq<Rebalance>, k: int)
    requires k in t && forall i :: 0 <= i < |rs| ==> rs[i].now != k
    ensures k in RunAll(t, rs) && RunAll(t, rs)[k] == t[k]
    decreases |rs|
  {
    hide NewRow;
    if |rs| != 0 {
      Untouched(Rebalanced(t, rs[0]), rs[1..], k);
    }
  }

  /** With strictly increasing run times the table in time order is the trace of the runs. */
  lemma {:induction false} TableIsTrace(t: Table, rs: seq<Rebalance>)
    requires StrictlyForward(t, rs)
    ensures forall i :: 0 <= i < |rs| ==>
      rs[i].now in RunAll(t, rs) && RunAll(t, rs)[rs[i].now] == Trace(t, rs)[i]
    ensures forall k :: k in RunAll(t, rs) ==> k in t || exists i :: 0 <= i < |rs| && rs[i].now == k
    decreases |rs|
  {
    hide NewRow;
    if |rs| != 0 {
      var t' := Rebalanced(t, rs[0]);
      ForwardTail(t, rs);
      TableIsTrace(t', rs[1..]);
      Untouched(t', rs[1..], rs[0].now);
      forall i | 0 <= i < |rs| ensures rs[i].now in RunAll(t, rs) && RunAll(t, rs)[rs[i].now] == Trace(t, rs)[i] {
        if i > 0 {
          assert rs[1..][i - 1] == rs[i];
        }
      }
      forall k | k in RunAll(t, rs) ensures k in t || exists i :: 0 <= i < |rs| && rs[i].now == k {
        if k !in t && k != rs[0].now {
          var i :| 0 <= i < |rs| - 1 && rs[1..][i].now == k;
          assert rs[i + 1].now == k;
        } else if k !in t {
          assert rs[0].now == k;
        }
      }
    }
  }

  /** The equity a period leaves: the product with 1 + net, clamped at zero. */
  predicate ClampedStep(e: real, net: real, e': real) {
    e' == Max(0.0, e * (1.0 + net))
  }

  /** Consecutive rows are related by the net return of the later run. */
  lemma {:induction false} TraceStep(t: Table, rs: seq<Rebalance>, i: nat)
    requires Forward(t, rs) && 0 < i < |rs|
    ensures ClampedStep(Trace(t, rs)[i - 1].equity, Nets(t, rs)[i], Trace(t, rs)[i].equity)
    decreases |rs|
  {
    hide *;
    if i == 1 {
      TraceFirstStep(t, rs);
    } else {
      ForwardTail(t, rs);
      TraceStep(Rebalanced(t, rs[0]), rs[1..], i - 1);
      TraceTail(t, rs, i - 1);
      TraceTail(t, rs, i);
    }
  }

  lemma TraceTail(t: Table, rs: seq<Rebalance>, i: nat)
    requires 0 < i < |rs|
    ensures Trace(t, rs)[i] == Trace(Rebalanced(t, rs[0]), rs[1..])[i - 1]
    ensures Nets(t, rs)[i] == Nets(Rebalanced(t, rs[0]), rs[1..])[i - 1]
  {
    hide NewRow, RunPnl, Rebalanced;
  }

  lemma TraceFirstStep(t: Table, rs: seq<Rebalance>)
    requires Forward(t, rs) && |rs| > 1
    ensures ClampedStep(Trace(t, rs)[0].equity, Nets(t, rs)[1], Trace(t, rs)[1].equity)
  {
    var t' := Rebalanced(t, rs[0]);
    ForwardLatest(t, rs);
    hide NewRow, RunPnl, PrevEquity, PrevWeights, Rebalanced, ClampedStep, Forward;
    StateAfterForwardRun(t, rs[0]);
    RowEquity(t', rs[1]);
    assert Trace(t, rs)[1] == Trace(t', rs[1..])[0];
    assert Nets(t, rs)[1] == Nets(t', rs[1..])[0];
  }

  lemma RowEquity(t: Table, r: Rebalance)
    ensures ClampedStep(PrevEquity(t), RunPnl(t, r).net, NewRow(t, r).equity)
  {
    hide Gross, L1Turnover, PrevEquity, PrevWeights, PrevCumulative;
  }

  /**
    The simple return the gateway recomputes from two consecutive rows is the
    net return the engine applied if and only if that is at least -1, that is,
    the clamp did not act.
  */
  lemma GatewayReturnIsNetExactlyWhen(e: real, net: real, e': real)
    requires e > 0.0 && ClampedStep(e, net, e')
    ensures e' / e - 1.0 == net <==> net >= -1.0
  {
    var q := e' / e;
    assert q * e == e';
    var product := e * (1.0 + net);
    if net >= -1.0 {
      ProductNonNegative(e, 1.0 + net);
      assert e' == product;
      assert (1.0 + net) * e == product;
      CancelOrder(e, q, 1.0 + net);
    } else {
      PositiveProduct(e, -1.0 - net);
      assert e * (-1.0 - net) == -product;
      assert e' == 0.0;
    }
  }

  /** Returns of a curve whose every step is the factor 1 + net. */
  lemma {:induction false} ReturnsAreNets(es: seq<real>, nets: seq<real>, k: nat)
    requires 0 < k <= |es| == |nets| && AllPositive(es)
    requires forall i :: 0 < i < |es| ==> ClampedStep(es[i - 1], nets[i], es[i])
    ensures Returns(es, k) == nets[1..k]
  {
    hide ClampedStep;
    if k > 1 {
      ReturnsAreNets(es, nets, k - 1);
      PositiveStep(es[k - 2], nets[k - 1], es[k - 1]);
      assert nets[1..k] == nets[1..k - 1] + [nets[k - 1]];
    }
  }

  lemma PositiveStep(e: real, net: real, e': real)
    requires e > 0.0 && e' > 0.0 && ClampedStep(e, net, e')
    ensures e' / e - 1.0 == net
  {
    PositiveCofactor(1.0 + net, e);
    GatewayReturnIsNetExactlyWhen(e, net, e');
  }

  /** The recomputed returns are the nets after the first, and compound to last / first. */
  ghost predicate Recovers(es: seq<real>, nets: seq<real>)
    requires 0 < |es| == |nets|
  {
    Returns(es, |es|) == nets[1..] && es[0] * Compound(Returns(es, |es|)) == es[|es| - 1]
  }

  /**
    Over runs at strictly increasing times that keep equity positive, the
    returns recomputed from the stored rows - from any row on - are exactly the
    net returns the engine used, and they compound to the ratio of the last to
    the first equity.
  */
  lemma TraceRecovers(rs: seq<Rebalance>, from: nat)
    requires StrictlyForward(map[], rs) && from < |rs|
    requires AllPositive(TraceEquities(map[], rs))
    ensures var es, nets := TraceEquities(map[], rs)[from..], Nets(map[], rs)[from..];
      && (forall i :: 0 <= i < |es| ==>
            rs[from + i].now in RunAll(map[], rs) && RunAll(map[], rs)[rs[from + i].now].equity == es[i])
      && Recovers(es, nets)
  {
    TableIsTrace(map[], rs);
    hide Trace, Nets, RunAll, Recovers, TraceEquities, StrictlyForward;
    SuffixRecovers(rs, from, TraceEquities(map[], rs)[from..], Nets(map[], rs)[from..]);
  }

  lemma SuffixRecovers(rs: seq<Rebalance>, from: nat, es: seq<real>, nets: seq<real>)
    requires StrictlyForward(map[], rs) && from < |rs| && AllPositive(TraceEquities(map[], rs))
    requires es == TraceEquities(map[], rs)[from..] && nets == Nets(map[], rs)[from..]
    ensures Recovers(es, nets)
  {
    SuffixSteps(rs, from);
    hide Trace, Nets, RunAll, Recovers, TraceEquities, StrictlyForward, ClampedStep;
    PositiveSuffix(TraceEquities(map[], rs), from);
    CurveRecovers(es, nets);
  }

  lemma CurveRecovers(es: seq<real>, nets: seq<real>)
    requires 0 < |es| == |nets| && AllPositive(es)
    requires forall i :: 0 < i < |es| ==> ClampedStep(es[i - 1], nets[i], es[i])
    ensures Recovers(es, nets)
  {
    hide ClampedStep;
    ReturnsAreNets(es, nets, |es|);
    assert nets[1..|es|] == nets[1..];
    ReturnsTelescope(es, |es|);
  }

  lemma SuffixSteps(rs: seq<Rebalance>, from: nat)
    requires StrictlyForward(map[], rs) && from < |rs|
    ensures var es, nets := TraceEquities(map[], rs)[from..], Nets(map[], rs)[from..];
      forall i :: 0 < i < |es| ==> ClampedStep(es[i - 1], nets[i], es[i])
  {
    assert Forward(map[], rs);
    var es, nets := TraceEquities(map[], rs)[from..], Nets(map[], rs)[from..];
    hide *;
    forall i | 0 < i < |es| ensures ClampedStep(es[i - 1], nets[i], es[i]) {
      SuffixStep(rs, from, i, es, nets);
    }
  }

  lemma SuffixStep(rs: seq<Rebalance>, from: nat, i: nat, es: seq<real>, nets: seq<real>)
    requires Forward(map[], rs) && from < |rs| && 0 < i < |rs| - from
    requires es == TraceEquities(map[], rs)[from..] && nets == Nets(map[], rs)[from..]
    ensures ClampedStep(es[i - 1], nets[i], es[i])
  {
    hide *;
    TraceStep(map[], rs, from + i);
  }

  lemma PositiveSuffix(es: seq<real>, from: nat)
    requires AllPositive(es) && from <= |es|
    ensures AllPositive(es[from..])
  {
  }

  // ---------------------------------------------------------------- through the query

  /** Two strictly increasing sequences of the same numbers are the same. */
  lemma {:induction false} SameSorted(a: seq<int>, b: seq<int>)
    requires (forall i, j :: 0 <= i < j < |a| ==> a[i] < a[j]) && (forall i, j :: 0 <= i < j < |b| ==> b[i] < b[j])
    requires forall x :: x in a <==> x in b
    ensures a == b
  {
    if |a| == 0 {
      if |b| > 0 {
        FirstIn(b);
      }
    } else {
      FirstIn(a);
      assert a[0] in b;
      FirstIn(b);
      assert a[0] == b[0];
      forall x ensures x in a[1..] <==> x in b[1..] {
        RestOfSorted(a, x);
        RestOfSorted(b, x);
      }
      SameSorted(a[1..], b[1..]);
    }
  }

  lemma FirstIn(a: seq<int>)
    requires |a| > 0
    ensures a[0] in a
  {
  }

  lemma RestOfSorted(a: seq<int>, x: int)
    requires |a| > 0 && forall i, j :: 0 <= i < j < |a| ==> a[i] < a[j]
    ensures x in a[1..] <==> x in a && x != a[0]
  {
  }

  function Nows(rs: seq<Rebalance>): (times: seq<int>)
    ensures |times| == |rs|
  {
    seq(|rs|, i requires 0 <= i < |rs| => rs[i].now)
  }

  /** With strictly increasing run times, the times of the table in order are the run times. */
  lemma TimesAreNows(rs: seq<Rebalance>, times: seq<int>)
    requires StrictlyForward(map[], rs) && IsTimeOrder(RunAll(map[], rs), times)
    ensures times == Nows(rs)
  {
    TableIsTrace(map[], rs);
    hide RunAll, Trace;
    var nows := Nows(rs);
    forall x ensures x in times <==> x in nows {
      if x in nows {
        var i :| 0 <= i < |nows| && nows[i] == x;
        assert rs[i].now in RunAll(map[], rs);
      }
      if x in times {
        assert x in RunAll(map[], rs);
        var i :| 0 <= i < |rs| && rs[i].now == x;
        assert nows[i] == x;
      }
    }
    SameSorted(times, nows);
  }

  /** The equities the gateway selects, oldest first. */
  function SelectedEquities(t: Table, times: seq<int>, lookback: nat): seq<real>
    requires forall i :: 0 <= i < |times| ==> times[i] in t
  {
    Equities(Reversed(Points(Query(t, times, lookback))))
  }

  lemma SelectionIsSuffix(rs: seq<Rebalance>, times: seq<int>, lookback: nat)
    requires StrictlyForward(map[], rs) && IsTimeOrder(RunAll(map[], rs), times)
    ensures SelectedEquities(RunAll(map[], rs), times, lookback) == TraceEquities(map[], rs)[Skipped(|rs|, lookback)..]
  {
    StoredRows(rs, times);
    hide *;
    SelectionOfAll(RunAll(map[], rs), times, lookback, TraceEquities(map[], rs));
  }

  lemma SelectionOfAll(t: Table, times: seq<int>, lookback: nat, all: seq<real>)
    requires |all| == |times|
    requires forall i :: 0 <= i < |times| ==> times[i] in t && t[times[i]].equity == all[i]
    ensures SelectedEquities(t, times, lookback) == all[Skipped(|times|, lookback)..]
  {
    hide Store;
    ReversedTwice(StoreAll(t, times[Skipped(|times|, lookback)..]));
    StoredEquities(t, times, Skipped(|times|, lookback), all);
  }

  lemma StoredRows(rs: seq<Rebalance>, times: seq<int>)
    requires StrictlyForward(map[], rs) && IsTimeOrder(RunAll(map[], rs), times)
    ensures |times| == |rs|
    ensures forall i :: 0 <= i < |rs| ==>
      times[i] in RunAll(map[], rs) && RunAll(map[], rs)[times[i]].equity == TraceEquities(map[], rs)[i]
  {
    TimesAreNows(rs, times);
    TableIsTrace(map[], rs);
    hide IsTimeOrder, StrictlyForward;
  }

  lemma StoredEquities(t: Table, times: seq<int>, from: nat, all: seq<real>)
    requires |all| == |times| && from <= |times|
    requires forall i :: 0 <= i < |times| ==> times[i] in t && t[times[i]].equity == all[i]
    ensures Equities(Points(StoreAll(t, times[from..]))) == all[from..]
  {
  }

  /**
    For every lookback: over runs at strictly increasing times that keep equity
    positive, the returns the gateway recomputes from the rows its query selects
    are the net returns of the engine's latest runs but the first selected one,
    and they compound to the ratio of the last to the first selected equity.
  */
  lemma GatewayRecoversEngineReturns(rs: seq<Rebalance>, times: seq<int>, lookback: nat)
    requires StrictlyForward(map[], rs) && IsTimeOrder(RunAll(map[], rs), times) && |rs| > 0 && lookback > 0
    requires AllPositive(TraceEquities(map[], rs))
    ensures var es, nets := SelectedEquities(RunAll(map[], rs), times, lookback), Nets(map[], rs)[Skipped(|rs|, lookback)..];
      0 < |es| == |nets| && Recovers(es, nets)
  {
    hide RunAll, TraceEquities, Nets, Recovers, SelectedEquities, StrictlyForward, IsTimeOrder, AllPositive;
    TraceRecovers(rs, Skipped(|rs|, lookback));
    SelectionIsSuffix(rs, times, lookback);
  }
}
