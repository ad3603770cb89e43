/** The dashboard's computations over the table read back from the store:
    the indicator filter with its "Todos" wildcard, the indicator sums, the
    revenue grouped by (Ano, Mês) and the two-period comparison.
 */
module Indicators {
  import opened Schema
  import Batch

  /** The wildcard entry offered first in both indicator select boxes. */
  const Todos: string := "Todos"

  /** The (Ano, Mês) pair a row belongs to. */
  datatype Period = Period(ano: string, mes: string)

  function PeriodOf(r: Row): Period {
    Period(r.ano, r.mes)
  }

  /** The boolean masks the dashboard builds over the table. */
  datatype Mask =
    | AnoIs(ano: string)             // df["Ano"] == ano
    | MesIs(mes: string)             // df["Mês"] == mes
    | PeriodIs(period: Period)       // (df["Ano"] == ano) & (df["Mês"] == mes)

  predicate Holds(m: Mask, r: Row) {
    match m
    case AnoIs(a) => r.ano == a
    case MesIs(s) => r.mes == s
    case PeriodIs(p) => PeriodOf(r) == p
  }

  /** `df[mask]`: the rows the mask holds for, in table order. Each row that
      passes appears as often as in the table, each other row not at all. */
  function Where(table: seq<Row>, m: Mask): (sel: seq<Row>)
    ensures IsSubsequence(sel, table)
    ensures forall x :: multiset(sel)[x] == (if Holds(m, x) then multiset(table)[x] else 0)
  {
    if |table| == 0 then []
    else
      assert table == [table[0]] + table[1..];
      var rest := Where(table[1..], m);
      if Holds(m, table[0]) then [table[0]] + rest else rest
  }

  lemma {:induction false} WhereAppend(a: seq<Row>, b: seq<Row>, m: Mask)
    ensures Where(a + b, m) == Where(a, m) + Where(b, m)
  {
    if |a| == 0 {
      assert a + b == b;
    } else {
      assert (a + b)[0] == a[0];
      assert (a + b)[1..] == a[1..] + b;
      WhereAppend(a[1..], b, m);
    }
  }

  /** A subsequence of the table that has each passing row as often as the
      table and no other row is the masked table itself. */
  lemma {:induction false} WhereUnique(table: seq<Row>, m: Mask, s: seq<Row>)
    requires IsSubsequence(s, table)
    requires forall x :: multiset(s)[x] == (if Holds(m, x) then multiset(table)[x] else 0)
    ensures s == Where(table, m)
    decreases |table|
  {
    if |table| > 0 {
      var d, rest := table[0], table[1..];
      assert table == [d] + rest;
      if Holds(m, d) {
        assert multiset(s)[d] == multiset(table)[d] > 0;
        assert |s| > 0;
        if !(s[0] == d && IsSubsequence(s[1..], rest)) {
          assert IsSubsequence(s, rest);
          SubsequenceMultiset(s, rest);
          assert false;
        }
        assert s == [d] + s[1..];
        forall x
          ensures multiset(s[1..])[x] == if Holds(m, x) then multiset(rest)[x] else 0
        {
          assert multiset(s)[x] == multiset{d}[x] + multiset(s[1..])[x];
        }
        WhereUnique(rest, m, s[1..]);
      } else {
        assert multiset(s)[d] == 0;
        if |s| > 0 {
          assert s[0] in multiset(s);
          assert s[0] != d;
        }
        assert IsSubsequence(s, rest);
        forall x
          ensures multiset(s)[x] == if Holds(m, x) then multiset(rest)[x] else 0
        {
          if Holds(m, x) {
            assert x != d;
          }
        }
        WhereUnique(rest, m, s);
      }
    }
  }

  /** The indicator filter's meaning: a row counts when each select box is
      either "Todos" or equal to the row's value. */
  predicate Selected(r: Row, anoFiltro: string, mesFiltro: string) {
    && (anoFiltro == Todos || r.ano == anoFiltro)
    && (mesFiltro == Todos || r.mes == mesFiltro)
  }

  /** The four-way indicator filter, branch by branch. The selection keeps
      exactly the selected rows of the table, in table order, and both boxes
      on "Todos" keep the whole table. */
  function KpiSelection(df: seq<Row>, anoFiltro: string, mesFiltro: string): (sel: seq<Row>)
    ensures IsSubsequence(sel, df)
    ensures forall x ::
              multiset(sel)[x] == (if Selected(x, anoFiltro, mesFiltro) then multiset(df)[x] else 0)
    ensures anoFiltro == Todos && mesFiltro == Todos ==> sel == df
  {
    if anoFiltro != Todos && mesFiltro != Todos then Where(df, PeriodIs(Period(anoFiltro, mesFiltro)))
    else if anoFiltro != Todos then Where(df, AnoIs(anoFiltro))
    else if mesFiltro != Todos then Where(df, MesIs(mesFiltro))
    else
      SubsequenceReflexive(df);
      df
  }

  /** No other subsequence of the table has the selection's contents: the
      indicator table is determined by which rows are selected. */
  lemma {:induction false} KpiSelectionUnique(df: seq<Row>, anoFiltro: string, mesFiltro: string, s: seq<Row>)
    requires IsSubsequence(s, df)
    requires forall x ::
               multiset(s)[x] == (if Selected(x, anoFiltro, mesFiltro) then multiset(df)[x] else 0)
    ensures s == KpiSelection(df, anoFiltro, mesFiltro)
  {
    var sel := KpiSelection(df, anoFiltro, mesFiltro);
    if anoFiltro != Todos && mesFiltro != Todos {
      WhereUnique(df, PeriodIs(Period(anoFiltro, mesFiltro)), s);
    } else if anoFiltro != Todos {
      WhereUnique(df, AnoIs(anoFiltro), s);
    } else if mesFiltro != Todos {
      WhereUnique(df, MesIs(mesFiltro), s);
    } else {
      assert multiset(s) == multiset(df);
      assert |s| == |df| by {
        assert |multiset(s)| == |s| && |multiset(df)| == |df|;
      }
      SubsequenceFull(s, df);
    }
  }

  /** `df["Faturamento"].sum()` (0 on an empty table). */
  function TotalFaturamento(rows: seq<Row>): real {
    if |rows| == 0 then 0.0 else rows[0].faturamento + TotalFaturamento(rows[1..])
  }

  /** `df["Comandas"].sum()` (0 on an empty table). */
  function TotalComandas(rows: seq<Row>): int {
    if |rows| == 0 then 0 else rows[0].comandas + TotalComandas(rows[1..])
  }

  /** Both sums add up over a split of the table. */
  lemma {:induction false} TotalsAppend(a: seq<Row>, b: seq<Row>)
    ensures TotalFaturamento(a + b) == TotalFaturamento(a) + TotalFaturamento(b)
    ensures TotalComandas(a + b) == TotalComandas(a) + TotalComandas(b)
  {
    if |a| == 0 {
      assert a + b == b;
    } else {
      assert (a + b)[0] == a[0];
      assert (a + b)[1..] == a[1..] + b;
      TotalsAppend(a[1..], b);
    }
  }

  /** The indicator sums of a merged upload are the sums of the files'
      indicator sums. */
  lemma {:induction false} TotalsOfMerge(batches: seq<seq<Row>>)
    ensures TotalFaturamento(Batch.Merge(batches)) == SumOver(batches, TotalFaturamento)
    ensures TotalComandas(Batch.Merge(batches)) == SumOverInt(batches, TotalComandas)
  {
    if |batches| > 0 {
      TotalsOfMerge(batches[1..]);
      TotalsAppend(batches[0], Batch.Merge(batches[1..]));
    }
  }

  function SumOver(batches: seq<seq<Row>>, f: seq<Row> -> real): real {
    if |batches| == 0 then 0.0 else f(batches[0]) + SumOver(batches[1..], f)
  }

  function SumOverInt(batches: seq<seq<Row>>, f: seq<Row> -> int): int {
    if |batches| == 0 then 0 else f(batches[0]) + SumOverInt(batches[1..], f)
  }

  /** With non-negative amounts, a masked table never sums to more than the
      whole table. */
  lemma {:induction false} WhereTotalsBounded(table: seq<Row>, m: Mask)
    requires forall i :: 0 <= i < |table| ==> table[i].faturamento >= 0.0 && table[i].comandas >= 0
    ensures 0.0 <= TotalFaturamento(Where(table, m)) <= TotalFaturamento(table)
    ensures 0 <= TotalComandas(Where(table, m)) <= TotalComandas(table)
  {
    if |table| > 0 {
      WhereTotalsBounded(table[1..], m);
    }
  }

  /** The indicator sums of a selection lie between 0 and the whole table's
      sums when the amounts are non-negative. */
  lemma {:induction false} KpiTotalsBounded(df: seq<Row>, anoFiltro: string, mesFiltro: string)
    requires forall i :: 0 <= i < |df| ==> df[i].faturamento >= 0.0 && df[i].comandas >= 0
    ensures var sel := KpiSelection(df, anoFiltro, mesFiltro);
      && 0.0 <= TotalFaturamento(sel) <= TotalFaturamento(df)
      && 0 <= TotalComandas(sel) <= TotalComandas(df)
  {
    if anoFiltro != Todos && mesFiltro != Todos {
      WhereTotalsBounded(df, PeriodIs(Period(anoFiltro, mesFiltro)));
    } else if anoFiltro != Todos {
      WhereTotalsBounded(df, AnoIs(anoFiltro));
    } else if mesFiltro != Todos {
      WhereTotalsBounded(df, MesIs(mesFiltro));
    } else {
      TotalsNonNegative(df);
    }
  }

  /** With non-negative amounts, both sums are non-negative. */
  lemma {:induction false} TotalsNonNegative(rows: seq<Row>)
    requires forall i :: 0 <= i < |rows| ==> rows[i].faturamento >= 0.0 && rows[i].comandas >= 0
    ensures TotalFaturamento(rows) >= 0.0 && TotalComandas(rows) >= 0
  {
    if |rows| > 0 {
      TotalsNonNegative(rows[1..]);
    }
  }

  /** When no row matches the select boxes, the indicator table is empty and
      both indicator sums are 0. */
  lemma KpiNothingSelected(df: seq<Row>, anoFiltro: string, mesFiltro: string)
    requires forall i :: 0 <= i < |df| ==> !Selected(df[i], anoFiltro, mesFiltro)
    ensures KpiSelection(df, anoFiltro, mesFiltro) == []
    ensures TotalFaturamento(KpiSelection(df, anoFiltro, mesFiltro)) == 0.0
    ensures TotalComandas(KpiSelection(df, anoFiltro, mesFiltro)) == 0
  {
  }

  /** The revenue of one period: `df.loc[filtro, "Faturamento"].sum()`. */
  function PeriodTotal(df: seq<Row>, per: Period): real {
    TotalFaturamento(Where(df, PeriodIs(per)))
  }

  /** Adding a row to the table adds its revenue to its own period only. */
  lemma PeriodTotalSnoc(df: seq<Row>, x: Row)
    ensures forall per ::
              PeriodTotal(df + [x], per) ==
              PeriodTotal(df, per) + (if PeriodOf(x) == per then x.faturamento else 0.0)
  {
    forall per
      ensures PeriodTotal(df + [x], per) ==
        PeriodTotal(df, per) + (if PeriodOf(x) == per then x.faturamento else 0.0)
    {
      WhereAppend(df, [x], PeriodIs(per));
      TotalsAppend(Where(df, PeriodIs(per)), Where([x], PeriodIs(per)));
    }
  }

  /** One bar of the grouped revenue: a period and its summed revenue. */
  datatype Group = Group(period: Period, total: real)

  function Periods(gs: seq<Group>): set<Period> {
    set k | 0 <= k < |gs| :: gs[k].period
  }

  lemma PeriodsCons(g: Group, gs: seq<Group>)
    ensures Periods([g] + gs) == {g.period} + Periods(gs)
  {
    var r := [g] + gs;
    assert r[0] == g;
    forall per | per in Periods(r)
      ensures per in {g.period} + Periods(gs)
    {
      var k :| 0 <= k < |r| && r[k].period == per;
      if k > 0 {
        assert gs[k - 1].period == per;
      }
    }
    forall per | per in Periods(gs)
      ensures per in Periods(r)
    {
      var k :| 0 <= k < |gs| && gs[k].period == per;
      assert r[k + 1].period == per;
    }
  }

  predicate DistinctPeriods(gs: seq<Group>) {
    forall k, l :: 0 <= k < l < |gs| ==> gs[k].period != gs[l].period
  }

  /** The total recorded for a period, 0 when it has no group. */
  function Lookup(gs: seq<Group>, per: Period): real {
    if |gs| == 0 then 0.0
    else if gs[0].period == per then gs[0].total
    else Lookup(gs[1..], per)
  }

  function SumTotals(gs: seq<Group>): real {
    if |gs| == 0 then 0.0 else gs[0].total + SumTotals(gs[1..])
  }

  /** Accumulating one row into the groups: its revenue goes to its period's
      group, which is opened at the end when the period is new. */
  function AddToGroups(gs: seq<Group>, x: Row): (r: seq<Group>)
    ensures Periods(r) == Periods(gs) + {PeriodOf(x)}
    ensures forall per ::
              Lookup(r, per) == Lookup(gs, per) + (if per == PeriodOf(x) then x.faturamento else 0.0)
  {
    if |gs| == 0 then
      var g := Group(PeriodOf(x), x.faturamento);
      PeriodsCons(g, []);
      assert [g] + [] == [g];
      [g]
    else
      assert gs == [gs[0]] + gs[1..];
      PeriodsCons(gs[0], gs[1..]);
      if gs[0].period == PeriodOf(x) then
        var g := Group(gs[0].period, gs[0].total + x.faturamento);
        PeriodsCons(g, gs[1..]);
        [g] + gs[1..]
      else
        var rest := AddToGroups(gs[1..], x);
        PeriodsCons(gs[0], rest);
        [gs[0]] + rest
  }

  /** Accumulating a row never opens a second group for a period. */
  lemma {:induction false} AddToGroupsDistinct(gs: seq<Group>, x: Row)
    requires DistinctPeriods(gs)
    ensures DistinctPeriods(AddToGroups(gs, x))
  {
    if |gs| > 0 && gs[0].period != PeriodOf(x) {
      var rest := AddToGroups(gs[1..], x);
      AddToGroupsDistinct(gs[1..], x);
      assert gs[0].period !in Periods(gs[1..]) by {
        forall k | 0 <= k < |gs[1..]|
          ensures gs[1..][k].period != gs[0].period
        {
          assert gs[1..][k] == gs[k + 1];
        }
      }
      var r := AddToGroups(gs, x);
      assert r == [gs[0]] + rest;
      forall k, l | 0 <= k < l < |r|
        ensures r[k].period != r[l].period
      {
        if k == 0 {
          assert r[l].period == rest[l - 1].period;
          assert rest[l - 1].period in Periods(rest);
        } else {
          assert r[k] == rest[k - 1] && r[l] == rest[l - 1];
        }
      }
    } else if |gs| > 0 {
      var r := AddToGroups(gs, x);
      forall k, l | 0 <= k < l < |r|
        ensures r[k].period != r[l].period
      {
        assert r[k].period == gs[k].period && r[l].period == gs[l].period;
      }
    }
  }

  /** Accumulating a row adds its revenue to the total of all groups. */
  lemma {:induction false} AddToGroupsSum(gs: seq<Group>, x: Row)
    ensures SumTotals(AddToGroups(gs, x)) == SumTotals(gs) + x.faturamento
  {
    if |gs| > 0 && gs[0].period != PeriodOf(x) {
      AddToGroupsSum(gs[1..], x);
      assert AddToGroups(gs, x)[1..] == AddToGroups(gs[1..], x);
    } else if |gs| > 0 {
      assert AddToGroups(gs, x)[1..] == gs[1..];
    }
  }

  /** The periods that occur in the table. */
  function RowPeriods(df: seq<Row>): set<Period> {
    set i | 0 <= i < |df| :: PeriodOf(df[i])
  }

  lemma RowPeriodsSnoc(df: seq<Row>, x: Row)
    ensures RowPeriods(df + [x]) == RowPeriods(df) + {PeriodOf(x)}
  {
    var t := df + [x];
    assert t[|df|] == x;
    forall per | per in RowPeriods(t)
      ensures per in RowPeriods(df) + {PeriodOf(x)}
    {
      var i :| 0 <= i < |t| && PeriodOf(t[i]) == per;
      if i < |df| {
        assert t[i] == df[i];
      }
    }
    forall per | per in RowPeriods(df)
      ensures per in RowPeriods(t)
    {
      var i :| 0 <= i < |df| && PeriodOf(df[i]) == per;
      assert t[i] == df[i];
    }
  }

  /** `df.groupby(["Ano", "Mês"])["Faturamento"].sum()`: one group per period
      that occurs in the table, each holding the revenue of that period, and
      the group totals adding up to the revenue column's total. */
  function GroupSums(df: seq<Row>): (gs: seq<Group>)
    ensures DistinctPeriods(gs)
    ensures Periods(gs) == RowPeriods(df)
    ensures forall per :: Lookup(gs, per) == PeriodTotal(df, per)
    ensures SumTotals(gs) == TotalFaturamento(df)
  {
    if |df| == 0 then []
    else
      var init, last := df[..|df| - 1], df[|df| - 1];
      assert df == init + [last];
      var before := GroupSums(init);
      PeriodTotalSnoc(init, last);
      TotalsAppend(init, [last]);
      AddToGroupsDistinct(before, last);
      AddToGroupsSum(before, last);
      RowPeriodsSnoc(init, last);
      AddToGroups(before, last)
  }

  /** With distinct periods, each group's total is the one looked up for its
      period. */
  lemma {:induction false} LookupFindsGroup(gs: seq<Group>, k: nat)
    requires DistinctPeriods(gs) && k < |gs|
    ensures Lookup(gs, gs[k].period) == gs[k].total
  {
    if k > 0 {
      assert gs[0].period != gs[k].period;
      LookupFindsGroup(gs[1..], k - 1);
    }
  }

  /** Every group of the grouped revenue holds exactly its period's revenue. */
  lemma {:induction false} GroupTotalsArePeriodTotals(df: seq<Row>)
    ensures forall k :: 0 <= k < |GroupSums(df)| ==>
      GroupSums(df)[k].total == PeriodTotal(df, GroupSums(df)[k].period)
  {
    var gs := GroupSums(df);
    forall k | 0 <= k < |gs|
      ensures gs[k].total == PeriodTotal(df, gs[k].period)
    {
      LookupFindsGroup(gs, k);
    }
  }

  /** The comparison's percentage change, guarded to 0 when the first
      period's revenue is 0. */
  function PercentChange(fat1: real, fat2: real): (perc: real)
    ensures fat1 == 0.0 ==> perc == 0.0
    ensures fat1 != 0.0 ==> perc * fat1 == (fat2 - fat1) * 100.0
    ensures fat1 > 0.0 ==> (perc > 0.0 <==> fat2 > fat1) && (perc < 0.0 <==> fat2 < fat1)
    ensures fat1 < 0.0 ==> (perc > 0.0 <==> fat2 < fat1) && (perc < 0.0 <==> fat2 > fat1)
    ensures perc == 0.0 <==> fat1 == 0.0 || fat2 == fat1
  {
    var dif := fat2 - fat1;
    if fat1 != 0.0 then (dif / fat1) * 100.0 else 0.0
  }

  /** The comparison block's figures. */
  datatype Comparison = Comparison(fat1: real, fat2: real, dif: real, perc: real)

  /** The comparison's figures hang together: the difference is the second
      revenue minus the first, and the percentage is that difference relative
      to the first revenue, forced to 0 when the first revenue is 0, and
      positive for a growth from a positive first revenue. */
  predicate Consistent(c: Comparison) {
    && c.dif == c.fat2 - c.fat1
    && (c.fat1 == 0.0 ==> c.perc == 0.0)
    && (c.fat1 != 0.0 ==> c.perc * c.fat1 == c.dif * 100.0)
    && (c.fat1 > 0.0 ==> (c.perc > 0.0 <==> c.fat2 > c.fat1))
  }

  /** Consistent figures fix the percentage: it is the difference relative to
      the first revenue times 100, and from a negative first revenue it is
      positive exactly when the second revenue is lower. */
  lemma ConsistentPercentage(c: Comparison)
    requires Consistent(c)
    ensures c.fat1 != 0.0 ==> c.perc == (c.dif / c.fat1) * 100.0
    ensures c.fat1 < 0.0 ==> (c.perc > 0.0 <==> c.fat2 < c.fat1)
  {
  }

  /** The two-period comparison: each period's revenue, their difference and
      the guarded percentage change. */
  function Compare(df: seq<Row>, ano1: string, mes1: string, ano2: string, mes2: string)
    : (c: Comparison)
    ensures c.fat1 == PeriodTotal(df, Period(ano1, mes1))
    ensures c.fat2 == PeriodTotal(df, Period(ano2, mes2))
    ensures Consistent(c)
  {
    ComparisonOf(PeriodTotal(df, Period(ano1, mes1)), PeriodTotal(df, Period(ano2, mes2)))
  }

  /** The comparison figures for two given period revenues. */
  function ComparisonOf(fat1: real, fat2: real): (c: Comparison)
    ensures c.fat1 == fat1 && c.fat2 == fat2
    ensures Consistent(c)
  {
    var dif := fat2 - fat1;
    Comparison(fat1, fat2, dif, PercentChange(fat1, fat2))
  }

  /** The comparison reads the same revenue per period as the grouped series,
      and as the indicator sum with both boxes set to that period. */
  lemma CompareAgreesWithGroups(df: seq<Row>, ano1: string, mes1: string, ano2: string, mes2: string)
    ensures var c := Compare(df, ano1, mes1, ano2, mes2);
      && c.fat1 == Lookup(GroupSums(df), Period(ano1, mes1))
      && c.fat2 == Lookup(GroupSums(df), Period(ano2, mes2))
    ensures ano1 != Todos && mes1 != Todos ==>
      Compare(df, ano1, mes1, ano2, mes2).fat1 == TotalFaturamento(KpiSelection(df, ano1, mes1))
  {
  }
}
