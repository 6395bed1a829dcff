/** The month and status filters of the chart: `Todos` imposes no
    constraint, any other value keeps the rows whose month bucket (status)
    is exactly that value. */
module Filters {
  import opened Seqs
  import opened Loader
  import opened Options

  /** Row selectors, named so that a selection by the same value is the same
      term everywhere. */
  function MonthIs(mes: string): Item -> bool
  {
    (it: Item) => it.mes == mes
  }

  function StatusIs(estado: string): Item -> bool
  {
    (it: Item) => it.estado == estado
  }

  /** Whether a row passes both drop-downs. */
  predicate Matches(mes: string, estado: string, it: Item)
  {
    (mes == All || it.mes == mes) && (estado == All || it.estado == estado)
  }

  function Matching(mes: string, estado: string): Item -> bool
  {
    (it: Item) => Matches(mes, estado, it)
  }

  /** The month filter followed by the status filter, each applied only
      when its value is not `Todos`. */
  function Filtered(rows: seq<Item>, mes: string, estado: string): (r: seq<Item>)
    ensures |r| <= |rows|
  {
    var byMonth := if mes != All then Where(rows, MonthIs(mes)) else rows;
    if estado != All then Where(byMonth, StatusIs(estado)) else byMonth
  }

  /** Filtering is one selection by the combined condition: a row is kept
      iff it passes both drop-downs, and the kept rows stay in order. */
  lemma FilteredIsSelection(rows: seq<Item>, mes: string, estado: string)
    ensures Filtered(rows, mes, estado) == Where(rows, Matching(mes, estado))
  {
    var m := Matching(mes, estado);
    if mes != All && estado != All {
      WhereWhere(rows, MonthIs(mes), StatusIs(estado), m);
    } else if mes != All {
      WhereSame(rows, MonthIs(mes), m);
    } else if estado != All {
      WhereSame(rows, StatusIs(estado), m);
    } else {
      WhereAll(rows, m);
    }
  }

  /** Membership: exactly the rows that pass both drop-downs are kept, each
      as often as it occurs in the input. */
  lemma FilteredMembers(rows: seq<Item>, mes: string, estado: string, it: Item)
    ensures it in Filtered(rows, mes, estado) <==> it in rows && Matches(mes, estado, it)
    ensures Count(Filtered(rows, mes, estado), it) ==
      if Matches(mes, estado, it) then Count(rows, it) else 0
  {
    FilteredIsSelection(rows, mes, estado);
    WhereMembers(rows, Matching(mes, estado), it);
    WhereCount(rows, Matching(mes, estado), it);
  }

  /** The filtered rows are a subsequence of the input. */
  lemma FilteredIsSubseq(rows: seq<Item>, mes: string, estado: string)
    ensures Subseq(Filtered(rows, mes, estado), rows)
  {
    FilteredIsSelection(rows, mes, estado);
    WhereIsSubseq(rows, Matching(mes, estado));
  }

  /** `Todos` in both drop-downs shows every row. */
  lemma AllShowsEverything(rows: seq<Item>)
    ensures Filtered(rows, All, All) == rows
  {
    FilteredIsSelection(rows, All, All);
    WhereAll(rows, Matching(All, All));
  }

  /** Filtering the filtered rows again changes nothing. */
  lemma FilteredIdempotent(rows: seq<Item>, mes: string, estado: string)
    ensures Filtered(Filtered(rows, mes, estado), mes, estado) == Filtered(rows, mes, estado)
  {
    var once := Filtered(rows, mes, estado);
    FilteredIsSelection(rows, mes, estado);
    FilteredIsSelection(once, mes, estado);
    WhereWhere(rows, Matching(mes, estado), Matching(mes, estado), Matching(mes, estado));
  }

  /** The order in which the two filters are applied does not matter. */
  lemma FiltersCommute(rows: seq<Item>, mes: string, estado: string)
    ensures Filtered(Filtered(rows, mes, All), All, estado) == Filtered(Filtered(rows, All, estado), mes, All)
  {
    var m := Matching(mes, estado);
    FilteredIsSelection(rows, mes, All);
    FilteredIsSelection(rows, All, estado);
    FilteredIsSelection(Filtered(rows, mes, All), All, estado);
    FilteredIsSelection(Filtered(rows, All, estado), mes, All);
    WhereWhere(rows, Matching(mes, All), Matching(All, estado), m);
    WhereWhere(rows, Matching(All, estado), Matching(mes, All), m);
  }
}
