/** The timeline figure (`actualizar_grafico`): filter the stored rows, give
    up with a placeholder when nothing is left, otherwise sort the rows by
    start date, order the requirement axis by first appearance, add the
    days remaining until each end date, and size and label the figure. */
module Chart {
  import opened Wrappers
  import opened Seqs
  import opened Calendar
  import opened Loader
  import opened Options
  import opened Filters
  import opened Colors

  // ---------------------------------------------------------------------
  // Sorting by start date
  // ---------------------------------------------------------------------

  /** No row starts later than a row after it. */
  predicate SortedByStart(s: seq<Item>)
  {
    forall i, j :: 0 <= i < j < |s| ==> !Before(s[j].inicio, s[i].inicio)
  }

  /** Starting no later is a transitive relation between dates. */
  lemma NotBeforeTransitive(a: Date, b: Date, c: Date)
    requires !Before(b, a) && !Before(c, b)
    ensures !Before(c, a)
  {
  }

  /** Places `x` before the first row that does not start earlier. */
  function InsertByStart(x: Item, s: seq<Item>): (r: seq<Item>)
    requires SortedByStart(s)
    ensures SortedByStart(r)
    ensures multiset(r) == multiset(s) + multiset{x}
    decreases |s|
  {
    if s == [] then [x]
    else if !Before(s[0].inicio, x.inicio) then
      NoLaterThanAll(x, s);
      [x] + s
    else
      var rest := InsertByStart(x, s[1..]);
      assert s == [s[0]] + s[1..];
      HeadNoLater(x, s, rest);
      [s[0]] + rest
  }

  /** A row that starts no later than the first row of a sorted sequence
      starts no later than any of them. */
  lemma NoLaterThanAll(x: Item, s: seq<Item>)
    requires SortedByStart(s) && s != [] && !Before(s[0].inicio, x.inicio)
    ensures forall j :: 0 <= j < |s| ==> !Before(s[j].inicio, x.inicio)
  {
    forall j | 0 < j < |s|
      ensures !Before(s[j].inicio, x.inicio)
    {
      NotBeforeTransitive(x.inicio, s[0].inicio, s[j].inicio);
    }
  }

  /** The first row of a sorted sequence starts no later than the rest of
      it with a later-starting row added. */
  lemma HeadNoLater(x: Item, s: seq<Item>, rest: seq<Item>)
    requires SortedByStart(s) && s != [] && Before(s[0].inicio, x.inicio)
    requires multiset(rest) == multiset(s[1..]) + multiset{x}
    ensures forall j :: 0 <= j < |rest| ==> !Before(rest[j].inicio, s[0].inicio)
  {
    forall j | 0 <= j < |rest|
      ensures !Before(rest[j].inicio, s[0].inicio)
    {
      assert rest[j] in multiset(rest);
      if rest[j] != x {
        var k :| 0 <= k < |s[1..]| && s[1..][k] == rest[j];
        assert s[k + 1] == rest[j];
      }
    }
  }

  /** The rows in ascending order of start date. Rows that start on the same
      day may come out in any order, as with an unstable sort. */
  function SortByStart(s: seq<Item>): (r: seq<Item>)
    ensures SortedByStart(r)
    ensures multiset(r) == multiset(s)
    decreases |s|
  {
    if s == [] then []
    else
      assert s == s[..|s| - 1] + [s[|s| - 1]];
      InsertByStart(s[|s| - 1], SortByStart(s[..|s| - 1]))
  }

  /** Removing one row keeps the others sorted. */
  lemma SortedWithout(b: seq<Item>, k: int)
    requires SortedByStart(b) && 0 <= k < |b|
    ensures SortedByStart(b[..k] + b[k + 1..])
    ensures multiset(b[..k] + b[k + 1..]) == multiset(b) - multiset{b[k]}
  {
    var rest := b[..k] + b[k + 1..];
    forall i, j | 0 <= i < j < |rest|
      ensures !Before(rest[j].inicio, rest[i].inicio)
    {
      var i' := if i < k then i else i + 1;
      var j' := if j < k then j else j + 1;
      assert rest[i] == b[i'] && rest[j] == b[j'];
    }
    assert b == b[..k] + [b[k]] + b[k + 1..];
  }

  /** In a sorted sequence, the rows up to one that starts on the first
      row's day all start on that day. */
  lemma SameStartPrefix(b: seq<Item>, k: int)
    requires SortedByStart(b) && 0 <= k < |b| && b[k].inicio == b[0].inicio
    ensures forall i :: 0 <= i <= k ==> b[i].inicio == b[0].inicio
  {
    forall i | 0 < i <= k
      ensures b[i].inicio == b[0].inicio
    {
      assert !Before(b[i].inicio, b[0].inicio);
      assert i == k || !Before(b[k].inicio, b[i].inicio);
    }
  }

  /** Sorting leaves only the order of rows that start on the same day
      open: two sorted arrangements of the same rows have the same start
      date at every position. */
  lemma {:induction false} SortedStartsAgree(a: seq<Item>, b: seq<Item>)
    requires SortedByStart(a) && SortedByStart(b) && multiset(a) == multiset(b)
    ensures |a| == |b|
    ensures forall i :: 0 <= i < |a| ==> a[i].inicio == b[i].inicio
    decreases |a|
  {
    assert |a| == |multiset(a)| == |multiset(b)| == |b|;
    if a != [] {
      var x := a[0];
      assert x in multiset(b) && b[0] in multiset(a);
      var k :| 0 <= k < |b| && b[k] == x;
      var h :| 0 <= h < |a| && a[h] == b[0];
      assert b[0].inicio == x.inicio by {
        assert h == 0 || !Before(a[h].inicio, a[0].inicio);
        assert k == 0 || !Before(b[k].inicio, b[0].inicio);
      }
      var rest := b[..k] + b[k + 1..];
      SortedWithout(b, k);
      assert a == [x] + a[1..];
      SortedStartsAgree(a[1..], rest);
      SameStartPrefix(b, k);
      StartsAfterRemoval(a, b, k);
    }
  }

  /** The last step of `SortedStartsAgree`: the starts of `b` with its
      `k`-th row removed follow those of `a` after its first row. */
  lemma StartsAfterRemoval(a: seq<Item>, b: seq<Item>, k: int)
    requires 0 <= k < |b| && |a| == |b| && a[0].inicio == b[0].inicio
    requires forall i :: 0 <= i <= k ==> b[i].inicio == b[0].inicio
    requires forall i :: 0 <= i < |a[1..]| ==> a[1..][i].inicio == (b[..k] + b[k + 1..])[i].inicio
    ensures forall i :: 0 <= i < |a| ==> a[i].inicio == b[i].inicio
  {
    var rest := b[..k] + b[k + 1..];
    forall i | 1 <= i < |a|
      ensures a[i].inicio == b[i].inicio
    {
      assert a[i] == a[1..][i - 1];
      if i - 1 >= k {
        assert rest[i - 1] == b[i];
      } else {
        assert rest[i - 1] == b[i - 1];
      }
    }
  }

  // ---------------------------------------------------------------------
  // Requirement axis
  // ---------------------------------------------------------------------

  function RNs(rows: seq<Item>): (r: seq<string>)
    ensures |r| == |rows| && forall i :: 0 <= i < |rows| ==> r[i] == rows[i].rn
  {
    seq(|rows|, i requires 0 <= i < |rows| => rows[i].rn)
  }

  predicate NoDuplicates(s: seq<string>)
  {
    forall i, j :: 0 <= i < j < |s| ==> s[i] != s[j]
  }

  /** `unique()`: each value once, in the order of its first occurrence. */
  function Distinct(s: seq<string>): (r: seq<string>)
    ensures NoDuplicates(r)
    ensures forall y :: y in r <==> y in s
    decreases |s|
  {
    if s == [] then []
    else
      var d := Distinct(s[..|s| - 1]);
      var x := s[|s| - 1];
      assert forall y :: y in s <==> y in s[..|s| - 1] || y == x by {
        assert s == s[..|s| - 1] + [x];
      }
      if x in d then d else d + [x]
  }

  /** Every occurrence of a later category in the input is preceded by an
      occurrence of each earlier category: the categories are listed in
      the order in which they first appear. */
  lemma {:induction false} DistinctKeepsFirstOrder(s: seq<string>, i: int, j: int, k: int)
    requires 0 <= i < j < |Distinct(s)| && 0 <= k < |s| && s[k] == Distinct(s)[j]
    ensures Distinct(s)[i] in s[..k]
    decreases |s|
  {
    var p := s[..|s| - 1];
    var x := s[|s| - 1];
    var d := Distinct(p);
    var r := Distinct(s);
    assert i < |d| && r[i] == d[i];
    if k < |s| - 1 {
      assert s[k] == p[k] && p[..k] == s[..k];
      if j < |d| {
        assert r[j] == d[j];
        DistinctKeepsFirstOrder(p, i, j, k);
      }
    } else {
      assert d[i] in p && p == s[..k];
    }
  }

  // ---------------------------------------------------------------------
  // Days remaining
  // ---------------------------------------------------------------------

  /** Whole days from today to the end date, and 0 once it has passed. */
  function RemainingDays(fin: Date, today: Date): (r: nat)
    ensures r >= DaysBetween(today, fin)
    ensures r == 0 || r == DaysBetween(today, fin)
  {
    var d := DaysBetween(today, fin);
    if d < 0 then 0 else d
  }

  /** No days remain exactly when the end date is today or earlier, and
      otherwise counting the remaining days forward from today reaches the
      end date. */
  lemma RemainingDaysMeaning(fin: Date, today: Date)
    requires IsValid(fin) && IsValid(today)
    ensures RemainingDays(fin, today) == 0 <==> !Before(today, fin)
    ensures RemainingDays(fin, today) > 0 ==> AddDays(today, RemainingDays(fin, today)) == fin
  {
    OrdinalOrder(today, fin);
    DaysBetweenRoundTrip(today, fin);
  }

  /** One bar of the timeline: the row, its days remaining and the colour
      of its status (none when the table has no entry for it). The hover
      box lists the row's `rn`, `inicioStr`, `finStr`, `duracion` and then
      `diasRestantes`, in that order. */
  datatype Bar = Bar(item: Item, diasRestantes: nat, color: Option<string>)

  function Items(bars: seq<Bar>): (r: seq<Item>)
    ensures |r| == |bars| && forall i :: 0 <= i < |bars| ==> r[i] == bars[i].item
  {
    seq(|bars|, i requires 0 <= i < |bars| => bars[i].item)
  }

  // ---------------------------------------------------------------------
  // Size, title, colours and the marker for today
  // ---------------------------------------------------------------------

  const RowHeight := 25
  const MinHeight := 400
  const MaxHeight := 1200

  /** 25 pixels per row, clamped to [400, 1200]. */
  function Height(rows: nat): (h: int)
    ensures MinHeight <= h <= MaxHeight
    ensures MinHeight <= RowHeight * rows <= MaxHeight ==> h == RowHeight * rows
    ensures RowHeight * rows < MinHeight ==> h == MinHeight
    ensures RowHeight * rows > MaxHeight ==> h == MaxHeight
  {
    var dynamic := RowHeight * rows;
    if dynamic > MaxHeight then MaxHeight
    else if dynamic < MinHeight then MinHeight
    else dynamic
  }

  /** More rows never make the figure shorter. */
  lemma HeightMonotone(m: nat, n: nat)
    requires m <= n
    ensures Height(m) <= Height(n)
  {
  }

  lemma HeightExamples()
    ensures Height(0) == 400 && Height(1) == 400 && Height(16) == 400
    ensures Height(20) == 500 && Height(48) == 1200 && Height(1000) == 1200
  {
  }

  const EmptyTitle := "Sin datos con los filtros seleccionados"
  const TitlePrefix := "Postventa - "

  function StatusLabel(estado: string): string
  {
    if estado != All then estado else "Todos los estados"
  }

  function MonthLabel(mes: string): string
  {
    if mes != All then mes else "Todos los meses"
  }

  /** `Postventa - <status> | <month>`, where `Todos` reads as all statuses
      or all months. */
  function Title(mes: string, estado: string): (t: string)
    ensures |t| == |TitlePrefix| + |StatusLabel(estado)| + 3 + |MonthLabel(mes)|
    ensures t[..|TitlePrefix|] == TitlePrefix
    ensures t[|TitlePrefix|..|TitlePrefix| + |StatusLabel(estado)|] == StatusLabel(estado)
    ensures t[|TitlePrefix| + |StatusLabel(estado)|..|t| - |MonthLabel(mes)|] == " | "
    ensures t[|t| - |MonthLabel(mes)|..] == MonthLabel(mes)
  {
    var s, m := StatusLabel(estado), MonthLabel(mes);
    var t := TitlePrefix + s + " | " + m;
    assert t[..|TitlePrefix|] == TitlePrefix;
    assert t[|TitlePrefix|..|TitlePrefix| + |s|] == s;
    assert t[|TitlePrefix| + |s|..|t| - |m|] == " | ";
    assert t[|t| - |m|..] == m;
    t
  }

  /** For a fixed month, two titles are equal exactly when they name the
      same status (`Todos` and `Todos los estados` read alike). */
  lemma TitleDistinguishesStatuses(mes: string, e1: string, e2: string)
    ensures Title(mes, e1) == Title(mes, e2) <==> StatusLabel(e1) == StatusLabel(e2)
  {
    var t1, t2 := Title(mes, e1), Title(mes, e2);
    if t1 == t2 {
      assert |StatusLabel(e1)| == |StatusLabel(e2)|;
      assert StatusLabel(e1) == t1[|TitlePrefix|..|TitlePrefix| + |StatusLabel(e1)|];
    }
  }

  /** For a fixed status, two titles are equal exactly when they name the
      same month. */
  lemma TitleDistinguishesMonths(m1: string, m2: string, estado: string)
    ensures Title(m1, estado) == Title(m2, estado) <==> MonthLabel(m1) == MonthLabel(m2)
  {
    var t1, t2 := Title(m1, estado), Title(m2, estado);
    if t1 == t2 {
      assert |MonthLabel(m1)| == |MonthLabel(m2)|;
      assert MonthLabel(m1) == t1[|t1| - |MonthLabel(m1)|..];
    }
  }

  /** `Hoy: YYYY-MM-DD`. */
  function MarkerLabel(today: Date): (s: string)
    requires Supported(today)
    ensures |s| == 15 && s[..5] == "Hoy: " && s[5..] == FormatIso(today)
  {
    var s := "Hoy: " + FormatIso(today);
    assert s[5..] == FormatIso(today);
    s
  }

  /** The label names the day: two different days give different labels. */
  lemma MarkerLabelInjective(a: Date, b: Date)
    requires Supported(a) && Supported(b) && MarkerLabel(a) == MarkerLabel(b)
    ensures a == b
  {
    assert MarkerLabel(a)[5..] == MarkerLabel(b)[5..];
    FormatIsoInjective(a, b);
  }

  /** Background of the plot and of the page, text colour, grid colour. */
  datatype Palette = Palette(plotBg: string, paperBg: string, font: string, grid: string)

  const DarkPalette := Palette("#23272f", "#23272f", "#f0f0f0", "#444")
  const LightPalette := Palette("white", "white", "#222", "#eee")

  /** Dark colours for the theme value `dark`, light ones for anything
      else. */
  function PaletteFor(theme: string): (p: Palette)
    ensures p == DarkPalette <==> theme == "dark"
    ensures p == DarkPalette || p == LightPalette
  {
    if theme == "dark" then DarkPalette else LightPalette
  }

  /** The box behind the marker label: white for the theme value `light`,
      dark for anything else. */
  function MarkerBackground(theme: string): (c: string)
    ensures c == "white" <==> theme == "light"
  {
    if theme == "light" then "white" else "#23272f"
  }

  /** The label box matches the page background for the two themes the
      switch offers, and for no other theme value. */
  lemma MarkerMatchesPage(theme: string)
    ensures MarkerBackground(theme) == PaletteFor(theme).paperBg <==> theme == "light" || theme == "dark"
  {
  }

  // ---------------------------------------------------------------------
  // The figure
  // ---------------------------------------------------------------------

  /** What the chart callback produces: the placeholder, the timeline, or
      `Failed` when it raises (the page then shows an error and keeps its
      previous figure). */
  datatype Figure =
    | NoData(title: string)
    | Timeline(title: string, bars: seq<Bar>, categories: seq<string>, height: int,
               palette: Palette, marker: string, markerBg: string, markerTop: nat)
    | Failed

  /** Every row's end date minus today fits a `Timedelta`, so computing the
      days remaining raises nothing. */
  predicate RemainingFits(rows: seq<Item>, today: Date)
  {
    forall it :: it in rows ==> SpanFits(DaysBetween(today, it.fin))
  }

  /** The days remaining can be computed exactly when no end date lies more
      than `MaxSpanDays` days from today. */
  lemma RemainingFitsRange(rows: seq<Item>, today: Date)
    ensures RemainingFits(rows, today) <==>
      forall it :: it in rows ==> -MaxSpanDays <= DaysBetween(today, it.fin) <= MaxSpanDays
  {
    forall it | it in rows
      ensures SpanFits(DaysBetween(today, it.fin)) <==> -MaxSpanDays <= DaysBetween(today, it.fin) <= MaxSpanDays
    {
      SpanFitsRange(DaysBetween(today, it.fin));
    }
  }

  /** A row ending on 1700-01-01 cannot be drawn on 2026-10-11: it ended
      119352 days earlier, more than a `Timedelta` holds. */
  lemma FarEndCannotBeDrawn(it: Item)
    requires it.fin == Date(1700, 1, 1)
    ensures DaysBetween(Date(2026, 10, 11), it.fin) == -119352
    ensures !RemainingFits([it], Date(2026, 10, 11))
  {
    SpanFitsRange(-119352);
    assert it in [it];
  }

  /** The rows to draw: the stored dataset, or the dataset loaded at start-up
      while nothing has been stored yet. */
  function Source(stored: seq<Item>, startup: seq<Item>): seq<Item>
  {
    if stored == [] then startup else stored
  }

  /** What the timeline drawn from `rows` shows: the rows as bars sorted by
      start date (a permutation of `rows`), each with its days remaining
      and the colour of its status;
      the requirement axis in order of first appearance among the bars; a
      height clamped from the row count; the title; the theme colours; and
      the marker for today, a line as tall as the row count. */
  predicate Draws(fig: Figure, rows: seq<Item>, mes: string, estado: string, theme: string, today: Date)
    requires Supported(today)
  {
    fig.Timeline? &&
    SortedByStart(Items(fig.bars)) &&
    multiset(Items(fig.bars)) == multiset(rows) &&
    (forall i :: 0 <= i < |fig.bars| ==> fig.bars[i].diasRestantes == RemainingDays(fig.bars[i].item.fin, today)) &&
    (forall i :: 0 <= i < |fig.bars| ==> fig.bars[i].color == ColorOf(fig.bars[i].item.estado)) &&
    fig.categories == Distinct(RNs(Items(fig.bars))) &&
    fig.height == Height(|rows|) &&
    fig.markerTop == |rows| &&
    fig.title == Title(mes, estado) &&
    fig.palette == PaletteFor(theme) &&
    fig.marker == MarkerLabel(today) &&
    fig.markerBg == MarkerBackground(theme)
  }

  /** Adds the days remaining and lays out the figure; fails when some
      days remaining overflow. */
  method DrawTimeline(rows: seq<Item>, mes: string, estado: string, theme: string, today: Date)
    returns (fig: Figure)
    requires Supported(today)
    ensures fig.Failed? <==> !RemainingFits(rows, today)
    ensures !fig.Failed? ==> Draws(fig, rows, mes, estado, theme, today)
  {
    if !RemainingFits(rows, today) {
      return Failed;
    }
    fig := LayOut(rows, mes, estado, theme, today);
  }

  /** Sorts the rows, orders the requirement axis and lays out the figure. */
  method LayOut(rows: seq<Item>, mes: string, estado: string, theme: string, today: Date)
    returns (fig: Figure)
    requires Supported(today)
    ensures Draws(fig, rows, mes, estado, theme, today)
  {
    var palette := PaletteFor(theme);
    var sorted := SortByStart(rows);
    assert |sorted| == |rows| by {
      assert |multiset(sorted)| == |multiset(rows)|;
    }
    var categories := Distinct(RNs(sorted));
    var bars := seq(|sorted|, i requires 0 <= i < |sorted| => Bar(sorted[i], RemainingDays(sorted[i].fin, today), ColorOf(sorted[i].estado)));
    assert Items(bars) == sorted;
    fig := Timeline(Title(mes, estado), bars, categories, Height(|rows|), palette,
                    MarkerLabel(today), MarkerBackground(theme), |rows|);
  }

  /** The requirement axis lists every identifier of the drawn rows once,
      and nothing else; there is one bar per row. */
  lemma TimelineAxis(fig: Figure, rows: seq<Item>, mes: string, estado: string, theme: string, today: Date)
    requires Supported(today) && Draws(fig, rows, mes, estado, theme, today)
    ensures |fig.bars| == |rows|
    ensures NoDuplicates(fig.categories)
    ensures forall rn :: rn in fig.categories <==> exists it :: it in rows && it.rn == rn
  {
    var items := Items(fig.bars);
    assert |items| == |rows| by {
      assert |multiset(items)| == |multiset(rows)|;
    }
    forall rn
      ensures rn in fig.categories <==> exists it :: it in rows && it.rn == rn
    {
      if rn in fig.categories {
        var i :| 0 <= i < |items| && RNs(items)[i] == rn;
        assert items[i] in multiset(rows);
      }
      if exists it :: it in rows && it.rn == rn {
        var it :| it in rows && it.rn == rn;
        assert it in multiset(items);
        var i :| 0 <= i < |items| && items[i] == it;
        assert RNs(items)[i] == rn;
      }
    }
  }

  /** Builds the figure for the selected month, status and theme, with
      `today` as the current day: the placeholder when no row passes the
      filters, a failure when some passing row ends too far from today for
      its days remaining to be computed, the timeline of the passing rows
      otherwise. */
  method Render(stored: seq<Item>, startup: seq<Item>, mes: string, estado: string, theme: string, today: Date)
    returns (fig: Figure)
    requires Supported(today)
    ensures var shown := Filtered(Source(stored, startup), mes, estado);
      (fig.NoData? <==> shown == []) &&
      (fig.NoData? ==> fig.title == EmptyTitle) &&
      (fig.Failed? <==> shown != [] && !RemainingFits(shown, today)) &&
      (fig.Timeline? ==> Draws(fig, shown, mes, estado, theme, today))
  {
    var rows := Source(stored, startup);
    if mes != All {
      rows := Where(rows, MonthIs(mes));
    }
    if estado != All {
      rows := Where(rows, StatusIs(estado));
    }
    assert rows == Filtered(Source(stored, startup), mes, estado);
    if rows == [] {
      return NoData(EmptyTitle);
    }
    fig := DrawTimeline(rows, mes, estado, theme, today);
  }
}
