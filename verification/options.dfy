/** The drop-down option lists (`actualizar_datos`, and the initial layout):
    `Todos` followed by the distinct month buckets, or the distinct statuses,
    of the freshly loaded dataset in ascending order. */
module Options {
  import opened Loader

  /** The value that stands for "no constraint" in both drop-downs. */
  const All := "Todos"

  // ---------------------------------------------------------------------
  // String order
  // ---------------------------------------------------------------------

  /** `a` sorts strictly before `b`: the lexicographic order on code
      points that Python uses for `str`, where a proper prefix comes
      first. */
  predicate Below(a: string, b: string)
    decreases |a|
  {
    if a == [] then b != []
    else if b == [] then false
    else if a[0] != b[0] then a[0] < b[0]
    else Below(a[1..], b[1..])
  }

  lemma {:induction false} BelowIrreflexive(a: string)
    ensures !Below(a, a)
    decreases |a|
  {
    if a != [] {
      BelowIrreflexive(a[1..]);
    }
  }

  lemma {:induction false} BelowTransitive(a: string, b: string, c: string)
    requires Below(a, b) && Below(b, c)
    ensures Below(a, c)
    decreases |a|
  {
    if a != [] && b != [] && c != [] && a[0] == b[0] && b[0] == c[0] {
      BelowTransitive(a[1..], b[1..], c[1..]);
    }
  }

  /** Two different strings are always ordered one way or the other, and
      never both ways. */
  lemma {:induction false} BelowTotal(a: string, b: string)
    ensures a != b <==> (Below(a, b) || Below(b, a))
    ensures !(Below(a, b) && Below(b, a))
    decreases |a|
  {
    if a != [] && b != [] && a[0] == b[0] {
      BelowTotal(a[1..], b[1..]);
      assert a == [a[0]] + a[1..] && b == [b[0]] + b[1..];
    } else if a == b {
      BelowIrreflexive(a);
    }
  }

  // ---------------------------------------------------------------------
  // Sorted distinct values
  // ---------------------------------------------------------------------

  /** Strictly ascending, hence sorted and free of duplicates. */
  predicate Ascending(s: seq<string>)
  {
    forall i, j :: 0 <= i < j < |s| ==> Below(s[i], s[j])
  }

  /** Puts `x` into its place in an ascending list, unless it is there. */
  function Insert(x: string, s: seq<string>): (r: seq<string>)
    requires Ascending(s)
    ensures Ascending(r)
    ensures forall y :: y in r <==> y == x || y in s
    decreases |s|
  {
    if s == [] then [x]
    else if x == s[0] then s
    else if Below(x, s[0]) then
      assert forall j :: 0 < j < |s| ==> Below(s[0], s[j]);
      forall j | 0 <= j < |s|
        ensures Below(x, s[j])
      {
        if j > 0 {
          BelowTransitive(x, s[0], s[j]);
        }
      }
      [x] + s
    else
      BelowTotal(x, s[0]);
      var rest := Insert(x, s[1..]);
      assert forall y :: y in rest ==> Below(s[0], y) by {
        forall y | y in rest
          ensures Below(s[0], y)
        {
          if y != x {
            var j :| 0 <= j < |s[1..]| && s[1..][j] == y;
            assert s[j + 1] == y;
          }
        }
      }
      [s[0]] + rest
  }

  /** `sorted(set(values))`: the distinct values in ascending order. */
  function SortedDistinct(values: seq<string>): (r: seq<string>)
    ensures Ascending(r)
    ensures forall y :: y in r <==> y in values
    decreases |values|
  {
    if values == [] then []
    else Insert(values[|values| - 1], SortedDistinct(values[..|values| - 1]))
  }

  /** An ascending list is determined by its elements: whatever the order
      or repetition of the input values, the list is the same. */
  lemma {:induction false} AscendingUnique(a: seq<string>, b: seq<string>)
    requires Ascending(a) && Ascending(b)
    requires forall y :: y in a <==> y in b
    ensures a == b
    decreases |a|
  {
    if a != [] {
      assert a[0] in b;
    }
    if b != [] {
      assert b[0] in a;
    }
    if a != [] && b != [] {
      HeadIsLeast(a, b[0]);
      HeadIsLeast(b, a[0]);
      BelowTotal(a[0], b[0]);
      forall y
        ensures y in a[1..] <==> y in b[1..]
      {
        HeadIsLeast(a, y);
        HeadIsLeast(b, y);
      }
      AscendingUnique(a[1..], b[1..]);
      assert a == [a[0]] + a[1..] && b == [b[0]] + b[1..];
    }
  }

  /** In an ascending list, every element other than the head comes after
      it, and the tail holds exactly those elements. */
  lemma HeadIsLeast(a: seq<string>, y: string)
    requires Ascending(a) && a != []
    ensures y in a && y != a[0] ==> Below(a[0], y)
    ensures y in a[1..] <==> y in a && y != a[0]
  {
    if y in a[1..] {
      var j :| 1 <= j < |a| && a[j] == y;
      BelowIrreflexive(y);
    }
    if y in a && y != a[0] {
      var j :| 0 <= j < |a| && a[j] == y;
      assert y == a[1..][j - 1];
    }
  }

  /** Two columns holding the same set of values give the same list. */
  lemma SortedDistinctBySet(u: seq<string>, v: seq<string>)
    requires forall y :: y in u <==> y in v
    ensures SortedDistinct(u) == SortedDistinct(v)
  {
    AscendingUnique(SortedDistinct(u), SortedDistinct(v));
  }

  // ---------------------------------------------------------------------
  // Option lists
  // ---------------------------------------------------------------------

  /** `Todos`, then the distinct values in ascending order. */
  function OptionList(values: seq<string>): (r: seq<string>)
    ensures |r| >= 1 && r[0] == All
    ensures Ascending(r[1..])
    ensures forall y :: y in r[1..] <==> y in values
  {
    [All] + SortedDistinct(values)
  }

  function Months(items: seq<Item>): (r: seq<string>)
    ensures |r| == |items| && forall i :: 0 <= i < |items| ==> r[i] == items[i].mes
  {
    seq(|items|, i requires 0 <= i < |items| => items[i].mes)
  }

  function Statuses(items: seq<Item>): (r: seq<string>)
    ensures |r| == |items| && forall i :: 0 <= i < |items| ==> r[i] == items[i].estado
  {
    seq(|items|, i requires 0 <= i < |items| => items[i].estado)
  }

  /** What a refresh hands to the page: the dataset to store and the two
      option lists. The success flag of the load is dropped. */
  datatype Refreshed = Refreshed(data: seq<Item>, monthOptions: seq<string>, statusOptions: seq<string>)

  /** The dataset with the option lists built from its month and status
      columns. */
  function Menus(items: seq<Item>): (r: Refreshed)
    ensures r.data == items
    ensures |r.monthOptions| >= 1 && r.monthOptions[0] == All && Ascending(r.monthOptions[1..])
    ensures forall m :: m in r.monthOptions[1..] <==> exists it :: it in items && it.mes == m
    ensures |r.statusOptions| >= 1 && r.statusOptions[0] == All && Ascending(r.statusOptions[1..])
    ensures forall e :: e in r.statusOptions[1..] <==> exists it :: it in items && it.estado == e
  {
    var months, statuses := Months(items), Statuses(items);
    assert forall m :: m in months <==> exists it :: it in items && it.mes == m by {
      forall m
        ensures m in months <==> exists it :: it in items && it.mes == m
      {
        if exists it :: it in items && it.mes == m {
          var it :| it in items && it.mes == m;
          var i :| 0 <= i < |items| && items[i] == it;
          assert months[i] == m;
        }
      }
    }
    assert forall e :: e in statuses <==> exists it :: it in items && it.estado == e by {
      forall e
        ensures e in statuses <==> exists it :: it in items && it.estado == e
      {
        if exists it :: it in items && it.estado == e {
          var it :| it in items && it.estado == e;
          var i :| 0 <= i < |items| && items[i] == it;
          assert statuses[i] == e;
        }
      }
    }
    Refreshed(items, OptionList(months), OptionList(statuses))
  }

  /** Reloading the dataset and rebuilding both option lists: `Todos`
      first, then every month bucket (every status) of the new data once,
      in ascending order. */
  function Refresh(fetch: Fetch): (r: Refreshed)
    ensures r.data == Loaded(fetch).items
    ensures |r.monthOptions| >= 1 && r.monthOptions[0] == All && Ascending(r.monthOptions[1..])
    ensures forall m :: m in r.monthOptions[1..] <==> exists it :: it in r.data && it.mes == m
    ensures |r.statusOptions| >= 1 && r.statusOptions[0] == All && Ascending(r.statusOptions[1..])
    ensures forall e :: e in r.statusOptions[1..] <==> exists it :: it in r.data && it.estado == e
  {
    Menus(Loaded(fetch).items)
  }

  /** A status that is not `Todos` never collides with the "no constraint"
      entry at the head of the list. */
  lemma OptionsStartWithAllOnce(values: seq<string>)
    requires All !in values
    ensures OptionList(values)[0] == All && All !in OptionList(values)[1..]
  {
  }

  /** An option list whose entries after `Todos` are all one value is
      `Todos` and that value. */
  lemma SingleOption(options: seq<string>, v: string)
    requires |options| >= 1 && options[0] == All && Ascending(options[1..])
    requires forall y :: y in options[1..] <==> y == v
    ensures options == [All, v]
  {
    AscendingUnique(options[1..], [v]);
    assert options == [All] + options[1..];
  }

  /** After a failed load (a failed fetch or an overflowing duration) the
      lists are `Todos, 2023-01` and `Todos, Error`. */
  lemma FailedRefreshOptions(fetch: Fetch)
    requires !Loaded(fetch).ok
    ensures Refresh(fetch).monthOptions == [All, "2023-01"]
    ensures Refresh(fetch).statusOptions == [All, "Error"]
  {
    var r := Refresh(fetch);
    FailedLoadGivesErrorRows(fetch);
    var items := r.data;
    assert |items| == 3 && items[0] in items;
    assert forall it :: it in items ==> it.mes == "2023-01" && it.estado == "Error";
    SingleOption(r.monthOptions, "2023-01");
    SingleOption(r.statusOptions, "Error");
  }
}
