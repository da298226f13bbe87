/** Publication and deferred reclamation of rule tables
    (include/dpdk/spi/spi_rule_table_manager.hpp, include/dpdk/dpi/dpi_rule_table_manager.hpp). */
module TableManager {
  import opened Machine

  /** The three owning pointers, and every table destroyed so far in order. */
  datatype Slots<T> = Slots(active: Option<T>, retired: Option<T>, previous: Option<T>, freed: seq<T>)

  function Listed<T>(t: Option<T>): seq<T> {
    if t.Some? then [t.value] else []
  }

  /** Swap in `next`: the previously retired table is destroyed, the others move up one place. */
  function Swapped<T>(s: Slots<T>, next: Option<T>): Slots<T> {
    Slots(next, s.active, s.retired, s.freed + Listed(s.previous))
  }

  class Manager<T> {
    var active: Option<T>
    var retired: Option<T>
    var previous: Option<T>
    ghost var freed: seq<T>

    ghost function State(): Slots<T>
      reads this
    {
      Slots(active, retired, previous, freed)
    }

    constructor ()
      ensures State() == Slots(None, None, None, [])
    {
      active, retired, previous, freed := None, None, None, [];
    }

    method Init(table: Option<T>)
      modifies this`active
      ensures State() == old(State()).(active := table)
    {
      active := table;
    }

    method Swap(table: Option<T>)
      modifies this
      ensures State() == Swapped(old(State()), table)
    {
      var replaced := active;
      active := table;
      freed := freed + Listed(previous);
      previous := retired;
      retired := replaced;
    }
  }

  /** The state after Init with the first table and one Swap for each further one. */
  function After<T>(tables: seq<Option<T>>): Slots<T>
    requires |tables| > 0
  {
    var n := |tables| - 1;
    if n == 0 then Slots(tables[0], None, None, []) else Swapped(After(tables[..n]), tables[n])
  }

  function Present<T>(tables: seq<Option<T>>): seq<T> {
    if tables == [] then [] else Present(tables[..|tables| - 1]) + Listed(tables[|tables| - 1])
  }

  /** Table published `k` swaps ago, if there was one. */
  function Back<T>(tables: seq<Option<T>>, k: nat): Option<T> {
    if k < |tables| then tables[|tables| - 1 - k] else None
  }

  /** The whole history in closed form: the last three tables are alive, in order; everything older,
      and nothing else, has been destroyed, in the order of publication. */
  lemma {:induction false} HistoryInClosedForm<T>(tables: seq<Option<T>>)
    requires |tables| > 0
    ensures After(tables) == Slots(Back(tables, 0), Back(tables, 1), Back(tables, 2),
                                   Present(tables[..if |tables| > 3 then |tables| - 3 else 0]))
    decreases |tables|
  {
    var n := |tables| - 1;
    if n > 0 {
      HistoryInClosedForm(tables[..n]);
      if n > 2 {
        assert tables[..n][..n - 3] == tables[..n - 3] == tables[..n - 2][..n - 3];
        assert tables[..n - 2][n - 3] == tables[n - 3];
        assert Present(tables[..n - 2]) == Present(tables[..n - 3]) + Listed(tables[n - 3]);
      }
    }
  }

  lemma {:induction false} PresentMember<T>(tables: seq<Option<T>>, t: T)
    ensures t in Present(tables) <==> Some(t) in tables
  {
    if tables != [] {
      var n := |tables| - 1;
      PresentMember(tables[..n], t);
      assert tables == tables[..n] + [tables[n]];
    }
  }

  ghost predicate AllDistinct<T>(tables: seq<Option<T>>) {
    forall i, j :: 0 <= i < j < |tables| && tables[i].Some? ==> tables[i] != tables[j]
  }

  lemma {:induction false} PresentDistinct<T>(tables: seq<Option<T>>)
    requires AllDistinct(tables)
    ensures forall i, j :: 0 <= i < j < |Present(tables)| ==> Present(tables)[i] != Present(tables)[j]
  {
    if tables != [] {
      var n := |tables| - 1;
      PresentDistinct(tables[..n]);
      if tables[n].Some? {
        PresentMember(tables[..n], tables[n].value);
        forall i | 0 <= i < |Present(tables[..n])| ensures Present(tables[..n])[i] != tables[n].value {
          assert Present(tables[..n])[i] in Present(tables[..n]);
        }
      }
    }
  }

  /** A pointer loaded while `tables[i]` was active stays valid through the swap that replaces it and the
      one after; the third swap destroys it, and no table is destroyed twice. */
  lemma ReclaimedByTheThirdSwap<T>(tables: seq<Option<T>>, i: nat, n: nat)
    requires AllDistinct(tables) && i < n <= |tables| && tables[i].Some?
    ensures tables[i].value in After(tables[..n]).freed <==> n >= i + 4
    ensures var freed := After(tables[..n]).freed; forall a, b :: 0 <= a < b < |freed| ==> freed[a] != freed[b]
  {
    HistoryInClosedForm(tables[..n]);
    var gone := tables[..n][..if n > 3 then n - 3 else 0];
    PresentMember(gone, tables[i].value);
    PresentDistinct(gone);
    if n >= i + 4 {
      assert gone[i] == tables[i];
    }
  }

  /** Every table is in exactly one place. */
  lemma {:induction false} TablesAreConserved<T>(tables: seq<Option<T>>)
    requires |tables| > 0
    ensures var s := After(tables);
            multiset(Present(tables)) ==
            multiset(s.freed) + multiset(Listed(s.previous)) + multiset(Listed(s.retired)) + multiset(Listed(s.active))
    decreases |tables|
  {
    var n := |tables| - 1;
    if n > 0 {
      TablesAreConserved(tables[..n]);
    } else {
      assert tables[..0] == [];
    }
  }
}
