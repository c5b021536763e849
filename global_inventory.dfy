/**
 * The network-wide inventory view (components/gerente/global-inventory-view.tsx):
 * the rows grouped by hospital with the `reduce` that pushes each row onto
 * its hospital's list, and for each group its title and its number of
 * low-stock rows. With no rows the view shows its empty state instead.
 *
 * The groups are listed in the order their hospitals first appear, which is
 * the order `Object.entries` gives for these (non-numeric) keys.
 */
module GlobalInventory {
  import opened Common
  import opened Types
  import opened LowStock

  /** One entry of `inventoryByHospital`. */
  datatype Group = Group(hospitalId: string, items: seq<Inventory>)

  /** The position of the group of `key`, if there is one. */
  function GroupIndex(groups: seq<Group>, key: string): (r: Option<nat>)
    ensures r.None? <==> forall i :: 0 <= i < |groups| ==> groups[i].hospitalId != key
    ensures r.Some? ==> r.value < |groups| && groups[r.value].hospitalId == key
  {
    if |groups| == 0 then None
    else if groups[0].hospitalId == key then Some(0)
    else
      var r := GroupIndex(groups[1..], key);
      assert forall i :: 1 <= i < |groups| ==> groups[i] == groups[1..][i - 1];
      if r.Some? then Some(r.value + 1) else None
  }

  /** No two groups share a hospital. */
  predicate DistinctGroups(groups: seq<Group>) {
    forall i, j :: 0 <= i < j < |groups| ==> groups[i].hospitalId != groups[j].hospitalId
  }

  /** One step of the `reduce`: create the hospital's list on first sight, then push the row. */
  function AddToGroup(groups: seq<Group>, item: Inventory): seq<Group> {
    match GroupIndex(groups, item.hospitalId)
    case None => groups + [Group(item.hospitalId, [item])]
    case Some(i) => groups[i := groups[i].(items := groups[i].items + [item])]
  }

  /** `inventoryByHospital` after the given rows. */
  function GroupsOf(inventory: seq<Inventory>): seq<Group>
    decreases |inventory|
  {
    if |inventory| == 0 then [] else AddToGroup(GroupsOf(inventory[..|inventory| - 1]), inventory[|inventory| - 1])
  }

  /** The rows of hospital `key`, in their original order. */
  function OfHospital(inventory: seq<Inventory>, key: string): seq<Inventory> {
    Filter(inventory, AtHospital(key))
  }

  function AtHospital(key: string): Inventory -> bool {
    (x: Inventory) => x.hospitalId == key
  }

  lemma OfHospitalSnoc(inventory: seq<Inventory>, key: string)
    requires |inventory| > 0
    ensures var x := inventory[|inventory| - 1];
      OfHospital(inventory, key) == OfHospital(inventory[..|inventory| - 1], key) + (if x.hospitalId == key then [x] else [])
  {
  }

  /** A hospital with no rows has an empty list. */
  lemma OfHospitalEmpty(inventory: seq<Inventory>, key: string)
    requires forall j :: 0 <= j < |inventory| ==> inventory[j].hospitalId != key
    ensures OfHospital(inventory, key) == []
  {
    FilterKeepsNone(inventory, AtHospital(key));
  }

  /** A row adds its hospital's group when it is new; no other group appears. */
  lemma AddToGroupKeys(groups: seq<Group>, item: Inventory)
    ensures forall key :: GroupIndex(AddToGroup(groups, item), key).Some? <==> GroupIndex(groups, key).Some? || key == item.hospitalId
  {
    var u' := AddToGroup(groups, item);
    match GroupIndex(groups, item.hospitalId) {
      case None =>
        assert u'[|groups|].hospitalId == item.hospitalId;
        assert forall i :: 0 <= i < |groups| ==> u'[i] == groups[i];
      case Some(j) =>
        assert forall i :: 0 <= i < |groups| ==> u'[i].hospitalId == groups[i].hospitalId;
    }
  }

  /** A row keeps the hospitals of the groups distinct. */
  lemma AddToGroupDistinct(groups: seq<Group>, item: Inventory)
    requires DistinctGroups(groups)
    ensures DistinctGroups(AddToGroup(groups, item))
  {
    var u' := AddToGroup(groups, item);
    match GroupIndex(groups, item.hospitalId) {
      case None =>
        assert forall i :: 0 <= i < |groups| ==> u'[i] == groups[i];
      case Some(j) =>
        assert forall i :: 0 <= i < |groups| ==> u'[i].hospitalId == groups[i].hospitalId;
    }
  }

  /** There is a group for a hospital exactly when some row belongs to it. */
  lemma {:induction false} GroupKeys(inventory: seq<Inventory>)
    ensures forall key :: GroupIndex(GroupsOf(inventory), key).Some? <==>
      exists j :: 0 <= j < |inventory| && inventory[j].hospitalId == key
    decreases |inventory|
  {
    if |inventory| > 0 {
      var prefix := inventory[..|inventory| - 1];
      var x := inventory[|inventory| - 1];
      GroupKeys(prefix);
      AddToGroupKeys(GroupsOf(prefix), x);
      forall key ensures GroupIndex(GroupsOf(inventory), key).Some? <==> exists j :: 0 <= j < |inventory| && inventory[j].hospitalId == key {
        if exists j :: 0 <= j < |prefix| && prefix[j].hospitalId == key {
          var j :| 0 <= j < |prefix| && prefix[j].hospitalId == key;
          assert inventory[j].hospitalId == key;
        }
        if exists j :: 0 <= j < |inventory| && inventory[j].hospitalId == key {
          var j :| 0 <= j < |inventory| && inventory[j].hospitalId == key;
          if j < |prefix| {
            assert prefix[j].hospitalId == key;
          }
        }
      }
    }
  }

  lemma {:induction false} GroupsDistinct(inventory: seq<Inventory>)
    ensures DistinctGroups(GroupsOf(inventory))
    decreases |inventory|
  {
    if |inventory| > 0 {
      GroupsDistinct(inventory[..|inventory| - 1]);
      AddToGroupDistinct(GroupsOf(inventory[..|inventory| - 1]), inventory[|inventory| - 1]);
    }
  }

  /** Each group's list is exactly its hospital's rows, in their original order, and is never empty. */
  lemma {:induction false} GroupItems(inventory: seq<Inventory>)
    ensures forall i :: 0 <= i < |GroupsOf(inventory)| ==>
      GroupsOf(inventory)[i].items == OfHospital(inventory, GroupsOf(inventory)[i].hospitalId)
      && |GroupsOf(inventory)[i].items| > 0
    decreases |inventory|
  {
    if |inventory| > 0 {
      var prefix := inventory[..|inventory| - 1];
      var x := inventory[|inventory| - 1];
      GroupItems(prefix);
      GroupKeys(prefix);
      GroupsDistinct(prefix);
      var u := GroupsOf(prefix);
      var u' := GroupsOf(inventory);
      assert u' == AddToGroup(u, x);
      forall key {
        OfHospitalSnoc(inventory, key);
      }
      match GroupIndex(u, x.hospitalId) {
        case None =>
          assert forall i :: 0 <= i < |u| ==> u'[i] == u[i];
          assert u'[|u|] == Group(x.hospitalId, [x]);
          OfHospitalEmpty(prefix, x.hospitalId);
        case Some(j) =>
          assert forall i :: 0 <= i < |u| && i != j ==> u'[i] == u[i];
      }
    }
  }

  /**
   * The grouping: one group per hospital that has rows, and each group's
   * list is exactly that hospital's rows in their original order.
   */
  lemma GroupsAreFilters(inventory: seq<Inventory>)
    ensures DistinctGroups(GroupsOf(inventory))
    ensures forall i :: 0 <= i < |GroupsOf(inventory)| ==>
      GroupsOf(inventory)[i].items == OfHospital(inventory, GroupsOf(inventory)[i].hospitalId)
      && |GroupsOf(inventory)[i].items| > 0
    ensures forall key :: GroupIndex(GroupsOf(inventory), key).Some? <==>
      exists j :: 0 <= j < |inventory| && inventory[j].hospitalId == key
  {
    GroupKeys(inventory);
    GroupsDistinct(inventory);
    GroupItems(inventory);
  }

  /** Every row is in exactly one group: the one of its hospital. */
  lemma EachRowInOneGroup(inventory: seq<Inventory>, x: Inventory)
    requires x in inventory
    ensures var groups := GroupsOf(inventory);
      GroupIndex(groups, x.hospitalId).Some?
      && forall i :: 0 <= i < |groups| ==> (x in groups[i].items <==> i == GroupIndex(groups, x.hospitalId).value)
  {
    GroupsAreFilters(inventory);
    var groups := GroupsOf(inventory);
    var j :| 0 <= j < |inventory| && inventory[j] == x;
    assert GroupIndex(groups, x.hospitalId).Some?;
  }

  /** The sum of the group sizes. */
  function TotalSize(groups: seq<Group>): nat
    decreases |groups|
  {
    if |groups| == 0 then 0 else TotalSize(groups[..|groups| - 1]) + |groups[|groups| - 1].items|
  }

  lemma {:induction false} TotalSizeUpdate(groups: seq<Group>, i: nat, g: Group)
    requires i < |groups|
    ensures TotalSize(groups[i := g]) == TotalSize(groups) - |groups[i].items| + |g.items|
    decreases |groups|
  {
    var last := |groups| - 1;
    if i < last {
      assert groups[i := g][..last] == groups[..last][i := g];
      TotalSizeUpdate(groups[..last], i, g);
    } else {
      assert groups[i := g][..last] == groups[..last];
    }
  }

  /** The group sizes add up to the number of rows. */
  lemma {:induction false} GroupSizesSum(inventory: seq<Inventory>)
    ensures TotalSize(GroupsOf(inventory)) == |inventory|
    decreases |inventory|
  {
    if |inventory| > 0 {
      var prefix := inventory[..|inventory| - 1];
      var x := inventory[|inventory| - 1];
      GroupSizesSum(prefix);
      var u := GroupsOf(prefix);
      match GroupIndex(u, x.hospitalId)
      case None =>
        assert (u + [Group(x.hospitalId, [x])])[..|u|] == u;
      case Some(j) =>
        TotalSizeUpdate(u, j, u[j].(items := u[j].items + [x]));
    }
  }

  /** The `reduce` itself, pushing one row at a time. */
  method GroupByHospital(inventory: seq<Inventory>) returns (groups: seq<Group>)
    ensures groups == GroupsOf(inventory)
  {
    groups := [];
    var i := 0;
    while i < |inventory|
      invariant 0 <= i <= |inventory|
      invariant groups == GroupsOf(inventory[..i])
    {
      var item := inventory[i];
      assert inventory[..i + 1][..i] == inventory[..i];
      var at := GroupIndex(groups, item.hospitalId);
      if at.None? {
        groups := groups + [Group(item.hospitalId, [item])];
      } else {
        var k := at.value;
        groups := groups[k := groups[k].(items := groups[k].items + [item])];
      }
      i := i + 1;
    }
    assert inventory[..|inventory|] == inventory;
  }

  const UnknownHospital := "Hospital Desconocido"

  /**
   * `items[0]?.hospital?.name || "Hospital Desconocido"`: a section heading
   * is never blank; it is the first row's hospital name whenever that is
   * present, and otherwise the fixed text.
   */
  function GroupName(g: Group): (r: string)
    ensures r != ""
    ensures r == UnknownHospital || exists x :: x in g.items && x.hospital.Some? && x.hospital.value.name == r
    ensures |g.items| > 0 && g.items[0].hospital.Some? && g.items[0].hospital.value.name != "" ==> r == g.items[0].hospital.value.name
  {
    if |g.items| > 0 && g.items[0].hospital.Some? && g.items[0].hospital.value.name != "" then g.items[0].hospital.value.name
    else UnknownHospital
  }

  /**
   * A group's `lowStockCount`: the number of its rows whose cards show the
   * low-stock flag; the badge (`lowStockCount > 0`) appears exactly when
   * some row of the group is low.
   */
  function LowStockCount(g: Group): (n: nat)
    ensures n <= |g.items|
    ensures n == |LowStockOf(g.items)|
    ensures n > 0 <==> exists x :: x in g.items && IsLowStock(x)
  {
    var low := LowStockOf(g.items);
    assert |low| > 0 ==> low[0] in low;
    |low|
  }

  /** What the view shows. */
  datatype View = EmptyState | Sections(groups: seq<Group>)

  function ViewOf(inventory: seq<Inventory>): View {
    if |inventory| == 0 then EmptyState else Sections(GroupsOf(inventory))
  }

  /** The empty state is shown exactly for an empty inventory, and no section is ever empty. */
  lemma ViewShowsEveryRow(inventory: seq<Inventory>)
    ensures ViewOf(inventory).EmptyState? <==> |inventory| == 0
    ensures ViewOf(inventory).Sections? ==>
      |ViewOf(inventory).groups| > 0 && TotalSize(ViewOf(inventory).groups) == |inventory|
      && forall i :: 0 <= i < |ViewOf(inventory).groups| ==> |ViewOf(inventory).groups[i].items| > 0
  {
    if |inventory| > 0 {
      GroupsAreFilters(inventory);
      GroupSizesSum(inventory);
      var groups := GroupsOf(inventory);
      assert GroupIndex(groups, inventory[0].hospitalId).Some?;
    }
  }
}
