/**
 * The operations manager's dashboard (components/gerente/gerente-dashboard.tsx):
 * the per-hospital folio and inventory views, the status groups of the
 * counters, the productivity statistics (status counts and the five most
 * requested products), the low-stock list and the acting user handed to
 * the child components.
 *
 * The folio items arrive untyped (`folio_items: any[]`): a line's product
 * name and requested quantity may be missing, and so may the list itself.
 * A selected hospital id of `""` is as falsy as no selection. The initial
 * selection (the first hospital) and the inventory of the selected hospital
 * are RoleShell's `FirstId` and `HospitalRows`.
 */
module GerenteDashboard {
  import opened Common
  import opened Types
  import opened LowStock

  datatype UsageLine = UsageLine(productId: string, productName: Option<string>, quantityRequested: Option<int>)

  datatype ManagedFolio = ManagedFolio(folio: FolioRequest, items: Option<seq<UsageLine>>)

  /** `filteredFolios`: nothing without a selection, else the folios of that hospital, in order. */
  function FilteredFolios(folios: seq<ManagedFolio>, sel: Option<string>): (r: seq<ManagedFolio>)
    ensures !Chosen(sel) ==> r == []
    ensures Chosen(sel) ==> forall f :: f in r <==> f in folios && f.folio.hospitalId == sel.value
    ensures |r| <= |folios|
  {
    if !Chosen(sel) then []
    else Filter(folios, (f: ManagedFolio) => f.folio.hospitalId == sel.value)
  }

  predicate IsPending(f: ManagedFolio) {
    f.folio.status == Pendiente || f.folio.status == AprobadoLider
  }

  predicate IsApproved(f: ManagedFolio) {
    f.folio.status == AprobadoSupervisor || f.folio.status == Entregado
  }

  predicate IsRejected(f: ManagedFolio) {
    f.folio.status == Rechazado
  }

  predicate IsPartial(f: ManagedFolio) {
    f.folio.status == EntregadoParcial
  }

  /** The three counters are disjoint. */
  lemma StatusGroupsDisjoint(fs: seq<ManagedFolio>)
    ensures forall f :: f in Filter(fs, IsPending) ==> f !in Filter(fs, IsApproved) && f !in Filter(fs, IsRejected)
    ensures forall f :: f in Filter(fs, IsApproved) ==> f !in Filter(fs, IsRejected)
  {
  }

  /** With the partially delivered folios, the three counters count every folio once. */
  lemma {:induction false} StatusGroupsCount(fs: seq<ManagedFolio>)
    ensures |Filter(fs, IsPending)| + |Filter(fs, IsApproved)| + |Filter(fs, IsRejected)| + |Filter(fs, IsPartial)| == |fs|
    decreases |fs|
  {
    if |fs| > 0 {
      var fs' := fs[..|fs| - 1];
      var f := fs[|fs| - 1];
      StatusGroupsCount(fs');
      assert Filter(fs, IsPending) == Filter(fs', IsPending) + (if IsPending(f) then [f] else []);
      assert Filter(fs, IsApproved) == Filter(fs', IsApproved) + (if IsApproved(f) then [f] else []);
      assert Filter(fs, IsRejected) == Filter(fs', IsRejected) + (if IsRejected(f) then [f] else []);
      assert Filter(fs, IsPartial) == Filter(fs', IsPartial) + (if IsPartial(f) then [f] else []);
    }
  }

  /**
   * The three counters miss exactly the partially delivered folios: together
   * they count every folio precisely when none is `entregado_parcial`.
   */
  lemma StatusGroupsCoverIff(fs: seq<ManagedFolio>)
    ensures (|Filter(fs, IsPending)| + |Filter(fs, IsApproved)| + |Filter(fs, IsRejected)| == |fs|)
            <==> forall i :: 0 <= i < |fs| ==> fs[i].folio.status != EntregadoParcial
  {
    StatusGroupsCount(fs);
    if exists i :: 0 <= i < |fs| && fs[i].folio.status == EntregadoParcial {
      var i :| 0 <= i < |fs| && fs[i].folio.status == EntregadoParcial;
      assert fs[i] in Filter(fs, IsPartial);
    } else {
      var partial := Filter(fs, IsPartial);
      if |partial| > 0 {
        assert partial[0] in fs;
      }
    }
  }

  /** The number of folios in `fs` with status `s`. */
  function CountStatus(fs: seq<ManagedFolio>, s: FolioStatus): nat
    decreases |fs|
  {
    if |fs| == 0 then 0 else CountStatus(fs[..|fs| - 1], s) + Indicator(fs[|fs| - 1].folio.status == s)
  }

  /** `byStatus`: a key for each status that occurs, holding the number of its folios. */
  predicate CountsStatuses(byStatus: map<FolioStatus, nat>, fs: seq<ManagedFolio>) {
    forall s: FolioStatus :: (s in byStatus <==> CountStatus(fs, s) > 0) && (s in byStatus ==> byStatus[s] == CountStatus(fs, s))
  }

  /** The count `m` holds for `s`, 0 without a key. */
  function CountIn(m: map<FolioStatus, nat>, s: FolioStatus): nat {
    if s in m then m[s] else 0
  }

  /** The sum of the counts of `m` over every status. */
  function StatusTotal(m: map<FolioStatus, nat>): nat {
    CountIn(m, Pendiente) + CountIn(m, AprobadoLider) + CountIn(m, AprobadoSupervisor)
    + CountIn(m, Entregado) + CountIn(m, EntregadoParcial) + CountIn(m, Rechazado)
  }

  lemma {:induction false} StatusCountsCover(fs: seq<ManagedFolio>)
    ensures CountStatus(fs, Pendiente) + CountStatus(fs, AprobadoLider) + CountStatus(fs, AprobadoSupervisor)
            + CountStatus(fs, Entregado) + CountStatus(fs, EntregadoParcial) + CountStatus(fs, Rechazado) == |fs|
    decreases |fs|
  {
    if |fs| > 0 {
      StatusCountsCover(fs[..|fs| - 1]);
    }
  }

  /** The `byStatus` counts add up to `total`. */
  lemma ByStatusSumsToTotal(byStatus: map<FolioStatus, nat>, fs: seq<ManagedFolio>)
    requires CountsStatuses(byStatus, fs)
    ensures StatusTotal(byStatus) == |fs|
  {
    StatusCountsCover(fs);
    forall s: FolioStatus ensures CountIn(byStatus, s) == CountStatus(fs, s) {
    }
  }

  /** One entry of `productUsage`. */
  datatype ProductUsage = ProductUsage(productId: string, name: string, count: int)

  /** `fi.product?.name || "Producto sin nombre"` */
  function LineName(line: UsageLine): string {
    if line.productName.Some? && line.productName.value != "" then line.productName.value
    else "Producto sin nombre"
  }

  /** `fi.quantity_requested ?? 0` */
  function Requested(line: UsageLine): int {
    line.quantityRequested.GetOr(0)
  }

  /** The position of the entry for `key`, if there is one. */
  function IndexOfKey(usage: seq<ProductUsage>, key: string): (r: Option<nat>)
    ensures r.None? <==> forall i :: 0 <= i < |usage| ==> usage[i].productId != key
    ensures r.Some? ==> r.value < |usage| && usage[r.value].productId == key
  {
    if |usage| == 0 then None
    else if usage[0].productId == key then Some(0)
    else
      var r := IndexOfKey(usage[1..], key);
      assert forall i :: 1 <= i < |usage| ==> usage[i] == usage[1..][i - 1];
      if r.Some? then Some(r.value + 1) else None
  }

  /** No two entries share a product. */
  predicate DistinctKeys(usage: seq<ProductUsage>) {
    forall i, j :: 0 <= i < j < |usage| ==> usage[i].productId != usage[j].productId
  }

  /** One line of the inner `forEach`: create the entry on first sight, then add the quantity. */
  function AddLine(usage: seq<ProductUsage>, line: UsageLine): seq<ProductUsage> {
    match IndexOfKey(usage, line.productId)
    case None => usage + [ProductUsage(line.productId, LineName(line), Requested(line))]
    case Some(i) => usage[i := usage[i].(count := usage[i].count + Requested(line))]
  }

  /** `productUsage` after the given lines, entries in order of first appearance. */
  function UsageOf(lines: seq<UsageLine>): seq<ProductUsage>
    decreases |lines|
  {
    if |lines| == 0 then [] else AddLine(UsageOf(lines[..|lines| - 1]), lines[|lines| - 1])
  }

  /** One more line updates the usage of the lines before it. */
  lemma UsageOfSnoc(lines: seq<UsageLine>, line: UsageLine)
    ensures UsageOf(lines + [line]) == AddLine(UsageOf(lines), line)
  {
    assert (lines + [line])[..|lines|] == lines;
  }

  lemma OneMoreLine(seen: seq<UsageLine>, items: seq<UsageLine>, j: nat)
    requires j < |items|
    ensures seen + items[..j + 1] == seen + items[..j] + [items[j]]
  {
    assert items[..j + 1] == items[..j] + [items[j]];
  }

  /** Every item line of the folios, in order; a missing list contributes none. */
  function AllLines(fs: seq<ManagedFolio>): seq<UsageLine>
    decreases |fs|
  {
    if |fs| == 0 then [] else AllLines(fs[..|fs| - 1]) + fs[|fs| - 1].items.GetOr([])
  }

  /** The quantity recorded for `key`, 0 without an entry. */
  function CountFor(usage: seq<ProductUsage>, key: string): int {
    match IndexOfKey(usage, key)
    case None => 0
    case Some(i) => usage[i].count
  }

  /** The requested quantities of the lines for `key`, missing ones as 0. */
  function RequestedSum(lines: seq<UsageLine>, key: string): int
    decreases |lines|
  {
    if |lines| == 0 then 0
    else RequestedSum(lines[..|lines| - 1], key) + (if lines[|lines| - 1].productId == key then Requested(lines[|lines| - 1]) else 0)
  }

  /** With distinct keys, an entry for `key` is the one `IndexOfKey` finds. */
  lemma IndexUnique(usage: seq<ProductUsage>, key: string, i: nat)
    requires DistinctKeys(usage) && i < |usage| && usage[i].productId == key
    ensures IndexOfKey(usage, key) == Some(i)
  {
    var r := IndexOfKey(usage, key);
    assert r.Some?;
    if r.value != i {
      assert false;
    }
  }

  /** A line adds its product's entry when it is new and keeps the products distinct. */
  lemma AddLineKeys(usage: seq<ProductUsage>, line: UsageLine)
    requires DistinctKeys(usage)
    ensures DistinctKeys(AddLine(usage, line))
    ensures forall key :: IndexOfKey(AddLine(usage, line), key).Some? <==> IndexOfKey(usage, key).Some? || key == line.productId
  {
    var u' := AddLine(usage, line);
    match IndexOfKey(usage, line.productId)
    case None =>
      assert u'[|usage|].productId == line.productId;
      assert forall i :: 0 <= i < |usage| ==> u'[i] == usage[i];
    case Some(j) =>
      assert forall i :: 0 <= i < |usage| ==> u'[i].productId == usage[i].productId;
  }

  /** A line adds its requested quantity to its own product's count and to no other. */
  lemma AddLineCount(usage: seq<ProductUsage>, line: UsageLine, key: string)
    requires DistinctKeys(usage)
    ensures CountFor(AddLine(usage, line), key) == CountFor(usage, key) + (if key == line.productId then Requested(line) else 0)
  {
    AddLineKeys(usage, line);
    var u' := AddLine(usage, line);
    match IndexOfKey(usage, line.productId)
    case None =>
      assert forall i :: 0 <= i < |usage| ==> u'[i] == usage[i];
      if key == line.productId {
        IndexUnique(u', key, |usage|);
      } else if IndexOfKey(usage, key).Some? {
        IndexUnique(u', key, IndexOfKey(usage, key).value);
      } else {
        assert u'[|usage|].productId != key;
      }
    case Some(j) =>
      assert forall i :: 0 <= i < |usage| ==> u'[i].productId == usage[i].productId;
      if key == line.productId {
        IndexUnique(u', key, j);
      } else if IndexOfKey(usage, key).Some? {
        IndexUnique(u', key, IndexOfKey(usage, key).value);
      }
  }

  /**
   * `productUsage` holds one entry per product that occurs in the lines,
   * and its count is the sum of that product's requested quantities, a
   * missing quantity counting as 0.
   */
  lemma {:induction false} UsageCounts(lines: seq<UsageLine>)
    ensures DistinctKeys(UsageOf(lines))
    ensures forall key :: IndexOfKey(UsageOf(lines), key).Some? <==> exists i :: 0 <= i < |lines| && lines[i].productId == key
    ensures forall key :: CountFor(UsageOf(lines), key) == RequestedSum(lines, key)
    decreases |lines|
  {
    if |lines| > 0 {
      var prefix := lines[..|lines| - 1];
      var line := lines[|lines| - 1];
      UsageCounts(prefix);
      var u := UsageOf(prefix);
      AddLineKeys(u, line);
      forall key ensures IndexOfKey(UsageOf(lines), key).Some? <==> exists i :: 0 <= i < |lines| && lines[i].productId == key {
        if exists i :: 0 <= i < |prefix| && prefix[i].productId == key {
          var i :| 0 <= i < |prefix| && prefix[i].productId == key;
          assert lines[i].productId == key;
        }
        if exists i :: 0 <= i < |lines| && lines[i].productId == key {
          var i :| 0 <= i < |lines| && lines[i].productId == key;
          if i < |prefix| {
            assert prefix[i].productId == key;
          }
        }
      }
      forall key ensures CountFor(UsageOf(lines), key) == RequestedSum(lines, key) {
        AddLineCount(u, line, key);
      }
    }
  }

  /** Non-increasing by count. */
  predicate SortedByCount(s: seq<ProductUsage>) {
    forall i, j :: 0 <= i < j < |s| ==> s[i].count >= s[j].count
  }

  /** Inserts `e` after the entries that count at least as much, as a stable sort does. */
  function InsertByCount(s: seq<ProductUsage>, e: ProductUsage): (r: seq<ProductUsage>)
    ensures multiset(r) == multiset(s) + multiset{e}
    ensures |r| == |s| + 1
    ensures forall x :: x in r ==> x in s || x == e
    decreases |s|
  {
    if |s| == 0 then [e]
    else if s[0].count < e.count then [e] + s
    else
      assert s == [s[0]] + s[1..];
      [s[0]] + InsertByCount(s[1..], e)
  }

  lemma {:induction false} InsertKeepsSorted(s: seq<ProductUsage>, e: ProductUsage)
    requires SortedByCount(s)
    ensures SortedByCount(InsertByCount(s, e))
    decreases |s|
  {
    if |s| > 0 && s[0].count >= e.count {
      var rest := InsertByCount(s[1..], e);
      SortedTail(s);
      InsertKeepsSorted(s[1..], e);
      forall x | x in rest ensures s[0].count >= x.count {
        if x != e {
          assert x in s[1..];
        }
      }
      SortedCons(s[0], rest);
    }
  }

  lemma SortedTail(s: seq<ProductUsage>)
    requires |s| > 0 && SortedByCount(s)
    ensures SortedByCount(s[1..])
  {
    assert forall i :: 0 <= i < |s[1..]| ==> s[1..][i] == s[i + 1];
  }

  lemma SortedCons(x: ProductUsage, rest: seq<ProductUsage>)
    requires SortedByCount(rest) && forall y :: y in rest ==> x.count >= y.count
    ensures SortedByCount([x] + rest)
  {
    var r := [x] + rest;
    forall i, j | 0 <= i < j < |r| ensures r[i].count >= r[j].count {
      if i == 0 {
        assert r[j] == rest[j - 1];
        assert r[j] in rest;
      } else {
        assert r[i] == rest[i - 1] && r[j] == rest[j - 1];
      }
    }
  }

  /** `.sort((a, b) => b.count - a.count)`: an insertion sort, largest count first. */
  function SortByCount(s: seq<ProductUsage>): (r: seq<ProductUsage>)
    ensures multiset(r) == multiset(s)
    ensures SortedByCount(r)
    decreases |s|
  {
    if |s| == 0 then []
    else
      assert s == s[..|s| - 1] + [s[|s| - 1]];
      var sorted := SortByCount(s[..|s| - 1]);
      InsertKeepsSorted(sorted, s[|s| - 1]);
      InsertByCount(sorted, s[|s| - 1])
  }

  /** `topProducts`: the first five of the sorted usage. */
  function TopProducts(usage: seq<ProductUsage>): seq<ProductUsage> {
    Take(SortByCount(usage), 5)
  }

  /**
   * `topProducts` holds min(5, n) entries of the usage, largest count first,
   * and no entry left out counts more than one kept.
   */
  lemma TopProductsAreTop(usage: seq<ProductUsage>)
    ensures |TopProducts(usage)| == if |usage| < 5 then |usage| else 5
    ensures SortedByCount(TopProducts(usage))
    ensures forall e :: e in TopProducts(usage) ==> e in usage
    ensures forall e, t :: e in usage && e !in TopProducts(usage) && t in TopProducts(usage) ==> e.count <= t.count
  {
    var sorted := SortByCount(usage);
    var top := TopProducts(usage);
    assert |sorted| == |multiset(sorted)| == |usage|;
    forall e | e in top ensures e in usage {
      assert e in multiset(sorted);
    }
    forall e, t | e in usage && e !in top && t in top ensures e.count <= t.count {
      assert e in multiset(usage);
      assert e in sorted;
      var i :| 0 <= i < |sorted| && sorted[i] == e;
      var j :| 0 <= j < |top| && top[j] == t;
      assert forall k :: 0 <= k < |top| ==> top[k] == sorted[k];
      if i < |top| {
        assert false;
      }
    }
  }

  /** The status counting `forEach` of `productivityStats`. */
  method CountByStatus(fs: seq<ManagedFolio>) returns (byStatus: map<FolioStatus, nat>)
    ensures CountsStatuses(byStatus, fs)
  {
    byStatus := map[];
    var i := 0;
    while i < |fs|
      invariant 0 <= i <= |fs|
      invariant CountsStatuses(byStatus, fs[..i])
    {
      var s := fs[i].folio.status;
      assert fs[..i + 1][..i] == fs[..i];
      byStatus := byStatus[s := (if s in byStatus then byStatus[s] else 0) + 1];
      i := i + 1;
    }
    assert fs[..|fs|] == fs;
  }

  /** The inner `forEach`: the lines of one folio, after the lines `seen` so far. */
  method AddLines(usage: seq<ProductUsage>, ghost seen: seq<UsageLine>, items: seq<UsageLine>) returns (r: seq<ProductUsage>)
    requires usage == UsageOf(seen)
    ensures r == UsageOf(seen + items)
  {
    r := usage;
    var j := 0;
    assert seen + items[..0] == seen;
    while j < |items|
      invariant 0 <= j <= |items|
      invariant r == UsageOf(seen + items[..j])
    {
      UsageOfSnoc(seen + items[..j], items[j]);
      OneMoreLine(seen, items, j);
      r := AddLine(r, items[j]);
      j := j + 1;
    }
    assert items[..|items|] == items;
  }

  /** The nested usage `forEach` of `productivityStats`. */
  method CountUsage(fs: seq<ManagedFolio>) returns (usage: seq<ProductUsage>)
    ensures usage == UsageOf(AllLines(fs))
  {
    usage := [];
    var i := 0;
    while i < |fs|
      invariant 0 <= i <= |fs|
      invariant usage == UsageOf(AllLines(fs[..i]))
    {
      assert fs[..i + 1][..i] == fs[..i];
      usage := AddLines(usage, AllLines(fs[..i]), fs[i].items.GetOr([]));
      i := i + 1;
    }
    assert fs[..|fs|] == fs;
  }

  /**
   * `productivityStats` of the given folios: the folio count, the
   * per-status counts and the five most requested products.
   */
  method ProductivityStats(fs: seq<ManagedFolio>) returns (total: nat, byStatus: map<FolioStatus, nat>, top: seq<ProductUsage>)
    ensures total == |fs|
    ensures CountsStatuses(byStatus, fs) && StatusTotal(byStatus) == total
    ensures top == TopProducts(UsageOf(AllLines(fs)))
  {
    total := |fs|;
    byStatus := CountByStatus(fs);
    ByStatusSumsToTotal(byStatus, fs);
    var usage := CountUsage(fs);
    top := Take(SortByCount(usage), 5);
  }

  /** `lowStockGlobal`: the low-stock rows of every hospital. */
  function LowStockGlobal(inventory: seq<Inventory>): (r: seq<Inventory>)
    ensures forall x :: x in r <==> x in inventory && x.quantity <= MinStockOf(x)
  {
    LowStockOf(inventory)
  }

  /** `actingUser`: the user placed in the selected hospital; unchanged without a selection. */
  function ActingUser(user: User, sel: Option<string>): (r: User)
    ensures Chosen(sel) ==> r.hospitalId == sel.value
    ensures !Chosen(sel) ==> r == user
    ensures r.(hospitalId := user.hospitalId) == user
  {
    if Chosen(sel) then user.(hospitalId := sel.value) else user
  }
}
