/** Where logical blocks and parity live, for levels 0, 1, 4 and 5. */
module RaidLayout {
  import opened Division
  import opened Counting

  datatype Geometry = Geometry(level: nat, disks: nat, chunk: nat, rows: nat)

  /** What init accepts (the limits on sizes aside). */
  predicate Valid(g: Geometry) {
    && (g.level == 0 || g.level == 1 || g.level == 4 || g.level == 5)
    && g.disks >= (if g.level == 0 then 1 else 2) && g.rows >= 1 && g.chunk >= 1 && g.rows % g.chunk == 0
  }

  predicate HasParity(g: Geometry) { g.level == 4 || g.level == 5 }

  function DataDisks(g: Geometry): nat
    requires Valid(g)
  {
    if g.level == 0 then g.disks else if g.level == 1 then 1 else g.disks - 1
  }

  function Capacity(g: Geometry): nat
    requires Valid(g)
  {
    DataDisks(g) * g.rows
  }

  /** The parity disk of a stripe. */
  function ParityDisk(g: Geometry, stripe: nat): (p: nat)
    requires Valid(g) && HasParity(g)
    ensures p < g.disks
  {
    if g.level == 4 then g.disks - 1 else (g.disks - 1 - stripe % g.disks + g.disks) % g.disks
  }

  datatype Place = Place(disk: nat, row: nat, stripe: nat)

  /** The col-th disk of a stripe that holds data. */
  function DataDisk(g: Geometry, stripe: nat, col: nat): nat
    requires Valid(g)
  {
    if g.level == 5 && col >= ParityDisk(g, stripe) then col + 1 else col
  }

  function StripeOf(g: Geometry, lba: nat): nat requires Valid(g) { lba / g.chunk / DataDisks(g) }
  function ColOf(g: Geometry, lba: nat): nat requires Valid(g) { lba / g.chunk % DataDisks(g) }
  function RowOf(g: Geometry, lba: nat): nat requires Valid(g) { StripeOf(g, lba) * g.chunk + lba % g.chunk }

  /** The stripe of a row, as a rebuild computes it. */
  function RowStripe(g: Geometry, row: nat): nat requires Valid(g) { row / g.chunk }

  function MapData(g: Geometry, lba: nat): Place
    requires Valid(g)
  {
    Place(DataDisk(g, StripeOf(g, lba), ColOf(g, lba)), RowOf(g, lba), StripeOf(g, lba))
  }

  /** The other way round, which column a disk is. */
  function ColumnOf(g: Geometry, stripe: nat, disk: nat): nat
    requires Valid(g)
  {
    if g.level == 5 && disk > ParityDisk(g, stripe) then disk - 1 else disk
  }

  function Join(g: Geometry, stripe: nat, col: nat, row: nat): nat
    requires Valid(g)
  {
    (stripe * DataDisks(g) + col) * g.chunk + row % g.chunk
  }

  /** The block at (disk, row). */
  function Lba(g: Geometry, disk: nat, row: nat): nat
    requires Valid(g)
  {
    Join(g, RowStripe(g, row), ColumnOf(g, RowStripe(g, row), disk), row)
  }

  /** A cell that holds data: not the parity cell of its row; of a mirror, the first copy. */
  predicate DataCell(g: Geometry, disk: nat, row: nat)
    requires Valid(g)
  {
    && disk < g.disks && row < g.rows
    && (HasParity(g) ==> disk != ParityDisk(g, RowStripe(g, row)))
    && (g.level == 1 ==> disk == 0)
  }

  /** Data columns of a stripe and disks other than its parity disk correspond. */
  lemma Columns(g: Geometry, stripe: nat, col: nat)
    requires Valid(g) && col < DataDisks(g)
    ensures var d := DataDisk(g, stripe, col);
      && d < g.disks && (HasParity(g) ==> d != ParityDisk(g, stripe)) && (g.level == 1 ==> d == 0)
      && ColumnOf(g, stripe, d) == col
  {
  }

  lemma DisksBack(g: Geometry, stripe: nat, disk: nat)
    requires Valid(g) && disk < g.disks && (HasParity(g) ==> disk != ParityDisk(g, stripe))
             && (g.level == 1 ==> disk == 0)
    ensures ColumnOf(g, stripe, disk) < DataDisks(g) && DataDisk(g, stripe, ColumnOf(g, stripe, disk)) == disk
  {
  }

  /** unit = stripe * dd + col and row = stripe * chunk + off, both ways, within k stripes. */
  lemma Split(lba: nat, chunk: nat, dd: nat, k: nat)
    requires chunk > 0 && dd > 0 && lba < dd * (k * chunk)
    ensures var unit, off := lba / chunk, lba % chunk; var stripe, row := unit / dd, unit / dd * chunk + off;
      && row < k * chunk && row / chunk == stripe && row % chunk == off
      && (stripe * dd + unit % dd) * chunk + off == lba
  {
    var unit, off := lba / chunk, lba % chunk;
    Regroup(dd, k, chunk);
    Below(lba, dd * k, chunk);
    SplitUnit(unit, off, chunk, dd, k);
    Rebuilt(lba, chunk);
  }

  lemma SplitUnit(unit: nat, off: nat, chunk: nat, dd: nat, k: nat)
    requires off < chunk && dd > 0 && unit < dd * k
    ensures var stripe := unit / dd; var row := stripe * chunk + off;
      row < k * chunk && row / chunk == stripe && row % chunk == off && stripe * dd + unit % dd == unit
  {
    DivMod(unit / dd, chunk, off);
    Below(unit, k, dd);
    Filled(unit / dd, k, chunk, off);
    Rebuilt(unit, dd);
  }

  lemma Unsplit(row: nat, chunk: nat, dd: nat, k: nat, col: nat)
    requires chunk > 0 && col < dd && row < k * chunk
    ensures var stripe := row / chunk; var lba := (stripe * dd + col) * chunk + row % chunk;
      && lba < dd * (k * chunk) && lba / chunk == stripe * dd + col && lba % chunk == row % chunk
      && lba / chunk / dd == stripe && lba / chunk % dd == col && stripe * chunk + row % chunk == row
  {
    var stripe := row / chunk;
    var unit := stripe * dd + col;
    DivMod(unit, chunk, row % chunk);
    DivMod(stripe, dd, col);
    Below(row, k, chunk);
    Filled(stripe, k, dd, col);
    Filled(unit, k * dd, chunk, row % chunk);
    Regroup(dd, k, chunk);
    Rebuilt(row, chunk);
  }

  lemma WholeChunks(g: Geometry)
    requires Valid(g)
    ensures g.rows == g.rows / g.chunk * g.chunk && DataDisks(g) > 0
  {
    Rebuilt(g.rows, g.chunk);
  }

  lemma SplitAt(g: Geometry, lba: nat)
    requires Valid(g) && lba < Capacity(g)
    ensures RowOf(g, lba) < g.rows && ColOf(g, lba) < DataDisks(g)
    ensures RowStripe(g, RowOf(g, lba)) == StripeOf(g, lba)
    ensures Join(g, StripeOf(g, lba), ColOf(g, lba), RowOf(g, lba)) == lba
  {
    WholeChunks(g);
    Split(lba, g.chunk, DataDisks(g), g.rows / g.chunk);
  }

  lemma JoinAt(g: Geometry, row: nat, col: nat)
    requires Valid(g) && row < g.rows && col < DataDisks(g)
    ensures var lba := Join(g, RowStripe(g, row), col, row);
      lba < Capacity(g) && StripeOf(g, lba) == RowStripe(g, row) && ColOf(g, lba) == col && RowOf(g, lba) == row
  {
    WholeChunks(g);
    Unsplit(row, g.chunk, DataDisks(g), g.rows / g.chunk, col);
  }

  /** Every block below the capacity has a data cell in range, in the stripe that row / chunk gives. */
  lemma MapInRange(g: Geometry, lba: nat)
    requires Valid(g) && lba < Capacity(g)
    ensures var p := MapData(g, lba); DataCell(g, p.disk, p.row) && p.stripe == RowStripe(g, p.row)
  {
    hide ParityDisk, DataDisk, DataDisks, Valid, StripeOf, ColOf, RowOf, RowStripe, Capacity;
    SplitAt(g, lba);
    Columns(g, StripeOf(g, lba), ColOf(g, lba));
  }

  /** No two blocks share a cell: the inverse finds the block back. */
  lemma MapInjective(g: Geometry, lba: nat)
    requires Valid(g) && lba < Capacity(g)
    ensures var p := MapData(g, lba); Lba(g, p.disk, p.row) == lba
  {
    hide ParityDisk, DataDisk, ColumnOf, DataDisks, Valid, StripeOf, ColOf, RowOf, RowStripe, Capacity, Join;
    SplitAt(g, lba);
    Columns(g, StripeOf(g, lba), ColOf(g, lba));
  }

  /** Every data cell holds a block below the capacity. */
  lemma MapOnto(g: Geometry, disk: nat, row: nat)
    requires Valid(g) && DataCell(g, disk, row)
    ensures var lba := Lba(g, disk, row); lba < Capacity(g) && MapData(g, lba) == Place(disk, row, RowStripe(g, row))
  {
    hide ParityDisk, DataDisk, ColumnOf, DataDisks, Valid, StripeOf, ColOf, RowOf, RowStripe, Capacity, Join;
    DisksBack(g, RowStripe(g, row), disk);
    JoinAt(g, row, ColumnOf(g, RowStripe(g, row), disk));
  }

  // ---- the order of the blocks ------------------------------------------------------------------

  /** Cells in the order in which blocks fill them: by stripe, within a stripe by disk, within a disk by row. */
  predicate Sooner(p: Place, q: Place) {
    p.stripe < q.stripe || (p.stripe == q.stripe && (p.disk < q.disk || (p.disk == q.disk && p.row < q.row)))
  }

  /** Consecutive blocks of a unit are consecutive rows of one disk; the next unit is on a later disk or stripe. */
  lemma MapNext(g: Geometry, lba: nat)
    requires Valid(g) && lba + 1 < Capacity(g)
    ensures var p, q := MapData(g, lba), MapData(g, lba + 1);
      && ((lba + 1) % g.chunk != 0 ==> q == Place(p.disk, p.row + 1, p.stripe))
      && ((lba + 1) % g.chunk == 0 ==>
            q.row % g.chunk == 0 && (q.stripe == p.stripe + 1 || (q.stripe == p.stripe && q.disk > p.disk)))
      && Sooner(p, q)
  {
    var dd := DataDisks(g);
    NextDigit(lba, g.chunk);
    NextDigit(lba / g.chunk, dd);
    SplitAt(g, lba + 1);
    hide Capacity, ParityDisk;
    if (lba + 1) % g.chunk == 0 { DivMod(StripeOf(g, lba + 1), g.chunk, 0); }
  }

  lemma NextDigit(x: nat, d: nat)
    requires d > 0
    ensures if x % d + 1 < d then (x + 1) / d == x / d && (x + 1) % d == x % d + 1
            else (x + 1) / d == x / d + 1 && (x + 1) % d == 0
  {
    Rebuilt(x, d);
    Carry(x / d, x % d, d, x + 1);
  }

  lemma Carry(q: nat, r: nat, d: nat, y: nat)
    requires r < d && y == q * d + r + 1
    ensures if r + 1 < d then y / d == q && y % d == r + 1 else y / d == q + 1 && y % d == 0
  {
    if r + 1 < d {
      DivMod(q, d, r + 1);
    } else {
      MulStep(d, q);
      DivMod(q + 1, d, 0);
    }
  }

  /** So the whole map is increasing. */
  lemma {:induction false} MapRises(g: Geometry, a: nat, b: nat)
    requires Valid(g) && a < b < Capacity(g)
    ensures Sooner(MapData(g, a), MapData(g, b))
    decreases b - a
  {
    hide MapData, Capacity;
    if a + 1 < b {
      MapRises(g, a, b - 1);
    }
    MapNext(g, b - 1);
  }

  /** The disks below d that hold data in a stripe. */
  function DataBelow(g: Geometry, stripe: nat, d: nat): nat
    requires Valid(g)
  {
    if d == 0 then 0
    else DataBelow(g, stripe, d - 1) + if HasParity(g) && ParityDisk(g, stripe) == d - 1 then 0 else 1
  }

  lemma {:induction false} DataBelowIs(g: Geometry, stripe: nat, d: nat)
    requires Valid(g) && d <= g.disks
    ensures DataBelow(g, stripe, d) == if HasParity(g) && ParityDisk(g, stripe) < d then d - 1 else d
  {
    if d > 0 { DataBelowIs(g, stripe, d - 1); }
  }

  /** The j-th unit of a stripe is on the disk with exactly j data disks below it. */
  lemma UnitDisk(g: Geometry, lba: nat)
    requires Valid(g) && lba < Capacity(g)
    ensures var p := MapData(g, lba);
      DataCell(g, p.disk, p.row) && p.stripe * DataDisks(g) + DataBelow(g, p.stripe, p.disk) == lba / g.chunk
  {
    MapInRange(g, lba);
    SplitAt(g, lba);
    Rebuilt(lba / g.chunk, DataDisks(g));
    DataBelowIs(g, StripeOf(g, lba), MapData(g, lba).disk);
    hide Capacity, RowOf, RowStripe, DataCell;
  }

  function Map(g: Geometry): seq<Place>
    requires Valid(g)
  {
    seq(Capacity(g), lba requires 0 <= lba < Capacity(g) => MapData(g, lba))
  }

  /** Every data cell once. */
  ghost predicate Covers(g: Geometry, m: seq<Place>)
    requires Valid(g)
  {
    && (forall p | p in m :: DataCell(g, p.disk, p.row) && p.stripe == p.row / g.chunk)
    && forall d: nat, r: nat | DataCell(g, d, r) :: Place(d, r, r / g.chunk) in m
  }

  /** This order determines the map: it is the one way to go through all data cells stripe by stripe, disk by disk. */
  lemma MapUnique(g: Geometry, m: seq<Place>)
    requires Valid(g)
    ensures (Covers(g, m) && SortedBy(m, Sooner)) <==> m == Map(g)
  {
    MapCovers(g);
    hide Map, MapData, Capacity, DataCell;
    if Covers(g, m) && SortedBy(m, Sooner) {
      forall p | p in m ensures p in Map(g) { assert Place(p.disk, p.row, p.row / g.chunk) == p; }
      forall p | p in Map(g) ensures p in m { assert Place(p.disk, p.row, p.row / g.chunk) == p; }
      OneOrder(m, Map(g), Sooner);
    }
  }

  lemma MapCovers(g: Geometry)
    requires Valid(g)
    ensures Covers(g, Map(g)) && SortedBy(Map(g), Sooner)
  {
    hide MapData, Capacity, DataCell, Lba;
    forall p | p in Map(g) ensures DataCell(g, p.disk, p.row) && p.stripe == p.row / g.chunk {
      var lba: nat :| lba < Capacity(g) && Map(g)[lba] == p;
      MapInRange(g, lba);
    }
    forall d: nat, r: nat | DataCell(g, d, r) ensures Place(d, r, r / g.chunk) in Map(g) {
      MapOnto(g, d, r);
      assert Map(g)[Lba(g, d, r)] == Place(d, r, r / g.chunk);
    }
    forall a: nat, b: nat | a < b < |Map(g)| ensures Sooner(Map(g)[a], Map(g)[b]) { MapRises(g, a, b); }
  }

  /** Parity starts on the last disk; on level 4 it stays there, on level 5 it goes down by one per stripe, wrapping. */
  lemma ParityMarches(g: Geometry, stripe: nat)
    requires Valid(g) && HasParity(g)
    ensures ParityDisk(g, 0) == g.disks - 1
    ensures g.level == 4 ==> ParityDisk(g, stripe + 1) == ParityDisk(g, stripe)
    ensures g.level == 5 ==>
              var p := ParityDisk(g, stripe); ParityDisk(g, stripe + 1) == if p == 0 then g.disks - 1 else p - 1
  {
    if g.level == 5 {
      ParityIs(g, 0);
      ParityIs(g, stripe);
      ParityIs(g, stripe + 1);
      NextDigit(stripe, g.disks);
    }
  }

  /** Level 5: among any `disks` consecutive stripes each disk holds parity exactly once. */
  lemma ParityRotates(g: Geometry, from: nat, p: nat)
    requires Valid(g) && g.level == 5 && p < g.disks
    ensures exists s :: from <= s < from + g.disks && ParityDisk(g, s) == p
    ensures forall s, t | from <= s < from + g.disks && from <= t < from + g.disks
              && ParityDisk(g, s) == p && ParityDisk(g, t) == p ::
              s == t
  {
    var n := g.disks;
    var want := n - 1 - p;
    var s: nat := from + (want + n - from % n) % n;
    forall s: nat ensures ParityDisk(g, s) == n - 1 - s % n { ParityIs(g, s); }
    assert s % n == want by { Residue(from, want, n); }
    assert from <= s < from + n && ParityDisk(g, s) == p;
    forall s, t: nat | from <= s < from + n && from <= t < from + n && ParityDisk(g, s) == p && ParityDisk(g, t) == p
      ensures s == t
    {
      OneResidue(s, t, n);
    }
  }

  lemma ParityIs(g: Geometry, s: nat)
    requires Valid(g) && g.level == 5
    ensures ParityDisk(g, s) == g.disks - 1 - s % g.disks
  {
    DivMod(1, g.disks, g.disks - 1 - s % g.disks);
  }

  lemma Residue(from: nat, want: nat, n: nat)
    requires want < n
    ensures (from + (want + n - from % n) % n) % n == want
  {
    var r := from % n;
    var q := from / n;
    assert from == q * n + r;
    if want >= r {
      DivMod(1, n, want - r);
      DivMod(q, n, want);
    } else {
      DivMod(0, n, want + n - r);
      DivMod(q + 1, n, want);
      assert (q + 1) * n == q * n + n;
    }
  }

  lemma OneResidue(s: nat, t: nat, n: nat)
    requires n > 0 && s % n == t % n && s < t + n && t < s + n
    ensures s == t
  {
    assert s == n * (s / n) + s % n && t == n * (t / n) + t % n;
    if s / n < t / n { MulLess(s / n + 1, t / n, n); }
    if t / n < s / n { MulLess(t / n + 1, s / n, n); }
  }
}
