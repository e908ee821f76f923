/** The RAID engine: reads and writes through redundancy, failure of a disk, rebuild. */
module Raid {
  import opened Parity
  import opened RaidLayout
  import opened Division

  datatype Mode = Auto | Additive | Sub

  type Disks = seq<seq<Block>>

  predicate Shape(g: Geometry, bs: nat, disk: Disks) {
    && Valid(g) && |disk| == g.disks
    && (forall d | 0 <= d < |disk| :: |disk[d]| == g.rows && forall r | 0 <= r < |disk[d]| :: |disk[d][r]| == bs)
  }

  /** One row across all disks. */
  function Column(g: Geometry, bs: nat, disk: Disks, row: nat): (c: seq<Block>)
    requires Shape(g, bs, disk) && row < g.rows
    ensures |c| == g.disks && Row(c, bs) && forall d | 0 <= d < g.disks :: c[d] == disk[d][row]
  {
    seq(|disk|, d requires 0 <= d < |disk| => disk[d][row])
  }

  /** What makes a disk replaceable: equal mirrors, or rows that sum to zero. */
  ghost predicate Redundant(g: Geometry, bs: nat, disk: Disks)
    requires Shape(g, bs, disk)
  {
    && (g.level == 1 ==> forall d, r | 0 <= d < g.disks && 0 <= r < g.rows :: disk[d][r] == disk[0][r])
    && (HasParity(g) ==> forall r | 0 <= r < g.rows :: Sum(Column(g, bs, disk, r), bs, g.disks, {}) == Zeros(bs))
  }

  function Put(disk: Disks, d: nat, row: nat, b: Block): Disks
    requires d < |disk| && row < |disk[d]|
  {
    disk[d := disk[d][row := b]]
  }

  /** The content of logical block lba. */
  function Logical(g: Geometry, bs: nat, disk: Disks, lba: nat): Block
    requires Shape(g, bs, disk) && lba < Capacity(g)
  {
    MapInRange(g, lba);
    var p := MapData(g, lba);
    disk[p.disk][p.row]
  }

  /** Enough disks are left to read everything. */
  predicate Survives(g: Geometry, failed: seq<bool>)
    requires Valid(g) && |failed| == g.disks
  {
    if g.level == 0 then forall d | 0 <= d < g.disks :: !failed[d]
    else if g.level == 1 then exists d :: 0 <= d < g.disks && !failed[d]
    else forall i, j | 0 <= i < g.disks && 0 <= j < g.disks && failed[i] && failed[j] :: i == j
  }

  /** Enough to read one block whose data is on disk d. */
  predicate Readable(g: Geometry, failed: seq<bool>, d: nat)
    requires Valid(g) && |failed| == g.disks && d < g.disks
  {
    if g.level == 1 then exists i :: 0 <= i < g.disks && !failed[i]
    else !failed[d] || (HasParity(g) && forall i | 0 <= i < g.disks && i != d :: !failed[i])
  }

  predicate Healthy(failed: seq<bool>) { forall d | 0 <= d < |failed| :: !failed[d] }

  /** A new data block and the parity block that balances its row. */
  function Updated(g: Geometry, bs: nat, disk: Disks, d: nat, p: nat, row: nat, b: Block): Disks
    requires Shape(g, bs, disk) && d < g.disks && p < g.disks && row < g.rows && |b| == bs
  {
    Put(Put(disk, d, row, b), p, row, Xor(Sum(Column(g, bs, disk, row), bs, g.disks, {p, d}), b))
  }

  lemma UpdatedRedundant(g: Geometry, bs: nat, disk: Disks, d: nat, p: nat, row: nat, b: Block)
    requires Shape(g, bs, disk) && Redundant(g, bs, disk) && HasParity(g)
    requires d < g.disks && p < g.disks && d != p && row < g.rows && |b| == bs
    ensures Shape(g, bs, Updated(g, bs, disk, d, p, row, b)) && Redundant(g, bs, Updated(g, bs, disk, d, p, row, b))
  {
    hide Sum;
    var disk' := Updated(g, bs, disk, d, p, row, b);
    BalancedZero(Column(g, bs, disk, row), bs, d, p, b);
    assert Column(g, bs, disk', row) == Balanced(Column(g, bs, disk, row), bs, d, p, b);
    forall r: nat | r < g.rows && r != row ensures Column(g, bs, disk', r) == Column(g, bs, disk, r) { }
  }

  /** Writing cells of one row whose only data cell of interest is (d, row) changes that logical block alone. */
  lemma OneBlock(g: Geometry, bs: nat, disk: Disks, disk': Disks, lba: nat, b: Block)
    requires Shape(g, bs, disk) && Shape(g, bs, disk') && lba < Capacity(g)
    requires forall d: nat, r: nat | d < g.disks && r < g.rows && DataCell(g, d, r) ::
               disk'[d][r] == if d == MapData(g, lba).disk && r == MapData(g, lba).row then b else disk[d][r]
    ensures forall k: nat | k < Capacity(g) ::
              Logical(g, bs, disk', k) == if k == lba then b else Logical(g, bs, disk, k)
  {
    hide MapData, DataCell, Lba;
    forall k: nat | k < Capacity(g)
      ensures Logical(g, bs, disk', k) == if k == lba then b else Logical(g, bs, disk, k)
    {
      MapInRange(g, k);
      MapInjective(g, k);
      MapInjective(g, lba);
      InRange(g, MapData(g, k).disk, MapData(g, k).row);
    }
  }

  lemma InRange(g: Geometry, d: nat, r: nat)
    requires Valid(g) && DataCell(g, d, r)
    ensures d < g.disks && r < g.rows
  {
  }

  lemma {:induction false} ZeroSum(c: seq<Block>, bs: nat, n: nat)
    requires Row(c, bs) && n <= |c| && forall d | 0 <= d < |c| :: c[d] == Zeros(bs)
    ensures Sum(c, bs, n, {}) == Zeros(bs)
  {
    if n > 0 {
      ZeroSum(c, bs, n - 1);
      XorZero(Zeros(bs));
    }
  }

  class Engine {
    const g: Geometry
    const bs: nat
    var disk: Disks
    var failed: seq<bool>
    var mode: Mode
    var physReads: nat
    var physWrites: nat

    ghost predicate Ok()
      reads this
    {
      Shape(g, bs, disk) && |failed| == g.disks
    }

    constructor (geometry: Geometry, blocksize: nat)
      requires Valid(geometry)
      ensures g == geometry && bs == blocksize && Ok() && Redundant(g, bs, disk) && Healthy(failed)
      ensures forall k: nat | k < Capacity(g) :: Logical(g, bs, disk, k) == Zeros(bs)
    {
      g, bs := geometry, blocksize;
      disk := seq(geometry.disks, _ => seq(geometry.rows, _ => Zeros(blocksize)));
      failed := seq(geometry.disks, _ => false);
      mode, physReads, physWrites := Auto, 0, 0;
      new;
      forall r: nat | r < g.rows ensures Sum(Column(g, bs, disk, r), bs, g.disks, {}) == Zeros(bs) {
        ZeroSum(Column(g, bs, disk, r), bs, g.disks);
      }
      forall k: nat | k < Capacity(g) ensures Logical(g, bs, disk, k) == Zeros(bs) {
        MapInRange(g, k);
      }
    }

    method PhysRead(d: nat, row: nat) returns (b: Block)
      requires Ok() && d < g.disks && row < g.rows
      modifies this`physReads
      ensures b == disk[d][row] && physReads == old(physReads) + 1
    {
      physReads := physReads + 1;
      b := disk[d][row];
    }

    method PhysWrite(d: nat, row: nat, b: Block)
      requires Ok() && d < g.disks && row < g.rows && |b| == bs
      modifies this`physWrites, this`disk
      ensures Ok() && disk == Put(old(disk), d, row, b) && physWrites == old(physWrites) + 1
    {
      physWrites := physWrites + 1;
      disk := Put(disk, d, row, b);
    }

    method Fail(d: nat)
      requires Ok() && d < g.disks
      modifies this`failed
      ensures failed == old(failed)[d := true]
    {
      failed := failed[d := true];
    }

    static method XorInto(acc: array<bv8>, src: Block)
      requires |src| == acc.Length
      modifies acc
      ensures acc[..] == Xor(old(acc[..]), src)
    {
      var i := 0;
      while i < acc.Length
        invariant 0 <= i <= acc.Length
        invariant forall k | 0 <= k < acc.Length :: acc[k] == if k < i then old(acc[k]) ^ src[k] else old(acc[k])
      {
        acc[i] := acc[i] ^ src[i];
        i := i + 1;
      }
      assert acc[..] == Xor(old(acc[..]), src);
    }

    /** The sum of a row's blocks but one; fails if another disk of the row has failed. */
    method Reconstruct(want: nat, row: nat, stripe: nat) returns (ok: bool, out: Block)
      requires Ok() && HasParity(g) && want < g.disks && row < g.rows
      modifies this`physReads
      ensures ok <==> forall i | 0 <= i < g.disks && i != want :: !failed[i]
      ensures ok ==>
                && out == Sum(Column(g, bs, disk, row), bs, g.disks, {want})
                && physReads == old(physReads) + g.disks - 1
    {
      hide Sum, Xor;
      ghost var c := Column(g, bs, disk, row);
      SumNone(c, bs, {ParityDisk(g, stripe), want});
      var acc := new bv8[bs](_ => 0);
      var pdisk, dd := ParityDisk(g, stripe), DataDisks(g);
      var col := 0;
      assert acc[..] == Zeros(bs);
      while col < dd
        invariant 0 <= col <= dd
        invariant acc[..] == Sum(c, bs, Position(pdisk, col), {pdisk, want})
        invariant forall i | 0 <= i < Position(pdisk, col) && i != pdisk && i != want :: !failed[i]
        invariant physReads == old(physReads) + col - (if want != pdisk && want < Position(pdisk, col) then 1 else 0)
      {
        var phys := if g.level == 5 && col >= pdisk then col + 1 else col;
        SumStep(c, bs, pdisk, want, col);
        if phys != want {
          if failed[phys] { return false, []; }
          var b := PhysRead(phys, row);
          XorInto(acc, b);
        }
        col := col + 1;
      }
      SumLast(c, bs, pdisk, want);
      if pdisk != want {
        if failed[pdisk] { return false, []; }
        var b := PhysRead(pdisk, row);
        Extract(c, bs, g.disks, {want}, pdisk);
        assert {want} + {pdisk} == {pdisk, want};
        XorInto(acc, b);
      } else {
        assert {pdisk, want} == {want};
      }
      ok, out := true, acc[..];
    }

    /** A logical block, through redundancy if its disk has failed; fails exactly when too little is left. */
    method LogicalRead(lba: nat) returns (ok: bool, out: Block)
      requires Ok() && lba < Capacity(g)
      modifies this`physReads
      ensures ok <==> ReadableAt(g, failed, lba)
      ensures ok && Redundant(g, bs, disk) ==> out == Logical(g, bs, disk, lba)
    {
      hide MapData, Sum, Column, Capacity;
      MapInRange(g, lba);
      var p := MapData(g, lba);
      if g.level == 1 {
        var i := 0;
        while i < g.disks
          invariant 0 <= i <= g.disks && forall k | 0 <= k < i :: failed[k]
        {
          if !failed[i] {
            out := PhysRead(i, p.row);
            return true, out;
          }
          i := i + 1;
        }
        return false, [];
      }
      if !failed[p.disk] {
        out := PhysRead(p.disk, p.row);
        return true, out;
      }
      if g.level == 0 {
        return false, [];
      }
      ok, out := Reconstruct(p.disk, p.row, p.stripe);
      if ok && Redundant(g, bs, disk) {
        Missing(Column(g, bs, disk, p.row), bs, p.disk);
      }
    }

    /** Sum a row's data disks afresh into its parity block. */
    method ParityRecompute(stripe: nat, row: nat)
      requires Ok() && HasParity(g) && row < g.rows
      modifies this`physReads, this`physWrites, this`disk
      ensures Ok() && var p := ParityDisk(g, stripe);
        disk == Put(old(disk), p, row, Sum(Column(g, bs, old(disk), row), bs, g.disks, {p}))
    {
      hide Sum, Xor;
      ghost var c := Column(g, bs, disk, row);
      var pdisk, dd := ParityDisk(g, stripe), DataDisks(g);
      var acc := new bv8[bs](_ => 0);
      SumNone(c, bs, {pdisk, pdisk});
      assert acc[..] == Zeros(bs);
      var col := 0;
      while col < dd
        invariant 0 <= col <= dd && acc[..] == Sum(c, bs, Position(pdisk, col), {pdisk, pdisk})
        invariant disk == old(disk) && physWrites == old(physWrites)
      {
        var phys := if g.level == 5 && col >= pdisk then col + 1 else col;
        SumStep(c, bs, pdisk, pdisk, col);
        var b := PhysRead(phys, row);
        XorInto(acc, b);
        col := col + 1;
      }
      SumLast(c, bs, pdisk, pdisk);
      assert {pdisk, pdisk} == {pdisk};
      PhysWrite(pdisk, row, acc[..]);
    }

    /**
     Write a logical block, every byte val. On a healthy redundant array, in every mode, that block changes,
     no other does, and the array stays redundant. With a failed disk the rest of the contract says what is
     left: in particular a write whose data disk has failed is lost.
     */
    method LogicalWrite(lba: nat, val: bv8) returns (ok: bool)
      requires Ok() && lba < Capacity(g)
      modifies this`physReads, this`physWrites, this`disk
      ensures Ok()
      ensures Healthy(failed) && Redundant(g, bs, old(disk)) ==>
                && ok && Redundant(g, bs, disk)
                && forall k: nat | k < Capacity(g) ::
                     Logical(g, bs, disk, k) == if k == lba then AllBytes(bs, val) else Logical(g, bs, old(disk), k)
      ensures HasParity(g) && Redundant(g, bs, old(disk)) ==>
              ok && disk == ParityWrite(g, bs, old(disk), failed, lba, val)
      ensures g.level == 1 ==> ok && disk == MirrorWrite(g, bs, old(disk), failed, lba, val)
      ensures g.level == 0 ==>
              ok == !FailedAt(g, failed, lba) && disk == StripeWrite(g, bs, old(disk), failed, lba, val)
    {
      hide MapData, Sum, Column, Capacity, Redundant, Updated, Logical, MirrorWrite;
      MapInRange(g, lba);
      var p := MapData(g, lba);
      var nd := AllBytes(bs, val);
      ghost var disk0 := disk;
      if g.level == 0 {
        if failed[p.disk] { return false; }
        PhysWrite(p.disk, p.row, nd);
        StripeWritten(g, bs, disk0, failed, lba, val);
        return true;
      }
      if g.level == 1 {
        WriteMirrors(lba, p.row, val);
        MirrorWritten(g, bs, disk0, failed, lba, val);
        return true;
      }
      var pdisk := ParityDisk(g, p.stripe);
      if failed[p.disk] || failed[pdisk] {
        if !failed[p.disk] { PhysWrite(p.disk, p.row, nd); }
        if !failed[pdisk] {
          ParityRecompute(p.stripe, p.row);
          if Redundant(g, bs, disk0) { ParityFixed(g, bs, disk0, p.row, pdisk); }
        }
        return true;
      }
      WriteParity(p, pdisk, nd);
      ParityWritten(g, bs, disk0, failed, lba, val);
      ok := true;
    }

    /** Level 1: every live copy. */
    method WriteMirrors(ghost lba: nat, row: nat, val: bv8)
      requires Ok() && g.level == 1 && lba < Capacity(g) && row == MapData(g, lba).row < g.rows
      modifies this`physWrites, this`disk
      ensures Ok() && disk == MirrorWrite(g, bs, old(disk), failed, lba, val)
    {
      hide MapData, Capacity;
      var i := 0;
      while i < g.disks
        invariant 0 <= i <= g.disks && Ok()
        invariant forall d | 0 <= d < g.disks ::
                    disk[d] == if d < i && !failed[d] then old(disk)[d][row := AllBytes(bs, val)] else old(disk)[d]
      {
        if !failed[i] { PhysWrite(i, row, AllBytes(bs, val)); }
        i := i + 1;
      }
    }

    /** Levels 4 and 5, data and parity disk alive: two reads, or the other data blocks; then two writes. */
    method WriteParity(p: Place, pdisk: nat, nd: Block)
      requires Ok() && HasParity(g) && p.disk < g.disks && p.row < g.rows && pdisk == ParityDisk(g, p.stripe) != p.disk
      requires |nd| == bs
      modifies this`physReads, this`physWrites, this`disk
      ensures Ok() && (Redundant(g, bs, old(disk)) ==> disk == Updated(g, bs, old(disk), p.disk, pdisk, p.row, nd))
      ensures physWrites == old(physWrites) + 2
      ensures physReads == old(physReads) + if Subtracts(g, mode) then 2 else DataDisks(g) - 1
    {
      hide Sum, Xor, Column;
      ghost var c := Column(g, bs, disk, p.row);
      var par;
      if Subtracts(g, mode) {
        var oldData := PhysRead(p.disk, p.row);
        par := PhysRead(pdisk, p.row);
        par := Xor(par, oldData);
        par := Xor(par, nd);
        if Redundant(g, bs, disk) { Subtractive(c, bs, p.disk, pdisk, nd); }
      } else {
        par := SumOthers(p, pdisk);
        par := Xor(par, nd);
      }
      PhysWrite(p.disk, p.row, nd);
      PhysWrite(pdisk, p.row, par);
    }

    /** The sum of the row's data blocks other than the one being written. */
    method SumOthers(p: Place, pdisk: nat) returns (par: Block)
      requires Ok() && HasParity(g) && p.disk < g.disks && p.row < g.rows && pdisk == ParityDisk(g, p.stripe) != p.disk
      modifies this`physReads
      ensures par == Sum(Column(g, bs, disk, p.row), bs, g.disks, {pdisk, p.disk})
      ensures physReads == old(physReads) + DataDisks(g) - 1
    {
      hide Sum, Xor;
      ghost var c := Column(g, bs, disk, p.row);
      var acc := new bv8[bs](_ => 0);
      var dd, col := DataDisks(g), 0;
      SumNone(c, bs, {pdisk, p.disk});
      assert acc[..] == Zeros(bs);
      while col < dd
        invariant 0 <= col <= dd && acc[..] == Sum(c, bs, Position(pdisk, col), {pdisk, p.disk})
        invariant physReads == old(physReads) + col - if p.disk < Position(pdisk, col) then 1 else 0
      {
        var phys := if g.level == 5 && col >= pdisk then col + 1 else col;
        SumStep(c, bs, pdisk, p.disk, col);
        if phys != p.disk {
          var b := PhysRead(phys, p.row);
          XorInto(acc, b);
        }
        col := col + 1;
      }
      SumLast(c, bs, pdisk, p.disk);
      par := acc[..];
    }

    /**
     Rebuild a failed disk onto a blank replacement. With the rest of a redundant array alive every cell comes
     back, at the cost of one block read per row and surviving disk (per row for a mirror).
     */
    method Rebuild(d: nat) returns (blocks: int)
      requires Ok() && d < g.disks
      modifies this`physReads, this`physWrites, this`disk, this`failed
      ensures Ok() && failed == old(failed)[d := false]
      ensures !old(failed)[d] ==> blocks == 0 && disk == old(disk)
      ensures old(failed)[d] && Redundant(g, bs, old(disk)) && OthersAlive(g, old(failed), d) ==>
                disk == old(disk) && blocks == if g.level == 1 then g.rows else (g.disks - 1) * g.rows
    {
      hide Sum, Column, Redundant, OthersAlive, RowReads;
      if !failed[d] { return 0; }
      var before := physReads;
      ghost var disk0, failed0 := disk, failed;
      disk := disk[d := seq(g.rows, _ => Zeros(bs))];
      var row := 0;
      while row < g.rows
        invariant 0 <= row <= g.rows && Ok() && failed == failed0
        invariant forall i | 0 <= i < g.disks && i != d :: disk[i] == disk0[i]
        invariant Redundant(g, bs, disk0) && OthersAlive(g, failed0, d) ==>
                    && disk[d][..row] == disk0[d][..row]
                    && physReads == before + RowReads(g) * row
      {
        MulStep(RowReads(g), row);
        RebuildRow(d, row, disk0);
        row := row + 1;
      }
      failed := failed[d := false];
      blocks := physReads - before;
      TotalReads(g);
      if Redundant(g, bs, disk0) && OthersAlive(g, failed0, d) {
        assert disk[d] == disk[d][..g.rows] && disk0[d] == disk0[d][..g.rows];
      }
    }

    /** A list of writes, each in its own mode. */
    method WriteAll(ws: seq<Command>)
      requires Ok() && Healthy(failed) && Redundant(g, bs, disk) && InCapacity(g, ws)
      modifies this`physReads, this`physWrites, this`disk, this`mode
      ensures Ok() && Redundant(g, bs, disk)
      ensures Contents(g, bs, disk) == After(Contents(g, bs, old(disk)), ws, bs)
    {
      hide Redundant, Logical, Capacity, ParityWrite, MirrorWrite, StripeWrite;
      ghost var disk0 := disk;
      for i := 0 to |ws|
        invariant Ok() && Redundant(g, bs, disk)
        invariant Contents(g, bs, disk) == After(Contents(g, bs, disk0), ws[..i], bs)
      {
        ghost var before := disk;
        mode := ws[i].mode;
        var ok := LogicalWrite(ws[i].lba, ws[i].val);
        assert ws[..i + 1][..i] == ws[..i];
        assert Contents(g, bs, disk) == Contents(g, bs, before)[ws[i].lba := AllBytes(bs, ws[i].val)];
      }
      assert ws[..|ws|] == ws;
    }

    /** Every logical block, as far as they can be read. */
    method ReadAll() returns (ok: bool, out: seq<Block>)
      requires Ok()
      modifies this`physReads
      ensures Survives(g, failed) ==> ok
      ensures ok && Redundant(g, bs, disk) ==> out == Contents(g, bs, disk)
    {
      hide Redundant, Logical, Capacity, Survives, ReadableAt;
      out := [];
      ok := true;
      for lba := 0 to Capacity(g)
        invariant ok && |out| == lba
        invariant Redundant(g, bs, disk) ==> forall k: nat | k < lba :: out[k] == Logical(g, bs, disk, k)
      {
        AllReadable(g, failed, lba);
        var b;
        ok, b := LogicalRead(lba);
        if !ok { return; }
        out := out + [b];
      }
    }

    /**
     Fault tolerance: after any writes to a healthy array of level 1, 4 or 5, any one disk can fail and everything
     reads as written, and again after that disk has been rebuilt.
     */
    method Drill(ws: seq<Command>, d: nat) returns (degraded: seq<Block>, blocks: int, rebuilt: seq<Block>)
      requires Ok() && Healthy(failed) && Redundant(g, bs, disk) && InCapacity(g, ws) && d < g.disks && g.level != 0
      modifies this
      ensures Ok() && Healthy(failed) && Redundant(g, bs, disk)
      ensures degraded == After(Contents(g, bs, old(disk)), ws, bs) && rebuilt == degraded
      ensures blocks == if g.level == 1 then g.rows else (g.disks - 1) * g.rows
    {
      hide Redundant, Logical, Capacity, Contents, After;
      WriteAll(ws);
      Fail(d);
      OneFailed(g, failed, d);
      var ok;
      ok, degraded := ReadAll();
      blocks := Rebuild(d);
      OneBack(g, failed);
      ok, rebuilt := ReadAll();
    }

    /** One row of a rebuild. */
    method RebuildRow(d: nat, row: nat, ghost disk0: Disks)
      requires Ok() && d < g.disks && row < g.rows && failed[d] && Shape(g, bs, disk0)
      requires forall i | 0 <= i < g.disks && i != d :: disk[i] == disk0[i]
      modifies this`physReads, this`physWrites, this`disk, this`failed
      ensures Ok() && failed == old(failed)
      ensures disk == old(disk)[d := disk[d]] && disk[d] == old(disk)[d][row := disk[d][row]]
      ensures Redundant(g, bs, disk0) && OthersAlive(g, failed, d) ==>
                disk[d][row] == disk0[d][row] && physReads == old(physReads) + RowReads(g)
    {
      hide Sum, Column;
      if g.level == 0 {
        return;
      }
      if g.level == 1 {
        var i := 0;
        while i < g.disks && (i == d || failed[i])
          invariant 0 <= i <= g.disks && forall k | 0 <= k < i :: k == d || failed[k]
        {
          i := i + 1;
        }
        if i < g.disks {
          var b := PhysRead(i, row);
          assert Redundant(g, bs, disk0) ==> disk0[i][row] == disk0[0][row] && disk0[d][row] == disk0[0][row];
          failed := failed[d := false];
          PhysWrite(d, row, b);
          failed := failed[d := true];
        }
        return;
      }
      var ok, b := Reconstruct(d, row, row / g.chunk);
      if Redundant(g, bs, disk0) && ok {
        Missing(Column(g, bs, disk0, row), bs, d);
        SameSum(Column(g, bs, disk, row), Column(g, bs, disk0, row), bs, g.disks, {d}, {d});
      }
      if ok {
        failed := failed[d := false];
        PhysWrite(d, row, b);
        failed := failed[d := true];
      }
    }
  }

  function AllBytes(bs: nat, val: bv8): (b: Block)
    ensures |b| == bs
  {
    seq(bs, _ => val)
  }

  predicate ReadableAt(g: Geometry, failed: seq<bool>, lba: nat)
    requires Valid(g) && |failed| == g.disks && lba < Capacity(g)
  {
    MapInRange(g, lba);
    Readable(g, failed, MapData(g, lba).disk)
  }

  predicate FailedAt(g: Geometry, failed: seq<bool>, lba: nat)
    requires Valid(g) && |failed| == g.disks && lba < Capacity(g)
  {
    MapInRange(g, lba);
    failed[MapData(g, lba).disk]
  }

  /** The disks a rebuild of d can use: all the others with parity, any other with mirrors. */
  predicate OthersAlive(g: Geometry, failed: seq<bool>, d: nat)
    requires Valid(g) && |failed| == g.disks
  {
    if g.level == 1 then exists i :: 0 <= i < g.disks && i != d && !failed[i]
    else HasParity(g) && forall i | 0 <= i < g.disks && i != d :: !failed[i]
  }

  /** Whether a small write subtracts: asked for, or cheaper. */
  predicate Subtracts(g: Geometry, mode: Mode)
    requires Valid(g)
  {
    mode == Sub || (mode == Auto && 4 <= DataDisks(g) - 1 + 2)
  }

  /** Levels 4 and 5: data and parity; data alone if the parity disk is gone; nothing if the data disk is. */
  function ParityWrite(g: Geometry, bs: nat, disk: Disks, failed: seq<bool>, lba: nat, val: bv8): Disks
    requires Shape(g, bs, disk) && |failed| == g.disks && lba < Capacity(g) && HasParity(g)
  {
    MapInRange(g, lba);
    var p := MapData(g, lba);
    var pdisk := ParityDisk(g, p.stripe);
    if failed[p.disk] then disk
    else if failed[pdisk] then Put(disk, p.disk, p.row, AllBytes(bs, val))
    else Updated(g, bs, disk, p.disk, pdisk, p.row, AllBytes(bs, val))
  }

  function MirrorWrite(g: Geometry, bs: nat, disk: Disks, failed: seq<bool>, lba: nat, val: bv8): Disks
    requires Shape(g, bs, disk) && |failed| == g.disks && lba < Capacity(g)
  {
    MapInRange(g, lba);
    var row := MapData(g, lba).row;
    seq(g.disks, d requires 0 <= d < g.disks => if failed[d] then disk[d] else disk[d][row := AllBytes(bs, val)])
  }

  function StripeWrite(g: Geometry, bs: nat, disk: Disks, failed: seq<bool>, lba: nat, val: bv8): Disks
    requires Shape(g, bs, disk) && |failed| == g.disks && lba < Capacity(g)
  {
    MapInRange(g, lba);
    var p := MapData(g, lba);
    if failed[p.disk] then disk else Put(disk, p.disk, p.row, AllBytes(bs, val))
  }

  /** Only block lba changed, and the array is still redundant. */
  ghost predicate WroteOnly(g: Geometry, bs: nat, disk: Disks, disk': Disks, lba: nat, b: Block)
    requires Shape(g, bs, disk) && lba < Capacity(g)
  {
    && Shape(g, bs, disk') && Redundant(g, bs, disk')
    && forall k: nat | k < Capacity(g) :: Logical(g, bs, disk', k) == if k == lba then b else Logical(g, bs, disk, k)
  }

  lemma StripeWritten(g: Geometry, bs: nat, disk: Disks, failed: seq<bool>, lba: nat, val: bv8)
    requires Shape(g, bs, disk) && |failed| == g.disks && lba < Capacity(g) && g.level == 0 && !FailedAt(g, failed, lba)
    ensures WroteOnly(g, bs, disk, StripeWrite(g, bs, disk, failed, lba, val), lba, AllBytes(bs, val))
  {
    hide MapData, Capacity, Logical;
    MapInRange(g, lba);
    OneBlock(g, bs, disk, StripeWrite(g, bs, disk, failed, lba, val), lba, AllBytes(bs, val));
  }

  lemma MirrorWritten(g: Geometry, bs: nat, disk: Disks, failed: seq<bool>, lba: nat, val: bv8)
    requires Shape(g, bs, disk) && |failed| == g.disks && lba < Capacity(g) && g.level == 1
    ensures Shape(g, bs, MirrorWrite(g, bs, disk, failed, lba, val))
    ensures Healthy(failed) && Redundant(g, bs, disk) ==>
              WroteOnly(g, bs, disk, MirrorWrite(g, bs, disk, failed, lba, val), lba, AllBytes(bs, val))
  {
    hide MapData, Capacity, Logical;
    MapInRange(g, lba);
    if Healthy(failed) && Redundant(g, bs, disk) {
      OneBlock(g, bs, disk, MirrorWrite(g, bs, disk, failed, lba, val), lba, AllBytes(bs, val));
    }
  }

  lemma ParityWritten(g: Geometry, bs: nat, disk: Disks, failed: seq<bool>, lba: nat, val: bv8)
    requires Shape(g, bs, disk) && |failed| == g.disks && lba < Capacity(g) && HasParity(g)
    ensures Healthy(failed) && Redundant(g, bs, disk) ==>
              WroteOnly(g, bs, disk, ParityWrite(g, bs, disk, failed, lba, val), lba, AllBytes(bs, val))
  {
    hide MapData, Capacity, Logical, Sum, Column;
    MapInRange(g, lba);
    var p := MapData(g, lba);
    if Healthy(failed) && Redundant(g, bs, disk) {
      UpdatedRedundant(g, bs, disk, p.disk, ParityDisk(g, p.stripe), p.row, AllBytes(bs, val));
      OneBlock(g, bs, disk, ParityWrite(g, bs, disk, failed, lba, val), lba, AllBytes(bs, val));
    }
  }

  /** Summing a balanced row's data afresh gives the parity it has. */
  lemma ParityFixed(g: Geometry, bs: nat, disk: Disks, row: nat, p: nat)
    requires Shape(g, bs, disk) && Redundant(g, bs, disk) && HasParity(g) && p < g.disks && row < g.rows
    ensures Put(disk, p, row, Sum(Column(g, bs, disk, row), bs, g.disks, {p})) == disk
  {
    hide Sum;
    Missing(Column(g, bs, disk, row), bs, p);
    assert disk[p][row := disk[p][row]] == disk[p];
  }

  /** With at most one disk gone from a parity array, or not all from a mirror, every block can be read. */
  lemma AllReadable(g: Geometry, failed: seq<bool>, lba: nat)
    requires Valid(g) && |failed| == g.disks && lba < Capacity(g)
    ensures Survives(g, failed) ==> ReadableAt(g, failed, lba)
  {
    MapInRange(g, lba);
  }

  /**
   A write to a degraded parity array: lost if the block's own disk is gone, and otherwise that block's data, with
   every other block as before.
   */
  lemma DegradedWrite(g: Geometry, bs: nat, disk: Disks, failed: seq<bool>, lba: nat, val: bv8)
    requires Shape(g, bs, disk) && |failed| == g.disks && lba < Capacity(g) && HasParity(g) && !Healthy(failed)
    requires Survives(g, failed)
    ensures var disk' := ParityWrite(g, bs, disk, failed, lba, val);
      && Shape(g, bs, disk')
      && (FailedAt(g, failed, lba) ==> disk' == disk)
      && (!FailedAt(g, failed, lba) ==>
            forall k: nat | k < Capacity(g) ::
              Logical(g, bs, disk', k) == if k == lba then AllBytes(bs, val) else Logical(g, bs, disk, k))
  {
    hide MapData, Capacity, Sum, ParityDisk, Column;
    MapInRange(g, lba);
    var p := MapData(g, lba);
    var disk' := ParityWrite(g, bs, disk, failed, lba, val);
    if !failed[p.disk] {
      OneBlock(g, bs, disk, disk', lba, AllBytes(bs, val));
    }
  }

  // ---- whole histories ------------------------------------------------------------------------

  /** A write and the parity mode in force. */
  datatype Command = Command(mode: Mode, lba: nat, val: bv8)

  predicate InCapacity(g: Geometry, ws: seq<Command>)
    requires Valid(g)
  {
    forall i | 0 <= i < |ws| :: ws[i].lba < Capacity(g)
  }

  function Contents(g: Geometry, bs: nat, disk: Disks): (c: seq<Block>)
    requires Shape(g, bs, disk)
    ensures |c| == Capacity(g)
  {
    seq(Capacity(g), k requires 0 <= k < Capacity(g) => Logical(g, bs, disk, k))
  }

  /** What an array of plain blocks would hold. */
  function After(c: seq<Block>, ws: seq<Command>, bs: nat): (r: seq<Block>)
    requires forall i | 0 <= i < |ws| :: ws[i].lba < |c|
    ensures |r| == |c|
  {
    if ws == [] then c
    else
      var w := ws[|ws| - 1];
      After(c, ws[..|ws| - 1], bs)[w.lba := AllBytes(bs, w.val)]
  }

  lemma OneFailed(g: Geometry, failed: seq<bool>, d: nat)
    requires Valid(g) && |failed| == g.disks && d < g.disks && g.level != 0
    requires forall i | 0 <= i < g.disks :: failed[i] == (i == d)
    ensures Survives(g, failed) && OthersAlive(g, failed, d)
  {
    var other := if d == 0 then 1 else 0;
    assert !failed[other];
  }

  lemma OneBack(g: Geometry, failed: seq<bool>)
    requires Valid(g) && |failed| == g.disks && Healthy(failed)
    ensures Survives(g, failed)
  {
    assert !failed[0];
  }

  /** Block reads a row costs to rebuild. */
  function RowReads(g: Geometry): nat
    requires Valid(g)
  {
    if g.level == 1 then 1 else g.disks - 1
  }

  lemma TotalReads(g: Geometry)
    requires Valid(g)
    ensures RowReads(g) * g.rows == if g.level == 1 then g.rows else (g.disks - 1) * g.rows
  {
  }

  /** How many disks the first col data columns reach over. */
  function Position(pdisk: nat, col: nat): nat { if col > pdisk then col + 1 else col }

  lemma SumNone(c: seq<Block>, bs: nat, skip: set<nat>)
    requires Row(c, bs)
    ensures Sum(c, bs, 0, skip) == Zeros(bs)
  {
  }

  lemma SumLast(c: seq<Block>, bs: nat, pdisk: nat, want: nat)
    requires Row(c, bs) && pdisk < |c|
    ensures Sum(c, bs, Position(pdisk, |c| - 1), {pdisk, want}) == Sum(c, bs, |c|, {pdisk, want})
  {
  }

  lemma SumStep(c: seq<Block>, bs: nat, pdisk: nat, want: nat, col: nat)
    requires Row(c, bs) && pdisk < |c| && col < |c| - 1
    ensures var phys := if col >= pdisk then col + 1 else col;
      Sum(c, bs, Position(pdisk, col + 1), {pdisk, want}) ==
      if phys == want then Sum(c, bs, Position(pdisk, col), {pdisk, want})
      else Xor(Sum(c, bs, Position(pdisk, col), {pdisk, want}), c[phys])
  {
    if col == pdisk {
      assert Sum(c, bs, pdisk + 1, {pdisk, want}) == Sum(c, bs, pdisk, {pdisk, want});
    }
  }
}
