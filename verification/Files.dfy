/** The kernel's file operations over the block layout: allocate, map, read, write, truncate. */
module Files {
  import opened Bytes
  import opened FsLayout

  const BPB: nat := BSIZE * 8    // bitmap bits per block

  class FileSystem {
    const data: nat              // first data block; everything below is metadata
    var blocks: seq<Block>
    var used: seq<bool>          // the free bitmap
    var inodes: seq<Inode>
    ghost var owner: Owners

    ghost function State(): Fs
      reads this
    {
      Fs(blocks, used, inodes)
    }

    ghost predicate Valid()
      reads this
    {
      Good(State(), data, owner)
    }

    /** A fresh image: every data block free, no file holds anything. */
    constructor (size: nat, firstData: nat, files: nat)
      requires 1 <= firstData <= size <= 0x1_0000_0000
      ensures Valid() && data == firstData && |blocks| == size && |inodes| == files
      ensures forall b | 0 <= b < size :: used[b] == (b < firstData)
      ensures forall i | 0 <= i < files :: Content(State(), i) == []
    {
      data := firstData;
      blocks := seq(size, _ => ZeroBlock());
      used := seq(size, b requires 0 <= b < size => b < firstData);
      inodes := seq(files, _ => Empty());
      owner := map[];
      new;
      EmptyGood(State(), data);
    }

    /** The lowest free block, marked in use and zeroed; 0 when there is none. */
    method Balloc() returns (addr: u32)
      requires |used| == |blocks| <= 0x1_0000_0000 && |used| > 0 && used[0]
      modifies this`used, this`blocks
      ensures addr == 0 ==> used == old(used) && blocks == old(blocks) && forall b | 0 <= b < |used| :: used[b]
      ensures addr != 0 ==>
                && addr < |old(used)| && !old(used)[addr] && (forall b | 0 <= b < addr :: old(used)[b])
                && State() == Allocated(old(State()), addr)
    {
      var b := 0;
      while b < |used|
        invariant 0 <= b && b % BPB == 0 && used == old(used) && blocks == old(blocks)
        invariant forall c | 0 <= c < b && c < |used| :: used[c]
      {
        var bi := 0;
        while bi < BPB && b + bi < |used|
          invariant 0 <= bi <= BPB && used == old(used) && blocks == old(blocks)
          invariant forall c | 0 <= c < b + bi && c < |used| :: used[c]
        {
          if !used[b + bi] {
            used := used[b + bi := true];
            blocks := blocks[b + bi := ZeroBlock()];
            return b + bi;
          }
          bi := bi + 1;
        }
        b := b + BPB;
      }
      return 0;
    }

    /** Clear a block's bitmap bit; the caller must own an in-use block. */
    method Bfree(b: nat)
      requires b < |used| && used[b]
      modifies this`used
      ensures used == old(used)[b := false]
    {
      used := used[b := false];
    }

    /** Allocate a block for an empty slot. */
    method Attach(i: nat, k: nat) returns (addr: u32)
      requires Valid() && InTable(State(), i, k) && Slot(State(), i, k) == 0
      requires k > NDIRECT ==> inodes[i].addrs[NDIRECT] != 0
      modifies this
      ensures Valid() && Extends(old(State()), State())
      ensures addr == 0 ==> State() == old(State()) && forall b | 0 <= b < |used| :: used[b]
      ensures addr != 0 ==> Slot(State(), i, k) == addr
      ensures |inodes| == |old(inodes)|
    {
      ghost var fs := State();
      addr := Balloc();
      if addr != 0 {
        AttachKeeps(fs, data, owner, addr, i, k);
        hide Owned, NoHoles, Extends, Slot;
        if k <= NDIRECT {
          inodes := inodes[i := inodes[i].(addrs := inodes[i].addrs[k := addr])];
        } else {
          var x := inodes[i].addrs[NDIRECT];
          blocks := blocks[x := SetWord(blocks[x], k - NDIRECT - 1, addr)];
        }
        owner := owner[addr := Place(i, k)];
        assert State() == Pointed(Allocated(fs, addr), i, k, addr);
      }
    }

    /** The disk block of the bn-th block of file i, allocated on demand; 0 when the disk is full. */
    method Bmap(i: nat, bn: nat) returns (addr: u32)
      requires Valid() && i < |inodes| && bn < MAXFILE
      modifies this
      ensures Valid() && Extends(old(State()), State()) && |inodes| == |old(inodes)|
      ensures addr != 0 ==> Slot(State(), i, DataSlot(bn)) == addr
      ensures addr == 0 ==> forall b | 0 <= b < |used| :: used[b]
      ensures Slot(old(State()), i, DataSlot(bn)) != 0 ==>
                State() == old(State()) && owner == old(owner) && addr != 0
    {
      hide Owned, NoHoles, ByteAt, Extends, Slot;
      ghost var fs := State();
      ExtendsRefl(fs);
      DataSlotIs(fs, i, bn);
      if bn < NDIRECT {
        addr := inodes[i].addrs[bn];
        if addr == 0 {
          addr := Attach(i, bn);
        }
        return;
      }
      var n := bn - NDIRECT;
      var x := inodes[i].addrs[NDIRECT];
      if x == 0 {
        x := Attach(i, NDIRECT);
        if x == 0 { return 0; }
        DataSlotIs(State(), i, bn);
      }
      addr := Word(blocks[x], n);
      if addr == 0 {
        ghost var mid := State();
        addr := Attach(i, n + NDIRECT + 1);
        ExtendsTrans(fs, mid, State());
      }
    }

    /** Bytes [off, off + n) of a file, clipped at its size; nothing when the range is bad. Changes nothing. */
    method Readi(i: nat, off: u32, n: u32) returns (r: seq<byte>)
      requires Valid() && i < |inodes|
      modifies this
      ensures State() == old(State()) && owner == old(owner)
      ensures var c := Content(old(State()), i);
        r == if off > |c| || off + n >= 0x1_0000_0000 then []
             else c[off..if off + n > |c| then |c| else off + n]
    {
      var size := inodes[i].size;
      if off > size || (off + n) % 0x1_0000_0000 < off {
        return [];
      }
      r := ReadRange(i, off, if off + n > size then size - off else n);
    }

    /** The read loop: the next piece until n bytes are in. */
    method ReadRange(i: nat, off: nat, n: nat) returns (r: seq<byte>)
      requires Valid() && i < |inodes| && off + n <= inodes[i].size
      modifies this
      ensures State() == old(State()) && owner == old(owner)
      ensures r == Content(old(State()), i)[off..off + n]
    {
      hide Owned, NoHoles, Good, Content, Shape, Slot;
      SizesFit(State(), data, owner);
      ghost var c := Content(State(), i);
      r := [];
      while |r| < n
        invariant State() == old(State()) && owner == old(owner)
        invariant |r| <= n && r == c[off..off + |r|]
        decreases n - |r|
      {
        var d := ReadPiece(i, off + |r|, n - |r|);
        Adjoin(c, off, off + |r|, off + |r| + |d|);
        r := r + d;
      }
    }

    /** One turn of the read loop: at most the rest of one block. Below the size no block is missing. */
    method ReadPiece(i: nat, pos: nat, left: nat) returns (d: seq<byte>)
      requires Valid() && i < |inodes| && 0 < left && pos + left <= inodes[i].size
      modifies this
      ensures State() == old(State()) && owner == old(owner)
      ensures 0 < |d| <= left && d == Content(State(), i)[pos..pos + |d|]
    {
      hide Owned, NoHoles, Slot, ByteAt, Content;
      ghost var fs := State();
      MappedBelow(fs, data, owner, i, pos);
      var addr := Bmap(i, pos / BSIZE);
      var m := if left < BSIZE - pos % BSIZE then left else BSIZE - pos % BSIZE;
      ReadChunk(fs, data, owner, i, pos, m);
      d := blocks[addr][pos % BSIZE..pos % BSIZE + m];
    }

    /**
     * Write src at off. -1 for a bad range; otherwise the number of bytes written, short only
     * when the disk is full. The file becomes its old bytes with those laid over; others keep theirs.
     */
    method Writei(i: nat, off: u32, src: seq<byte>) returns (tot: int)
      requires Valid() && i < |inodes| && |src| < 0x1_0000_0000
      modifies this
      ensures Valid() && |inodes| == |old(inodes)|
      ensures tot == -1 <==> off > old(inodes)[i].size || off + |src| >= 0x1_0000_0000 || off + |src| > MAXFILE * BSIZE
      ensures tot == -1 ==> State() == old(State())
      ensures tot != -1 ==>
                && 0 <= tot <= |src|
                && Content(State(), i) == Spliced(Content(old(State()), i), off, src[..tot])
                && (tot < |src| ==> forall b | 0 <= b < |used| :: used[b])
      ensures forall j | 0 <= j < |inodes| && j != i :: Content(State(), j) == Content(old(State()), j)
    {
      var n := |src|;
      if off > inodes[i].size || (off + n) % 0x1_0000_0000 < off {
        return -1;
      }
      if off + n > MAXFILE * BSIZE {
        return -1;
      }
      ghost var fs0 := State();
      hide Owned, NoHoles, Shape, ByteAt, Slot, Extends, Content, Resized;
      tot := 0;
      assert Written(fs0, fs0, i, off, src, 0) by { WrittenNothing(fs0, i, off, src); }
      while tot < n
        invariant 0 <= tot <= n && Valid() && |inodes| == |fs0.inodes|
        invariant Written(fs0, State(), i, off, src, tot)
        decreases n - tot
      {
        var m := WriteChunk(i, off, src, tot, fs0);
        if m == 0 { break; }
        tot := tot + m;
      }
      FinishWrite(i, off, src, tot, fs0);
    }

    /** Write at off and read the same range back: what comes back is what was written. */
    method WriteThenRead(i: nat, off: u32, src: seq<byte>) returns (tot: int, r: seq<byte>)
      requires Valid() && i < |inodes| && |src| < 0x1_0000_0000
      modifies this
      ensures Valid() && |inodes| == |old(inodes)|
      ensures tot == -1 <==> off > old(inodes)[i].size || off + |src| >= 0x1_0000_0000 || off + |src| > MAXFILE * BSIZE
      ensures tot == -1 ==> State() == old(State())
      ensures tot != -1 ==>
                && 0 <= tot <= |src| && r == src[..tot]
                && (tot < |src| ==> forall b | 0 <= b < |used| :: used[b])
      ensures tot != -1 ==>
                var was, now := Content(old(State()), i), Content(State(), i);
                && |now| == (if off + tot > |was| then off + tot else |was|)
                && forall p | 0 <= p < |was| && !(off <= p < off + tot) :: now[p] == was[p]
      ensures forall j | 0 <= j < |inodes| && j != i :: Content(State(), j) == Content(old(State()), j)
    {
      hide Owned, NoHoles, Slot, ByteAt, Content, Spliced;
      ghost var was := State();
      SizesFit(was, data, owner);
      r := [];
      tot := Writei(i, off, src);
      if tot != -1 {
        SplicedBack(Content(was, i), off, src[..tot]);
        r := Readi(i, off, tot);
      }
    }

    /** One turn of the write loop: at most the rest of one block. */
    method WriteChunk(i: nat, off: nat, src: seq<byte>, tot: nat, ghost fs0: Fs) returns (m: nat)
      requires Valid() && Written(fs0, State(), i, off, src, tot) && tot < |src|
      modifies this
      ensures Valid() && |inodes| == |old(inodes)|
      ensures tot + m <= |src| && Written(fs0, State(), i, off, src, tot + m)
      ensures m == 0 ==> forall b | 0 <= b < |used| :: used[b]
    {
      hide Owned, NoHoles, ByteAt, Slot, Extends;
      ghost var fs := State();
      var addr := Bmap(i, (off + tot) / BSIZE);
      WrittenExtends(fs0, fs, State(), i, off, src, tot);
      hide Written;
      if addr == 0 { return 0; }
      var at := (off + tot) % BSIZE;
      m := if |src| - tot < BSIZE - at then |src| - tot else BSIZE - at;
      WrittenPut(fs0, State(), data, owner, i, off, src, tot, m);
      blocks := blocks[addr := Patch(blocks[addr], at, src[tot..tot + m])];
    }

    /** The last step of a write: move the size if the write went past it. */
    method FinishWrite(i: nat, off: nat, src: seq<byte>, tot: nat, ghost fs0: Fs)
      requires Valid() && Written(fs0, State(), i, off, src, tot) && NoHoles(fs0) && off <= inodes[i].size
      modifies this`inodes
      ensures Valid() && |inodes| == |old(inodes)|
      ensures Content(State(), i) == Spliced(Content(fs0, i), off, src[..tot])
      ensures forall j | 0 <= j < |inodes| && j != i :: Content(State(), j) == Content(fs0, j)
    {
      ghost var fs := State();
      var size := if off + tot > inodes[i].size then off + tot else inodes[i].size;
      WrittenContent(fs0, fs, data, owner, i, off, src, tot, size);
      forall j: nat | j < |inodes| && j != i ensures Content(Resized(fs, i, size), j) == Content(fs0, j) {
        OthersKept(fs0, fs, data, owner, i, off, src, tot, size, j);
      }
      hide Owned, NoHoles, ByteAt, Slot, Written;
      if off + tot > inodes[i].size {
        inodes := inodes[i := inodes[i].(size := off + tot)];
      }
      assert State() == Resized(fs, i, size);
    }

    /** Free every block of a file, each exactly once, and leave it empty; every other file is as it was. */
    method Itrunc(i: nat)
      requires Valid() && i < |inodes|
      modifies this
      ensures Valid() && |inodes| == |old(inodes)| && Content(State(), i) == []
      ensures Truncated(old(State()), State(), old(owner), i)
      ensures forall j | 0 <= j < |inodes| && j != i :: Content(State(), j) == Content(old(State()), j)
    {
      ghost var fs := State();
      var k := 0;
      hide Owned, NoHoles, Content, Truncating;
      assert Truncating(fs, used, owner, i, 0) by { NothingTruncated(fs, owner, i); }
      while k < NDIRECT
        invariant k <= NDIRECT && Truncating(fs, used, owner, i, k)
        invariant blocks == fs.blocks && owner == old(owner)
        invariant Cleared(fs, inodes, i, k)
      {
        TruncateStep(fs, data, owner, used, i, k);
        if inodes[i].addrs[k] != 0 {
          Bfree(inodes[i].addrs[k]);
          inodes := inodes[i := inodes[i].(addrs := inodes[i].addrs[k := 0])];
        }
        k := k + 1;
      }
      if inodes[i].addrs[NDIRECT] != 0 {
        FreeIndirect(i, fs);
        inodes := inodes[i := inodes[i].(addrs := inodes[i].addrs[NDIRECT := 0])];
      } else {
        NoIndirect(fs, data, owner, used, i);
        TruncateLast(fs, data, owner, used, i);
      }
      inodes := inodes[i := inodes[i].(size := 0)];
      assert inodes[i].addrs == Empty().addrs;
      assert inodes == fs.inodes[i := Empty()];
      TruncatedKeeps(fs, State(), data, owner, i);
      owner := Without(owner, i);
    }

    /** The indirect half of a truncate: the entries' blocks, then the indirect block itself. */
    method FreeIndirect(i: nat, ghost fs: Fs)
      requires Good(fs, data, owner) && i < |fs.inodes| && blocks == fs.blocks && |inodes| == |fs.inodes|
      requires |inodes[i].addrs| == NDIRECT + 1 && inodes[i].addrs[NDIRECT] == fs.inodes[i].addrs[NDIRECT] != 0
      requires Truncating(fs, used, owner, i, NDIRECT)
      modifies this`used
      ensures Truncated(fs, Fs(blocks, used, fs.inodes[i := Empty()]), owner, i)
    {
      var x := inodes[i].addrs[NDIRECT];
      assert Slot(fs, i, NDIRECT) == x;
      var j := 0;
      assert Truncating(fs, used, owner, i, NDIRECT + 1);
      hide Owned, NoHoles, Truncating, Truncated;
      while j < NINDIRECT
        invariant j <= NINDIRECT && Truncating(fs, used, owner, i, NDIRECT + 1 + j)
      {
        TruncateStep(fs, data, owner, used, i, NDIRECT + 1 + j);
        var a := Word(blocks[x], j);
        if a != 0 {
          Bfree(a);
        }
        j := j + 1;
      }
      TruncateLast(fs, data, owner, used, i);
      Bfree(x);
    }
  }

  lemma NothingTruncated(fs: Fs, owner: Owners, i: nat)
    ensures Truncating(fs, fs.used, owner, i, 0)
  {
  }

  /** The first k direct addresses of file i are zero, all else is unchanged. */
  ghost predicate Cleared(fs: Fs, inodes: seq<Inode>, i: nat, k: nat) {
    && i < |inodes| == |fs.inodes| && k <= NDIRECT
    && |inodes[i].addrs| == NDIRECT + 1 == |fs.inodes[i].addrs|
    && inodes == fs.inodes[i := inodes[i]] && inodes[i].size == fs.inodes[i].size
    && forall l | 0 <= l <= NDIRECT :: inodes[i].addrs[l] == if l < k then 0 else fs.inodes[i].addrs[l]
  }

  lemma ExtendsRefl(fs: Fs)
    ensures Shape(fs) ==> Extends(fs, fs)
  {
  }

  /** Where bmap finds the address of a file's bn-th block. */
  lemma DataSlotIs(fs: Fs, i: nat, bn: nat)
    requires Shape(fs) && i < |fs.inodes| && bn < MAXFILE
    ensures Slot(fs, i, NDIRECT) == fs.inodes[i].addrs[NDIRECT]
    ensures bn < NDIRECT ==> Slot(fs, i, DataSlot(bn)) == fs.inodes[i].addrs[bn]
    ensures bn >= NDIRECT ==>
              var x := fs.inodes[i].addrs[NDIRECT];
              Slot(fs, i, DataSlot(bn)) == if x == 0 then 0 else Word(fs.blocks[x], bn - NDIRECT)
  {
  }

  lemma SizesFit(fs: Fs, data: nat, owner: Owners)
    requires Good(fs, data, owner)
    ensures Shape(fs) && forall i | 0 <= i < |fs.inodes| :: fs.inodes[i].size <= MAXFILE * BSIZE
  {
  }

  lemma Adjoin<T>(s: seq<T>, a: nat, b: nat, c: nat)
    requires a <= b <= c <= |s|
    ensures s[a..b] + s[b..c] == s[a..c]
  {
  }

  lemma SameSlice<T>(s: seq<T>, a: nat, t: seq<T>, b: nat, m: nat)
    requires a + m <= |s| && b + m <= |t| && forall p | a <= p < a + m :: s[p] == t[b + (p - a)]
    ensures s[a..a + m] == t[b..b + m]
  {
  }

  /** One byte of the content, found in the block of its offset. */
  lemma ReadByte(fs: Fs, i: nat, pos: nat, p: nat)
    requires Shape(fs) && i < |fs.inodes| && pos <= p < fs.inodes[i].size <= MAXFILE * BSIZE
             && pos % BSIZE + (p - pos) < BSIZE
    requires Slot(fs, i, DataSlot(pos / BSIZE)) < |fs.blocks|
    ensures Content(fs, i)[p] == fs.blocks[Slot(fs, i, DataSlot(pos / BSIZE))][pos % BSIZE + (p - pos)]
  {
    assert p / BSIZE == pos / BSIZE && p % BSIZE == pos % BSIZE + (p - pos);
  }

  /** Below its size a file's blocks are there. */
  lemma MappedBelow(fs: Fs, data: nat, owner: Owners, i: nat, pos: nat)
    requires Good(fs, data, owner) && i < |fs.inodes| && pos < fs.inodes[i].size
    ensures pos / BSIZE < MAXFILE
    ensures var a := Slot(fs, i, DataSlot(pos / BSIZE)); a != 0 && a < |fs.blocks|
  {
    hide Slot;
    assert pos / BSIZE * BSIZE < fs.inodes[i].size;
    assert InTable(fs, i, DataSlot(pos / BSIZE));
  }

  /** Within one block the content is a slice of that block. */
  lemma ReadChunk(fs: Fs, data: nat, owner: Owners, i: nat, pos: nat, m: nat)
    requires Good(fs, data, owner) && i < |fs.inodes| && pos % BSIZE + m <= BSIZE && pos + m <= fs.inodes[i].size
             && m > 0
    requires Slot(fs, i, DataSlot(pos / BSIZE)) < |fs.blocks|
    ensures Content(fs, i)[pos..pos + m] ==
            fs.blocks[Slot(fs, i, DataSlot(pos / BSIZE))][pos % BSIZE..pos % BSIZE + m]
  {
    hide Slot, Owned, NoHoles, DataSlot, Content;
    SizesFit(fs, data, owner);
    var c, b := Content(fs, i), fs.blocks[Slot(fs, i, DataSlot(pos / BSIZE))];
    var at := pos % BSIZE;
    forall p: nat | pos <= p < pos + m ensures c[p] == b[at + (p - pos)] {
      ReadByte(fs, i, pos, p);
    }
    SameSlice(c, pos, b, at, m);
  }

  /** Nothing is owned where no slot names a block. */
  lemma EmptyGood(fs: Fs, data: nat)
    requires |fs.used| == |fs.blocks| <= 0x1_0000_0000 && 1 <= data <= |fs.blocks|
    requires forall b | 0 <= b < |fs.used| :: fs.used[b] == (b < data)
    requires forall i | 0 <= i < |fs.inodes| :: fs.inodes[i] == Empty()
    ensures Good(fs, data, map[])
  {
    forall i: nat, k: nat | InTable(fs, i, k) ensures Shape(fs) && Slot(fs, i, k) == 0 { }
  }

  /** Bytes outside the range written stay; those inside are the new ones. */
  lemma SplicedBack(c: seq<byte>, off: nat, d: seq<byte>)
    requires off <= |c|
    ensures Spliced(c, off, d)[off..off + |d|] == d
    ensures forall p | 0 <= p < |c| && !(off <= p < off + |d|) :: Spliced(c, off, d)[p] == c[p]
  {
  }
}
