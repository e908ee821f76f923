/** The on-disk shape of files: inodes, direct and indirect block addresses, and who owns a block. */
module FsLayout {
  import opened Bytes

  const NDIRECT: nat := 12
  const NINDIRECT: nat := BSIZE / 4
  const MAXFILE: nat := NDIRECT + NINDIRECT

  /** Address slots of an inode: 0..11 direct, 12 the indirect block, 13.. its entries. */
  const NSLOTS: nat := NDIRECT + 1 + NINDIRECT

  datatype Inode = Inode(addrs: seq<u32>, size: nat)
  datatype Fs = Fs(blocks: seq<Block>, used: seq<bool>, inodes: seq<Inode>)

  function Empty(): Inode { Inode(seq(NDIRECT + 1, _ => 0), 0) }

  predicate Shape(fs: Fs) {
    && |fs.used| == |fs.blocks| <= 0x1_0000_0000
    && forall i | 0 <= i < |fs.inodes| ::
         |fs.inodes[i].addrs| == NDIRECT + 1 && fs.inodes[i].addrs[NDIRECT] < |fs.blocks|
  }

  predicate InTable(fs: Fs, i: nat, k: nat) { i < |fs.inodes| && k < NSLOTS }

  function Slot(fs: Fs, i: nat, k: nat): u32
    requires Shape(fs) && InTable(fs, i, k)
  {
    var a := fs.inodes[i].addrs;
    if k <= NDIRECT then a[k]
    else if a[NDIRECT] == 0 then 0
    else Word(fs.blocks[a[NDIRECT]], k - NDIRECT - 1)
  }

  /** The slot of the n-th block of a file's content. */
  function DataSlot(bn: nat): (k: nat)
    requires bn < MAXFILE
    ensures k < NSLOTS && k != NDIRECT
  {
    if bn < NDIRECT then bn else bn + 1
  }

  datatype Place = Place(i: nat, k: nat)
  type Owners = map<nat, Place>

  /** Every nonzero slot owns its block, every used data block is owned, metadata blocks stay used. */
  ghost predicate Owned(fs: Fs, data: nat, owner: Owners)
    requires Shape(fs)
  {
    && 1 <= data <= |fs.blocks|
    && (forall i, k | InTable(fs, i, k) && Slot(fs, i, k) != 0 ::
          Slot(fs, i, k) in owner && owner[Slot(fs, i, k)] == Place(i, k))
    && (forall b | b in owner ::
          && data <= b < |fs.blocks| && fs.used[b]
          && InTable(fs, owner[b].i, owner[b].k) && Slot(fs, owner[b].i, owner[b].k) == b)
    && (forall b | data <= b < |fs.blocks| && fs.used[b] :: b in owner)
    && (forall b | 0 <= b < data :: fs.used[b])
  }

  /** Below its size a file has no unallocated block. */
  ghost predicate NoHoles(fs: Fs)
    requires Shape(fs)
  {
    forall i | 0 <= i < |fs.inodes| ::
      && fs.inodes[i].size <= MAXFILE * BSIZE
      && forall bn | 0 <= bn < MAXFILE && bn * BSIZE < fs.inodes[i].size :: Slot(fs, i, DataSlot(bn)) != 0
  }

  ghost predicate Good(fs: Fs, data: nat, owner: Owners) {
    Shape(fs) && Owned(fs, data, owner) && NoHoles(fs)
  }

  /** Byte p of file i, if its block is allocated. */
  function ByteAt(fs: Fs, i: nat, p: nat): byte
    requires Shape(fs) && i < |fs.inodes| && p < MAXFILE * BSIZE
  {
    var a := Slot(fs, i, DataSlot(p / BSIZE));
    if a < |fs.blocks| then fs.blocks[a][p % BSIZE] else 0
  }

  /** What a file is: its size and its bytes. */
  function Content(fs: Fs, i: nat): (c: seq<byte>)
    requires Shape(fs) && i < |fs.inodes| && fs.inodes[i].size <= MAXFILE * BSIZE
    ensures |c| == fs.inodes[i].size
  {
    seq(fs.inodes[i].size, p requires 0 <= p < fs.inodes[i].size => ByteAt(fs, i, p))
  }

  /** Each data block marked in use is reached from exactly one address slot. */
  lemma OwnedExactlyOnce(fs: Fs, data: nat, owner: Owners, b: nat)
    requires Shape(fs) && Owned(fs, data, owner) && data <= b < |fs.blocks|
    ensures fs.used[b] <==> exists i, k :: InTable(fs, i, k) && Slot(fs, i, k) == b
    ensures forall i, k, j, l | InTable(fs, i, k) && InTable(fs, j, l) && Slot(fs, i, k) == b && Slot(fs, j, l) == b ::
              i == j && k == l
  {
    if fs.used[b] {
      assert InTable(fs, owner[b].i, owner[b].k) && Slot(fs, owner[b].i, owner[b].k) == b;
    }
    forall i, k, j, l | InTable(fs, i, k) && InTable(fs, j, l) && Slot(fs, i, k) == b && Slot(fs, j, l) == b
      ensures i == j && k == l
    {
      assert owner[Slot(fs, i, k)] == Place(i, k) && owner[Slot(fs, j, l)] == Place(j, l);
    }
  }

  // ---- primitive updates ------------------------------------------------------------

  /** balloc: mark block b and zero it. */
  function Allocated(fs: Fs, b: nat): Fs
    requires b < |fs.used| && |fs.used| == |fs.blocks|
  {
    fs.(used := fs.used[b := true], blocks := fs.blocks[b := ZeroBlock()])
  }

  /** Store address b in slot k of inode i. */
  function Pointed(fs: Fs, i: nat, k: nat, b: u32): Fs
    requires Shape(fs) && InTable(fs, i, k)
  {
    var ip := fs.inodes[i];
    if k <= NDIRECT then fs.(inodes := fs.inodes[i := ip.(addrs := ip.addrs[k := b])])
    else
      var x := ip.addrs[NDIRECT];
      fs.(blocks := fs.blocks[x := SetWord(fs.blocks[x], k - NDIRECT - 1, b)])
  }

  /** A free block is nobody's indirect block, so zeroing it moves no address. */
  lemma AllocatedSlots(fs: Fs, data: nat, owner: Owners, b: nat)
    requires Shape(fs) && Owned(fs, data, owner) && b < |fs.blocks| && !fs.used[b]
    ensures Shape(Allocated(fs, b))
    ensures forall i, k | InTable(fs, i, k) ::
              Slot(Allocated(fs, b), i, k) == Slot(fs, i, k) && Slot(fs, i, k) != b
  {
    forall i: nat, k: nat | InTable(fs, i, k)
      ensures Slot(Allocated(fs, b), i, k) == Slot(fs, i, k) && Slot(fs, i, k) != b
    {
      assert InTable(fs, i, NDIRECT) && Slot(fs, i, NDIRECT) == fs.inodes[i].addrs[NDIRECT];
    }
  }

  lemma ZeroWords(k: nat)
    requires 4 * k + 4 <= BSIZE
    ensures Word(ZeroBlock(), k) == 0
  {
  }

  /** Attaching a fresh zeroed block to an empty slot changes that slot and no other. */
  lemma PointedSlots(fs: Fs, data: nat, owner: Owners, b: u32, i: nat, k: nat)
    requires Shape(fs) && Owned(fs, data, owner) && b < |fs.blocks| && !fs.used[b]
    requires InTable(fs, i, k) && Slot(fs, i, k) == 0 && (k > NDIRECT ==> fs.inodes[i].addrs[NDIRECT] != 0)
    ensures var fs' := Pointed(Allocated(fs, b), i, k, b);
      && Shape(fs')
      && forall j, l | InTable(fs, j, l) :: Slot(fs', j, l) == if j == i && l == k then b else Slot(fs, j, l)
  {
    hide Slot, Owned;
    AllocatedSlots(fs, data, owner, b);
    PointedShape(Allocated(fs, b), i, k, b);
    var fs' := Pointed(Allocated(fs, b), i, k, b);
    forall j: nat, l: nat | InTable(fs, j, l)
      ensures Slot(fs', j, l) == if j == i && l == k then b else Slot(fs, j, l)
    {
      PointedSlot(fs, data, owner, b, i, k, j, l);
    }
  }

  lemma PointedShape(fs: Fs, i: nat, k: nat, b: u32)
    requires Shape(fs) && InTable(fs, i, k) && b < |fs.blocks|
    ensures var fs' := Pointed(fs, i, k, b);
      Shape(fs') && |fs'.blocks| == |fs.blocks| && |fs'.inodes| == |fs.inodes| && fs'.used == fs.used
  {
  }

  lemma PointedSlot(fs: Fs, data: nat, owner: Owners, b: u32, i: nat, k: nat, j: nat, l: nat)
    requires Shape(fs) && Owned(fs, data, owner) && b < |fs.blocks| && !fs.used[b]
    requires InTable(fs, i, k) && Slot(fs, i, k) == 0 && (k > NDIRECT ==> fs.inodes[i].addrs[NDIRECT] != 0)
    requires Shape(Allocated(fs, b)) && Shape(Pointed(Allocated(fs, b), i, k, b)) && InTable(fs, j, l)
    ensures InTable(Pointed(Allocated(fs, b), i, k, b), j, l)
    ensures Slot(Pointed(Allocated(fs, b), i, k, b), j, l) == if j == i && l == k then b else Slot(fs, j, l)
  {
    AllocatedSlots(fs, data, owner, b);
    var mid := Allocated(fs, b);
    assert InTable(fs, j, NDIRECT) && Slot(fs, j, NDIRECT) == fs.inodes[j].addrs[NDIRECT];
    assert InTable(fs, i, NDIRECT) && Slot(fs, i, NDIRECT) == fs.inodes[i].addrs[NDIRECT];
    if l > NDIRECT {
      if k == NDIRECT && j == i {
        ZeroWords(l - NDIRECT - 1);
      } else if k > NDIRECT {
        SetWordAt(mid.blocks[mid.inodes[i].addrs[NDIRECT]], k - NDIRECT - 1, b, l - NDIRECT - 1);
      }
    }
  }

  /** fs' has everything fs has, byte for byte, and perhaps more blocks. */
  ghost predicate Extends(fs: Fs, fs': Fs) {
    && Shape(fs) && Shape(fs') && |fs'.blocks| == |fs.blocks| && |fs'.inodes| == |fs.inodes|
    && (forall i | 0 <= i < |fs.inodes| :: fs'.inodes[i].size == fs.inodes[i].size)
    && (forall i, k | InTable(fs, i, k) && Slot(fs, i, k) != 0 :: Slot(fs', i, k) == Slot(fs, i, k))
    && (forall i, p | 0 <= i < |fs.inodes| && 0 <= p < MAXFILE * BSIZE && Slot(fs, i, DataSlot(p / BSIZE)) != 0 ::
          ByteAt(fs', i, p) == ByteAt(fs, i, p))
  }

  lemma ExtendsTrans(a: Fs, b: Fs, c: Fs)
    requires Extends(a, b) && Extends(b, c)
    ensures Extends(a, c)
  {
  }

  lemma ExtendsContent(fs: Fs, fs': Fs, i: nat)
    requires Extends(fs, fs') && NoHoles(fs) && i < |fs.inodes|
    ensures NoHoles(fs') && Content(fs', i) == Content(fs, i)
  {
    forall p: nat | p < fs.inodes[i].size ensures ByteAt(fs', i, p) == ByteAt(fs, i, p) {
      assert p / BSIZE < MAXFILE && p / BSIZE * BSIZE < fs.inodes[i].size;
    }
  }

  /** bmap's two steps together: a fresh block, attached to an empty slot. */
  lemma AttachKeeps(fs: Fs, data: nat, owner: Owners, b: u32, i: nat, k: nat)
    requires Good(fs, data, owner) && b < |fs.blocks| && !fs.used[b]
    requires InTable(fs, i, k) && Slot(fs, i, k) == 0 && (k > NDIRECT ==> fs.inodes[i].addrs[NDIRECT] != 0)
    ensures var fs' := Pointed(Allocated(fs, b), i, k, b);
      Good(fs', data, owner[b := Place(i, k)]) && Extends(fs, fs') && Slot(fs', i, k) == b
  {
    hide Slot, Owned, NoHoles, ByteAt, Pointed;
    PointedSlots(fs, data, owner, b, i, k);
    var fs' := Pointed(Allocated(fs, b), i, k, b);
    AttachOwned(fs, data, owner, b, i, k);
    forall j: nat, p: nat | j < |fs.inodes| && p < MAXFILE * BSIZE && Slot(fs, j, DataSlot(p / BSIZE)) != 0
      ensures ByteAt(fs', j, p) == ByteAt(fs, j, p)
    {
      AttachBytes(fs, data, owner, b, i, k, j, p);
    }
  }

  /** The fresh block gains its one owner, and no hole appears. */
  lemma AttachOwned(fs: Fs, data: nat, owner: Owners, b: u32, i: nat, k: nat)
    requires Good(fs, data, owner) && b < |fs.blocks| && !fs.used[b]
    requires InTable(fs, i, k) && Slot(fs, i, k) == 0 && (k > NDIRECT ==> fs.inodes[i].addrs[NDIRECT] != 0)
    ensures var fs' := Pointed(Allocated(fs, b), i, k, b);
      && Shape(fs') && Owned(fs', data, owner[b := Place(i, k)]) && NoHoles(fs')
      && |fs'.blocks| == |fs.blocks| && |fs'.inodes| == |fs.inodes|
      && forall j | 0 <= j < |fs.inodes| :: fs'.inodes[j].size == fs.inodes[j].size
  {
    hide Slot;
    PointedSlots(fs, data, owner, b, i, k);
    assert data <= b && b !in owner;
  }

  lemma AttachBytes(fs: Fs, data: nat, owner: Owners, b: u32, i: nat, k: nat, j: nat, p: nat)
    requires Good(fs, data, owner) && b < |fs.blocks| && !fs.used[b]
    requires InTable(fs, i, k) && Slot(fs, i, k) == 0 && (k > NDIRECT ==> fs.inodes[i].addrs[NDIRECT] != 0)
    requires j < |fs.inodes| && p < MAXFILE * BSIZE && Slot(fs, j, DataSlot(p / BSIZE)) != 0
    ensures var fs' := Pointed(Allocated(fs, b), i, k, b); Shape(fs') && ByteAt(fs', j, p) == ByteAt(fs, j, p)
  {
    hide Slot, Owned, NoHoles;
    PointedSlots(fs, data, owner, b, i, k);
    AttachByte(fs, data, owner, b, i, k, j, DataSlot(p / BSIZE));
  }

  /** No allocated data block is touched: neither the fresh block nor an indirect block is one. */
  lemma AttachByte(fs: Fs, data: nat, owner: Owners, b: u32, i: nat, k: nat, j: nat, l: nat)
    requires Shape(fs) && Owned(fs, data, owner) && b < |fs.blocks| && !fs.used[b]
    requires InTable(fs, i, k) && Slot(fs, i, k) == 0 && (k > NDIRECT ==> fs.inodes[i].addrs[NDIRECT] != 0)
    requires InTable(fs, j, l) && l != NDIRECT && Slot(fs, j, l) != 0
    ensures var a := Slot(fs, j, l); a < |fs.blocks| && Pointed(Allocated(fs, b), i, k, b).blocks[a] == fs.blocks[a]
  {
    var a := Slot(fs, j, l);
    assert owner[a] == Place(j, l);
    assert InTable(fs, i, NDIRECT) && Slot(fs, i, NDIRECT) == fs.inodes[i].addrs[NDIRECT];
  }

  function Patch(b: Block, at: nat, bytes: seq<byte>): Block
    requires at + |bytes| <= BSIZE
  {
    b[..at] + bytes + b[at + |bytes|..]
  }

  /** Overwrite part of one block. */
  function Put(fs: Fs, a: nat, at: nat, bytes: seq<byte>): Fs
    requires a < |fs.blocks| && at + |bytes| <= BSIZE
  {
    fs.(blocks := fs.blocks[a := Patch(fs.blocks[a], at, bytes)])
  }

  /** Writing into a data block changes those bytes of that file and nothing else. */
  lemma PutKeeps(fs: Fs, data: nat, owner: Owners, i: nat, bn: nat, at: nat, bytes: seq<byte>)
    requires Good(fs, data, owner) && i < |fs.inodes| && bn < MAXFILE && at + |bytes| <= BSIZE
    requires Slot(fs, i, DataSlot(bn)) != 0
    ensures Slot(fs, i, DataSlot(bn)) < |fs.blocks|
    ensures var fs' := Put(fs, Slot(fs, i, DataSlot(bn)), at, bytes);
      && Good(fs', data, owner)
      && (forall j, k | InTable(fs, j, k) :: Slot(fs', j, k) == Slot(fs, j, k))
      && (forall j, p | 0 <= j < |fs.inodes| && 0 <= p < MAXFILE * BSIZE ::
            ByteAt(fs', j, p) ==
            if j == i && p / BSIZE == bn && at <= p % BSIZE < at + |bytes| then bytes[p % BSIZE - at]
            else ByteAt(fs, j, p))
  {
    var a := Slot(fs, i, DataSlot(bn));
    assert owner[a] == Place(i, DataSlot(bn));
    var fs' := Put(fs, a, at, bytes);
    forall j: nat, k: nat | InTable(fs, j, k) ensures Slot(fs', j, k) == Slot(fs, j, k) {
      assert InTable(fs, j, NDIRECT) && Slot(fs, j, NDIRECT) == fs.inodes[j].addrs[NDIRECT];
    }
    hide Slot;
    forall j: nat, p: nat | j < |fs.inodes| && p < MAXFILE * BSIZE
      ensures ByteAt(fs', j, p) ==
              if j == i && p / BSIZE == bn && at <= p % BSIZE < at + |bytes| then bytes[p % BSIZE - at]
              else ByteAt(fs, j, p)
    {
      var l := DataSlot(p / BSIZE);
      assert Slot(fs', j, l) == Slot(fs, j, l);
      if Slot(fs, j, l) == a {
        assert owner[Slot(fs, j, l)] == Place(j, l);
      }
    }
  }

  /** c with the bytes d laid over it from offset off, growing it if they reach past its end. */
  function Spliced(c: seq<byte>, off: nat, d: seq<byte>): (r: seq<byte>)
    requires off <= |c|
    ensures |r| == if off + |d| > |c| then off + |d| else |c|
  {
    c[..off] + d + if off + |d| < |c| then c[off + |d|..] else []
  }

  /** Partway through a write: the first tot bytes are down, everything else reads as before. */
  ghost predicate Written(fs0: Fs, fs: Fs, i: nat, off: nat, src: seq<byte>, tot: nat) {
    && Shape(fs0) && Shape(fs) && |fs.blocks| == |fs0.blocks| && |fs.inodes| == |fs0.inodes|
    && i < |fs.inodes| && tot <= |src| && off + |src| <= MAXFILE * BSIZE
    && (forall j | 0 <= j < |fs.inodes| :: fs.inodes[j].size == fs0.inodes[j].size)
    && (forall j, k | InTable(fs0, j, k) && Slot(fs0, j, k) != 0 :: Slot(fs, j, k) == Slot(fs0, j, k))
    && (forall j, p | 0 <= j < |fs.inodes| && 0 <= p < MAXFILE * BSIZE && Slot(fs0, j, DataSlot(p / BSIZE)) != 0 ::
          !(j == i && off <= p < off + tot) ==> ByteAt(fs, j, p) == ByteAt(fs0, j, p))
    && (forall p | off <= p < off + tot ::
          Slot(fs, i, DataSlot(p / BSIZE)) != 0 && ByteAt(fs, i, p) == src[p - off])
  }

  lemma WrittenNothing(fs: Fs, i: nat, off: nat, src: seq<byte>)
    requires Shape(fs) && i < |fs.inodes| && off + |src| <= MAXFILE * BSIZE
    ensures Written(fs, fs, i, off, src, 0)
  {
  }

  lemma WrittenExtends(fs0: Fs, fs: Fs, fs': Fs, i: nat, off: nat, src: seq<byte>, tot: nat)
    requires Written(fs0, fs, i, off, src, tot) && Extends(fs, fs')
    ensures Written(fs0, fs', i, off, src, tot)
  {
  }

  /** One more block's worth of bytes. */
  lemma WrittenPut(fs0: Fs, fs: Fs, data: nat, owner: Owners, i: nat, off: nat, src: seq<byte>, tot: nat, m: nat)
    requires Written(fs0, fs, i, off, src, tot) && Good(fs, data, owner)
    requires tot + m <= |src| && (off + tot) % BSIZE + m <= BSIZE && m > 0
    requires Slot(fs, i, DataSlot((off + tot) / BSIZE)) != 0
    ensures Slot(fs, i, DataSlot((off + tot) / BSIZE)) < |fs.blocks|
    ensures var fs' := Put(fs, Slot(fs, i, DataSlot((off + tot) / BSIZE)), (off + tot) % BSIZE, src[tot..tot + m]);
      Good(fs', data, owner) && Written(fs0, fs', i, off, src, tot + m)
  {
    hide Slot, ByteAt, Owned, NoHoles, Patch;
    var bn, at := (off + tot) / BSIZE, (off + tot) % BSIZE;
    PutKeeps(fs, data, owner, i, bn, at, src[tot..tot + m]);
    var fs' := Put(fs, Slot(fs, i, DataSlot(bn)), at, src[tot..tot + m]);
    forall p: nat | off <= p < off + tot + m
      ensures Slot(fs', i, DataSlot(p / BSIZE)) != 0 && ByteAt(fs', i, p) == src[p - off]
    {
      if p >= off + tot {
        assert p / BSIZE == bn && p % BSIZE - at == p - (off + tot);
      }
    }
    forall p: nat | p < MAXFILE * BSIZE && !(off <= p < off + tot + m)
      ensures !(p / BSIZE == bn && at <= p % BSIZE < at + m)
    {
    }
  }

  function Resized(fs: Fs, i: nat, size: nat): Fs
    requires i < |fs.inodes|
  {
    fs.(inodes := fs.inodes[i := fs.inodes[i].(size := size)])
  }

  /** Sizes play no part in block addressing. */
  lemma ResizedSame(fs: Fs, i: nat, size: nat)
    requires Shape(fs) && i < |fs.inodes|
    ensures Shape(Resized(fs, i, size))
    ensures forall j, k | InTable(fs, j, k) :: Slot(Resized(fs, i, size), j, k) == Slot(fs, j, k)
    ensures forall j, p | 0 <= j < |fs.inodes| && 0 <= p < MAXFILE * BSIZE ::
              ByteAt(Resized(fs, i, size), j, p) == ByteAt(fs, j, p)
  {
    var fs' := Resized(fs, i, size);
    forall j: nat, k: nat | InTable(fs', j, k) ensures Slot(fs', j, k) == Slot(fs, j, k) { }
  }

  /** Setting the size at the end of a write keeps the invariant. */
  lemma ResizedGood(fs0: Fs, fs: Fs, data: nat, owner: Owners, i: nat, off: nat, src: seq<byte>, tot: nat, size: nat)
    requires Written(fs0, fs, i, off, src, tot) && Good(fs, data, owner) && NoHoles(fs0)
    requires off <= fs0.inodes[i].size
    requires size == if off + tot > fs0.inodes[i].size then off + tot else fs0.inodes[i].size
    ensures Good(Resized(fs, i, size), data, owner)
  {
    ResizedSame(fs, i, size);
    hide Slot, ByteAt;
    forall bn: nat | bn < MAXFILE && bn * BSIZE < size ensures Slot(fs, i, DataSlot(bn)) != 0 {
      if bn * BSIZE >= fs0.inodes[i].size {
        BlockReached(fs0, fs, i, off, src, tot, bn);
      }
    }
  }

  /** Below its old size a file keeps every byte the write did not cover. */
  lemma OldByte(fs0: Fs, fs: Fs, i: nat, off: nat, src: seq<byte>, tot: nat, j: nat, p: nat)
    requires Written(fs0, fs, i, off, src, tot) && NoHoles(fs0)
    requires j < |fs.inodes| && p < fs0.inodes[j].size && !(j == i && off <= p < off + tot)
    ensures p < MAXFILE * BSIZE && ByteAt(fs, j, p) == ByteAt(fs0, j, p)
  {
    assert p / BSIZE < MAXFILE && p / BSIZE * BSIZE < fs0.inodes[j].size;
  }

  /** And publishes exactly the bytes written. */
  lemma WrittenContent(fs0: Fs, fs: Fs, data: nat, owner: Owners, i: nat, off: nat, src: seq<byte>, tot: nat, size: nat)
    requires Written(fs0, fs, i, off, src, tot) && Good(fs, data, owner) && NoHoles(fs0)
    requires off <= fs0.inodes[i].size
    requires size == if off + tot > fs0.inodes[i].size then off + tot else fs0.inodes[i].size
    ensures var fs' := Resized(fs, i, size);
      && Good(fs', data, owner)
      && Content(fs', i) == Spliced(Content(fs0, i), off, src[..tot])
  {
    ResizedGood(fs0, fs, data, owner, i, off, src, tot, size);
    ResizedSame(fs, i, size);
    var fs' := Resized(fs, i, size);
    hide Slot, ByteAt, Owned, NoHoles;
    var c, c' := Content(fs0, i), Content(fs', i);
    forall p: nat | p < size ensures c'[p] == if off <= p < off + tot then src[p - off] else c[p] {
      if !(off <= p < off + tot) {
        OldByte(fs0, fs, i, off, src, tot, i, p);
      }
    }
    SplicedBytes(c, c', off, src[..tot]);
  }

  lemma SplicedBytes(c: seq<byte>, c': seq<byte>, off: nat, d: seq<byte>)
    requires off <= |c| && |c'| == if off + |d| > |c| then off + |d| else |c|
    requires forall p | 0 <= p < |c'| :: c'[p] == if off <= p < off + |d| then d[p - off] else c[p]
    ensures c' == Spliced(c, off, d)
  {
  }

  lemma OthersKept(fs0: Fs, fs: Fs, data: nat, owner: Owners, i: nat, off: nat, src: seq<byte>, tot: nat,
                   size: nat, j: nat)
    requires Written(fs0, fs, i, off, src, tot) && Good(fs, data, owner) && NoHoles(fs0)
    requires j < |fs.inodes| && j != i
    ensures Content(fs, j) == Content(fs0, j)
    ensures Shape(Resized(fs, i, size)) && Content(Resized(fs, i, size), j) == Content(fs, j)
  {
    ResizedSame(fs, i, size);
    forall p: nat | p < fs0.inodes[j].size ensures ByteAt(fs, j, p) == ByteAt(fs0, j, p) {
      OldByte(fs0, fs, i, off, src, tot, j, p);
    }
  }

  lemma BlockReached(fs0: Fs, fs: Fs, i: nat, off: nat, src: seq<byte>, tot: nat, bn: nat)
    requires Written(fs0, fs, i, off, src, tot) && NoHoles(fs0) && bn < MAXFILE
    requires off <= fs0.inodes[i].size <= bn * BSIZE < off + tot
    ensures Slot(fs, i, DataSlot(bn)) != 0
  {
    var p := bn * BSIZE;
    assert p / BSIZE == bn;
  }

  // ---- truncation ---------------------------------------------------------------------

  /** Partway through a truncate: the blocks of the slots below k, the indirect block aside, are free again. */
  ghost predicate Truncating(fs0: Fs, used: seq<bool>, owner: Owners, i: nat, k: nat) {
    && |used| == |fs0.used|
    && forall b | 0 <= b < |used| ::
         used[b] == (fs0.used[b] && !(b in owner && owner[b].i == i && owner[b].k < k && owner[b].k != NDIRECT))
  }

  /** The block of the next slot is still marked in use, since no earlier slot named it. */
  lemma TruncateStep(fs0: Fs, data: nat, owner: Owners, used: seq<bool>, i: nat, k: nat)
    requires Shape(fs0) && Owned(fs0, data, owner) && InTable(fs0, i, k) && k != NDIRECT
    requires Truncating(fs0, used, owner, i, k)
    ensures var b := Slot(fs0, i, k);
      if b == 0 then Truncating(fs0, used, owner, i, k + 1)
      else b < |used| && used[b] && Truncating(fs0, used[b := false], owner, i, k + 1)
  {
    hide Slot;
    var b := Slot(fs0, i, k);
    forall c | c in owner && owner[c].i == i && owner[c].k == k ensures c == b { }
  }

  /** Every block of file i freed and nothing else. */
  ghost predicate Truncated(fs0: Fs, fs: Fs, owner: Owners, i: nat) {
    && i < |fs0.inodes| && fs.blocks == fs0.blocks && fs.inodes == fs0.inodes[i := Empty()]
    && |fs.used| == |fs0.used|
    && forall b | 0 <= b < |fs.used| :: fs.used[b] == (fs0.used[b] && !(b in owner && owner[b].i == i))
  }

  lemma TruncateLast(fs0: Fs, data: nat, owner: Owners, used: seq<bool>, i: nat)
    requires Shape(fs0) && Owned(fs0, data, owner) && i < |fs0.inodes|
    requires Truncating(fs0, used, owner, i, NSLOTS)
    ensures var b, inodes := Slot(fs0, i, NDIRECT), fs0.inodes[i := Empty()];
      if b == 0 then Truncated(fs0, Fs(fs0.blocks, used, inodes), owner, i)
      else b < |used| && used[b] && Truncated(fs0, Fs(fs0.blocks, used[b := false], inodes), owner, i)
  {
    hide Slot;
    assert InTable(fs0, i, NDIRECT);
    var b := Slot(fs0, i, NDIRECT);
    forall c | c in owner && owner[c].i == i && owner[c].k == NDIRECT ensures c == b { }
  }

  /** Without indirect block there are no indirect entries to free. */
  lemma NoIndirect(fs0: Fs, data: nat, owner: Owners, used: seq<bool>, i: nat)
    requires Shape(fs0) && Owned(fs0, data, owner) && i < |fs0.inodes| && Slot(fs0, i, NDIRECT) == 0
    requires Truncating(fs0, used, owner, i, NDIRECT)
    ensures Truncating(fs0, used, owner, i, NSLOTS)
  {
  }

  function Without(owner: Owners, i: nat): Owners {
    map b | b in owner && owner[b].i != i :: owner[b]
  }

  lemma TruncatedKeeps(fs0: Fs, fs: Fs, data: nat, owner: Owners, i: nat)
    requires Good(fs0, data, owner) && Truncated(fs0, fs, owner, i)
    ensures Good(fs, data, Without(owner, i)) && Content(fs, i) == []
    ensures forall j | 0 <= j < |fs.inodes| && j != i :: Content(fs, j) == Content(fs0, j)
  {
    forall j: nat, k: nat | InTable(fs, j, k)
      ensures Slot(fs, j, k) == if j == i then 0 else Slot(fs0, j, k)
    {
    }
    forall j: nat | j < |fs.inodes| && j != i
      ensures Content(fs, j) == Content(fs0, j)
    {
      TruncatedOther(fs0, fs, owner, i, j);
    }
    hide Slot, Content;
  }

  lemma TruncatedOther(fs0: Fs, fs: Fs, owner: Owners, i: nat, j: nat)
    requires Shape(fs0) && Truncated(fs0, fs, owner, i) && j < |fs.inodes| && j != i
    requires fs.inodes[j].size <= MAXFILE * BSIZE
    ensures Shape(fs) && Content(fs, j) == Content(fs0, j)
  {
    forall p: nat | p < MAXFILE * BSIZE ensures ByteAt(fs, j, p) == ByteAt(fs0, j, p) { }
  }
}
