/** The journal's commit record: magic, sequence number, count, destinations. */
module LogHeader {
  import opened Bytes

  const LOGMAGIC: u32 := 0x6A726E6C
  const LOGSTART: nat := 2
  const NLOG: nat := 8
  const LOGCAP: nat := NLOG - 1

  datatype Header = Header(ok: bool, seqno: u32, dests: seq<u32>)

  predicate InLog(bno: nat) {
    LOGSTART <= bno < LOGSTART + NLOG
  }

  function Words(seqno: u32, dests: seq<u32>): (ws: seq<u32>)
    requires |dests| <= LOGCAP
    ensures |ws| == 3 + LOGCAP
  {
    [LOGMAGIC, seqno, |dests|] + dests + seq(LOGCAP - |dests|, _ => 0)
  }

  function Pack(seqno: u32, dests: seq<u32>): Block
    requires |dests| <= LOGCAP
  {
    PutWords(Words(seqno, dests)) + seq(BSIZE - 4 * (3 + LOGCAP), _ => 0)
  }

  function Parse(raw: Block): (h: Header)
    ensures |h.dests| <= LOGCAP
  {
    var n := GetU32(raw, 8);
    if GetU32(raw, 0) == LOGMAGIC && n <= LOGCAP
    then Header(true, GetU32(raw, 4), seq(n, k requires 0 <= k < n => GetU32(raw, 12 + 4 * k)))
    else Header(false, GetU32(raw, 4), [])
  }

  lemma ParsePack(seqno: u32, dests: seq<u32>)
    requires |dests| <= LOGCAP
    ensures Parse(Pack(seqno, dests)) == Header(true, seqno, dests)
  {
    var ws := Words(seqno, dests);
    var pad: seq<byte> := seq(BSIZE - 4 * (3 + LOGCAP), _ => 0);
    forall k | 0 <= k < |ws|
      ensures GetU32(Pack(seqno, dests), 4 * k) == ws[k]
    {
      WordsRoundTrip(ws, pad, k);
    }
    forall k | 0 <= k < |dests|
      ensures GetU32(Pack(seqno, dests), 12 + 4 * k) == dests[k]
    {
      assert 12 + 4 * k == 4 * (k + 3) && ws[k + 3] == dests[k];
    }
    assert GetU32(Pack(seqno, dests), 4 * 0) == LOGMAGIC;
    assert GetU32(Pack(seqno, dests), 4 * 1) == seqno;
    assert GetU32(Pack(seqno, dests), 4 * 2) == |dests|;
  }

  /** Four bytes, least significant first. */
  predicate Bytes4(raw: Block, at: nat, n: u32)
    requires at + 4 <= BSIZE
  {
    raw[at] == n % 0x100 && raw[at + 1] == n / 0x100 % 0x100 && raw[at + 2] == n / 0x1_0000 % 0x100
    && raw[at + 3] == n / 0x100_0000
  }

  lemma ReadIsBytes(raw: Block, at: nat)
    requires at + 4 <= BSIZE
    ensures Bytes4(raw, at, GetU32(raw, at))
  {
    var a, b, c, d := raw[at] as int, raw[at + 1] as int, raw[at + 2] as int, raw[at + 3] as int;
    var n := GetU32(raw, at);
    assert n == a + 0x100 * (b + 0x100 * (c + 0x100 * d));
    assert n / 0x100 == b + 0x100 * (c + 0x100 * d) && n / 0x1_0000 == c + 0x100 * d && n / 0x100_0000 == d;
  }

  /** The record byte by byte: magic, number, count, destinations, and zeros to the end of the block. */
  lemma PackLayout(seqno: u32, dests: seq<u32>)
    requires |dests| <= LOGCAP
    ensures var raw := Pack(seqno, dests);
      && raw[..4] == [0x6C, 0x6E, 0x72, 0x6A] && Bytes4(raw, 4, seqno) && Bytes4(raw, 8, |dests|)
      && (forall k | 0 <= k < |dests| :: Bytes4(raw, 12 + 4 * k, dests[k]))
      && forall i | 12 + 4 * |dests| <= i < BSIZE :: raw[i] == 0
  {
    hide GetU32, PutWords;
    var raw := Pack(seqno, dests);
    PackWord(seqno, dests, 0);
    PackWord(seqno, dests, 1);
    PackWord(seqno, dests, 2);
    assert raw[..4] == [raw[0], raw[1], raw[2], raw[3]];
    forall k | 0 <= k < |dests| ensures Bytes4(raw, 12 + 4 * k, dests[k]) { PackWord(seqno, dests, k + 3); }
    forall i | 12 + 4 * |dests| <= i < BSIZE ensures raw[i] == 0 {
      if i < 4 * (3 + LOGCAP) { PackWord(seqno, dests, i / 4); }
    }
  }

  lemma PackWord(seqno: u32, dests: seq<u32>, k: nat)
    requires |dests| <= LOGCAP && k < 3 + LOGCAP
    ensures Bytes4(Pack(seqno, dests), 4 * k, Words(seqno, dests)[k])
  {
    WordsRoundTrip(Words(seqno, dests), seq(BSIZE - 4 * (3 + LOGCAP), _ => 0), k);
    ReadIsBytes(Pack(seqno, dests), 4 * k);
    hide Words, GetU32;
  }

  /** A block is a record exactly by its magic and a count that fits; otherwise it names no blocks. */
  lemma RecordIff(raw: Block)
    ensures Parse(raw).ok <==> raw[..4] == [0x6C, 0x6E, 0x72, 0x6A] && raw[8] <= 7 && raw[9] == raw[10] == raw[11] == 0
    ensures !Parse(raw).ok ==> Parse(raw).dests == []
    ensures Parse(raw).ok ==> |Parse(raw).dests| == raw[8]
  {
    ReadIsBytes(raw, 0);
    ReadIsBytes(raw, 8);
    assert raw[..4] == [raw[0], raw[1], raw[2], raw[3]];
  }
}
