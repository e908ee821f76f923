/** Bytes, 32-bit little-endian words and 1024-byte disk blocks. */
module Bytes {
  type byte = b: int | 0 <= b < 256
  type u32 = n: int | 0 <= n < 0x1_0000_0000

  const BSIZE: nat := 1024

  type Block = b: seq<byte> | |b| == BSIZE witness seq(BSIZE, _ => 0)

  function ZeroBlock(): Block { seq(BSIZE, _ => 0) }

  /** One unsigned word, least significant byte first. */
  function PutU32(n: u32): (r: seq<byte>)
    ensures |r| == 4
  {
    [n % 256, n / 0x100 % 256, n / 0x1_0000 % 256, n / 0x100_0000 % 256]
  }

  function GetU32(s: seq<byte>, at: nat): u32
    requires at + 4 <= |s|
  {
    s[at] as int + 0x100 * s[at + 1] as int + 0x1_0000 * s[at + 2] as int + 0x100_0000 * s[at + 3] as int
  }

  function PutWords(ws: seq<u32>): (r: seq<byte>)
    ensures |r| == 4 * |ws|
  {
    if ws == [] then [] else PutU32(ws[0]) + PutWords(ws[1..])
  }

  lemma WordRoundTrip(n: u32)
    ensures GetU32(PutU32(n), 0) == n
  {
    var a, b, c := n / 0x100, n / 0x1_0000, n / 0x100_0000;
    assert b == a / 256 && c == b / 256;
  }

  /** Word k of a packed array, whatever bytes follow, reads back as ws[k]. */
  lemma {:induction false} WordsRoundTrip(ws: seq<u32>, rest: seq<byte>, k: nat)
    requires k < |ws|
    ensures GetU32(PutWords(ws) + rest, 4 * k) == ws[k]
  {
    var all := PutWords(ws) + rest;
    if k == 0 {
      WordRoundTrip(ws[0]);
      assert all[..4] == PutU32(ws[0]);
    } else {
      WordsRoundTrip(ws[1..], rest, k - 1);
      assert all[4..] == PutWords(ws[1..]) + rest;
    }
  }

  /** Word k of a block. */
  function Word(b: Block, k: nat): u32
    requires 4 * k + 4 <= BSIZE
  {
    GetU32(b, 4 * k)
  }

  function SetWord(b: Block, k: nat, v: u32): Block
    requires 4 * k + 4 <= BSIZE
  {
    b[..4 * k] + PutU32(v) + b[4 * k + 4..]
  }

  lemma SetWordAt(b: Block, k: nat, v: u32, j: nat)
    requires 4 * k + 4 <= BSIZE && 4 * j + 4 <= BSIZE
    ensures Word(SetWord(b, k, v), j) == if j == k then v else Word(b, j)
  {
    var c := SetWord(b, k, v);
    WordRoundTrip(v);
    if j < k {
      assert c[4 * j] == b[4 * j] && c[4 * j + 1] == b[4 * j + 1] && c[4 * j + 2] == b[4 * j + 2]
             && c[4 * j + 3] == b[4 * j + 3];
    } else if j > k {
      assert c[4 * j] == b[4 * j] && c[4 * j + 1] == b[4 * j + 1] && c[4 * j + 2] == b[4 * j + 2]
             && c[4 * j + 3] == b[4 * j + 3];
    } else {
      assert c[4 * k..4 * k + 4] == PutU32(v);
    }
  }
}
