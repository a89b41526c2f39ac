/** Disk blocks as raw bytes, and the little-endian 32-bit words that the log header
    and the indirect blocks keep in them. */
module Disk {

  const BSIZE: nat := 1024
  const WORDS: nat := 256

  newtype byte = x: int | 0 <= x < 256

  type Block = b: seq<byte> | |b| == 1024 witness seq(1024, _ => 0)

  /** A disk is its blocks in order; one block write is atomic. */
  type Disk = seq<Block>

  function ZeroBlock(): (b: Block)
    ensures forall i | 0 <= i < 1024 :: b[i] == 0
  {
    seq(1024, _ => 0)
  }

  /** The j-th 32-bit word of a block, as `((uint*)bp->data)[j]` reads it. */
  function Word(b: Block, j: nat): (w: nat)
    requires j < WORDS
    ensures w < 0x1_0000_0000
  {
    b[4*j] as nat + 0x100 * b[4*j+1] as nat + 0x1_0000 * b[4*j+2] as nat + 0x100_0000 * b[4*j+3] as nat
  }

  /** Byte k (0..3) of a 32-bit word. */
  function Octet(w: nat, k: nat): byte
    requires w < 0x1_0000_0000 && k < 4
  {
    if k == 0 then (w % 0x100) as byte
    else if k == 1 then (w / 0x100 % 0x100) as byte
    else if k == 2 then (w / 0x1_0000 % 0x100) as byte
    else (w / 0x100_0000) as byte
  }

  /** Store a 32-bit word, leaving every other byte alone. */
  function SetWord(b: Block, j: nat, w: nat): Block
    requires j < WORDS && w < 0x1_0000_0000
  {
    b[4*j := Octet(w, 0)][4*j+1 := Octet(w, 1)][4*j+2 := Octet(w, 2)][4*j+3 := Octet(w, 3)]
  }

  lemma OctetsRebuild(w: nat)
    requires w < 0x1_0000_0000
    ensures Octet(w, 0) as nat + 0x100 * Octet(w, 1) as nat + 0x1_0000 * Octet(w, 2) as nat
            + 0x100_0000 * Octet(w, 3) as nat == w
  {
    assert w / 0x1_0000 == w / 0x100 / 0x100;
    assert w / 0x100_0000 == w / 0x1_0000 / 0x100;
  }

  /** A stored word reads back, and no other word changes. */
  lemma WordAfterSet(b: Block, j: nat, w: nat)
    requires j < WORDS && w < 0x1_0000_0000
    ensures Word(SetWord(b, j, w), j) == w
    ensures forall i: nat | i < WORDS && i != j :: Word(SetWord(b, j, w), i) == Word(b, i)
  {
    OctetsRebuild(w);
    forall i: nat | i < WORDS && i != j
      ensures Word(SetWord(b, j, w), i) == Word(b, i)
    {
      var c := SetWord(b, j, w);
      assert c[4*i] == b[4*i] && c[4*i+1] == b[4*i+1] && c[4*i+2] == b[4*i+2] && c[4*i+3] == b[4*i+3];
    }
  }

  lemma ZeroWords()
    ensures forall j: nat | j < WORDS :: Word(ZeroBlock(), j) == 0
  {
  }

  /** One block write issued to the device. */
  datatype Write = Write(blockno: nat, data: Block)

  predicate InRange(d: Disk, ws: seq<Write>)
  {
    forall i | 0 <= i < |ws| :: ws[i].blockno < |d|
  }

  /** The disk after the writes `ws` have reached it in order. */
  function Apply(d: Disk, ws: seq<Write>): (r: Disk)
    requires InRange(d, ws)
    ensures |r| == |d|
    decreases |ws|
  {
    if ws == [] then d
    else
      var last := ws[|ws|-1];
      Apply(d, ws[..|ws|-1])[last.blockno := last.data]
  }

  lemma {:induction false} ApplyConcat(d: Disk, xs: seq<Write>, ys: seq<Write>)
    requires InRange(d, xs) && InRange(d, ys)
    ensures InRange(d, xs + ys)
    ensures Apply(d, xs + ys) == Apply(Apply(d, xs), ys)
    decreases |ys|
  {
    if ys == [] {
      assert xs + ys == xs;
    } else {
      ApplyConcat(d, xs, ys[..|ys|-1]);
      assert (xs + ys)[..|xs + ys|-1] == xs + ys[..|ys|-1];
    }
  }

  lemma ApplyNone(d: Disk, ws: seq<Write>)
    ensures ws[..0] == [] && InRange(d, ws[..0]) && Apply(d, ws[..0]) == d
  {
  }

  lemma ApplyStep(d: Disk, ws: seq<Write>, k: nat)
    requires InRange(d, ws) && k < |ws|
    ensures InRange(d, ws[..k]) && InRange(d, ws[..k+1])
    ensures ws[..k+1] == ws[..k] + [ws[k]]
    ensures Apply(d, ws[..k+1]) == Apply(d, ws[..k])[ws[k].blockno := ws[k].data]
  {
    assert ws[..k+1][..k] == ws[..k];
  }

  /** A block no write names keeps its contents. */
  lemma {:induction false} ApplyUntouched(d: Disk, ws: seq<Write>, b: nat)
    requires InRange(d, ws) && b < |d|
    requires forall i | 0 <= i < |ws| :: ws[i].blockno != b
    ensures Apply(d, ws)[b] == d[b]
    decreases |ws|
  {
    if ws != [] {
      ApplyUntouched(d, ws[..|ws|-1], b);
    }
  }

  /** With distinct targets, each block ends up with the data of the write that names it. */
  lemma {:induction false} ApplyDistinct(d: Disk, ws: seq<Write>, i: nat)
    requires InRange(d, ws) && i < |ws|
    requires forall p, q | 0 <= p < q < |ws| :: ws[p].blockno != ws[q].blockno
    ensures Apply(d, ws)[ws[i].blockno] == ws[i].data
    decreases |ws|
  {
    var ws' := ws[..|ws|-1];
    if i < |ws| - 1 {
      ApplyDistinct(d, ws', i);
      assert ws'[i] == ws[i];
    }
  }
}
