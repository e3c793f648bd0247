/** `buff_to_vec` of `src/bin/main.rs`: the RGBA bytes of an image buffer,
    taken four at a time, become one ARGB word per pixel. */
module Pixels {

  /** The word for one pixel (src/bin/main.rs:93-98). */
  function Pack(r: bv8, g: bv8, b: bv8, a: bv8): bv32
  {
    ((a as bv32) << 24) | ((r as bv32) << 16) | ((g as bv32) << 8) | (b as bv32)
  }

  /** Bits `shift` to `shift + 7` of a word. */
  function Channel(w: bv32, shift: bv32): bv8
    requires shift <= 24
  {
    ((w >> shift) & 0xFF) as bv8
  }

  /** The four channels come back out of the word unchanged. */
  lemma PackChannels(r: bv8, g: bv8, b: bv8, a: bv8)
    ensures Channel(Pack(r, g, b, a), 24) == a
    ensures Channel(Pack(r, g, b, a), 16) == r
    ensures Channel(Pack(r, g, b, a), 8) == g
    ensures Channel(Pack(r, g, b, a), 0) == b
  {
  }

  /** `buff_to_vec` (src/bin/main.rs:88-102): `chunks_exact(4)` over the
      bytes, so a tail of fewer than four bytes is dropped. */
  function BuffToVec(buff: seq<bv8>): (words: seq<bv32>)
    ensures |words| == |buff| / 4
    decreases |buff|
  {
    if |buff| < 4 then []
    else [Pack(buff[0], buff[1], buff[2], buff[3])] + BuffToVec(buff[4..])
  }

  /** Word `k` packs bytes `4k` to `4k + 3`, red, green, blue, alpha. */
  lemma {:induction false} BuffToVecAt(buff: seq<bv8>, k: nat)
    requires k < |buff| / 4
    ensures BuffToVec(buff)[k] == Pack(buff[4 * k], buff[4 * k + 1], buff[4 * k + 2], buff[4 * k + 3])
    decreases k
  {
    if k > 0 {
      BuffToVecAt(buff[4..], k - 1);
      assert buff[4..][4 * (k - 1)] == buff[4 * k];
      assert buff[4..][4 * (k - 1) + 1] == buff[4 * k + 1];
      assert buff[4..][4 * (k - 1) + 2] == buff[4 * k + 2];
      assert buff[4..][4 * (k - 1) + 3] == buff[4 * k + 3];
    }
  }

  /** The bytes of words, in the order `buff_to_vec` reads them. */
  function VecToBuff(words: seq<bv32>): (buff: seq<bv8>)
    ensures |buff| == 4 * |words|
    decreases |words|
  {
    if words == [] then []
    else
      var w := words[0];
      [Channel(w, 16), Channel(w, 8), Channel(w, 0), Channel(w, 24)] + VecToBuff(words[1..])
  }

  /** A word is the pack of its own channels. */
  lemma ChannelsPack(w: bv32)
    ensures Pack(Channel(w, 16), Channel(w, 8), Channel(w, 0), Channel(w, 24)) == w
  {
  }

  /** Every word sequence is the image of some buffer. */
  lemma {:induction false} BuffToVecOfVecToBuff(words: seq<bv32>)
    ensures BuffToVec(VecToBuff(words)) == words
    decreases |words|
  {
    if words != [] {
      var w := words[0];
      ChannelsPack(w);
      assert VecToBuff(words)[4..] == VecToBuff(words[1..]);
      BuffToVecOfVecToBuff(words[1..]);
    }
  }

  /** Nothing but the dropped tail is lost: the bytes come back. */
  lemma {:induction false} VecToBuffOfBuffToVec(buff: seq<bv8>)
    ensures VecToBuff(BuffToVec(buff)) == buff[..4 * (|buff| / 4)]
    decreases |buff|
  {
    if |buff| >= 4 {
      var p := Pack(buff[0], buff[1], buff[2], buff[3]);
      PackChannels(buff[0], buff[1], buff[2], buff[3]);
      var rest := BuffToVec(buff[4..]);
      assert BuffToVec(buff) == [p] + rest;
      assert ([p] + rest)[1..] == rest;
      VecToBuffOfBuffToVec(buff[4..]);
      assert buff[..4 * (|buff| / 4)] == buff[..4] + buff[4..][..4 * (|buff[4..]| / 4)];
    }
  }

  /** Bytes past the last whole pixel make no difference. */
  lemma {:induction false} TailIgnored(buff: seq<bv8>)
    ensures BuffToVec(buff) == BuffToVec(buff[..4 * (|buff| / 4)])
    decreases |buff|
  {
    var cut := buff[..4 * (|buff| / 4)];
    if |buff| >= 4 {
      assert cut[..4] == buff[..4];
      assert cut[4..] == buff[4..][..4 * (|buff[4..]| / 4)];
      TailIgnored(buff[4..]);
    }
  }

  /** Chunk order is kept: whole pixels before are words before. */
  lemma {:induction false} BuffToVecAppend(b1: seq<bv8>, b2: seq<bv8>)
    requires |b1| % 4 == 0
    ensures BuffToVec(b1 + b2) == BuffToVec(b1) + BuffToVec(b2)
    decreases |b1|
  {
    if |b1| >= 4 {
      assert (b1 + b2)[4..] == b1[4..] + b2;
      assert (b1 + b2)[..4] == b1[..4];
      BuffToVecAppend(b1[4..], b2);
    } else {
      assert b1 == [];
      assert b1 + b2 == b2;
    }
  }

  /** One pixel of the channels (r, g, b, a) = (1, 2, 3, 4). */
  lemma ExamplePixel()
    ensures BuffToVec([1, 2, 3, 4, 9]) == [0x04010203]
  {
  }
}
