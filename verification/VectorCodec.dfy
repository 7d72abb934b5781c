/** The stored form of an embedding: a little-endian 32-bit length and that many 32-bit floats.
  * A float32 is represented by the four bytes of its bit pattern, lowest first. */
module VectorCodec {
  import opened Common

  const WORD := 0x1_0000_0000

  type byte = n: nat | n < 256
  type float32 = b: seq<byte> | |b| == 4 witness [0, 0, 0, 0]

  function Pow256(n: nat): (p: nat)
    ensures p > 0
  {
    if n == 0 then 1 else 256 * Pow256(n - 1)
  }

  /** The `n` low bytes of a number, lowest first; higher bytes are lost. */
  function LowBytes(w: nat, n: nat): (b: seq<byte>)
    ensures |b| == n
  {
    if n == 0 then [] else [w % 256] + LowBytes(w / 256, n - 1)
  }

  function Number(b: seq<byte>): nat {
    if b == [] then 0 else b[0] as int + 256 * Number(b[1..])
  }

  lemma {:induction false} NumberOfLowBytes(w: nat, n: nat) returns (k: nat)
    ensures Number(LowBytes(w, n)) < Pow256(n)
    ensures w == k * Pow256(n) + Number(LowBytes(w, n))
  {
    if n == 0 {
      k := w;
    } else {
      k := NumberOfLowBytes(w / 256, n - 1);
      var p, m := Pow256(n - 1), Number(LowBytes(w / 256, n - 1));
      assert LowBytes(w, n)[1..] == LowBytes(w / 256, n - 1);
      Regroup(k, p);
    }
  }

  lemma Regroup(k: nat, p: nat)
    ensures 256 * (k * p) == k * (256 * p)
  {
  }

  lemma WordRoundTrip(w: nat)
    ensures Number(LowBytes(w, 4)) < WORD
    ensures w < WORD ==> Number(LowBytes(w, 4)) == w
  {
    var k := NumberOfLowBytes(w, 4);
    assert Pow256(4) == WORD by {
      assert Pow256(1) == 256 && Pow256(2) == 65536;
    }
  }

  function Words(vec: seq<float32>): (b: seq<byte>)
    ensures |b| == 4 * |vec|
  {
    if vec == [] then [] else Words(vec[..|vec| - 1]) + vec[|vec| - 1]
  }

  /** The header holds the length as a 32-bit number, so it wraps. */
  function Encode(vec: seq<float32>): (b: seq<byte>)
    ensures |b| == 4 + 4 * |vec|
  {
    LowBytes(|vec|, 4) + Words(vec)
  }

  lemma {:induction false} WordsAt(vec: seq<float32>, i: nat, j: nat)
    requires i < |vec| && j < 4
    ensures Words(vec)[4 * i + j] == vec[i][j]
  {
    if i < |vec| - 1 {
      WordsAt(vec[..|vec| - 1], i, j);
    }
  }

  lemma LowBytesNext(w: nat, n: nat)
    ensures LowBytes(w, n + 1) == [w % 256] + LowBytes(w / 256, n)
  {
  }

  lemma HeaderBytes(n: nat, n1: nat, n2: nat, n3: nat)
    requires n1 == n / 256 && n2 == n1 / 256 && n3 == n2 / 256
    ensures LowBytes(n, 4) == [n % 256, n1 % 256, n2 % 256, n3 % 256]
  {
    LowBytesNext(n, 3);
    LowBytesNext(n1, 2);
    LowBytesNext(n2, 1);
    LowBytesNext(n3, 0);
    assert LowBytes(n3 / 256, 0) == [];
  }

  /** Byte by byte: the length, lowest byte first, then the components in order, each lowest byte first. */
  lemma EncodedBytes(vec: seq<float32>, i: nat, j: nat)
    ensures var n := |vec|;
            Encode(vec)[..4] == [n % 256, n / 256 % 256, n / 256 / 256 % 256, n / 256 / 256 / 256 % 256]
    ensures i < |vec| && j < 4 ==> Encode(vec)[4 + 4 * i + j] == vec[i][j]
  {
    var n := |vec|;
    HeaderBytes(n, n / 256, n / 256 / 256, n / 256 / 256 / 256);
    if i < |vec| && j < 4 {
      WordsAt(vec, i, j);
    }
    assert Encode(vec)[..4] == LowBytes(n, 4);
  }

  /** Four bytes of the buffer, the others unchanged. */
  method PutWord(buf: array<byte>, at: nat, w: seq<byte>)
    requires |w| == 4 && at + 4 <= buf.Length
    modifies buf
    ensures buf[..] == old(buf[..at]) + w + old(buf[at + 4..])
  {
    buf[at], buf[at + 1], buf[at + 2], buf[at + 3] := w[0], w[1], w[2], w[3];
  }

  /** Writing the next word extends the encoded prefix by that word. */
  lemma PrefixGrows(before: seq<byte>, after: seq<byte>, head: seq<byte>, vec: seq<float32>, i: nat)
    requires i < |vec| && 8 + 4 * i <= |before|
    requires before[..4 + 4 * i] == head + Words(vec[..i])
    requires after == before[..4 + 4 * i] + vec[i] + before[8 + 4 * i..]
    ensures after[..8 + 4 * i] == head + Words(vec[..i + 1])
  {
    assert after[..8 + 4 * i] == before[..4 + 4 * i] + vec[i];
    assert vec[..i + 1][..i] == vec[..i];
  }

  /** The word at position `i` of the buffer. */
  method PutNext(buf: array<byte>, head: seq<byte>, vec: seq<float32>, i: nat)
    requires i < |vec| && |head| == 4 && buf.Length == 4 + 4 * |vec|
    requires buf[..4 + 4 * i] == head + Words(vec[..i])
    modifies buf
    ensures buf[..8 + 4 * i] == head + Words(vec[..i + 1])
  {
    ghost var before := buf[..];
    assert before[..4 + 4 * i] == buf[..4 + 4 * i];
    PutWord(buf, 4 + i * 4, vec[i]);
    PrefixGrows(before, buf[..], head, vec, i);
    assert buf[..][..8 + 4 * i] == buf[..8 + 4 * i];
  }

  /** The buffer is allocated at its final size and filled word by word. */
  method EncodeVec(vec: seq<float32>) returns (buf: array<byte>)
    ensures fresh(buf) && buf[..] == Encode(vec)
  {
    buf := new byte[4 + |vec| * 4](_ => 0);
    var head := LowBytes(|vec|, 4);
    PutWord(buf, 0, head);
    assert buf[..4] == head + Words(vec[..0]);
    for i := 0 to |vec|
      invariant buf[..4 + i * 4] == head + Words(vec[..i])
    {
      PutNext(buf, head, vec, i);
    }
    assert vec[..|vec|] == vec;
    assert buf[..] == buf[..4 + |vec| * 4];
  }

  function DecodeWords(b: seq<byte>): seq<seq<byte>>
    requires |b| % 4 == 0
  {
    if b == [] then [] else DecodeWords(b[..|b| - 4]) + [b[|b| - 4..]]
  }

  /** A reader of the format: the announced length must be the length that follows. */
  function Decode(b: seq<byte>): Option<seq<seq<byte>>> {
    if |b| >= 4 && |b| - 4 == 4 * Number(b[..4]) then Some(DecodeWords(b[4..])) else None
  }

  lemma {:induction false} WordsRoundTrip(vec: seq<float32>)
    ensures DecodeWords(Words(vec)) == vec
  {
    if vec != [] {
      var init, last := vec[..|vec| - 1], vec[|vec| - 1];
      var b := Words(vec);
      assert b[..|b| - 4] == Words(init) && b[|b| - 4..] == last;
      WordsRoundTrip(init);
    }
  }

  /** A stored vector reads back as itself exactly when its length fits the 32-bit header. */
  lemma CodecRoundTrip(vec: seq<float32>)
    ensures Decode(Encode(vec)) == Some(vec) <==> |vec| < WORD
  {
    var b := Encode(vec);
    var head := LowBytes(|vec|, 4);
    assert b[..4] == head && b[4..] == Words(vec);
    WordRoundTrip(|vec|);
    WordsRoundTrip(vec);
  }
}
