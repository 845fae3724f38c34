/**
 * The longitudinal redundancy check shared by both ends of the taxi socket
 * protocol: the XOR of every 16-bit character of the frame's data.
 */
module Checksum {
  import opened Java

  /** Start of text: the first character of every frame. */
  const Stx: JChar := 0x02
  /** End of text: closes the data part of a frame, followed by the LRC. */
  const Etx: JChar := 0x03

  /** The XOR fold of `data`, left to right, starting from 0. */
  function Lrc(data: JString): JChar {
    if |data| == 0 then 0 else Lrc(data[..|data| - 1]) ^ data[|data| - 1]
  }

  /** The frame layout used by both ends: STX, the data, ETX, then the data's LRC. */
  function Frame(data: JString): (f: JString)
    ensures |f| == |data| + 3
  {
    [Stx] + data + [Etx] + [Lrc(data)]
  }

  /**
   * `extractData` (the same on both ends): the characters between position 0
   * and the first ETX, `substring(1, indexOf(ETX))`, which throws unless an
   * ETX sits after position 0.
   */
  function ExtractData(message: JString): (r: Result<JString>)
    ensures r.Ok? <==> IndexOf(message, Etx) >= 1
    ensures r.Ok? ==> r.value == message[1..IndexOf(message, Etx)] && Etx !in r.value
  {
    var k := IndexOf(message, Etx);
    if k < 1 then Throw(IndexOutOfBounds) else Ok(message[1..k])
  }

  /** In a frame of ETX-free data the first ETX is the closing one, so the data comes back out. */
  lemma FrameData(data: JString)
    requires Etx !in data
    ensures IndexOf(Frame(data), Etx) == |data| + 1
    ensures ExtractData(Frame(data)) == Ok(data)
  {
    var f := Frame(data);
    assert f[..|data| + 1] == [Stx] + data;
    IndexOfAt(f, Etx, |data| + 1);
    assert f[1..|data| + 1] == data;
  }

  /** The accumulator loop of `calculateLRC`. */
  method CalculateLrc(data: JString) returns (lrc: JChar)
    ensures lrc == Lrc(data)
  {
    lrc := 0;
    var i := 0;
    while i < |data|
      invariant 0 <= i <= |data|
      invariant lrc == Lrc(data[..i])
    {
      assert data[..i + 1][..i] == data[..i];
      lrc := lrc ^ data[i];
      i := i + 1;
    }
    assert data[..i] == data;
  }

  /** The LRC of a concatenation is the XOR of the parts' LRCs. */
  lemma {:induction false} LrcAppend(a: JString, b: JString)
    ensures Lrc(a + b) == Lrc(a) ^ Lrc(b)
    decreases |b|
  {
    if |b| == 0 {
      assert a + b == a;
    } else {
      var n := |b| - 1;
      assert (a + b)[..|a + b| - 1] == a + b[..n];
      LrcAppend(a, b[..n]);
    }
  }

  /**
   * Replacing exactly one character by a different one always changes the
   * LRC: a single corrupted character is always detected.
   */
  lemma LrcDetectsOneChange(p: JString, x: JChar, y: JChar, q: JString)
    requires x != y
    ensures Lrc(p + [x] + q) != Lrc(p + [y] + q)
  {
    assert Lrc(p + [x] + q) == Lrc(p) ^ x ^ Lrc(q) by {
      LrcOfOne(p, x, q);
    }
    assert Lrc(p + [y] + q) == Lrc(p) ^ y ^ Lrc(q) by {
      LrcOfOne(p, y, q);
    }
    XorDiffers(Lrc(p), x, y, Lrc(q));
  }

  lemma LrcOfOne(p: JString, x: JChar, q: JString)
    ensures Lrc(p + [x] + q) == Lrc(p) ^ x ^ Lrc(q)
  {
    LrcAppend(p + [x], q);
    LrcAppend(p, [x]);
    assert Lrc([x]) == x by { assert [x][..0] == []; }
  }

  lemma XorDiffers(a: JChar, x: JChar, y: JChar, c: JChar)
    requires x != y
    ensures a ^ x ^ c != a ^ y ^ c
  {
  }
}
