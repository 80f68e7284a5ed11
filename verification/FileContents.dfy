/** What a file holds: the pieces written to it, cut into zero-padded blocks. */
module FileContents {
  import opened Common

  newtype byte = x: int | 0 <= x < 256

  function Zeros(n: nat): seq<byte> {
    seq(n, _ => 0 as byte)
  }

  /** p cut into blocks of bs bytes, the last one filled up with zeros. */
  function Chunks(p: seq<byte>, bs: nat): (rows: seq<seq<byte>>)
    requires bs > 0
    ensures forall i :: 0 <= i < |rows| ==> |rows[i]| == bs
    decreases |p|
  {
    if p == [] then []
    else if |p| <= bs then [p + Zeros(bs - |p|)]
    else [p[..bs]] + Chunks(p[bs..], bs)
  }

  /** The blocks of all pieces; every piece starts a new block. */
  function AllChunks(pieces: seq<seq<byte>>, bs: nat): (rows: seq<seq<byte>>)
    requires bs > 0
    ensures forall i :: 0 <= i < |rows| ==> |rows[i]| == bs
  {
    if pieces == [] then [] else AllChunks(pieces[..|pieces| - 1], bs) + Chunks(pieces[|pieces| - 1], bs)
  }

  function Flatten(rows: seq<seq<byte>>): seq<byte> {
    if rows == [] then [] else Flatten(rows[..|rows| - 1]) + rows[|rows| - 1]
  }

  function Size(pieces: seq<seq<byte>>): nat {
    |Flatten(pieces)|
  }

  /** p filled up with zeros to a multiple of bs. */
  function Padded(p: seq<byte>, bs: nat): seq<byte>
    requires bs > 0
  {
    p + Zeros((bs - |p| % bs) % bs)
  }

  function PaddedAll(pieces: seq<seq<byte>>, bs: nat): seq<byte>
    requires bs > 0
  {
    if pieces == [] then [] else PaddedAll(pieces[..|pieces| - 1], bs) + Padded(pieces[|pieces| - 1], bs)
  }

  /** What reading a file back means: the pieces, each but the last padded to a block boundary, cut
      off at the number of bytes that were written. */
  ghost function View(pieces: seq<seq<byte>>, bs: nat): (v: seq<byte>)
    requires bs > 0
    ensures |v| == Size(pieces)
  {
    PaddedIsLonger(pieces, bs);
    PaddedAll(pieces, bs)[..Size(pieces)]
  }

  lemma {:induction false} PaddedIsLonger(pieces: seq<seq<byte>>, bs: nat)
    requires bs > 0
    ensures |PaddedAll(pieces, bs)| >= Size(pieces)
  {
    if pieces != [] {
      PaddedIsLonger(pieces[..|pieces| - 1], bs);
    }
  }

  // ----- lengths

  lemma {:induction false} FlattenLength(rows: seq<seq<byte>>, bs: nat)
    requires forall i :: 0 <= i < |rows| ==> |rows[i]| == bs
    ensures |Flatten(rows)| == |rows| * bs
  {
    if rows != [] {
      FlattenLength(rows[..|rows| - 1], bs);
      assert |rows| * bs == (|rows| - 1) * bs + bs;
    }
  }

  lemma {:induction false} FlattenAppend(a: seq<seq<byte>>, b: seq<seq<byte>>)
    ensures Flatten(a + b) == Flatten(a) + Flatten(b)
  {
    if b == [] {
      assert a + b == a;
    } else {
      var b' := b[..|b| - 1];
      FlattenAppend(a, b');
      assert (a + b)[..|a + b| - 1] == a + b';
    }
  }

  lemma Quotient(a: int, b: int) returns (q: int, r: int)
    requires b > 0
    ensures q == a / b && r == a % b && a == b * q + r && 0 <= r < b
  {
    q, r := a / b, a % b;
  }

  /** Rounded up, the number of blocks is enough. */
  lemma EnoughBlocks(size: int, bs: nat, b: int)
    requires bs > 0 && b >= (size + bs - 1) / bs
    ensures b * bs >= size
  {
    var q, r := Quotient(size + bs - 1, bs);
    assert b * bs == bs * q + (b - q) * bs;
    assert (b - q) * bs >= 0;
  }

  lemma AtLeastOne(size: int, bs: nat)
    requires bs > 0 && size > 0
    ensures (size + bs - 1) / bs >= 1
  {
    var q, r := Quotient(size + bs - 1, bs);
    assert q <= 0 ==> bs * q <= 0;
  }

  lemma Divide(a: int, b: int, q: int, r: int)
    requires b > 0 && a == q * b + r && 0 <= r < b
    ensures a / b == q && a % b == r
  {
    var q', r' := Quotient(a, b);
    assert (q - q') * b == q * b - b * q' == r' - r;
    SmallMultiple(q - q', b);
  }

  /** The number of blocks is the size divided by the block size, rounded up as the source does it. */
  lemma {:induction false} ChunkCount(p: seq<byte>, bs: nat)
    requires bs > 0
    ensures |Chunks(p, bs)| == (|p| + bs - 1) / bs
    ensures |p| <= |Chunks(p, bs)| * bs < |p| + bs
    decreases |p|
  {
    var k := |Chunks(p, bs)|;
    if |p| > bs {
      ChunkCount(p[bs..], bs);
      assert (k - 1) * bs == k * bs - bs;
    }
    Divide(|p| + bs - 1, bs, k, |p| + bs - 1 - k * bs);
  }

  /** The distance from n to the next multiple of bs. */
  lemma PadStep(n: nat, bs: nat)
    requires bs > 0
    ensures (bs - 0 % bs) % bs == 0
    ensures 0 < n <= bs ==> (bs - n % bs) % bs == bs - n
    ensures n > bs ==> n % bs == (n - bs) % bs
  {
    Divide(0, bs, 0, 0);
    Divide(bs, bs, 1, 0);
    if 0 < n < bs {
      Divide(n, bs, 0, n);
      Divide(bs - n, bs, 0, bs - n);
    }
    if n > bs {
      var q := n / bs;
      assert (q - 1) * bs == q * bs - bs;
      Divide(n - bs, bs, q - 1, n % bs);
    }
  }

  // ----- contents

  /** Cutting a piece into blocks pads it to the next block boundary. */
  lemma {:induction false} ChunksPad(p: seq<byte>, bs: nat)
    requires bs > 0
    ensures Flatten(Chunks(p, bs)) == Padded(p, bs)
    decreases |p|
  {
    PadStep(|p|, bs);
    if p == [] {
    } else if |p| <= bs {
      FlattenOne(p + Zeros(bs - |p|));
    } else {
      PaddedLong(p, bs);
      hide Padded;
      ChunksPad(p[bs..], bs);
      FlattenOne(p[..bs]);
      FlattenAppend([p[..bs]], Chunks(p[bs..], bs));
    }
  }

  lemma PaddedLong(p: seq<byte>, bs: nat)
    requires 0 < bs < |p|
    ensures Padded(p, bs) == p[..bs] + Padded(p[bs..], bs)
  {
    PadStep(|p|, bs);
    assert p == p[..bs] + p[bs..];
  }

  lemma FlattenOne(row: seq<byte>)
    ensures Flatten([row]) == row
  {
    assert [row][..0] == [];
  }

  lemma {:induction false} AllChunksPad(pieces: seq<seq<byte>>, bs: nat)
    requires bs > 0
    ensures Flatten(AllChunks(pieces, bs)) == PaddedAll(pieces, bs)
  {
    if pieces != [] {
      var before, p := pieces[..|pieces| - 1], pieces[|pieces| - 1];
      AllChunksPad(before, bs);
      ChunksPad(p, bs);
      FlattenAppend(AllChunks(before, bs), Chunks(p, bs));
    }
  }

  /** Whole blocks can be cut off the front. */
  lemma {:induction false} ChunksAppend(x: seq<byte>, y: seq<byte>, bs: nat, k: nat)
    requires bs > 0 && |x| == k * bs
    ensures Chunks(x + y, bs) == Chunks(x, bs) + Chunks(y, bs)
    decreases k
  {
    if y == [] {
      assert x + y == x;
    } else if k == 0 {
      assert x + y == y;
    } else {
      assert (k - 1) * bs == k * bs - bs;
      ChunksAppend(x[bs..], y, bs, k - 1);
      assert (x + y)[bs..] == x[bs..] + y;
      assert (x + y)[..bs] == x[..bs];
      FirstChunk(x, bs);
      FirstChunk(x + y, bs);
    }
    hide Chunks;
  }

  lemma FirstChunk(p: seq<byte>, bs: nat)
    requires 0 < bs <= |p|
    ensures Chunks(p, bs) == [p[..bs]] + Chunks(p[bs..], bs)
  {
    if |p| == bs {
      assert p[..bs] == p + Zeros(0);
    }
  }

  function Min(a: int, b: int): int {
    if a < b then a else b
  }

  /** A loop that reads the first m bytes of some blocks has done j blocks. */
  ghost predicate ReadUpTo(rows: seq<seq<byte>>, bs: nat, m: nat, j: nat, count: int, out: seq<byte>) {
    && j <= |rows| && count == Min(m, j * bs) && 0 <= count <= |Flatten(rows[..j])|
    && out == Flatten(rows[..j])[..count]
  }

  lemma ReadStart(rows: seq<seq<byte>>, bs: nat, m: nat)
    ensures ReadUpTo(rows, bs, m, 0, 0, [])
  {
  }

  lemma ReadStep(rows: seq<seq<byte>>, bs: nat, m: nat, j: nat, count: int, out: seq<byte>)
    requires (forall i :: 0 <= i < |rows| ==> |rows[i]| == bs) && j < |rows|
    requires ReadUpTo(rows, bs, m, j, count, out)
    ensures 0 <= count <= m && 0 <= Min(bs, m - count) <= |rows[j]|
    ensures ReadUpTo(rows, bs, m, j + 1, count + Min(bs, m - count), out + rows[j][..Min(bs, m - count)])
  {
    FlattenLength(rows[..j], bs);
    assert rows[..j + 1][..j] == rows[..j];
    assert (j + 1) * bs == j * bs + bs;
    if count < j * bs {
      assert out + rows[j][..0] == out;
    } else {
      assert out == Flatten(rows[..j]);
    }
  }

  lemma ReadDone(rows: seq<seq<byte>>, bs: nat, m: nat, j: nat, count: int, out: seq<byte>)
    requires (forall i :: 0 <= i < |rows| ==> |rows[i]| == bs) && m <= |rows| * bs
    requires ReadUpTo(rows, bs, m, j, count, out) && (j == |rows| || count >= m)
    ensures count == m <= |Flatten(rows)| && out == Flatten(rows)[..m]
  {
    assert rows == rows[..j] + rows[j..];
    FlattenAppend(rows[..j], rows[j..]);
  }

  // ----- when reading back is plain concatenation

  ghost predicate AlignedButLast(pieces: seq<seq<byte>>, bs: nat)
    requires bs > 0
  {
    forall i :: 0 <= i < |pieces| - 1 ==> |pieces[i]| % bs == 0
  }

  lemma AlignedPad(p: seq<byte>, bs: nat)
    requires bs > 0 && |p| % bs == 0
    ensures Padded(p, bs) == p
  {
  }

  lemma {:induction false} AlignedAll(pieces: seq<seq<byte>>, bs: nat)
    requires bs > 0 && forall i :: 0 <= i < |pieces| ==> |pieces[i]| % bs == 0
    ensures PaddedAll(pieces, bs) == Flatten(pieces)
  {
    hide Padded;
    if pieces != [] {
      AlignedAll(pieces[..|pieces| - 1], bs);
      AlignedPad(pieces[|pieces| - 1], bs);
    }
  }

  /** If every piece but the last fills whole blocks, reading back gives the plain concatenation. */
  lemma AlignedViewIsConcatenation(pieces: seq<seq<byte>>, bs: nat)
    requires bs > 0 && AlignedButLast(pieces, bs)
    ensures View(pieces, bs) == Flatten(pieces)
  {
    if pieces != [] {
      AlignedAll(pieces[..|pieces| - 1], bs);
    }
  }

  // ----- and when it is not

  lemma {:induction false} PaddedPrefix(pieces: seq<seq<byte>>, bs: nat, i: nat)
    requires bs > 0 && i <= |pieces|
    ensures PaddedAll(pieces[..i], bs) <= PaddedAll(pieces, bs)
    decreases |pieces|
  {
    hide Padded;
    if i == |pieces| {
      assert pieces[..i] == pieces;
    } else {
      PaddedPrefix(pieces[..|pieces| - 1], bs, i);
      assert pieces[..|pieces| - 1][..i] == pieces[..i];
    }
  }

  /** The blocks of aligned pieces and one that ends inside a block end with a zero. */
  lemma PaddingIsZero(pieces: seq<seq<byte>>, bs: nat, i: nat)
    requires bs > 0 && |pieces| == i + 1 && |pieces[i]| % bs != 0
    requires forall j :: 0 <= j < i ==> |pieces[j]| % bs == 0
    ensures Size(pieces) < |PaddedAll(pieces, bs)| && PaddedAll(pieces, bs)[Size(pieces)] == 0
  {
    var p := pieces[i];
    AlignedAll(pieces[..i], bs);
    Divide(bs - |p| % bs, bs, 0, bs - |p| % bs);
    assert PaddedAll(pieces, bs) == Flatten(pieces[..i]) + Padded(p, bs);
  }

  lemma NextPieceFits(pieces: seq<seq<byte>>, i: nat)
    requires i + 1 < |pieces| && pieces[i + 1] != []
    ensures Size(pieces[..i + 1]) < Size(pieces)
  {
    assert pieces == pieces[..i + 1] + pieces[i + 1..];
    FlattenAppend(pieces[..i + 1], pieces[i + 1..]);
    assert pieces[i + 1..] == [pieces[i + 1]] + pieces[i + 2..];
    FlattenAppend([pieces[i + 1]], pieces[i + 2..]);
    FlattenOne(pieces[i + 1]);
  }

  /** After the first piece that ends inside a block comes a zero, not the next piece. */
  lemma GapAfter(pieces: seq<seq<byte>>, bs: nat, i: nat)
    requires bs > 0 && i + 1 < |pieces| && pieces[i + 1] != [] && |pieces[i]| % bs != 0
    requires forall j :: 0 <= j < i ==> |pieces[j]| % bs == 0
    ensures var k := Size(pieces[..i + 1]); k < Size(pieces) && View(pieces, bs)[k] == 0
  {
    hide Flatten, PaddedAll, Padded;
    NextPieceFits(pieces, i);
    PaddedPrefix(pieces, bs, i + 1);
    PaddingIsZero(pieces[..i + 1], bs, i);
  }

  function Ones(pieces: seq<seq<byte>>): seq<seq<byte>> {
    seq(|pieces|, i requires 0 <= i < |pieces| => seq(|pieces[i]|, _ => 1 as byte))
  }

  lemma {:induction false} FlattenOnes(rows: seq<seq<byte>>)
    requires forall i, j :: 0 <= i < |rows| && 0 <= j < |rows[i]| ==> rows[i][j] == 1
    ensures forall k :: 0 <= k < |Flatten(rows)| ==> Flatten(rows)[k] == 1
  {
    if rows != [] {
      FlattenOnes(rows[..|rows| - 1]);
    }
  }

  ghost predicate SameLengths(a: seq<seq<byte>>, b: seq<seq<byte>>) {
    |a| == |b| && forall i :: 0 <= i < |a| ==> |a[i]| == |b[i]|
  }

  ghost predicate ReadsAsConcatenation(pieces: seq<seq<byte>>, bs: nat)
    requires bs > 0
  {
    View(pieces, bs) == Flatten(pieces)
  }

  /** Reading back gives the concatenation of the pieces, whatever their bytes are, exactly when every
      piece but the last fills whole blocks. */
  lemma ConcatenationIffAligned(pieces: seq<seq<byte>>, bs: nat)
    requires bs > 0 && forall i :: 0 <= i < |pieces| ==> pieces[i] != []
    ensures (forall q :: SameLengths(pieces, q) ==> ReadsAsConcatenation(q, bs)) <==> AlignedButLast(pieces, bs)
  {
    if AlignedButLast(pieces, bs) {
      forall q | SameLengths(pieces, q)
        ensures ReadsAsConcatenation(q, bs)
      {
        AlignedViewIsConcatenation(q, bs);
      }
    } else {
      var i := FirstUnaligned(pieces, bs);
      var q := Ones(pieces);
      GapAfter(q, bs, i);
      FlattenOnes(q);
      assert SameLengths(pieces, q) && !ReadsAsConcatenation(q, bs);
    }
  }

  lemma {:induction false} FirstUnaligned(pieces: seq<seq<byte>>, bs: nat) returns (i: nat)
    requires bs > 0 && !AlignedButLast(pieces, bs)
    ensures i < |pieces| - 1 && |pieces[i]| % bs != 0 && forall j :: 0 <= j < i ==> |pieces[j]| % bs == 0
  {
    i := 0;
    while |pieces[i]| % bs == 0
      invariant i < |pieces| - 1 && forall j :: 0 <= j < i ==> |pieces[j]| % bs == 0
      decreases |pieces| - i
    {
      i := i + 1;
    }
  }
}
