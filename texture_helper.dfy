/**
 The CPU flips of a texture's raw pixel buffer. Each flip takes a snapshot of
 the buffer and then rewrites every destination pixel, row by row, from the
 snapshot pixel it mirrors. Specification: `Flipped`, a function on the
 buffer's contents, characterised pixel by pixel by `IsFlipOf`.
 */
module TextureHelper {
  import opened Texture

  /** The index of pixel (x, y) in a row-major `width x height` buffer. Its
      column is `x` and its row is `y` again: rows and columns can be read
      back from the index. */
  function Address(width: nat, height: nat, x: nat, y: nat): (a: nat)
    requires x < width && y < height
    ensures a < width * height
    ensures a % width == x && a / width == y
  {
    RowMajor(width, height, x, y);
    y * width + x
  }

  lemma RowMajor(width: nat, height: nat, x: nat, y: nat)
    requires x < width && y < height
    ensures y * width + x < width * height
    ensures (y * width + x) % width == x && (y * width + x) / width == y
  {
    var a := y * width + x;
    assert (y + 1) * width <= height * width by { MulMonotone(y + 1, height, width); }
    NextRow(width, y);
    var q, r := a / width, a % width;
    assert q * width + r == a && r < width;
    NextRow(width, q);
    if q < y {
      MulMonotone(q + 1, y, width);
      assert false;
    } else if q > y {
      MulMonotone(y + 1, q, width);
      assert false;
    }
  }

  lemma MulMonotone(a: nat, b: nat, c: nat)
    requires a <= b
    ensures a * c <= b * c
  {
  }

  /** Every index of the buffer is the address of the pixel in its column and row. */
  lemma IndexCoordinates(width: nat, height: nat, i: nat)
    requires i < width * height
    ensures 0 < width && i % width < width && i / width < height
    ensures Address(width, height, i % width, i / width) == i
  {
    var q := i / width;
    if q >= height {
      MulMonotone(height, q, width);
    }
  }

  /** The coordinate a flipped pixel is read from: mirrored in an extent of
      `extent` pixels when `flip` is set, kept otherwise. */
  function OldCoordinate(flip: bool, extent: nat, c: nat): (o: nat)
    requires c < extent
    ensures o < extent
    ensures flip ==> o + c == extent - 1
    ensures !flip ==> o == c
  {
    if flip then extent - c - 1 else c
  }

  /** `r` is `s` with its columns mirrored when `flipX` holds and its rows
      mirrored when `flipY` holds: every destination pixel (x, y) holds the
      source pixel at the old coordinates. */
  ghost predicate IsFlipOf<T>(r: seq<T>, s: seq<T>, width: nat, height: nat, flipX: bool, flipY: bool)
  {
    |s| == width * height && |r| == |s| &&
    forall x: nat, y: nat {:trigger r[Address(width, height, x, y)]} :: x < width && y < height ==>
      r[Address(width, height, x, y)] ==
      s[Address(width, height, OldCoordinate(flipX, width, x), OldCoordinate(flipY, height, y))]
  }

  /** The buffer `s` flipped: vertically is `(false, true)`, horizontally
      `(true, false)`, both ways `(true, true)`. */
  function Flipped<T>(s: seq<T>, width: nat, height: nat, flipX: bool, flipY: bool): (r: seq<T>)
    requires |s| == width * height
    ensures IsFlipOf(r, s, width, height, flipX, flipY)
  {
    seq(|s|, i requires 0 <= i < |s| =>
      IndexCoordinates(width, height, i);
      s[Address(width, height, OldCoordinate(flipX, width, i % width),
                               OldCoordinate(flipY, height, i / width))])
  }

  /** The pixel-by-pixel description determines the flipped buffer. */
  lemma FlipUnique<T>(r1: seq<T>, r2: seq<T>, s: seq<T>, width: nat, height: nat, flipX: bool, flipY: bool)
    requires IsFlipOf(r1, s, width, height, flipX, flipY)
    requires IsFlipOf(r2, s, width, height, flipX, flipY)
    ensures r1 == r2
  {
    forall i | 0 <= i < |r1|
      ensures r1[i] == r2[i]
    {
      IndexCoordinates(width, height, i);
      var x, y := i % width, i / width;
      assert r1[Address(width, height, x, y)] == r2[Address(width, height, x, y)];
    }
  }

  /** Flipping in neither direction leaves the buffer as it is. */
  lemma FlipNeither<T>(s: seq<T>, width: nat, height: nat)
    requires |s| == width * height
    ensures Flipped(s, width, height, false, false) == s
  {
    assert IsFlipOf(s, s, width, height, false, false);
    FlipUnique(Flipped(s, width, height, false, false), s, s, width, height, false, false);
  }

  /** Two flips in a row are one flip in each direction flipped an odd
      number of times. */
  lemma FlipCompose<T>(s: seq<T>, width: nat, height: nat, flipX1: bool, flipY1: bool, flipX2: bool, flipY2: bool)
    requires |s| == width * height
    ensures Flipped(Flipped(s, width, height, flipX1, flipY1), width, height, flipX2, flipY2)
         == Flipped(s, width, height, flipX1 != flipX2, flipY1 != flipY2)
  {
    var once := Flipped(s, width, height, flipX1, flipY1);
    var twice := Flipped(once, width, height, flipX2, flipY2);
    forall x: nat, y: nat | x < width && y < height
      ensures twice[Address(width, height, x, y)] ==
              s[Address(width, height, OldCoordinate(flipX1 != flipX2, width, x),
                                       OldCoordinate(flipY1 != flipY2, height, y))]
    {
      var x1, y1 := OldCoordinate(flipX2, width, x), OldCoordinate(flipY2, height, y);
      assert twice[Address(width, height, x, y)] == once[Address(width, height, x1, y1)];
    }
    FlipUnique(twice, Flipped(s, width, height, flipX1 != flipX2, flipY1 != flipY2),
               s, width, height, flipX1 != flipX2, flipY1 != flipY2);
  }

  /** Each flip undoes itself. */
  lemma FlipInvolution<T>(s: seq<T>, width: nat, height: nat, flipX: bool, flipY: bool)
    requires |s| == width * height
    ensures Flipped(Flipped(s, width, height, flipX, flipY), width, height, flipX, flipY) == s
  {
    FlipCompose(s, width, height, flipX, flipY, flipX, flipY);
    FlipNeither(s, width, height);
  }

  /** The combined flip is the vertical and the horizontal flip, in either order. */
  lemma BothIsVerticalAndHorizontal<T>(s: seq<T>, width: nat, height: nat)
    requires |s| == width * height
    ensures Flipped(s, width, height, true, true)
         == Flipped(Flipped(s, width, height, false, true), width, height, true, false)
    ensures Flipped(s, width, height, true, true)
         == Flipped(Flipped(s, width, height, true, false), width, height, false, true)
  {
    FlipCompose(s, width, height, false, true, true, false);
    FlipCompose(s, width, height, true, false, false, true);
  }

  /** A 2 x 2 buffer [A, B, C, D] flipped vertically is [C, D, A, B]. */
  lemma TwoByTwoVertical<T>(a: T, b: T, c: T, d: T)
    ensures Flipped([a, b, c, d], 2, 2, false, true) == [c, d, a, b]
  {
    var r := Flipped([a, b, c, d], 2, 2, false, true);
    assert r[0] == c && r[1] == d && r[2] == a && r[3] == b;
  }

  /** A 2 x 2 buffer [A, B, C, D] flipped horizontally is [B, A, D, C]. */
  lemma TwoByTwoHorizontal<T>(a: T, b: T, c: T, d: T)
    ensures Flipped([a, b, c, d], 2, 2, true, false) == [b, a, d, c]
  {
    var r := Flipped([a, b, c, d], 2, 2, true, false);
    assert r[0] == b && r[1] == a && r[2] == d && r[3] == c;
  }

  /** A 2 x 2 buffer [A, B, C, D] flipped both ways is [D, C, B, A]. */
  lemma TwoByTwoBoth<T>(a: T, b: T, c: T, d: T)
    ensures Flipped([a, b, c, d], 2, 2, true, true) == [d, c, b, a]
  {
    var r := Flipped([a, b, c, d], 2, 2, true, true);
    assert r[0] == d && r[1] == c && r[2] == b && r[3] == a;
  }

  /** Row `y` is written before row `newY`, and within row `newY` the
      columns before `newX` are written. */
  ghost predicate Written(x: nat, y: nat, newX: nat, newY: nat)
  {
    y < newY || (y == newY && x < newX)
  }

  /** The loop state of a flip: every pixel written so far lies below
      `address` and holds its flipped source pixel from the snapshot. */
  ghost predicate FilledUpTo<T>(r: seq<T>, s: seq<T>, width: nat, height: nat, flipX: bool, flipY: bool,
                                newX: nat, newY: nat, address: nat)
  {
    |s| == width * height && |r| == |s| &&
    forall x: nat, y: nat {:trigger r[Address(width, height, x, y)]} ::
      x < width && y < height && Written(x, y, newX, newY) ==>
      Address(width, height, x, y) < address &&
      r[Address(width, height, x, y)] ==
      s[Address(width, height, OldCoordinate(flipX, width, x), OldCoordinate(flipY, height, y))]
  }

  lemma FilledAll<T>(r: seq<T>, s: seq<T>, width: nat, height: nat, flipX: bool, flipY: bool, address: nat)
    requires FilledUpTo(r, s, width, height, flipX, flipY, 0, height, address)
    ensures r == Flipped(s, width, height, flipX, flipY)
  {
    assert IsFlipOf(r, s, width, height, flipX, flipY);
    FlipUnique(r, Flipped(s, width, height, flipX, flipY), s, width, height, flipX, flipY);
  }

  /** Before the first write nothing is filled. */
  lemma FillStart<T>(r: seq<T>, s: seq<T>, width: nat, height: nat, flipX: bool, flipY: bool)
    requires |s| == width * height && |r| == |s|
    ensures FilledUpTo(r, s, width, height, flipX, flipY, 0, 0, 0)
  {
    forall x: nat, y: nat | x < width && y < height
      ensures !Written(x, y, 0, 0)
    {
    }
  }

  /** Writing the flipped source of pixel (newX, newY) at `address` extends the filled part by one pixel. */
  lemma FillPixel<T>(r: seq<T>, s: seq<T>, width: nat, height: nat, flipX: bool, flipY: bool,
                     newX: nat, newY: nat, address: nat)
    requires newX < width && newY < height && address == Address(width, height, newX, newY)
    requires FilledUpTo(r, s, width, height, flipX, flipY, newX, newY, address)
    ensures FilledUpTo(r[address := s[Address(width, height, OldCoordinate(flipX, width, newX), OldCoordinate(flipY, height, newY))]],
                       s, width, height, flipX, flipY, newX + 1, newY, address + 1)
  {
    var r' := r[address := s[Address(width, height, OldCoordinate(flipX, width, newX), OldCoordinate(flipY, height, newY))]];
    forall x: nat, y: nat | x < width && y < height && Written(x, y, newX + 1, newY)
      ensures Address(width, height, x, y) < address + 1
      ensures r'[Address(width, height, x, y)] ==
              s[Address(width, height, OldCoordinate(flipX, width, x), OldCoordinate(flipY, height, y))]
    {
      if x != newX || y != newY {
        assert Written(x, y, newX, newY);
        assert r[Address(width, height, x, y)] ==
               s[Address(width, height, OldCoordinate(flipX, width, x), OldCoordinate(flipY, height, y))];
      }
    }
  }

  /** A filled row is the start of the next one. */
  lemma FillRow<T>(r: seq<T>, s: seq<T>, width: nat, height: nat, flipX: bool, flipY: bool, newY: nat, address: nat)
    requires FilledUpTo(r, s, width, height, flipX, flipY, width, newY, address)
    ensures FilledUpTo(r, s, width, height, flipX, flipY, 0, newY + 1, address)
  {
    forall x: nat, y: nat | x < width && y < height && Written(x, y, 0, newY + 1)
      ensures Address(width, height, x, y) < address
      ensures r[Address(width, height, x, y)] ==
              s[Address(width, height, OldCoordinate(flipX, width, x), OldCoordinate(flipY, height, y))]
    {
      assert Written(x, y, width, newY);
      assert r[Address(width, height, x, y)] ==
             s[Address(width, height, OldCoordinate(flipX, width, x), OldCoordinate(flipY, height, y))];
    }
  }

  lemma NextRow(width: nat, newY: nat)
    ensures newY * width + width == (newY + 1) * width
  {
  }

  /** `ArrayPool.Rent` followed by `NativeArray.Copy`: a fresh array holding
      the buffer's contents. */
  method RentCopy<T>(texels: array<T>) returns (copy: array<T>)
    ensures fresh(copy) && copy[..] == texels[..]
  {
    copy := new T[texels.Length](i requires 0 <= i < texels.Length reads texels => texels[i]);
  }

  /** Turns the texture upside down. */
  method FlipImageVerticallyCPU<T>(tex: Texture<T>)
    requires tex.Valid()
    modifies tex.texels
    ensures tex.texels[..] == Flipped(old(tex.texels[..]), tex.width, tex.height, false, true)
  {
    var width, height := tex.width, tex.height;
    var texels := tex.texels;
    var copy := RentCopy(texels);
    ghost var snapshot := copy[..];

    var address := 0;
    FillStart(texels[..], snapshot, width, height, false, true);
    for newY := 0 to height
      invariant copy[..] == snapshot == old(texels[..])
      invariant address == newY * width
      invariant FilledUpTo(texels[..], snapshot, width, height, false, true, 0, newY, address)
    {
      for newX := 0 to width
        invariant copy[..] == snapshot
        invariant address == newY * width + newX
        invariant FilledUpTo(texels[..], snapshot, width, height, false, true, newX, newY, address)
      {
        var oldX := newX;
        var oldY := height - newY - 1;
        assert oldX == OldCoordinate(false, width, newX) && oldY == OldCoordinate(true, height, newY);
        assert address == Address(width, height, newX, newY);
        ghost var before := texels[..];
        FillPixel(before, snapshot, width, height, false, true, newX, newY, address);
        texels[address] := copy[Address(width, height, oldX, oldY)];
        assert texels[..] == before[address := snapshot[Address(width, height, oldX, oldY)]];
        address := address + 1;
      }
      NextRow(width, newY);
      FillRow(texels[..], snapshot, width, height, false, true, newY, address);
    }
    FilledAll(texels[..], snapshot, width, height, false, true, address);
  }

  /** Mirrors the texture left to right. */
  method FlipImageHorizontallyCPU<T>(tex: Texture<T>)
    requires tex.Valid()
    modifies tex.texels
    ensures tex.texels[..] == Flipped(old(tex.texels[..]), tex.width, tex.height, true, false)
  {
    var width, height := tex.width, tex.height;
    var texels := tex.texels;
    var copy := RentCopy(texels);
    ghost var snapshot := copy[..];

    var address := 0;
    FillStart(texels[..], snapshot, width, height, true, false);
    for newY := 0 to height
      invariant copy[..] == snapshot == old(texels[..])
      invariant address == newY * width
      invariant FilledUpTo(texels[..], snapshot, width, height, true, false, 0, newY, address)
    {
      for newX := 0 to width
        invariant copy[..] == snapshot
        invariant address == newY * width + newX
        invariant FilledUpTo(texels[..], snapshot, width, height, true, false, newX, newY, address)
      {
        var oldX := width - newX - 1;
        var oldY := newY;
        assert oldX == OldCoordinate(true, width, newX) && oldY == OldCoordinate(false, height, newY);
        assert address == Address(width, height, newX, newY);
        ghost var before := texels[..];
        FillPixel(before, snapshot, width, height, true, false, newX, newY, address);
        texels[address] := copy[Address(width, height, oldX, oldY)];
        assert texels[..] == before[address := snapshot[Address(width, height, oldX, oldY)]];
        address := address + 1;
      }
      NextRow(width, newY);
      FillRow(texels[..], snapshot, width, height, true, false, newY, address);
    }
    FilledAll(texels[..], snapshot, width, height, true, false, address);
  }

  /** Turns the texture by 180 degrees: mirrored left to right and upside down. */
  method FlipImageVerticallyAndHorizontallyCPU<T>(tex: Texture<T>)
    requires tex.Valid()
    modifies tex.texels
    ensures tex.texels[..] == Flipped(old(tex.texels[..]), tex.width, tex.height, true, true)
  {
    var width, height := tex.width, tex.height;
    var texels := tex.texels;
    var copy := RentCopy(texels);
    ghost var snapshot := copy[..];

    var address := 0;
    FillStart(texels[..], snapshot, width, height, true, true);
    for newY := 0 to height
      invariant copy[..] == snapshot == old(texels[..])
      invariant address == newY * width
      invariant FilledUpTo(texels[..], snapshot, width, height, true, true, 0, newY, address)
    {
      for newX := 0 to width
        invariant copy[..] == snapshot
        invariant address == newY * width + newX
        invariant FilledUpTo(texels[..], snapshot, width, height, true, true, newX, newY, address)
      {
        var oldX := width - newX - 1;
        var oldY := height - newY - 1;
        assert oldX == OldCoordinate(true, width, newX) && oldY == OldCoordinate(true, height, newY);
        assert address == Address(width, height, newX, newY);
        ghost var before := texels[..];
        FillPixel(before, snapshot, width, height, true, true, newX, newY, address);
        texels[address] := copy[Address(width, height, oldX, oldY)];
        assert texels[..] == before[address := snapshot[Address(width, height, oldX, oldY)]];
        address := address + 1;
      }
      NextRow(width, newY);
      FillRow(texels[..], snapshot, width, height, true, true, newY, address);
    }
    FilledAll(texels[..], snapshot, width, height, true, true, address);
  }
}
