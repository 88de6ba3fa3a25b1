/** A byte cursor over a block device, refining a flat disk image. */
module Disk {
  newtype byte = x: int | 0 <= x < 256

  const BLOCK_SIZE := 512
  const U64_SIZE := 0x1_0000_0000_0000_0000

  datatype Result<+T> = Ok(value: T) | Err

  // ----- flat images -----

  /** The image with `data` written over it from `pos` on. */
  function Splice(image: seq<byte>, pos: nat, data: seq<byte>): (r: seq<byte>)
    requires pos + |data| <= |image|
    ensures |r| == |image| && r[pos..pos + |data|] == data
    ensures forall i | 0 <= i < |image| && (i < pos || pos + |data| <= i) :: r[i] == image[i]
  {
    image[..pos] + data + image[pos + |data|..]
  }

  /** How many bytes of a transfer of `n` bytes at `pos` lie on the disk. */
  function Reach(pos: nat, n: nat, size: nat): (k: nat)
    ensures k <= n && (k == n <==> n == 0 || pos + n <= size) && (k > 0 ==> pos + k <= size)
  {
    if pos >= size then 0 else if n <= size - pos then n else size - pos
  }

  lemma SplicePieces(image: seq<byte>, pos: nat, a: seq<byte>, b: seq<byte>)
    requires pos + |a| + |b| <= |image|
    ensures Splice(Splice(image, pos, a), pos + |a|, b) == Splice(image, pos, a + b)
  {
  }

  /** Patching a block and writing it back changes the patched bytes alone. */
  lemma PatchBlock(image: seq<byte>, b: nat, n: nat, start: nat, x: seq<byte>)
    requires b + n <= |image| && start + |x| <= n
    ensures Splice(image, b, Splice(image[b..b + n], start, x)) == Splice(image, b + start, x)
  {
    var l, r := Splice(image, b, Splice(image[b..b + n], start, x)), Splice(image, b + start, x);
    forall i | 0 <= i < |image| ensures l[i] == r[i] {
      if b <= i < b + n {
        assert l[i] == Splice(image[b..b + n], start, x)[i - b];
      }
    }
  }

  lemma SpliceWhole(old_: seq<byte>, data: seq<byte>)
    requires |data| == |old_|
    ensures Splice(old_, 0, data) == data
  {
  }

  lemma SubSlice(image: seq<byte>, b: nat, n: nat, start: nat, count: nat)
    requires b + n <= |image| && start + count <= n
    ensures image[b..b + n][start..start + count] == image[b + start..b + start + count]
  {
    var l, r := image[b..b + n][start..start + count], image[b + start..b + start + count];
    assert forall i | 0 <= i < count :: l[i] == image[b + start + i] == r[i];
  }

  /** The buffer after its first `at` bytes have been read. */
  ghost predicate Filled(was: seq<byte>, now: seq<byte>, image: seq<byte>, p: nat, at: nat) {
    && |now| == |was| && at <= |was| && now[at..] == was[at..]
    && (at > 0 ==> p + at <= |image| && now[..at] == image[p..p + at])
  }

  lemma ReadStep(was: seq<byte>, now: seq<byte>, image: seq<byte>, p: nat, at: nat, n: nat)
    requires Filled(was, now, image, p, at) && at + n <= |was| && p + at + n <= |image|
    ensures Filled(was, Splice(now, at, image[p + at..p + at + n]), image, p, at + n)
  {
    var next := Splice(now, at, image[p + at..p + at + n]);
    assert next[at + n..] == now[at + n..] == now[at..][n..] == was[at + n..];
    assert at == 0 ==> now[..at] == image[p..p + at];
    assert image[p..p + at + n] == image[p..p + at] + image[p + at..p + at + n];
    assert next[..at + n] == now[..at] + image[p + at..p + at + n];
  }

  /** The image after the first `at` bytes have been written. */
  ghost predicate Written(image: seq<byte>, now: seq<byte>, p: nat, buf: seq<byte>, at: nat)
    requires at <= |buf|
  {
    if at == 0 then now == image else p + at <= |image| && now == Splice(image, p, buf[..at])
  }

  lemma NothingRead(buf: seq<byte>, image: seq<byte>, p: nat)
    ensures Filled(buf, buf, image, p, 0)
  {
  }

  lemma NothingWritten(image: seq<byte>, p: nat, buf: seq<byte>)
    ensures Written(image, image, p, buf, 0)
  {
  }

  lemma WriteStep(image: seq<byte>, now: seq<byte>, p: nat, buf: seq<byte>, at: nat, n: nat)
    requires at + n <= |buf| && n > 0 && p + at + n <= |now| && Written(image, now, p, buf, at)
    ensures Written(image, Splice(now, p + at, buf[at..at + n]), p, buf, at + n)
  {
    assert buf[..at + n] == buf[..at] + buf[at..at + n];
    if at > 0 {
      SplicePieces(image, p, buf[..at], buf[at..at + n]);
    }
  }

  method Copy(dst: array<byte>, at: nat, src: array<byte>, start: nat, n: nat)
    requires at + n <= dst.Length && start + n <= src.Length && dst != src
    modifies dst
    ensures dst[..] == Splice(old(dst[..]), at, src[start..start + n])
  {
    ghost var was := dst[..];
    forall i | 0 <= i < n {
      dst[at + i] := src[start + i];
    }
    ghost var r := Splice(was, at, src[start..start + n]);
    forall i | 0 <= i < dst.Length ensures dst[i] == r[i] {
      if at <= i < at + n {
        assert r[i] == r[at..at + n][i - at];
      }
    }
  }

  // ----- the device -----

  class RamDisk {
    const size: nat
    const data: array<byte>

    ghost predicate Valid() {
      data.Length == size && size % BLOCK_SIZE == 0
    }

    /** The given bytes, padded with zeros to a whole number of blocks. */
    constructor (bytes: seq<byte>)
      ensures Valid() && fresh(data) && |bytes| <= size < |bytes| + BLOCK_SIZE
      ensures data[..] == bytes + seq(size - |bytes|, _ => 0)
    {
      var n := (|bytes| + BLOCK_SIZE - 1) / BLOCK_SIZE * BLOCK_SIZE;
      var d := new byte[n](i => 0);
      forall i | 0 <= i < |bytes| {
        d[i] := bytes[i];
      }
      size := n;
      data := d;
      new;
      assert data[..] == bytes + seq(size - |bytes|, _ => 0);
    }

    method ReadBlock(block: nat, buf: array<byte>, at: nat, n: nat) returns (r: Result<()>)
      requires Valid() && at + n <= buf.Length && buf != data
      modifies buf
      ensures r.Ok? <==> block * BLOCK_SIZE + n <= size && n % BLOCK_SIZE == 0
      ensures r.Err? ==> buf[..] == old(buf[..])
      ensures r.Ok? ==> buf[..] == Splice(old(buf[..]), at, data[block * BLOCK_SIZE..block * BLOCK_SIZE + n])
    {
      var offset := block * BLOCK_SIZE;
      if offset + n > size {
        return Err;
      }
      if n % BLOCK_SIZE != 0 {
        return Err;
      }
      Copy(buf, at, data, offset, n);
      r := Ok(());
    }

    method WriteBlock(block: nat, buf: array<byte>, at: nat, n: nat) returns (r: Result<()>)
      requires Valid() && at + n <= buf.Length && buf != data
      modifies data
      ensures r.Ok? <==> block * BLOCK_SIZE + n <= size && n % BLOCK_SIZE == 0
      ensures r.Err? ==> data[..] == old(data[..])
      ensures r.Ok? ==> data[..] == Splice(old(data[..]), block * BLOCK_SIZE, buf[at..at + n])
    {
      var offset := block * BLOCK_SIZE;
      if offset + n > size {
        return Err;
      }
      if n % BLOCK_SIZE != 0 {
        return Err;
      }
      Copy(data, offset, buf, at, n);
      r := Ok(());
    }
  }

  // ----- the cursor -----

  datatype SeekFrom = Start(pos: nat) | Current(off: int) | End(off: int)

  class Cursor {
    var blockId: nat
    var offset: nat
    const dev: RamDisk

    ghost predicate Valid()
      reads this
    {
      dev.Valid() && offset < BLOCK_SIZE
    }

    ghost function Image(): seq<byte>
      reads dev.data
    {
      dev.data[..]
    }

    function Position(): nat
      reads this
    {
      blockId * BLOCK_SIZE + offset
    }

    constructor (dev: RamDisk)
      requires dev.Valid()
      ensures Valid() && Position() == 0 && this.dev == dev
    {
      blockId, offset := 0, 0;
      this.dev := dev;
    }

    method SetPosition(pos: nat)
      requires dev.Valid()
      modifies this
      ensures Valid() && Position() == pos
    {
      blockId := pos / BLOCK_SIZE;
      offset := pos % BLOCK_SIZE;
    }

    /** Moves on inside a block, or to the start of the next one. */
    method Advance(count: nat)
      requires Valid() && count <= BLOCK_SIZE - offset
      modifies this
      ensures Valid() && Position() == old(Position()) + count
    {
      offset := offset + count;
      if offset >= BLOCK_SIZE {
        blockId := blockId + 1;
        offset := offset - BLOCK_SIZE;
      }
    }

    /** Reads into `buf[at..]` up to the end of the current block. */
    method ReadOne(buf: array<byte>, at: nat) returns (r: Result<nat>)
      requires Valid() && at <= buf.Length && buf != dev.data
      modifies this, buf
      ensures Valid()
      ensures r.Err? <==> old(Position()) >= dev.size
      ensures r.Err? ==> buf[..] == old(buf[..]) && Position() == old(Position())
      ensures r.Ok? ==> (r.value == 0 <==> at == buf.Length) && at + r.value <= buf.Length
      ensures r.Ok? ==> Position() == old(Position()) + r.value <= dev.size
      ensures r.Ok? ==> buf[..] == Splice(old(buf[..]), at, Image()[old(Position())..old(Position()) + r.value])
    {
      hide Splice;
      BlockInRange(dev, blockId, offset);
      if offset == 0 && buf.Length - at >= BLOCK_SIZE {
        var read := dev.ReadBlock(blockId, buf, at, BLOCK_SIZE);
        if read.Err? {
          return Err;
        }
        blockId := blockId + 1;
        r := Ok(BLOCK_SIZE);
      } else {
        var count := if buf.Length - at < BLOCK_SIZE - offset then buf.Length - at else BLOCK_SIZE - offset;
        r := ReadPart(buf, at, count);
      }
    }

    method ReadPart(buf: array<byte>, at: nat, count: nat) returns (r: Result<nat>)
      requires Valid() && at + count <= buf.Length && buf != dev.data && count <= BLOCK_SIZE - offset
      modifies this, buf
      ensures Valid() && r == (if old(Position()) >= dev.size then Err else Ok(count))
      ensures r.Err? ==> buf[..] == old(buf[..]) && Position() == old(Position())
      ensures r.Ok? ==> Position() == old(Position()) + count <= dev.size
      ensures r.Ok? ==> buf[..] == Splice(old(buf[..]), at, Image()[old(Position())..old(Position()) + count])
    {
      hide Splice;
      var data := LoadBlock();
      if data == null {
        return Err;
      }
      SubSlice(Image(), blockId * BLOCK_SIZE, BLOCK_SIZE, offset, count);
      assert data[offset..offset + count] == data[..][offset..offset + count];
      Copy(buf, at, data, offset, count);
      Advance(count);
      r := Ok(count);
    }

    /** A copy of the current block, or null if it is not on the disk. */
    method LoadBlock() returns (data: array?<byte>)
      requires Valid()
      ensures data == null <==> Position() >= dev.size
      ensures data != null ==> fresh(data) && data.Length == BLOCK_SIZE
      ensures data != null ==> blockId * BLOCK_SIZE + BLOCK_SIZE <= |Image()|
      ensures data != null ==> data[..] == Image()[blockId * BLOCK_SIZE..blockId * BLOCK_SIZE + BLOCK_SIZE]
    {
      hide Splice;
      BlockInRange(dev, blockId, offset);
      var block := new byte[BLOCK_SIZE](i => 0);
      ghost var was := block[..];
      var read := dev.ReadBlock(blockId, block, 0, BLOCK_SIZE);
      if read.Err? {
        return null;
      }
      SpliceWhole(was, Image()[blockId * BLOCK_SIZE..blockId * BLOCK_SIZE + BLOCK_SIZE]);
      data := block;
    }

    /** Writes from `buf[at..]` up to the end of the current block. */
    method WriteOne(buf: array<byte>, at: nat) returns (r: Result<nat>)
      requires Valid() && at <= buf.Length && buf != dev.data
      modifies this, dev.data
      ensures Valid()
      ensures r.Err? <==> old(Position()) >= dev.size
      ensures r.Err? ==> Image() == old(Image()) && Position() == old(Position())
      ensures r.Ok? ==> (r.value == 0 <==> at == buf.Length) && at + r.value <= buf.Length
      ensures r.Ok? ==> Position() == old(Position()) + r.value <= dev.size
      ensures r.Ok? ==> Image() == Splice(old(Image()), old(Position()), buf[..][at..at + r.value])
    {
      hide Splice;
      BlockInRange(dev, blockId, offset);
      if offset == 0 && buf.Length - at >= BLOCK_SIZE {
        var written := dev.WriteBlock(blockId, buf, at, BLOCK_SIZE);
        if written.Err? {
          return Err;
        }
        assert buf[at..at + BLOCK_SIZE] == buf[..][at..at + BLOCK_SIZE];
        blockId := blockId + 1;
        r := Ok(BLOCK_SIZE);
      } else {
        var count := if buf.Length - at < BLOCK_SIZE - offset then buf.Length - at else BLOCK_SIZE - offset;
        r := WritePart(buf, at, count);
      }
    }

    method WritePart(buf: array<byte>, at: nat, count: nat) returns (r: Result<nat>)
      requires Valid() && at + count <= buf.Length && buf != dev.data && count <= BLOCK_SIZE - offset
      modifies this, dev.data
      ensures Valid() && r == (if old(Position()) >= dev.size then Err else Ok(count))
      ensures r.Err? ==> Image() == old(Image()) && Position() == old(Position())
      ensures r.Ok? ==> Position() == old(Position()) + count <= dev.size
      ensures r.Ok? ==> Image() == Splice(old(Image()), old(Position()), buf[..][at..at + count])
    {
      hide Splice;
      var data := LoadBlock();
      if data == null {
        return Err;
      }
      Copy(data, offset, buf, at, count);
      assert buf[at..at + count] == buf[..][at..at + count];
      PatchBlock(Image(), blockId * BLOCK_SIZE, BLOCK_SIZE, offset, buf[at..at + count]);
      assert data[0..BLOCK_SIZE] == data[..];
      var written := dev.WriteBlock(blockId, data, 0, BLOCK_SIZE);
      if written.Err? {
        return Err;
      }
      Advance(count);
      r := Ok(count);
    }

    /** Reads are slices of the image; past its end they stop there and report an error. */
    method Read(buf: array<byte>) returns (r: Result<nat>)
      requires Valid() && buf != dev.data
      modifies this, buf
      ensures Valid()
      ensures var k := Reach(old(Position()), buf.Length, dev.size);
        && r == (if k == buf.Length then Ok(buf.Length) else Err)
        && Position() == old(Position()) + k
        && Filled(old(buf[..]), buf[..], Image(), old(Position()), k)
    {
      hide Splice, Filled;
      var at := 0;
      ghost var p := Position();
      NothingRead(buf[..], Image(), p);
      while at < buf.Length
        invariant Valid() && 0 <= at <= buf.Length && Position() == p + at && (at > 0 ==> p + at <= dev.size)
        invariant Filled(old(buf[..]), buf[..], Image(), p, at)
      {
        ghost var now := buf[..];
        var one := ReadOne(buf, at);
        if one.Err? {
          return Err;
        }
        ReadStep(old(buf[..]), now, Image(), p, at, one.value);
        at := at + one.value;
      }
      r := Ok(at);
    }

    /** Writes splice into the image; past its end they stop there and report an error. */
    method Write(buf: array<byte>) returns (r: Result<nat>)
      requires Valid() && buf != dev.data
      modifies this, dev.data
      ensures Valid()
      ensures var k := Reach(old(Position()), buf.Length, dev.size);
        && r == (if k == buf.Length then Ok(buf.Length) else Err)
        && Position() == old(Position()) + k
        && Written(old(Image()), Image(), old(Position()), buf[..], k)
    {
      hide Splice, Written;
      var at := 0;
      ghost var p := Position();
      NothingWritten(Image(), p, buf[..]);
      while at < buf.Length
        invariant Valid() && 0 <= at <= buf.Length && Position() == p + at && (at > 0 ==> p + at <= dev.size)
        invariant Written(old(Image()), Image(), p, buf[..], at)
      {
        ghost var now := Image();
        var one := WriteOne(buf, at);
        if one.Err? {
          return Err;
        }
        WriteStep(old(Image()), now, p, buf[..], at, one.value);
        at := at + one.value;
      }
      r := Ok(at);
    }

    /** Any 64-bit position is accepted, also one behind the end. */
    method Seek(to: SeekFrom) returns (r: Result<nat>)
      requires Valid() && (to.Start? ==> to.pos < U64_SIZE)
      modifies this
      ensures Valid()
      ensures var target := match to
          case Start(pos) => pos
          case Current(off) => old(Position()) + off
          case End(off) => dev.size + off;
        if 0 <= target < U64_SIZE then r == Ok(target) && Position() == target
        else r == Err && Position() == old(Position())
    {
      var target := match to
        case Start(pos) => pos
        case Current(off) => Position() + off
        case End(off) => dev.size / BLOCK_SIZE * BLOCK_SIZE + off;
      if 0 <= target < U64_SIZE {
        SetPosition(target);
        r := Ok(target);
      } else {
        r := Err;
      }
    }
  }

  /** A block holds a byte of the disk exactly when all of it does. */
  lemma BlockInRange(dev: RamDisk, block: nat, offset: nat)
    requires dev.Valid() && offset < BLOCK_SIZE
    ensures block * BLOCK_SIZE + BLOCK_SIZE <= dev.size <==> block * BLOCK_SIZE + offset < dev.size
  {
    var n := dev.size / BLOCK_SIZE;
    assert dev.size == n * BLOCK_SIZE;
  }

  /** Seek, write, seek back and read: the data returns, and no other byte of the disk has changed. */
  method WriteThenRead(disk: Cursor, pos: nat, data: array<byte>, back: array<byte>)
    requires disk.Valid() && pos + data.Length <= disk.dev.size < U64_SIZE && back.Length == data.Length
    requires data != disk.dev.data && back != disk.dev.data && back != data
    modifies disk, disk.dev.data, back
    ensures disk.Valid() && disk.Position() == pos + data.Length
    ensures back[..] == data[..] && disk.Image() == Splice(old(disk.Image()), pos, data[..])
  {
    var _ := disk.Seek(Start(pos));
    var written := disk.Write(data);
    assert data[..data.Length] == data[..];
    var _ := disk.Seek(Current(0 - written.value));
    var _ := disk.Read(back);
    assert back[..back.Length] == back[..];
  }
}
