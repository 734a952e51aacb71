/** The emulator's byte-addressed memory: a fixed-size buffer, zero-filled
    when created, with bounds-checked little-endian accesses of 1, 4 and 8
    bytes and a bulk load. The bounds check runs before anything is
    written, so a failing access changes nothing. */
module Memories {
  import opened Words

  /** The exceptions the source throws, as values. */
  datatype MemoryError =
    | ZeroSize                                  // a memory of size 0 was requested
    | OutOfBounds(address: u64, width: u64)     // an access falls outside the buffer

  // ---------------------------------------------------------------------
  // Specification functions

  /** The bounds check: `address + width` is computed in 64-bit unsigned
      arithmetic and the access fails when that end lies past the buffer or
      the addition wrapped around. For a buffer smaller than 2^64 this is
      exactly "the access lies inside the buffer". */
  function CheckAddress(address: u64, width: u64, size: nat): (ok: bool)
    requires size < TWO_64
    ensures ok <==> address + width <= size
  {
    var end := (address + width) % TWO_64;
    !(end > size || end < address)
  }

  /** The unsigned number whose little-endian bytes are `bs`. */
  function LittleEndian(bs: seq<u8>): (v: nat)
    ensures v < Pow256(|bs|)
  {
    if bs == [] then 0 else bs[0] + 256 * LittleEndian(bs[1..])
  }

  /** The lowest `n` bytes of `v`, least significant first. */
  function LittleEndianBytes(v: nat, n: nat): (bs: seq<u8>)
    ensures |bs| == n
  {
    if n == 0 then [] else [v % 256] + LittleEndianBytes(v / 256, n - 1)
  }

  /** `mem` with `data` written from `address` on, as far as the buffer
      reaches; every other byte stays as it was. */
  function Overlay(mem: seq<u8>, address: nat, data: seq<u8>): (r: seq<u8>)
    ensures |r| == |mem|
    ensures forall k :: 0 <= k < |r| ==>
      r[k] == if address <= k < address + |data| then data[k - address] else mem[k]
  {
    if address >= |mem| then mem
    else if address + |data| <= |mem| then mem[..address] + data + mem[address + |data|..]
    else mem[..address] + data[..|mem| - address]
  }

  // ---------------------------------------------------------------------
  // Little-endian facts

  lemma Pow256Widths()
    ensures Pow256(1) == 0x100 && Pow256(4) == TWO_32 && Pow256(8) == TWO_64
  {
    assert Pow256(2) == 0x1_0000;
    assert Pow256(4) == 256 * (256 * Pow256(2));
    assert Pow256(8) == 256 * (256 * (256 * (256 * Pow256(4))));
  }

  /** Appending a byte adds it at the next-higher weight. */
  lemma {:induction false} LittleEndianSnoc(bs: seq<u8>, b: u8)
    ensures LittleEndian(bs + [b]) == LittleEndian(bs) + b * Pow256(|bs|)
    decreases |bs|
  {
    if bs == [] {
      assert bs + [b] == [b];
    } else {
      var rest := LittleEndian(bs[1..]);
      assert (bs + [b])[1..] == bs[1..] + [b];
      LittleEndianSnoc(bs[1..], b);
      assert LittleEndian(bs + [b]) == bs[0] + 256 * (rest + b * Pow256(|bs| - 1));
      ScaleByte(b, Pow256(|bs| - 1));
    }
  }

  lemma ScaleByte(b: int, p: int)
    ensures 256 * (b * p) == b * (256 * p)
  {}

  /** Byte i of the little-endian form of v is `v >> 8i` truncated to 8 bits. */
  lemma {:induction false} LittleEndianByteAt(v: nat, n: nat, i: nat)
    requires i < n
    ensures LittleEndianBytes(v, n)[i] == v / Pow256(i) % 256
    decreases i
  {
    if i > 0 {
      LittleEndianByteAt(v / 256, n - 1, i - 1);
      DivDiv(v, 256, Pow256(i - 1));
    }
  }

  /** Reading back the bytes written for `v` gives `v` reduced to n bytes. */
  lemma {:induction false} LittleEndianRoundTrip(v: nat, n: nat)
    ensures LittleEndian(LittleEndianBytes(v, n)) == v % Pow256(n)
    decreases n
  {
    if n > 0 {
      var bs := LittleEndianBytes(v, n);
      assert bs[1..] == LittleEndianBytes(v / 256, n - 1);
      LittleEndianRoundTrip(v / 256, n - 1);
      DivUnique(v, 256 * Pow256(n - 1), v / 256 / Pow256(n - 1),
                v % 256 + 256 * (v / 256 % Pow256(n - 1)));
    }
  }

  /** And the bytes of a number read from a buffer are those bytes. */
  lemma {:induction false} LittleEndianBytesRoundTrip(bs: seq<u8>)
    ensures LittleEndianBytes(LittleEndian(bs), |bs|) == bs
    decreases |bs|
  {
    if bs != [] {
      var v := LittleEndian(bs);
      DivUnique(v, 256, LittleEndian(bs[1..]), bs[0]);
      LittleEndianBytesRoundTrip(bs[1..]);
      assert bs == [bs[0]] + bs[1..];
    }
  }

  /** A width-n write followed by a width-n read at the same address
      returns the value written (the source truncates it to n bytes). */
  lemma StoreThenLoad(mem: seq<u8>, address: nat, v: nat, n: nat)
    requires address + n <= |mem|
    ensures LittleEndian(Overlay(mem, address, LittleEndianBytes(v, n))[address..address + n])
            == v % Pow256(n)
  {
    var bs := LittleEndianBytes(v, n);
    assert Overlay(mem, address, bs)[address..address + n] == bs;
    LittleEndianRoundTrip(v, n);
  }

  /** A write leaves every read that does not overlap it unchanged. */
  lemma StoreFrame(mem: seq<u8>, address: nat, data: seq<u8>, other: nat, n: nat)
    requires address + |data| <= |mem| && other + n <= |mem|
    requires other + n <= address || address + |data| <= other
    ensures Overlay(mem, address, data)[other..other + n] == mem[other..other + n]
  {}

  /** Writing the next byte of `data` extends the overlaid prefix by one. */
  lemma OverlayExtend(mem: seq<u8>, address: nat, data: seq<u8>, i: nat)
    requires i < |data| && address + i < |mem|
    ensures Overlay(mem, address, data[..i])[address + i := data[i]] == Overlay(mem, address, data[..i + 1])
  {
    var a, b := Overlay(mem, address, data[..i])[address + i := data[i]], Overlay(mem, address, data[..i + 1]);
    assert forall k :: 0 <= k < |a| ==> a[k] == b[k];
  }

  /** Bytes past the end of the buffer are not written, so a prefix that
      already reaches the end overlays like the whole of `data`. */
  lemma OverlayPastEnd(mem: seq<u8>, address: nat, data: seq<u8>, i: nat)
    requires i <= |data| && |mem| <= address + i
    ensures Overlay(mem, address, data[..i]) == Overlay(mem, address, data)
  {
    var a, b := Overlay(mem, address, data[..i]), Overlay(mem, address, data);
    assert forall k :: 0 <= k < |a| ==> a[k] == b[k];
  }

  // ---------------------------------------------------------------------
  // The buffer

  class Memory {
    /** The byte vector. Its size is fixed when the memory is created. */
    const bytes: array<u8>

    ghost predicate Valid()
      reads this
    {
      0 < bytes.Length < TWO_64
    }

    /** A zero-filled memory of `size` bytes; the factory below rejects 0. */
    constructor(size: u64)
      requires 0 < size
      ensures Valid() && fresh(bytes)
      ensures bytes.Length == size && forall k :: 0 <= k < size ==> bytes[k] == 0
    {
      bytes := new u8[size](_ => 0);
    }

    /** The checked constructor: size 0 is an error. */
    static method Create(size: u64) returns (r: Result<Memory, MemoryError>)
      ensures r.Err? <==> size == 0
      ensures r.Err? ==> r.error == ZeroSize
      ensures r.Ok? ==> fresh(r.value) && fresh(r.value.bytes) && r.value.Valid()
      ensures r.Ok? ==> r.value.bytes[..] == seq(size, _ => 0)
    {
      if size == 0 {
        return Err(ZeroSize);
      }
      var m := new Memory(size);
      return Ok(m);
    }

    /** Zero every byte; the size stays. */
    method Reset()
      modifies bytes
      ensures bytes[..] == seq(bytes.Length, _ => 0)
    {
      var i := 0;
      while i < bytes.Length
        invariant 0 <= i <= bytes.Length
        invariant forall k :: 0 <= k < i ==> bytes[k] == 0
      {
        bytes[i] := 0;
        i := i + 1;
      }
    }

    function Size(): (n: u64)
      requires Valid()
      reads this
      ensures n == bytes.Length
    {
      bytes.Length
    }

    /** The value of the `width` bytes at `address`, least significant first. */
    method Gather(address: nat, width: nat) returns (v: nat)
      requires address + width <= bytes.Length
      ensures v == LittleEndian(bytes[address..address + width])
    {
      v := 0;
      var i: nat, scale: nat := 0, 1;
      while i < width
        invariant 0 <= i <= width && scale == Pow256(i)
        invariant v == LittleEndian(bytes[address..address + i])
      {
        LittleEndianSnoc(bytes[address..address + i], bytes[address + i]);
        assert bytes[address..address + i + 1] == bytes[address..address + i] + [bytes[address + i]];
        v := v + bytes[address + i] * scale;
        i, scale := i + 1, scale * 256;
      }
    }

    /** Store byte i of `value` (`value >> 8i`, truncated) at `address + i`. */
    method Scatter(address: nat, value: nat, width: nat)
      requires address + width <= bytes.Length
      modifies bytes
      ensures bytes[..] == Overlay(old(bytes[..]), address, LittleEndianBytes(value, width))
    {
      ghost var data := LittleEndianBytes(value, width);
      var i: nat, scale: nat := 0, 1;
      while i < width
        invariant 0 <= i <= width && scale == Pow256(i)
        invariant forall k :: 0 <= k < bytes.Length ==>
          bytes[k] == if address <= k < address + i then data[k - address] else old(bytes[k])
      {
        LittleEndianByteAt(value, width, i);
        bytes[address + i] := value / scale % 256;
        i, scale := i + 1, scale * 256;
      }
    }

    method Read8(address: u64) returns (r: Result<u8, MemoryError>)
      requires Valid()
      ensures r.Ok? <==> CheckAddress(address, 1, bytes.Length)
      ensures r.Ok? ==> r.value == bytes[address]
      ensures r.Err? ==> r.error == OutOfBounds(address, 1)
    {
      if !CheckAddress(address, 1, bytes.Length) {
        return Err(OutOfBounds(address, 1));
      }
      return Ok(bytes[address]);
    }

    method Read32(address: u64) returns (r: Result<u32, MemoryError>)
      requires Valid()
      ensures r.Ok? <==> CheckAddress(address, 4, bytes.Length)
      ensures r.Ok? ==> r.value == LittleEndian(bytes[address..address + 4])
      ensures r.Err? ==> r.error == OutOfBounds(address, 4)
    {
      if !CheckAddress(address, 4, bytes.Length) {
        return Err(OutOfBounds(address, 4));
      }
      var v := Gather(address, 4);
      Pow256Widths();
      return Ok(v);
    }

    method Read64(address: u64) returns (r: Result<u64, MemoryError>)
      requires Valid()
      ensures r.Ok? <==> CheckAddress(address, 8, bytes.Length)
      ensures r.Ok? ==> r.value == LittleEndian(bytes[address..address + 8])
      ensures r.Err? ==> r.error == OutOfBounds(address, 8)
    {
      if !CheckAddress(address, 8, bytes.Length) {
        return Err(OutOfBounds(address, 8));
      }
      var v := Gather(address, 8);
      Pow256Widths();
      return Ok(v);
    }

    method Write8(address: u64, value: u8) returns (r: Outcome<MemoryError>)
      requires Valid()
      modifies bytes
      ensures r.Pass? <==> CheckAddress(address, 1, bytes.Length)
      ensures r.Pass? ==> bytes[..] == old(bytes[..])[address := value]
      ensures r.Fail? ==> r.error == OutOfBounds(address, 1) && bytes[..] == old(bytes[..])
    {
      if !CheckAddress(address, 1, bytes.Length) {
        return Fail(OutOfBounds(address, 1));
      }
      bytes[address] := value;
      return Pass;
    }

    method Write32(address: u64, value: u32) returns (r: Outcome<MemoryError>)
      requires Valid()
      modifies bytes
      ensures r.Pass? <==> CheckAddress(address, 4, bytes.Length)
      ensures r.Pass? ==> bytes[..] == Overlay(old(bytes[..]), address, LittleEndianBytes(value, 4))
      ensures r.Fail? ==> r.error == OutOfBounds(address, 4) && bytes[..] == old(bytes[..])
    {
      if !CheckAddress(address, 4, bytes.Length) {
        return Fail(OutOfBounds(address, 4));
      }
      Scatter(address, value, 4);
      return Pass;
    }

    method Write64(address: u64, value: u64) returns (r: Outcome<MemoryError>)
      requires Valid()
      modifies bytes
      ensures r.Pass? <==> CheckAddress(address, 8, bytes.Length)
      ensures r.Pass? ==> bytes[..] == Overlay(old(bytes[..]), address, LittleEndianBytes(value, 8))
      ensures r.Fail? ==> r.error == OutOfBounds(address, 8) && bytes[..] == old(bytes[..])
    {
      if !CheckAddress(address, 8, bytes.Length) {
        return Fail(OutOfBounds(address, 8));
      }
      Scatter(address, value, 8);
      return Pass;
    }

    /** Copy `data` to `address` onwards: all of it, or nothing when it
        does not fit. */
    method LoadBinary(address: u64, data: seq<u8>) returns (r: Outcome<MemoryError>)
      requires Valid() && |data| < TWO_64
      modifies bytes
      ensures r.Pass? <==> address + |data| <= bytes.Length
      ensures r.Pass? ==> bytes[..] == Overlay(old(bytes[..]), address, data)
      ensures r.Fail? ==> r.error == OutOfBounds(address, |data|) && bytes[..] == old(bytes[..])
    {
      if !CheckAddress(address, |data|, bytes.Length) {
        return Fail(OutOfBounds(address, |data|));
      }
      var i := 0;
      while i < |data|
        invariant 0 <= i <= |data|
        invariant forall k :: 0 <= k < bytes.Length ==>
          bytes[k] == if address <= k < address + i then data[k - address] else old(bytes[k])
      {
        bytes[address + i] := data[i];
        i := i + 1;
      }
      return Pass;
    }
  }

  // ---------------------------------------------------------------------
  // The bounds check at its edges

  /** The last byte is readable, the byte at `size` is not, and an access
      whose end wraps past 2^64 is refused rather than let through. */
  lemma BoundsEdges(size: nat)
    requires 0 < size < TWO_64
    ensures !CheckAddress(size, 1, size)
    ensures CheckAddress(size - 1, 1, size)
    ensures !CheckAddress(TWO_64 - 1, 4, size)
    ensures size >= 4 ==> CheckAddress(size - 4, 4, size) && !CheckAddress(size - 3, 4, size)
  {}
}
