/** The loader's view of an ELF file: what can be read through file-backed LOAD segments. */
module LoaderImage {
  import opened Common

  const TWO_TO_THE_32 := 0x1_0000_0000
  const TWO_TO_THE_64 := 0x1_0000_0000_0000_0000
  /** snapshotMaxELFMetadata. */
  const MAX_METADATA := 67108864

  /** uint64: a value stored in this type did not wrap. */
  type U64 = x: int | 0 <= x < TWO_TO_THE_64

  /** A program header; `bytes` is what the file still holds of its filesz bytes. */
  datatype Segment = Segment(load: bool, vaddr: U64, filesz: U64, bytes: seq<Byte>)

  /** Little-endian words. */
  function Word32(data: seq<Byte>, at: nat): (r: U64)
    requires at + 4 <= |data|
    ensures r < TWO_TO_THE_32
  {
    var b0: int, b1: int, b2: int, b3: int := data[at], data[at + 1], data[at + 2], data[at + 3];
    b0 + 256 * b1 + 65536 * b2 + 16777216 * b3
  }

  /** All of [addr, addr + size) lies in the segment's file-backed part. */
  predicate Covers(p: Segment, addr: U64, size: U64)
  {
    p.load && p.vaddr <= addr && addr + size <= p.vaddr + p.filesz
  }

  /** ReadAt on a segment: nothing is read at its very end or past what the file holds. */
  function ReadAt(p: Segment, offset: U64, size: U64): (r: Option<seq<Byte>>)
    ensures r.Some? ==> |r.value| == size
  {
    if offset < p.filesz && offset + size <= |p.bytes| then Some(p.bytes[offset..offset + size]) else None
  }

  /** The bytes at addr: read from the first segment that covers them all. */
  function Loaded(progs: seq<Segment>, addr: U64, size: U64): (r: Option<seq<Byte>>)
    ensures r.Some? ==> |r.value| == size
  {
    if progs == [] then None
    else if Covers(progs[0], addr, size) then ReadAt(progs[0], addr - progs[0].vaddr, size)
    else Loaded(progs[1..], addr, size)
  }

  /** snapshotLoadBytes. */
  method LoadBytes(progs: seq<Segment>, addr: U64, size: U64) returns (r: Option<seq<Byte>>)
    ensures r == if size > MAX_METADATA then None else Loaded(progs, addr, size)
  {
    if size > MAX_METADATA {
      return None;
    }
    var i := 0;
    while i < |progs|
      invariant 0 <= i <= |progs|
      invariant Loaded(progs, addr, size) == Loaded(progs[i..], addr, size)
    {
      var p := progs[i];
      assert progs[i..][0] == p && progs[i..][1..] == progs[i + 1..];
      if p.load && addr >= p.vaddr {
        var offset: U64 := addr - p.vaddr;
        if offset <= p.filesz && size <= p.filesz - offset {
          return ReadAt(p, offset, size);
        }
      }
      i := i + 1;
    }
    r := None;
  }

  /** What is loaded is the image: each byte comes from the first covering segment, at its own address. */
  lemma {:induction false} LoadedIsTheImage(progs: seq<Segment>, addr: U64, size: U64) returns (k: nat)
    requires Loaded(progs, addr, size).Some?
    ensures k < |progs| && Covers(progs[k], addr, size)
    ensures forall j :: 0 <= j < k ==> !Covers(progs[j], addr, size)
    ensures addr + size <= progs[k].vaddr + |progs[k].bytes|
    ensures forall i :: 0 <= i < size ==> Loaded(progs, addr, size).value[i] == progs[k].bytes[addr + i - progs[k].vaddr]
  {
    if Covers(progs[0], addr, size) {
      k := 0;
    } else {
      var rest := LoadedIsTheImage(progs[1..], addr, size);
      k := rest + 1;
    }
  }

  /** snapshotRelocationSymbols, for the entry widths the caller passes. */
  method RelocationSymbols(progs: seq<Segment>, addr: U64, size: U64, width: U64, count: U64) returns (ok: bool)
    requires width == 24 || width == 16
    ensures ok <==>
      && size % width == 0 && size <= MAX_METADATA && Loaded(progs, addr, size).Some?
      && forall k :: 0 <= k < size / width ==> Word32(Loaded(progs, addr, size).value, k * width + 12) < count
  {
    if size % width != 0 {
      return false;
    }
    var entries := LoadBytes(progs, addr, size);
    if entries.None? {
      return false;
    }
    var off, k := 0, 0;
    while off < size
      invariant 0 <= k <= size / width && off == k * width
      invariant forall i :: 0 <= i < k ==> Word32(entries.value, i * width + 12) < count
    {
      // the upper half of the 64-bit word at off + 8
      var symbol := Word32(entries.value, off + 12);
      if symbol >= count {
        return false;
      }
      off, k := off + width, k + 1;
    }
    ok := true;
  }
}
