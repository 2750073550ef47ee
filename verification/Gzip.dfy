/**
 zip: the container of RFC 1952 around the compressed data. Reading the file back gives the
 input, whatever it is and however it was read.
 */
module Gzip {
  import opened Sums
  import opened Inflate
  import opened Canonical
  import opened BitWriter
  import opened BlockFormat
  import opened Crc32
  import opened Window
  import opened HashChains
  import opened CtInit
  import opened FlushBlock
  import opened Stream
  import opened LazyRule
  import opened Deflate
  import opened Tally
  import opened CompressBlock
  import opened TokenCoding
  import opened BlockChoice
  import opened BlockTables

  const ALL_ONES := 0xffff_ffff

  /** A reader of one member without optional fields (sections 2.3 and 2.3.1 of RFC 1952):
      the identification, method and flags, time, extra flags and system, which are skipped,
      the compressed data, and the checksum and size of the output. */
  function Gunzip(file: seq<byte>): Option<seq<byte>>
  {
    var bits := BytesBits(file);
    if ReadBits(bits, 0, 32) != Some(0x00088b1f) || |bits| < 80 then None
    else
      match Inflate.Inflate(bits, 80, [])
      case None => None
      case Some((out, end)) =>
        var p := ByteAlign(end);
        if && ReadBits(bits, p, 32) == Some(ALL_ONES - CrcFrom(ALL_ONES, out)) && ReadBits(bits, p + 32, 32) == Some(|out| % TWO_32)
           && p + 64 == |bits|
        then Some(out) else None
  }

  function HeaderBytes(): seq<bool>
  {
    BitsLsb(0x00088b1f, 32) + BitsLsb(0, 32) + BitsLsb(0x300, 16)
  }

  /** The reader on a finished stream with its trailer. */
  lemma {:induction false} GunzipReads(file: seq<byte>, bits: seq<bool>, data: seq<byte>, end: nat, crc: nat, isize: nat)
    requires Ends(bits, HeaderBytes(), data, end) && end <= |bits| < end + 8 && |bits| % 8 == 0
    requires Summed(crc, isize, data)
    ensures crc < TWO_32
    ensures BytesBits(file) == (bits + BitsLsb(ALL_ONES - crc, 32)) + BitsLsb(isize, 32) ==> Gunzip(file) == Some(data)
  {
    hide CrcFrom, Inflate.Inflate, BitsLsb, BytesBits, ReadBits, At;
    CrcBound(ALL_ONES, data);
    var full := BytesBits(file);
    var a, b := BitsLsb(ALL_ONES - crc, 32), BitsLsb(isize, 32);
    if full == (bits + a) + b {
      var p := |bits|;
      assert full == bits + (a + b);
      AtAfter(bits, a + b, full);
      AtSplit(full, p, a, b);
      Pow2Table();
      ReadBitsAt(full, p, ALL_ONES - crc, 32);
      ReadBitsAt(full, p + 32, isize, 32);
      AlignedBy(end, p - end);
      HeaderReads(full, bits);
    }
  }

  lemma {:induction false} HeaderReads(full: seq<bool>, bits: seq<bool>)
    requires HeaderBytes() <= bits <= full
    ensures ReadBits(full, 0, 32) == Some(0x00088b1f) && |HeaderBytes()| == 80
  {
    hide BitsLsb, ReadBits, At;
    var a, b, c := BitsLsb(0x00088b1f, 32), BitsLsb(0, 32), BitsLsb(0x300, 16);
    assert [] + HeaderBytes() == HeaderBytes();
    AtAfter([], HeaderBytes(), full);
    AtSplit(full, 0, a + b, c);
    AtSplit(full, 0, a, b);
    Pow2Table();
    ReadBitsAt(full, 0, 0x00088b1f, 32);
  }

  /** The first two words of the header. */
  method StartHeader(w: Writer)
    requires w.Valid() && w.Bits() == []
    modifies w, w.outbuf
    ensures w.Valid() && w.biValid == 0 && BytesBits(w.Bytes()) == BitsLsb(0x00088b1f, 32) + BitsLsb(0, 32)
  {
    hide BytesBits, BitsLsb;
    EmptyBits(w.biBuf);
    assert BytesBits(w.Bytes()) == [];
    assert [] + BitsLsb(0x00088b1f, 32) == BitsLsb(0x00088b1f, 32);
    w.Put32(0x00088b1f);
    w.Put32(0);
  }

  /** The extra flags and the system. */
  method EndHeader(c: Coder)
    requires c.Linked() && c.Valid() && c.w.biValid == 0 && BytesBits(c.w.Bytes()) == BitsLsb(0x00088b1f, 32) + BitsLsb(0, 32)
    modifies c.w, c.w.outbuf
    ensures Sending(c, HeaderBytes(), []) && c.tb.tokens == old(c.tb.tokens)
  {
    hide BytesBits, BitsLsb, CounterWidth.Narrow, Tallied, NoneCounted, ValidMaps, SymbolTables.StaticTrees, TokenBuffer.Valid, LDesc, DDesc, BlDesc;
    WordBits(c.w.Bytes(), 0x300, 0, 3);
    c.w.Put16(0x300);
    EmptyBits(c.w.biBuf);
    assert c.w.Bits() == HeaderBytes();
  }

  /** The file that holds these blocks: the header, the blocks and their padding, the checksum
      and the size of the data. */
  ghost function FileBits(m: Maps, blocks: seq<Sent>): seq<bool>
    requires ValidBlocks(m, blocks, true)
  {
    var bits, data := Assemble(HeaderBytes(), m, blocks, true), DataOf(blocks);
    CrcBound(ALL_ONES, data);
    ((bits + Padding(bits)) + BitsLsb(ALL_ONES - CrcFrom(ALL_ONES, data), 32)) + BitsLsb(|data| % TWO_32, 32)
  }

  /** The checksum and the size, and the rest of the buffer. */
  method WriteTrailer(c: Coder, crc: nat, isize: nat, ghost blocks: seq<Sent>) returns (file: seq<byte>)
    requires Finished(c, HeaderBytes(), blocks) && Summed(crc, isize, DataOf(blocks))
    modifies c.w, c.w.outbuf
    ensures Gunzip(file) == Some(DataOf(blocks)) && BytesBits(file) == FileBits(c.tab.M(), blocks)
  {
    hide BytesBits, BitsLsb, Gunzip, Ends, HeaderBytes, Assemble, ValidBlocks, DataOf, Padding, CrcFrom;
    ghost var data, bits, end := DataOf(blocks), c.w.Bits(), Assemble(HeaderBytes(), c.tab.M(), blocks, true);
    PaddingSmall(end);
    StreamReads(HeaderBytes(), c.tab.M(), blocks, Padding(end));
    EmptyBits(c.w.biBuf);
    assert bits == BytesBits(c.w.Bytes());
    SummedBound(crc, isize, data);
    c.w.Put32(ALL_ONES - crc);
    c.w.Put32(isize);
    GunzipReads(c.w.Bytes(), bits, data, |end|, crc, isize);
    c.w.FlushOutbuf();
    file := c.w.written;
  }

  lemma {:induction false} PaddingSmall(bits: seq<bool>)
    ensures |Padding(bits)| < 8
  {
  }

  lemma {:induction false} SummedBound(crc: nat, isize: nat, data: seq<byte>)
    requires Summed(crc, isize, data)
    ensures crc < TWO_32 && isize < TWO_32
  {
    CrcBound(ALL_ONES, data);
  }

  /** The buffers are allocated and the header is started. */
  method NewCoder() returns (c: Coder)
    ensures c.Linked() && c.Valid() && c.tb.tokens == [] && fresh(c.repr) && fresh(c.tab.Repr()) && fresh(c.w) && fresh(c.w.outbuf)
    ensures c.w.biValid == 0 && BytesBits(c.w.Bytes()) == BitsLsb(0x00088b1f, 32) + BitsLsb(0, 32)
  {
    hide BytesBits, BitsLsb, CounterWidth.Narrow, Tallied, NoneCounted, ValidMaps, SymbolTables.StaticTrees, TokenBuffer.Valid, Coder.Shape, Writer.Valid, Writer.Bits, Writer.Bytes, Coder.Linked, Coder.Repr, Tables.Repr, Tables.Valid, Coder.Valid;
    var w := new Writer();
    StartHeader(w);
    var tab := new Tables();
    c := new Coder(w, tab);
    c.Start();
  }

  /** zip: for every input and every way in which the reads split it, the file that is
      written is read back as the input. Nothing in it is left open: it holds blocks whose
      tokens are the choices of the lazy rule, each block ends where ct_tally asks for it, and
      each is in the form that flush_block chooses. */
  method Zip(data: seq<byte>, sizes: seq<nat>) returns (file: seq<byte>, ghost m: Maps, ghost blocks: seq<Sent>, ghost log: seq<Choice>)
    ensures Gunzip(file) == Some(data)
    ensures ValidBlocks(m, blocks, true) && DataOf(blocks) == data && BytesBits(file) == FileBits(m, blocks)
    ensures Lazy(data, log, |data|) && TokensOf(blocks) == Picks(data, log, |data|)
  {
    hide BytesBits, BitsLsb, Gunzip, Sending, Summed, HeaderBytes, FileBits, ValidBlocks, Assemble, DataOf, TokensOf, Lazy, Picks, Tables.Repr, Coder.Linked, Coder.Valid,
         Chains, Filled, Rolling, CrcTable;
    var inp := new Input(data, sizes);
    var table := FillTable();
    var win := new Window(table);
    win.LmInit(inp);
    var c := NewCoder();
    EndHeader(c);
    blocks, log := Deflate.Deflate(c, win, inp, HeaderBytes(), data);
    m := c.tab.M();
    file := WriteTrailer(c, win.crc, win.isize, blocks);
  }
}
