/**
 A reference reader for the DEFLATE format, written from RFC 1951 and not from the
 compressor: section 3.2.3 (block headers), 3.2.4 (stored blocks), 3.2.5 (length and
 distance symbols), 3.2.6 (fixed codes) and 3.2.7 (dynamic codes). It is strict: a
 dynamic block whose code lengths do not form a complete prefix code is rejected.
 */
module Inflate {
  import opened Sums

  datatype Token = Literal(value: byte) | Match(length: nat, dist: nat)

  const END_OF_BLOCK := 256

  // ----- symbol tables of section 3.2.5 -----

  const LENGTH_BASE: seq<nat> :=
    [3, 4, 5, 6, 7, 8, 9, 10, 11, 13, 15, 17, 19, 23, 27, 31, 35, 43, 51, 59, 67, 83, 99, 115, 131, 163, 195, 227, 258]

  const LENGTH_EXTRA: seq<nat> :=
    [0, 0, 0, 0, 0, 0, 0, 0, 1, 1, 1, 1, 2, 2, 2, 2, 3, 3, 3, 3, 4, 4, 4, 4, 5, 5, 5, 5, 0]

  const DIST_BASE: seq<nat> :=
    [1, 2, 3, 4, 5, 7, 9, 13, 17, 25, 33, 49, 65, 97, 129, 193, 257, 385, 513, 769, 1025, 1537, 2049, 3073,
     4097, 6145, 8193, 12289, 16385, 24577]

  const DIST_EXTRA: seq<nat> :=
    [0, 0, 0, 0, 1, 1, 2, 2, 3, 3, 4, 4, 5, 5, 6, 6, 7, 7, 8, 8, 9, 9, 10, 10, 11, 11, 12, 12, 13, 13]

  /** The order in which the lengths of the code length code are sent. */
  const CL_ORDER: seq<nat> := [16, 17, 18, 0, 8, 7, 9, 6, 10, 5, 11, 4, 12, 3, 13, 2, 14, 1, 15]

  // ----- canonical Huffman codes, section 3.2.2 -----

  function Count(lens: seq<nat>, b: nat): nat
  {
    if lens == [] then 0 else Count(lens[..|lens| - 1], b) + (if lens[|lens| - 1] == b then 1 else 0)
  }

  /** The smallest code of each length: step 2 of the algorithm. */
  function FirstCode(lens: seq<nat>, b: nat): nat
  {
    if b == 0 then 0 else 2 * (FirstCode(lens, b - 1) + (if b == 1 then 0 else Count(lens, b - 1)))
  }

  /** Consecutive values to all symbols of one length, in symbol order: step 3. */
  function CanonicalCode(lens: seq<nat>, n: nat): nat
    requires n < |lens|
  {
    FirstCode(lens, lens[n]) + Count(lens[..n], lens[n])
  }

  /** The weight 2^(15 - length) of one code length; an unused symbol weighs nothing. */
  function Weight(len: nat): nat
  {
    if 1 <= len <= MAX_BITS then Pow2(MAX_BITS - len) else 0
  }

  /** The Kraft sum in units of 2^-15. */
  function Kraft(lens: seq<nat>): nat
  {
    if lens == [] then 0 else Kraft(lens[..|lens| - 1]) + Weight(lens[|lens| - 1])
  }

  predicate ValidLengths(lens: seq<nat>)
  {
    forall i :: 0 <= i < |lens| ==> lens[i] <= MAX_BITS
  }

  /** A complete prefix code: every bit string starts with exactly one code. */
  predicate Complete(lens: seq<nat>)
  {
    ValidLengths(lens) && Kraft(lens) == Pow2(MAX_BITS)
  }

  // ----- reading -----

  function ReadBits(bits: seq<bool>, pos: nat, n: nat): Option<nat>
  {
    if pos + n <= |bits| then Some(ValueLsb(bits[pos..pos + n])) else None
  }

  /** The first symbol from i on whose code is the value v on l bits. */
  function FindSymbol(lens: seq<nat>, l: nat, v: nat, i: nat): (r: Option<nat>)
    requires i <= |lens|
    ensures r.Some? ==> r.value < |lens| && lens[r.value] == l && CanonicalCode(lens, r.value) == v
    decreases |lens| - i
  {
    if i == |lens| then None
    else if lens[i] == l && CanonicalCode(lens, i) == v then Some(i)
    else FindSymbol(lens, l, v, i + 1)
  }

  /** Reads a Huffman code bit by bit, most significant bit first; l bits with value v
      have been read without completing a code. */
  function DecodeFrom(lens: seq<nat>, bits: seq<bool>, pos: nat, l: nat, v: nat): (r: Option<(nat, nat)>)
    ensures r.Some? ==> r.value.0 < |lens| && pos + l < r.value.1 <= |bits|
    decreases MAX_BITS - l
  {
    if l >= MAX_BITS || pos + l >= |bits| then None
    else
      var v' := 2 * v + (if bits[pos + l] then 1 else 0);
      match FindSymbol(lens, l + 1, v', 0)
      case Some(n) => Some((n, pos + l + 1))
      case None => DecodeFrom(lens, bits, pos, l + 1, v')
  }

  function DecodeSymbol(lens: seq<nat>, bits: seq<bool>, pos: nat): (r: Option<(nat, nat)>)
    ensures r.Some? ==> r.value.0 < |lens| && pos < r.value.1 <= |bits|
  {
    DecodeFrom(lens, bits, pos, 0, 0)
  }

  /** A length symbol has been read: its extra bits, the distance symbol, its extra bits. */
  function ReadMatch(dd: seq<nat>, c: nat, bits: seq<bool>, pos: nat): (r: Option<(Token, nat)>)
    requires c < 29
    ensures r.Some? ==> pos < r.value.1 <= |bits|
  {
    match ReadBits(bits, pos, LENGTH_EXTRA[c])
    case None => None
    case Some(x) =>
      var p := pos + LENGTH_EXTRA[c];
      match DecodeSymbol(dd, bits, p)
      case None => None
      case Some((d, q)) =>
        if d >= 30 then None
        else
          match ReadBits(bits, q, DIST_EXTRA[d])
          case None => None
          case Some(y) => Some((Match(LENGTH_BASE[c] + x, DIST_BASE[d] + y), q + DIST_EXTRA[d]))
  }

  /** The compressed data of one block: symbols until the end-of-block symbol. */
  function ReadTokens(ll: seq<nat>, dd: seq<nat>, bits: seq<bool>, pos: nat, acc: seq<Token>): (r: Option<(seq<Token>, nat)>)
    ensures r.Some? ==> pos < r.value.1 <= |bits|
    decreases |bits| - pos
  {
    match DecodeSymbol(ll, bits, pos)
    case None => None
    case Some((s, p)) =>
      if s < 256 then ReadTokens(ll, dd, bits, p, acc + [Literal(s)])
      else if s == END_OF_BLOCK then Some((acc, p))
      else if s < 286 then
        match ReadMatch(dd, s - 257, bits, p)
        case None => None
        case Some((t, q)) => ReadTokens(ll, dd, bits, q, acc + [t])
      else None
  }

  // ----- dynamic codes, section 3.2.7 -----

  /** The lengths of the code length code: 3 bits each, in the order CL_ORDER. */
  function ReadClLengths(bits: seq<bool>, pos: nat, rank: nat, count: nat, lens: seq<nat>): (r: Option<seq<nat>>)
    requires |lens| == 19 && rank <= count <= 19
    ensures r.Some? ==> |r.value| == 19
    decreases count - rank
  {
    if rank == count then Some(lens)
    else
      match ReadBits(bits, pos, 3)
      case None => None
      case Some(v) => ReadClLengths(bits, pos + 3, rank + 1, count, lens[CL_ORDER[rank] := v])
  }

  function Repeat(v: nat, n: nat): (s: seq<nat>)
    ensures |s| == n
  {
    seq(n, _ => v)
  }

  /** The code lengths of both alphabets as one sequence of `total` lengths. */
  function ReadLengths(cl: seq<nat>, bits: seq<bool>, pos: nat, total: nat, acc: seq<nat>): (r: Option<(seq<nat>, nat)>)
    ensures r.Some? ==> |r.value.0| == total && pos <= r.value.1 && (r.value.1 <= |bits| || r.value.1 == pos)
    decreases |bits| - pos
  {
    if |acc| == total then Some((acc, pos))
    else if |acc| > total then None
    else
      match DecodeSymbol(cl, bits, pos)
      case None => None
      case Some((s, p)) =>
        if s < 16 then ReadLengths(cl, bits, p, total, acc + [s])
        else if s == 16 && acc == [] then None
        else if s <= 18 then
          var n, base := if s == 16 then 2 else if s == 17 then 3 else 7, if s == 18 then 11 else 3;
          match ReadBits(bits, p, n)
          case None => None
          case Some(x) =>
            var v := if s == 16 then acc[|acc| - 1] else 0;
            ReadLengths(cl, bits, p + n, total, acc + Repeat(v, base + x))
        else None
  }

  /** The code length code and, coded with it, the two tables of code lengths. */
  function ReadCodes(bits: seq<bool>, pos: nat, hlit: nat, hdist: nat, hclen: nat): (r: Option<(seq<nat>, seq<nat>, nat)>)
    requires hclen <= 19
    ensures r.Some? ==> pos <= r.value.2
  {
    match ReadClLengths(bits, pos, 0, hclen, Repeat(0, 19))
    case None => None
    case Some(cl) =>
      if !Complete(cl) then None
      else
        match ReadLengths(cl, bits, pos + 3 * hclen, hlit + hdist, [])
        case None => None
        case Some((all, p)) =>
          var ll, dd := all[..hlit], all[hlit..];
          if Complete(ll) && Complete(dd) then Some((ll, dd, p)) else None
  }

  /** The header of a dynamic block: the two code length tables and where the data starts. */
  function ReadTables(bits: seq<bool>, pos: nat): (r: Option<(seq<nat>, seq<nat>, nat)>)
    ensures r.Some? ==> pos <= r.value.2
  {
    match (ReadBits(bits, pos, 5), ReadBits(bits, pos + 5, 5), ReadBits(bits, pos + 10, 4))
    case (Some(hlit), Some(hdist), Some(hclen)) =>
      if hlit + 257 > 286 || hdist + 1 > 30 || hclen + 4 > 19 then None
      else ReadCodes(bits, pos + 14, hlit + 257, hdist + 1, hclen + 4)
    case _ => None
  }

  // ----- fixed codes, section 3.2.6 -----

  function FixedLiteralLengths(): (s: seq<nat>)
    ensures |s| == 288
  {
    seq(288, n => if n <= 143 then 8 else if n <= 255 then 9 else if n <= 279 then 7 else 8)
  }

  function FixedDistanceLengths(): (s: seq<nat>)
    ensures |s| == 32
  {
    seq(32, n => 5)
  }

  // ----- what the tokens mean -----

  /** Copies byte by byte from `dist` back, so a copy may overlap what it produces. */
  function CopyMatch(out: seq<byte>, length: nat, dist: nat): (r: seq<byte>)
    requires 1 <= dist <= |out|
    ensures |r| == |out| + length && out <= r
    decreases length
  {
    if length == 0 then out else CopyMatch(out + [out[|out| - dist]], length - 1, dist)
  }

  function Apply(out: seq<byte>, t: Token): (r: Option<seq<byte>>)
    ensures r.Some? ==> out <= r.value
  {
    match t
    case Literal(b) => Some(out + [b])
    case Match(l, d) => if 1 <= d <= |out| then Some(CopyMatch(out, l, d)) else None
  }

  function Expand(out: seq<byte>, ts: seq<Token>): (r: Option<seq<byte>>)
    ensures r.Some? ==> out <= r.value
  {
    if ts == [] then Some(out)
    else
      match Expand(out, ts[..|ts| - 1])
      case None => None
      case Some(o) => Apply(o, ts[|ts| - 1])
  }

  // ----- blocks -----

  datatype Block = Block(final: bool, pos: nat, out: seq<byte>)

  function ByteAlign(pos: nat): nat
  {
    (pos + 7) / 8 * 8
  }

  function ReadBytes(bits: seq<bool>, pos: nat, n: nat): (s: seq<byte>)
    requires pos + 8 * n <= |bits|
    ensures |s| == n
    decreases n
  {
    if n == 0 then []
    else
      assert Pow2(8) == 256;
      [ValueLsb(bits[pos..pos + 8])] + ReadBytes(bits, pos + 8, n - 1)
  }

  function ReadStored(bits: seq<bool>, pos: nat, out: seq<byte>): (r: Option<(nat, seq<byte>)>)
    ensures r.Some? ==> pos < r.value.0
  {
    var p := ByteAlign(pos);
    match (ReadBits(bits, p, 16), ReadBits(bits, p + 16, 16))
    case (Some(len), Some(nlen)) =>
      if len + nlen != 65535 || p + 32 + 8 * len > |bits| then None
      else Some((p + 32 + 8 * len, out + ReadBytes(bits, p + 32, len)))
    case _ => None
  }

  /** The data of a compressed block, expanded onto the output so far. */
  function ReadCompressed(ll: seq<nat>, dd: seq<nat>, bits: seq<bool>, pos: nat, out: seq<byte>): (r: Option<(nat, seq<byte>)>)
    ensures r.Some? ==> pos < r.value.0
  {
    match ReadTokens(ll, dd, bits, pos, [])
    case None => None
    case Some((ts, q)) =>
      match Expand(out, ts)
      case None => None
      case Some(o) => Some((q, o))
  }

  function ReadBlockBody(kind: nat, bits: seq<bool>, pos: nat, out: seq<byte>): (r: Option<(nat, seq<byte>)>)
    ensures r.Some? ==> pos < r.value.0
  {
    if kind == 0 then ReadStored(bits, pos, out)
    else if kind == 1 then ReadCompressed(FixedLiteralLengths(), FixedDistanceLengths(), bits, pos, out)
    else if kind == 2 then
      match ReadTables(bits, pos)
      case None => None
      case Some((ll, dd, p)) => ReadCompressed(ll, dd, bits, p, out)
    else None
  }

  function ReadBlock(bits: seq<bool>, pos: nat, out: seq<byte>): (r: Option<Block>)
    ensures r.Some? ==> r.value.pos > pos
  {
    match (ReadBits(bits, pos, 1), ReadBits(bits, pos + 1, 2))
    case (Some(f), Some(kind)) =>
      (match ReadBlockBody(kind, bits, pos + 3, out)
       case None => None
       case Some((q, o)) => Some(Block(f == 1, q, o)))
    case _ => None
  }

  /** The whole stream from a block boundary: the output, and where the last block ends. */
  function Inflate(bits: seq<bool>, pos: nat, out: seq<byte>): Option<(seq<byte>, nat)>
    decreases |bits| - pos
  {
    match ReadBlock(bits, pos, out)
    case None => None
    case Some(Block(final, q, o)) =>
      if final then Some((o, q))
      else if q > |bits| then None
      else Inflate(bits, q, o)
  }
}
