/**
 The on-disk records of crates/mirage-cache/src/format.rs: the 64-byte slot metadata and the
 4096-byte arena header. The checksum is any function from bytes to 32-bit words.
 */
module ArenaCodec {
  import opened Basics
  import ArenaIo

  newtype u32 = x: int | 0 <= x < 0x1_0000_0000

  type Crc = Bytes -> u32

  const SLOT_METADATA_BYTES: nat := 64
  const ARENA_MAGIC: Bytes := [0x4D, 0x49, 0x52, 0x41, 0x52, 0x4E, 0x31, 0]
  const ARENA_VERSION: nat := 1

  // ----- Little-endian integers -----

  function Limit(width: nat): nat {
    if width == 0 then 1 else 256 * Limit(width - 1)
  }

  function Le(n: nat, width: nat): (r: Bytes)
    ensures |r| == width
  {
    if width == 0 then [] else [(n % 256) as byte] + Le(n / 256, width - 1)
  }

  function FromLe(s: Bytes): nat {
    if |s| == 0 then 0 else s[0] as int + 256 * FromLe(s[1..])
  }

  lemma {:induction false} LeRoundTrip(n: nat, width: nat)
    requires n < Limit(width)
    ensures FromLe(Le(n, width)) == n
    decreases width
  {
    if width > 0 {
      LeRoundTrip(n / 256, width - 1);
      assert Le(n, width)[1..] == Le(n / 256, width - 1);
    }
  }

  lemma {:induction false} FromLeRoundTrip(s: Bytes)
    ensures FromLe(s) < Limit(|s|) && Le(FromLe(s), |s|) == s
  {
    if |s| > 0 {
      FromLeRoundTrip(s[1..]);
      assert FromLe(s) % 256 == s[0] as int && FromLe(s) / 256 == FromLe(s[1..]);
    }
  }

  lemma Limits()
    ensures Limit(4) == U32_MAX + 1 && Limit(8) == U64_MAX + 1
  {
    assert Limit(1) == 256 && Limit(2) == 0x1_0000 && Limit(3) == 0x100_0000;
    assert Limit(4) == 0x1_0000_0000;
    assert Limit(5) == 0x100_0000_0000 && Limit(6) == 0x1_0000_0000_0000 && Limit(7) == 0x100_0000_0000_0000;
  }

  // ----- Slot metadata -----

  datatype State = Free | Reserved | Resident | Evicting | RetryDeallocate

  datatype Metadata = Metadata(generation: nat, state: State, pageHash: Bytes, logicalLength: nat)

  /** What the record's field types can hold. */
  predicate InRange(m: Metadata) {
    m.generation <= U64_MAX && |m.pageHash| == 32 && m.logicalLength <= U32_MAX
  }

  function Tag(s: State): byte {
    match s
    case Free => 0
    case Reserved => 1
    case Resident => 2
    case Evicting => 3
    case RetryDeallocate => 4
  }

  function Untag(b: byte): (r: Option<State>)
    ensures r.Some? ==> Tag(r.value) == b
    ensures r.None? ==> forall s :: Tag(s) != b
  {
    if b == 0 then Some(Free)
    else if b == 1 then Some(Reserved)
    else if b == 2 then Some(Resident)
    else if b == 3 then Some(Evicting)
    else if b == 4 then Some(RetryDeallocate)
    else None
  }

  /** The 48 bytes under the checksum. */
  function Body(m: Metadata): (r: Bytes)
    requires |m.pageHash| == 32
    ensures |r| == 48
  {
    Le(m.generation, 8) + [Tag(m.state)] + Zeros(3) + m.pageHash + Le(m.logicalLength, 4)
  }

  function Encode(crc: Crc, m: Metadata): (r: Bytes)
    requires |m.pageHash| == 32
    ensures |r| == SLOT_METADATA_BYTES
  {
    Body(m) + Le(crc(Body(m)) as nat, 4) + Zeros(12)
  }

  predicate AllZero(s: Bytes) {
    forall k :: 0 <= k < |s| ==> s[k] == 0
  }

  function Decode(crc: Crc, input: Bytes): Result<Metadata> {
    if |input| != SLOT_METADATA_BYTES || !AllZero(input[9..12]) || !AllZero(input[52..])
       || crc(input[..48]) as nat != FromLe(input[48..52])
    then Err
    else
      var state := Untag(input[8]);
      if state.None? then Err
      else Ok(Metadata(FromLe(input[..8]), state.value, input[12..44], FromLe(input[44..48])))
  }

  lemma EncodeFields(crc: Crc, m: Metadata)
    requires |m.pageHash| == 32
    ensures var x := Encode(crc, m);
            && x[..8] == Le(m.generation, 8) && x[8] == Tag(m.state) && x[9..12] == Zeros(3) && x[12..44] == m.pageHash
            && x[44..48] == Le(m.logicalLength, 4) && x[..48] == Body(m) && x[48..52] == Le(crc(Body(m)) as nat, 4)
            && x[52..] == Zeros(12)
  {
  }

  /** A 64-byte record is the concatenation of its fields. */
  lemma Reassemble(x: Bytes)
    requires |x| == SLOT_METADATA_BYTES && AllZero(x[9..12]) && AllZero(x[52..])
    ensures x[..48] == x[..8] + [x[8]] + Zeros(3) + x[12..44] + x[44..48]
    ensures x == x[..48] + x[48..52] + Zeros(12)
  {
    assert x[9..12] == Zeros(3);
    assert x[52..] == Zeros(12);
  }

  lemma DecodeOfEncode(crc: Crc, m: Metadata)
    requires InRange(m)
    ensures Decode(crc, Encode(crc, m)) == Ok(m)
  {
    Limits();
    EncodeFields(crc, m);
    LeRoundTrip(m.generation, 8);
    LeRoundTrip(m.logicalLength, 4);
    LeRoundTrip(crc(Body(m)) as nat, 4);
  }

  lemma EncodeOfDecode(crc: Crc, x: Bytes)
    requires Decode(crc, x).Ok?
    ensures InRange(Decode(crc, x).value) && Encode(crc, Decode(crc, x).value) == x
  {
    Limits();
    Reassemble(x);
    FromLeRoundTrip(x[..8]);
    FromLeRoundTrip(x[44..48]);
    FromLeRoundTrip(x[48..52]);
    assert Body(Decode(crc, x).value) == x[..48];
  }

  /** Decoding accepts exactly the encodings of in-range records, each as the record it encodes. */
  lemma MetadataCodec(crc: Crc, x: Bytes, m: Metadata)
    ensures Decode(crc, x) == Ok(m) <==> InRange(m) && x == Encode(crc, m)
  {
    if InRange(m) { DecodeOfEncode(crc, m); }
    if Decode(crc, x).Ok? { EncodeOfDecode(crc, x); }
  }

  /** copy_from_slice into part of a buffer. */
  method CopyInto(output: array<byte>, at: nat, bytes: Bytes)
    requires at + |bytes| <= output.Length
    modifies output
    ensures output[..] == ArenaIo.WriteAt(old(output[..]), at, bytes)
  {
    for i := 0 to |bytes|
      invariant forall k :: 0 <= k < output.Length ==>
                  output[k] == if at <= k < at + i then bytes[k - at] else old(output[..])[k]
    {
      output[at + i] := bytes[i];
    }
  }

  lemma FieldByField(m: Metadata)
    requires |m.pageHash| == 32
    ensures var a := ArenaIo.WriteAt(Zeros(64), 0, Le(m.generation, 8));
            var b := ArenaIo.WriteAt(a[8 := Tag(m.state)], 12, m.pageHash);
            ArenaIo.WriteAt(b, 44, Le(m.logicalLength, 4)) == Body(m) + Zeros(16)
  {
    var a := ArenaIo.WriteAt(Zeros(64), 0, Le(m.generation, 8));
    assert a[8 := Tag(m.state)] == Le(m.generation, 8) + [Tag(m.state)] + Zeros(55);
    var b := ArenaIo.WriteAt(a[8 := Tag(m.state)], 12, m.pageHash);
    assert b == Le(m.generation, 8) + [Tag(m.state)] + Zeros(3) + m.pageHash + Zeros(20);
  }

  /** The encoder: a zeroed buffer filled field by field. */
  method EncodeInto(crc: Crc, m: Metadata) returns (output: array<byte>)
    requires |m.pageHash| == 32
    ensures fresh(output) && output[..] == Encode(crc, m)
  {
    FieldByField(m);
    output := new byte[SLOT_METADATA_BYTES](_ => 0);
    assert output[..] == Zeros(64);
    CopyInto(output, 0, Le(m.generation, 8));
    ghost var a := output[..];
    output[8] := Tag(m.state);
    assert output[..] == a[8 := Tag(m.state)];
    CopyInto(output, 12, m.pageHash);
    CopyInto(output, 44, Le(m.logicalLength, 4));
    assert output[..48] == output[..][..48] == Body(m);
    var checksum := crc(output[..48]);
    CopyInto(output, 48, Le(checksum as nat, 4));
  }

  // ----- Arena header -----

  function HeaderBody(l: ArenaIo.Layout): (r: Bytes)
    ensures |r| == 24
  {
    ARENA_MAGIC + Le(ARENA_VERSION, 4) + Le(l.pageSize, 8) + Le(l.slotCount, 4)
  }

  function EncodeHeader(crc: Crc, l: ArenaIo.Layout): Result<Bytes> {
    if !ArenaIo.Validated(l) then Err
    else Ok(HeaderBody(l) + Le(crc(HeaderBody(l)) as nat, 4) + Zeros(ArenaIo.ARENA_HEADER_BYTES - 28))
  }

  function DecodeHeader(crc: Crc, input: Bytes): Result<ArenaIo.Layout> {
    if |input| != ArenaIo.ARENA_HEADER_BYTES || input[..8] != ARENA_MAGIC || FromLe(input[8..12]) != ARENA_VERSION
       || crc(input[..24]) as nat != FromLe(input[24..28]) || !AllZero(input[28..])
    then Err
    else
      var header := ArenaIo.Layout(FromLe(input[12..20]), FromLe(input[20..24]));
      if ArenaIo.Validated(header) then Ok(header) else Err
  }

  lemma HeaderFields(crc: Crc, l: ArenaIo.Layout)
    requires ArenaIo.Validated(l)
    ensures var x := EncodeHeader(crc, l).value;
            && |x| == ArenaIo.ARENA_HEADER_BYTES && x[..8] == ARENA_MAGIC && x[8..12] == Le(ARENA_VERSION, 4)
            && x[12..20] == Le(l.pageSize, 8) && x[20..24] == Le(l.slotCount, 4) && x[..24] == HeaderBody(l)
            && x[24..28] == Le(crc(HeaderBody(l)) as nat, 4) && x[28..] == Zeros(ArenaIo.ARENA_HEADER_BYTES - 28)
  {
  }

  lemma HeaderOfEncode(crc: Crc, l: ArenaIo.Layout)
    requires ArenaIo.Validated(l)
    ensures DecodeHeader(crc, EncodeHeader(crc, l).value) == Ok(l)
  {
    Limits();
    HeaderFields(crc, l);
    LeRoundTrip(ARENA_VERSION, 4);
    LeRoundTrip(l.pageSize, 8);
    LeRoundTrip(l.slotCount, 4);
    LeRoundTrip(crc(HeaderBody(l)) as nat, 4);
  }

  lemma EncodeOfHeader(crc: Crc, x: Bytes)
    requires DecodeHeader(crc, x).Ok?
    ensures EncodeHeader(crc, DecodeHeader(crc, x).value) == Ok(x)
  {
    FromLeRoundTrip(x[8..12]);
    FromLeRoundTrip(x[12..20]);
    FromLeRoundTrip(x[20..24]);
    FromLeRoundTrip(x[24..28]);
    assert x[..24] == x[..8] + x[8..12] + x[12..20] + x[20..24];
    assert x[28..] == Zeros(ArenaIo.ARENA_HEADER_BYTES - 28);
    assert x == x[..24] + x[24..28] + x[28..];
  }

  /** The header codec is a bijection between valid layouts and accepted headers. */
  lemma HeaderCodec(crc: Crc, x: Bytes, l: ArenaIo.Layout)
    ensures DecodeHeader(crc, x) == Ok(l) <==> EncodeHeader(crc, l) == Ok(x)
  {
    if ArenaIo.Validated(l) { HeaderOfEncode(crc, l); }
    if DecodeHeader(crc, x).Ok? { EncodeOfHeader(crc, x); }
  }
}
