/**
  Section reassembly: payloads are appended to a buffer, complete sections are cut off its front.
 */
module PsiSections {
  import opened Bytes
  import opened TsPackets

  const PADDING_BYTE: Byte := 0xff
  const SECTION_HEADER: nat := 3
  const EXTENDED_HEADER: nat := 5

  // ---------------------------------------------------------------- sections of a byte string

  ghost function SectionLength(s: seq<Byte>): (n: nat)
    requires |s| >= SECTION_HEADER
    ensures n < 4096
  {
    TwelveBits(s[1], s[2])
  }

  /** The bytes start with a complete section. */
  ghost predicate Complete(s: seq<Byte>) {
    |s| >= SECTION_HEADER && |s| - SECTION_HEADER >= SectionLength(s)
  }

  /** A complete section that has room for the extended header. */
  ghost predicate HasSection(s: seq<Byte>) {
    Complete(s) && SectionLength(s) >= EXTENDED_HEADER
  }

  ghost predicate IsPadding(s: seq<Byte>, k: nat) {
    && k <= |s| && (k == |s| || s[k] != PADDING_BYTE)
    && forall j :: 0 <= j < k ==> s[j] == PADDING_BYTE
  }

  lemma {:induction false} PaddingExists(s: seq<Byte>)
    ensures exists k: nat :: IsPadding(s, k)
  {
    var k := 0;
    while k < |s| && s[k] == PADDING_BYTE
      invariant 0 <= k <= |s|
      invariant forall j :: 0 <= j < k ==> s[j] == PADDING_BYTE
    {
      k := k + 1;
    }
    assert IsPadding(s, k);
  }

  /** The number of leading padding bytes. */
  ghost function PaddingLength(s: seq<Byte>): (k: nat)
    ensures IsPadding(s, k)
  {
    PaddingExists(s);
    var k: nat :| IsPadding(s, k);
    k
  }

  ghost function SkipPadding(s: seq<Byte>): seq<Byte> {
    s[PaddingLength(s)..]
  }

  /** What the callback receives of the first section: the bytes behind its extended header. */
  ghost function Body(s: seq<Byte>): seq<Byte>
    requires HasSection(s)
  {
    s[SECTION_HEADER + EXTENDED_HEADER..SECTION_HEADER + SectionLength(s)]
  }

  /** What is left behind the first section and the padding after it. */
  ghost function After(s: seq<Byte>): (t: seq<Byte>)
    requires HasSection(s)
    ensures |t| < |s|
  {
    SkipPadding(s[SECTION_HEADER + SectionLength(s)..])
  }

  ghost function Sections(s: seq<Byte>): seq<seq<Byte>>
    decreases |s|
  {
    if HasSection(s) then [Body(s)] + Sections(After(s)) else []
  }

  ghost function Rest(s: seq<Byte>): seq<Byte>
    decreases |s|
  {
    if HasSection(s) then Rest(After(s)) else s
  }

  /** No section is too short for the extended header. */
  ghost predicate Clean(s: seq<Byte>) {
    !Complete(Rest(s))
  }

  /** At least one section was cut off and nothing was kept. */
  ghost predicate FullyConsumed(s: seq<Byte>) {
    Sections(s) != [] && Rest(s) == []
  }

  /** A payload carries a piece of section data: all of it, but for a pointer field of one byte where a unit starts. */
  ghost predicate CarriesPiece(unitStart: bool, payload: seq<Byte>, piece: seq<Byte>) {
    if unitStart then |payload| > 0 && payload == [payload[0]] + piece else payload == piece
  }

  /** A payload without its pointer field. */
  ghost function Stripped(unitStart: bool, payload: seq<Byte>): (piece: seq<Byte>)
    requires unitStart ==> payload != []
    ensures CarriesPiece(unitStart, payload, piece)
  {
    if unitStart then payload[1..] else payload
  }

  lemma {:induction false} StrippedIsPiece(unitStart: bool, payload: seq<Byte>, piece: seq<Byte>)
    requires CarriesPiece(unitStart, payload, piece)
    ensures (unitStart ==> payload != []) && Stripped(unitStart, payload) == piece
  {
    if unitStart {
      assert payload[1..] == piece;
    }
  }

  // ---------------------------------------------------------------- the parser

  datatype ParseResult = ParseResult(isSuccess: bool, consumedBytes: nat, sectionLength: nat)

  method TryParseHeader(data: seq<Byte>) returns (result: ParseResult)
    ensures result.isSuccess <==> Complete(data)
    ensures result.isSuccess ==> result.consumedBytes == SECTION_HEADER + EXTENDED_HEADER
    ensures result.isSuccess ==> result.sectionLength == SectionLength(data)
    ensures !result.isSuccess ==> result.consumedBytes == 0
  {
    if |data| < SECTION_HEADER {
      return ParseResult(false, 0, 0);
    }
    var position := 1;
    var sectionLength := ReadTwelveBits(data[position], data[position + 1]);
    position := position + 2;
    if |data| - position < sectionLength {
      return ParseResult(false, 0, 0);
    }
    position := position + 2 + 1;
    position := position + 1;
    position := position + 1;
    result := ParseResult(true, position, sectionLength);
  }

  method SkipPaddingBytes(data: seq<Byte>) returns (position: nat)
    ensures position == PaddingLength(data)
  {
    position := 0;
    while position < |data| && data[position] == PADDING_BYTE
      invariant position <= |data|
      invariant forall j :: 0 <= j < position ==> data[j] == PADDING_BYTE
    {
      position := position + 1;
    }
  }

  class PsiParser {
    var sectionData: seq<Byte>

    constructor ()
      ensures sectionData == []
    {
      sectionData := [];
    }

    /** Appends the piece that a payload carries and passes every complete section to the callback, in order. */
    method Put(packet: TsPacket, ghost piece: seq<Byte>) returns (delivered: seq<seq<Byte>>)
      requires packet.payload.InBounds()
      requires CarriesPiece(packet.payloadUnitStart, packet.payload.Bytes(), piece)
      requires Clean(sectionData + piece)
      modifies this
      ensures delivered == Sections(old(sectionData) + piece) && sectionData == Rest(old(sectionData) + piece)
    {
      ghost var all := sectionData + piece;
      var start, size := packet.payload.offset, packet.payload.size;
      if packet.payloadUnitStart {
        start := start + 1;
        size := size - 1;
      }
      StrippedIsPiece(packet.payloadUnitStart, packet.payload.Bytes(), piece);
      assert packet.payload.data[start..start + size] == piece;
      sectionData := sectionData + packet.payload.data[start..start + size];
      var consumedBytes;
      delivered, consumedBytes := CutSections(sectionData);
      if consumedBytes > 0 {
        sectionData := sectionData[consumedBytes..];
      }
    }
  }

  /** The loop of Put: cuts complete sections off the front of the data and says how far it came. */
  method CutSections(data: seq<Byte>) returns (delivered: seq<seq<Byte>>, consumedBytes: nat)
    requires Clean(data)
    ensures delivered == Sections(data)
    ensures consumedBytes <= |data| && data[consumedBytes..] == Rest(data)
  {
    delivered := [];
    consumedBytes := 0;
    ghost var tail := data;
    var parseResult := TryParseHeader(data[consumedBytes..]);
    assert data[0..] == data;
    while parseResult.isSuccess
      invariant consumedBytes <= |data| && tail == data[consumedBytes..]
      invariant parseResult.isSuccess <==> Complete(tail)
      invariant parseResult.isSuccess ==> parseResult.consumedBytes == SECTION_HEADER + EXTENDED_HEADER
      invariant parseResult.isSuccess ==> parseResult.sectionLength == SectionLength(tail)
      invariant delivered + Sections(tail) == Sections(data) && Rest(tail) == Rest(data)
      decreases |data| - consumedBytes
    {
      ghost var from, done := consumedBytes, delivered;
      CleanHasSection(tail);
      consumedBytes := consumedBytes + parseResult.consumedBytes;
      ghost var start := consumedBytes;
      var payloadSize := parseResult.sectionLength - EXTENDED_HEADER;
      var payload := data[consumedBytes..consumedBytes + payloadSize];
      delivered := delivered + [payload];
      consumedBytes := consumedBytes + payloadSize;
      ghost var end := consumedBytes;
      var padding := SkipPaddingBytes(data[consumedBytes..]);
      consumedBytes := consumedBytes + padding;
      ghost var next := data[consumedBytes..];
      CutOne(data, from, tail, start, end, payload, padding, next);
      Regroup(done, payload, Sections(next));
      tail := next;
      parseResult := TryParseHeader(data[consumedBytes..]);
    }
  }

  /** Where no section is too short, a complete one has room for the extended header. */
  lemma {:induction false} CleanHasSection(s: seq<Byte>)
    requires Complete(s) && Clean(s)
    ensures HasSection(s)
  {
    assert !HasSection(s) ==> Rest(s) == s;
  }

  /** One round of cutting, in terms of offsets into the data. */
  lemma {:induction false} CutOne(data: seq<Byte>, from: nat, tail: seq<Byte>, start: nat, end: nat, payload: seq<Byte>,
                                  padding: nat, next: seq<Byte>)
    requires from <= |data| && tail == data[from..] && HasSection(tail)
    requires start == from + SECTION_HEADER + EXTENDED_HEADER && end == from + SECTION_HEADER + SectionLength(tail)
    requires start <= end <= |data| && payload == data[start..end]
    requires padding == PaddingLength(data[end..]) && next == data[end + padding..]
    ensures Sections(tail) == [payload] + Sections(next) && Rest(tail) == Rest(next)
  {
    TailSlices(data, from, start - from, end - from);
    TailSlices(data, end, padding, padding);
    SectionStep(tail, SectionLength(tail), payload, data[end..], next);
  }

  lemma {:induction false} TailSlices(all: seq<Byte>, from: nat, i: nat, j: nat)
    requires i <= j && from + j <= |all|
    ensures all[from..][i..j] == all[from + i..from + j]
    ensures all[from..][j..] == all[from + j..]
  {}

  lemma {:induction false} SectionStep(s: seq<Byte>, n: nat, payload: seq<Byte>, behind: seq<Byte>, next: seq<Byte>)
    requires HasSection(s) && n == SectionLength(s)
    requires payload == s[SECTION_HEADER + EXTENDED_HEADER..SECTION_HEADER + n]
    requires behind == s[SECTION_HEADER + n..] && next == SkipPadding(behind)
    ensures Sections(s) == [payload] + Sections(next) && Rest(s) == Rest(next)
  {
    assert next == After(s) && payload == Body(s);
  }
}
