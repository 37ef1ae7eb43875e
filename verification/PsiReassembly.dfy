/**
  Section reassembly does not depend on how the bytes were cut into payloads, except at one kind of cut.
 */
module PsiReassembly {
  import opened Bytes
  import opened Framing
  import opened PsiSections

  // ---------------------------------------------------------------- one cut

  /** Parsing a, then b behind what a left, gives what parsing a + b at once gives. */
  ghost predicate CutIsInvisible(a: seq<Byte>, b: seq<Byte>) {
    && Sections(a + b) == Sections(a) + Sections(Rest(a) + b)
    && Rest(a + b) == Rest(Rest(a) + b)
  }

  /** The one kind of cut that shows: everything so far was consumed and the next byte is a padding byte. */
  ghost predicate CutInPadding(a: seq<Byte>, b: seq<Byte>) {
    FullyConsumed(a) && b != [] && b[0] == PADDING_BYTE
  }

  lemma {:induction false} PaddingIs(s: seq<Byte>, k: nat)
    requires IsPadding(s, k)
    ensures PaddingLength(s) == k && SkipPadding(s) == s[k..]
  {}

  /** Padding is skipped across a cut unless the front consists of padding only. */
  lemma {:induction false} SkipPaddingSplit(a: seq<Byte>, b: seq<Byte>)
    ensures SkipPadding(a + b) == if SkipPadding(a) == [] then SkipPadding(b) else SkipPadding(a) + b
  {
    var k := PaddingLength(a);
    if k < |a| {
      PaddingIs(a + b, k);
      assert (a + b)[k..] == a[k..] + b;
    } else {
      var m := PaddingLength(b);
      PaddingIs(a + b, |a| + m);
      assert (a + b)[|a| + m..] == b[m..];
    }
  }

  lemma {:induction false} SkipNoPadding(b: seq<Byte>)
    requires b != [] ==> b[0] != PADDING_BYTE
    ensures SkipPadding(b) == b
  {
    PaddingIs(b, 0);
    assert b[0..] == b;
  }

  /** A first section is not changed by bytes behind it. */
  lemma {:induction false} FirstSectionStays(a: seq<Byte>, b: seq<Byte>)
    requires HasSection(a)
    ensures HasSection(a + b) && Body(a + b) == Body(a)
    ensures After(a + b) == if After(a) == [] then SkipPadding(b) else After(a) + b
  {
    var n := SECTION_HEADER + SectionLength(a);
    FrontStays(a, b, SECTION_HEADER + EXTENDED_HEADER, n);
    assert SectionLength(a + b) == SectionLength(a);
    SkipPaddingSplit(a[n..], b);
  }

  lemma {:induction false} FrontStays(a: seq<Byte>, b: seq<Byte>, i: nat, j: nat)
    requires i <= j <= |a|
    ensures forall k :: 0 <= k < |a| ==> (a + b)[k] == a[k]
    ensures (a + b)[i..j] == a[i..j] && (a + b)[j..] == a[j..] + b
  {
  }

  /** The first section, and what comes behind it. */
  lemma {:induction false} FirstSection(s: seq<Byte>, body: seq<Byte>, next: seq<Byte>)
    requires HasSection(s) && body == Body(s) && next == After(s)
    ensures Sections(s) == [body] + Sections(next) && Rest(s) == Rest(next)
  {
  }

  lemma {:induction false} CutElsewhereIsInvisible(a: seq<Byte>, b: seq<Byte>)
    requires !CutInPadding(a, b)
    ensures CutIsInvisible(a, b)
    decreases |a|
  {
    if HasSection(a) {
      FirstSectionStays(a, b);
      var t := After(a);
      if t == [] {
        CutBehindLast(a, b, t);
      } else {
        CutElsewhereIsInvisible(t, b);
        CutBehindFirst(a, b, t, Body(a));
      }
    }
  }

  lemma {:induction false} CutBehindLast(a: seq<Byte>, b: seq<Byte>, t: seq<Byte>)
    requires HasSection(a) && t == After(a) && t == [] && !CutInPadding(a, b)
    requires HasSection(a + b) && Body(a + b) == Body(a) && After(a + b) == SkipPadding(b)
    ensures CutIsInvisible(a, b)
  {
    var body := Body(a);
    assert !HasSection([]) && Sections([]) == [] && Rest([]) == [];
    FirstSection(a, body, []);
    assert FullyConsumed(a);
    SkipNoPadding(b);
    FirstSection(a + b, body, b);
    NothingKept(a, b, body);
  }

  lemma {:induction false} NothingKept(a: seq<Byte>, b: seq<Byte>, body: seq<Byte>)
    requires Rest(a) == [] && Sections(a) == [body]
    requires Sections(a + b) == [body] + Sections(b) && Rest(a + b) == Rest(b)
    ensures CutIsInvisible(a, b)
  {
    assert Rest(a) + b == b;
  }

  lemma {:induction false} CutBehindFirst(a: seq<Byte>, b: seq<Byte>, t: seq<Byte>, body: seq<Byte>)
    requires HasSection(a) && HasSection(a + b) && t == After(a) && t + b == After(a + b)
    requires body == Body(a) == Body(a + b) && CutIsInvisible(t, b)
    ensures CutIsInvisible(a, b)
  {
    assert Sections(a + b) == [body] + Sections(t + b);
    AddFirst(body, Sections(t), Sections(Rest(t) + b));
  }

  lemma {:induction false} AddFirst(x: seq<Byte>, s: seq<seq<Byte>>, t: seq<seq<Byte>>)
    ensures [x] + (s + t) == ([x] + s) + t
  {}

  /** Behind data that was fully consumed, a padding byte disappears when it comes at once and stays when it comes later. */
  lemma {:induction false} PaddingByteShowsCut(a: seq<Byte>)
    requires FullyConsumed(a)
    ensures Rest(a + [PADDING_BYTE]) == [] && Rest(Rest(a) + [PADDING_BYTE]) == [PADDING_BYTE]
    decreases |a|
  {
    var b := [PADDING_BYTE];
    FirstSectionStays(a, b);
    PaddingIs(b, 1);
    var t := After(a);
    assert Rest(t) == [];
    if t != [] {
      assert Rest(t) != t;
      PaddingByteShowsCut(t);
    }
  }

  /** A cut behind a is invisible whatever follows exactly when a was not fully consumed. */
  lemma {:induction false} CutIsInvisibleIff(a: seq<Byte>)
    ensures (forall b :: CutIsInvisible(a, b)) <==> !FullyConsumed(a)
  {
    if FullyConsumed(a) {
      PaddingByteShowsCut(a);
      assert !CutIsInvisible(a, [PADDING_BYTE]);
    } else {
      forall b ensures CutIsInvisible(a, b) {
        CutElsewhereIsInvisible(a, b);
      }
    }
  }

  // ---------------------------------------------------------------- any number of payloads

  /** The callbacks made while payloads are put one by one, and the buffer afterwards. */
  ghost function SectionsFrom(kept: seq<Byte>, parts: seq<seq<Byte>>): seq<seq<Byte>>
    decreases |parts|
  {
    if parts == [] then [] else Sections(kept + parts[0]) + SectionsFrom(Rest(kept + parts[0]), parts[1..])
  }

  ghost function RestFrom(kept: seq<Byte>, parts: seq<seq<Byte>>): seq<Byte>
    decreases |parts|
  {
    if parts == [] then kept else RestFrom(Rest(kept + parts[0]), parts[1..])
  }

  /** No payload starts with padding when everything before it was consumed. */
  ghost predicate NoCutInPadding(before: seq<Byte>, parts: seq<seq<Byte>>)
    decreases |parts|
  {
    parts != [] ==> !CutInPadding(before, parts[0]) && NoCutInPadding(before + parts[0], parts[1..])
  }

  /** Payload by payload or all at once: the same callbacks in the same order, and the same bytes kept. */
  lemma {:induction false} Reassembly(before: seq<Byte>, parts: seq<seq<Byte>>)
    requires NoCutInPadding(before, parts)
    ensures Sections(before) + SectionsFrom(Rest(before), parts) == Sections(before + Concat(parts))
    ensures RestFrom(Rest(before), parts) == Rest(before + Concat(parts))
    decreases |parts|
  {
    if parts == [] {
      assert before + Concat(parts) == before;
      assert Sections(before) + [] == Sections(before);
    } else {
      var first, more := parts[0], parts[1..];
      var next, kept := before + first, Rest(before) + first;
      CutElsewhereIsInvisible(before, first);
      Reassembly(next, more);
      ConcatFirst(parts);
      Associate(before, first, Concat(more));
      Associate(Sections(before), Sections(kept), SectionsFrom(Rest(kept), more));
    }
  }

  /** What is kept between payloads is at most 4097 bytes: one byte less than the longest section. */
  lemma {:induction false} RestIsBounded(s: seq<Byte>)
    requires Clean(s)
    ensures |Rest(s)| <= 4097
  {}

  // ---------------------------------------------------------------- encoded sections

  /** A section with its ignored fields, and the number of padding bytes behind it. */
  datatype Section = Section(tableId: int, flags: int, extension: seq<Byte>, body: seq<Byte>, padding: nat)

  ghost predicate WellFormedSection(s: Section) {
    && 0 <= s.tableId < 255 && 0 <= s.flags < 16
    && |s.extension| == 5 && 5 + |s.body| < 4096
  }

  ghost function EncodeSection(s: Section): seq<Byte>
    requires WellFormedSection(s)
  {
    var n := 5 + |s.body|;
    [s.tableId, s.flags * 16 + n / 256, n % 256] + s.extension + s.body
  }

  ghost function Padding(n: nat): seq<Byte> {
    seq(n, _ => 0xff)
  }

  ghost function EncodeSections(list: seq<Section>): seq<Byte>
    requires forall k :: 0 <= k < |list| ==> WellFormedSection(list[k])
  {
    if list == [] then []
    else EncodeSection(list[0]) + (Padding(list[0].padding) + EncodeSections(list[1..]))
  }

  ghost function Bodies(list: seq<Section>): seq<seq<Byte>> {
    if list == [] then [] else [list[0].body] + Bodies(list[1..])
  }

  lemma {:induction false} EncodedHeader(s: Section, behind: seq<Byte>)
    requires WellFormedSection(s)
    ensures var e := EncodeSection(s) + behind;
            && HasSection(e) && Body(e) == s.body && After(e) == SkipPadding(behind)
            && e[0] != PADDING_BYTE
  {
    var n := EXTENDED_HEADER + |s.body|;
    var e := EncodeSection(s) + behind;
    TwelveBitsReadBack(e[1], e[2], s.flags, n);
    assert SectionLength(e) == n;
    assert e[SECTION_HEADER + n..] == behind;
    assert e[SECTION_HEADER + EXTENDED_HEADER..SECTION_HEADER + n] == s.body;
  }

  /** Every section that the parser accepts is an encoded one, with its body as delivered. */
  lemma {:induction false} EverySectionIsEncoded(s: seq<Byte>) returns (x: Section, behind: seq<Byte>)
    requires HasSection(s) && s[0] != 0xff
    ensures WellFormedSection(x) && x.body == Body(s) && s == EncodeSection(x) + behind
  {
    var n := SectionLength(s);
    DivModUnique(n, 256, s[1] % 16, s[2]);
    x := Section(s[0], s[1] / 16, s[3..8], s[8..3 + n], 0);
    behind := s[3 + n..];
    SectionParts(s, n, x);
  }

  lemma {:induction false} SectionParts(s: seq<Byte>, n: nat, x: Section)
    requires WellFormedSection(x) && 8 <= 3 + n <= |s| && n == 5 + |x.body|
    requires s[0] == x.tableId && s[1] == x.flags * 16 + n / 256 && s[2] == n % 256
    requires s[3..8] == x.extension && s[8..3 + n] == x.body
    ensures s == EncodeSection(x) + s[3 + n..]
  {
    assert s[..3] == [s[0], s[1], s[2]];
    assert s == s[..3] + s[3..8] + s[8..3 + n] + s[3 + n..];
  }

  /** Complete sections with padding between them come back, and nothing is kept. */
  lemma {:induction false} EncodedSectionsComeBack(list: seq<Section>)
    requires forall k :: 0 <= k < |list| ==> WellFormedSection(list[k])
    ensures Sections(EncodeSections(list)) == Bodies(list) && Rest(EncodeSections(list)) == []
    ensures list != [] ==> EncodeSections(list) != [] && EncodeSections(list)[0] != PADDING_BYTE
  {
    if list == [] {
      assert !HasSection([]);
    } else {
      var more, pad := EncodeSections(list[1..]), Padding(list[0].padding);
      EncodedSectionsComeBack(list[1..]);
      EncodedHeader(list[0], pad + more);
      PaddingIs(pad, |pad|);
      SkipPaddingSplit(pad, more);
      SkipNoPadding(more);
    }
  }

  /** Cutting the encoding of one section short leaves it incomplete. */
  lemma {:induction false} ShortSectionIsIncomplete(x: Section, s: seq<Byte>)
    requires WellFormedSection(x) && s <= EncodeSection(x) && |s| < |EncodeSection(x)|
    ensures !Complete(s)
  {
    EncodedHeader(x, []);
    assert EncodeSection(x) + [] == EncodeSection(x);
    var n := EXTENDED_HEADER + |x.body|;
    if |s| >= SECTION_HEADER {
      TwelveBitsReadBack(s[1], s[2], x.flags, n);
    }
  }

  /** What is left of a prefix behind its first section and the padding. */
  lemma {:induction false} PrefixBehindPadding(pad: seq<Byte>, more: seq<Byte>, t: seq<Byte>) returns (u: seq<Byte>)
    requires t <= pad + more && IsPadding(pad, |pad|) && (more != [] ==> more[0] != PADDING_BYTE)
    ensures SkipPadding(t) == u && u <= more
  {
    if |t| <= |pad| {
      forall j | 0 <= j < |t| ensures t[j] == PADDING_BYTE {
        assert t[j] == (pad + more)[j] == pad[j];
      }
      PaddingIs(t, |t|);
      u := [];
    } else {
      u := PrefixBehind(pad, more, t);
      PaddingIs(pad, |pad|);
      SkipPaddingSplit(pad, u);
      SkipNoPadding(u);
    }
  }

  lemma {:induction false} PrefixBehind<T>(a: seq<T>, b: seq<T>, t: seq<T>) returns (u: seq<T>)
    requires t <= a + b && |t| >= |a|
    ensures t == a + u && u <= b
  {
    u := t[|a|..];
    assert a + b == t + (a + b)[|t|..];
  }

  /** Wherever encoded sections break off, the sections cut off so far are the first ones. */
  lemma {:induction false} PrefixOfSections(list: seq<Section>, s: seq<Byte>)
    requires forall k :: 0 <= k < |list| ==> WellFormedSection(list[k])
    requires s <= EncodeSections(list)
    ensures Clean(s) && Sections(s) <= Bodies(list)
  {
    if list == [] {
      assert !HasSection(s);
    } else {
      var e, more := EncodeSection(list[0]), EncodeSections(list[1..]);
      if |s| < |e| {
        ShortSectionIsIncomplete(list[0], s);
      } else {
        var pad := Padding(list[0].padding);
        var t := PrefixBehind(e, pad + more, s);
        EncodedSectionsComeBack(list[1..]);
        var u := PrefixBehindPadding(pad, more, t);
        EncodedHeader(list[0], t);
        PrefixOfSections(list[1..], u);
        assert Sections(s) == [list[0].body] + Sections(u);
      }
    }
  }
}
