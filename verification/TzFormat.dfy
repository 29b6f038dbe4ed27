/** The TZif layout written out as an encoder (section 3 of RFC 8536), and the
    proof that the reader inverts it. */
module TzFormat {
  import opened Bytes
  import opened TimeZone
  import opened TzFile
  import opened Wrappers

  /** A data block (section 3.2): transition times and their type indices, local
      time types, designations, leap-second records and the two indicator lists. */
  datatype Block = Block(times: seq<int>, indices: seq<byte>, types: seq<LocalTime>, chars: seq<byte>,
                         leaps: seq<(int, int)>, isstd: seq<byte>, isut: seq<byte>)

  /** A time takes four bytes in the first block and eight in the second. */
  function TimeSize(v1: bool): nat {
    if v1 then 4 else 8
  }

  /** Everything fits its field; `v1` blocks hold times in four bytes, later ones in eight. */
  predicate Encodable(b: Block, v1: bool) {
    && |b.indices| == |b.times|
    && (forall i | 0 <= i < |b.times| :: Fits(b.times[i], TimeSize(v1)))
    && (forall i | 0 <= i < |b.types| :: Fits(b.types[i].utcOffset, 4) && b.types[i].desigIdx < 256)
    && (forall i | 0 <= i < |b.leaps| :: Fits(b.leaps[i].0, TimeSize(v1)) && Fits(b.leaps[i].1, 4))
    && Fits(|b.isut|, 4) && Fits(|b.isstd|, 4) && Fits(|b.leaps|, 4)
    && Fits(|b.times|, 4) && Fits(|b.types|, 4) && Fits(|b.chars|, 4)
  }

  /** Without leap seconds, with types for all transitions, and with indicators
      for all types or none. */
  predicate Acceptable(b: Block) {
    && b.leaps == []
    && (forall i | 0 <= i < |b.indices| :: b.indices[i] < |b.types|)
    && (|b.isstd| == 0 || |b.isstd| == |b.types|)
    && (|b.isut| == 0 || |b.isut| == |b.types|)
  }

  function CountsOf(b: Block): Counts {
    Counts(|b.isut|, |b.isstd|, |b.leaps|, |b.times|, |b.types|, |b.chars|)
  }

  function EncodeCounts(b: Block, v1: bool): seq<byte>
    requires Encodable(b, v1)
  {
    Concat([Encode(|b.isut|, 4), Encode(|b.isstd|, 4), Encode(|b.leaps|, 4),
            Encode(|b.times|, 4), Encode(|b.types|, 4), Encode(|b.chars|, 4)])
  }

  function EncodeType(t: LocalTime): (bytes: seq<byte>)
    requires Fits(t.utcOffset, 4) && t.desigIdx < 256
    ensures |bytes| == 6
  {
    Encode(t.utcOffset, 4) + [if t.isDst then 1 else 0, t.desigIdx]
  }

  function TimeChunks(b: Block, v1: bool): seq<seq<byte>>
    requires Encodable(b, v1)
  {
    seq(|b.times|, i requires 0 <= i < |b.times| => Encode(b.times[i], TimeSize(v1)))
  }

  function TypeChunks(b: Block, v1: bool): seq<seq<byte>>
    requires Encodable(b, v1)
  {
    seq(|b.types|, i requires 0 <= i < |b.types| => EncodeType(b.types[i]))
  }

  function LeapChunks(b: Block, v1: bool): seq<seq<byte>>
    requires Encodable(b, v1)
  {
    seq(|b.leaps|, i requires 0 <= i < |b.leaps| =>
      Encode(b.leaps[i].0, TimeSize(v1)) + Encode(b.leaps[i].1, 4))
  }

  function EncodeBody(b: Block, v1: bool): seq<byte>
    requires Encodable(b, v1)
  {
    Concat(TimeChunks(b, v1)) + b.indices + Concat(TypeChunks(b, v1)) + b.chars
    + Concat(LeapChunks(b, v1)) + b.isstd + b.isut
  }

  function HeaderStart(version: byte): (bytes: seq<byte>)
    ensures |bytes| == 20
  {
    [0x54, 0x5A, 0x69, 0x66] + [version] + seq(15, _ => 0)
  }

  /** A header and a body in the first format, then whatever follows. */
  function EncodeV1(version: byte, b: Block, rest: seq<byte>): seq<byte>
    requires Encodable(b, true)
  {
    HeaderStart(version) + EncodeCounts(b, true) + EncodeBody(b, true) + rest
  }

  /** A complete file with both blocks and a footer. */
  function EncodeFile(version: byte, b1: Block, b2: Block, footer: seq<byte>): seq<byte>
    requires Encodable(b1, true) && Encodable(b2, false)
  {
    EncodeV1(version, b1, HeaderStart(version) + EncodeCounts(b2, false) + EncodeBody(b2, false) + footer)
  }

  /** The zone data a block stands for. */
  function DataOf(b: Block, tzString: seq<byte>): Data
    requires |b.indices| == |b.times| && Acceptable(b)
  {
    Data(seq(|b.times|, i requires 0 <= i < |b.times| =>
           Transition(b.times[i], b.times[i] + b.types[b.indices[i]].utcOffset, b.indices[i])),
         b.types, b.chars, tzString)
  }

  // ---------- Slices of a concatenation ----------

  lemma Inner(pre: seq<byte>, x: seq<byte>, post: seq<byte>, i: nat, j: nat)
    requires i <= j <= |x|
    ensures (pre + x + post)[|pre| + i..|pre| + j] == x[i..j]
  {
  }

  lemma CountsDecode(c: seq<byte>, pre: seq<byte>, b: Block, v1: bool, post: seq<byte>)
    requires Encodable(b, v1) && c == pre + EncodeCounts(b, v1) + post
    ensures |EncodeCounts(b, v1)| == 24
    ensures CountsAt(c, |pre|) == CountsOf(b)
  {
    hide EncodeUnsigned, Encode, Signed;
    var values := [|b.isut|, |b.isstd|, |b.leaps|, |b.times|, |b.types|, |b.chars|];
    var chunks := [Encode(|b.isut|, 4), Encode(|b.isstd|, 4), Encode(|b.leaps|, 4),
                   Encode(|b.times|, 4), Encode(|b.types|, 4), Encode(|b.chars|, 4)];
    var bytes := EncodeCounts(b, v1);
    ChunkAt(chunks, 4);
    hide Concat;
    forall i | 0 <= i < 6
      ensures IntAt(c, |pre| + 4 * i, 4) == values[i]
    {
      assert bytes[4 * i..4 * i + 4] == chunks[i];
      Inner(pre, bytes, post, 4 * i, 4 * i + 4);
      SignedOfEncode(values[i], 4);
    }
    assert IntAt(c, |pre|, 4) == IntAt(c, |pre| + 4 * 0, 4) == values[0];
    assert IntAt(c, |pre| + 4, 4) == values[1];
    assert IntAt(c, |pre| + 8, 4) == values[2];
    assert IntAt(c, |pre| + 12, 4) == values[3];
    assert IntAt(c, |pre| + 16, 4) == values[4];
    assert IntAt(c, |pre| + 20, 4) == values[5];
  }

  lemma TimesDecode(c: seq<byte>, pre: seq<byte>, b: Block, v1: bool, post: seq<byte>)
    requires Encodable(b, v1) && c == pre + Concat(TimeChunks(b, v1)) + post
    ensures |Concat(TimeChunks(b, v1))| == Times(v1, |b.times|)
    ensures TimesAt(c, |pre|, v1, |b.times|) == b.times
  {
    hide EncodeUnsigned, Signed, Concat;
    var w := Times(v1, 1);
    var chunks := TimeChunks(b, v1);
    var bytes := Concat(chunks);
    ChunkAt(chunks, w);
    forall i | 0 <= i < |b.times|
      ensures TimeAt(c, |pre|, v1, i) == b.times[i]
    {
      assert Times(v1, i) == w * i;
      assert bytes[w * i..w * i + w] == chunks[i];
      Inner(pre, bytes, post, w * i, w * i + w);
      SignedOfEncode(b.times[i], w);
    }
  }

  lemma TypeDecode(c: seq<byte>, pos: nat, t: LocalTime)
    requires Fits(t.utcOffset, 4) && t.desigIdx < 256
    requires pos + 6 <= |c| && c[pos..pos + 6] == EncodeType(t)
    ensures TypeAt(c, pos) == t
  {
    var bytes := c[pos..pos + 6];
    assert c[pos..pos + 4] == bytes[..4] == Encode(t.utcOffset, 4);
    assert c[pos + 4] == bytes[4] && c[pos + 5] == bytes[5];
    SignedOfEncode(t.utcOffset, 4);
  }

  lemma TypesDecode(c: seq<byte>, pre: seq<byte>, b: Block, v1: bool, post: seq<byte>)
    requires Encodable(b, v1) && c == pre + Concat(TypeChunks(b, v1)) + post
    ensures |Concat(TypeChunks(b, v1))| == 6 * |b.types|
    ensures TypesAt(c, |pre|, |b.types|) == b.types
  {
    hide Encode, Signed, Concat, EncodeType, TypeAt;
    var chunks := TypeChunks(b, v1);
    var bytes := Concat(chunks);
    ChunkAt(chunks, 6);
    forall i | 0 <= i < |b.types|
      ensures TypeAt(c, |pre| + 6 * i) == b.types[i]
    {
      assert bytes[6 * i..6 * i + 6] == chunks[i];
      Inner(pre, bytes, post, 6 * i, 6 * i + 6);
      TypeDecode(c, |pre| + 6 * i, b.types[i]);
    }
  }

  lemma ListLengths(b: Block, v1: bool)
    requires Encodable(b, v1)
    ensures |Concat(TimeChunks(b, v1))| == Times(v1, |b.times|)
    ensures |Concat(TypeChunks(b, v1))| == 6 * |b.types|
    ensures |Concat(LeapChunks(b, v1))| == (Times(v1, 1) + 4) * |b.leaps|
  {
    ChunkAt(TimeChunks(b, v1), Times(v1, 1));
    ChunkAt(TypeChunks(b, v1), 6);
    ChunkAt(LeapChunks(b, v1), Times(v1, 1) + 4);
  }

  lemma BodyLength(b: Block, v1: bool)
    requires Encodable(b, v1)
    ensures |EncodeBody(b, v1)|
            == Times(v1, |b.times|) + |b.times| + 6 * |b.types| + |b.chars|
               + (Times(v1, 1) + 4) * |b.leaps| + |b.isstd| + |b.isut|
  {
    ListLengths(b, v1);
    hide Concat, TimeChunks, TypeChunks, LeapChunks, Times;
  }

  // ---------- Blocks and files ----------

  lemma FourParts(c: seq<byte>, pre: seq<byte>, s: seq<byte>, t: seq<byte>, u: seq<byte>, v: seq<byte>, tail: seq<byte>)
    requires c == pre + (s + t + u + v + tail)
    ensures c == pre + s + (t + u + v + tail)
    ensures c == (pre + s + t) + u + (v + tail)
    ensures c[|pre| + |s|..|pre| + |s| + |t|] == t
    ensures c[|pre| + |s| + |t| + |u|..|pre| + |s| + |t| + |u| + |v|] == v
    ensures c[|pre| + |s| + |t| + |u| + |v|..] == tail
  {
  }

  lemma PositionsOf(pos: nat, b: Block, v1: bool)
    requires Encodable(b, v1)
    ensures var k, i := CountsOf(b), pos + 24 + |Concat(TimeChunks(b, v1))|;
            && IndicesPos(pos, v1, k) == i
            && TypesPos(pos, v1, k) == i + |b.indices|
            && CharsPos(pos, v1, k) == i + |b.indices| + |Concat(TypeChunks(b, v1))|
            && CharsEnd(pos, v1, k) == i + |b.indices| + |Concat(TypeChunks(b, v1))| + |b.chars|
  {
    ListLengths(b, v1);
    hide Concat, TimeChunks, TypeChunks, LeapChunks;
  }

  /** A body without leap seconds, one part after the other. */
  lemma BodyIs(c: seq<byte>, pre: seq<byte>, b: Block, v1: bool, post: seq<byte>)
    requires Encodable(b, v1) && b.leaps == []
    requires c == pre + EncodeBody(b, v1) + post
    ensures c == pre + (Concat(TimeChunks(b, v1)) + b.indices + Concat(TypeChunks(b, v1)) + b.chars
                        + (b.isstd + b.isut + post))
  {
    hide TimeChunks, TypeChunks, LeapChunks, Concat;
    LeapsEmpty(b, v1);
  }

  /** Where its lists lie. */
  lemma ListsIn(c: seq<byte>, pre: seq<byte>, b: Block, v1: bool, post: seq<byte>)
    returns (afterTimes: seq<byte>, beforeTypes: seq<byte>, afterTypes: seq<byte>)
    requires Encodable(b, v1) && b.leaps == []
    requires c == pre + EncodeBody(b, v1) + post
    ensures c == pre + Concat(TimeChunks(b, v1)) + afterTimes
    ensures c == beforeTypes + Concat(TypeChunks(b, v1)) + afterTypes
    ensures |beforeTypes| == |pre| + |Concat(TimeChunks(b, v1))| + |b.indices|
  {
    BodyIs(c, pre, b, v1, post);
    hide TimeChunks, TypeChunks, Concat, EncodeBody;
    var times, types := Concat(TimeChunks(b, v1)), Concat(TypeChunks(b, v1));
    var tail := b.isstd + b.isut + post;
    FourParts(c, pre, times, b.indices, types, b.chars, tail);
    afterTimes, beforeTypes, afterTypes := b.indices + types + b.chars + tail, pre + times + b.indices, b.chars + tail;
  }

  /** Where its byte strings lie. */
  lemma StringsIn(c: seq<byte>, pre: seq<byte>, b: Block, v1: bool, post: seq<byte>)
    requires Encodable(b, v1) && b.leaps == []
    requires c == pre + EncodeBody(b, v1) + post
    ensures var i, n := |pre| + |Concat(TimeChunks(b, v1))|, |Concat(TypeChunks(b, v1))|;
            var t, e := i + |b.indices|, i + |b.indices| + n + |b.chars|;
            && e + |b.isstd| + |b.isut| + |post| == |c|
            && c[i..t] == b.indices && c[t + n..e] == b.chars && c[e + |b.isstd| + |b.isut|..] == post
  {
    BodyIs(c, pre, b, v1, post);
    hide TimeChunks, TypeChunks, Concat, EncodeBody;
    var times, types := Concat(TimeChunks(b, v1)), Concat(TypeChunks(b, v1));
    var tail := b.isstd + b.isut + post;
    FourParts(c, pre, times, b.indices, types, b.chars, tail);
    assert tail[|b.isstd| + |b.isut|..] == post;
  }

  /** The byte strings of a body without leap seconds, found at the reader's positions. */
  lemma BodyStrings(c: seq<byte>, pre: seq<byte>, b: Block, v1: bool, post: seq<byte>)
    requires Encodable(b, v1) && b.leaps == []
    requires c == pre + EncodeBody(b, v1) + post && |pre| >= 24
    ensures var p, k := |pre| - 24, CountsOf(b);
            var indices, types := IndicesPos(p, v1, k), TypesPos(p, v1, k);
            var chars, end := CharsPos(p, v1, k), CharsEnd(p, v1, k);
            && indices <= types <= chars <= end <= |c|
            && c[indices..types] == b.indices && c[chars..end] == b.chars
            && From(c, end + |b.isstd| + |b.isut|) == post
  {
    PositionsOf(|pre| - 24, b, v1);
    hide TimeChunks, TypeChunks, LeapChunks, Concat, EncodeBody, Encodable;
    hide IndicesPos, TypesPos, CharsPos, CharsEnd, CountsOf;
    StringsIn(c, pre, b, v1, post);
  }

  /** And its two lists. */
  lemma BodyLists(c: seq<byte>, pre: seq<byte>, b: Block, v1: bool, post: seq<byte>)
    requires Encodable(b, v1) && b.leaps == []
    requires c == pre + EncodeBody(b, v1) + post && |pre| >= 24
    ensures var pos := TypesPos(|pre| - 24, v1, CountsOf(b));
            && |pre| + Times(v1, |b.times|) <= pos <= pos + 6 * |b.types| <= |c|
            && TimesAt(c, |pre|, v1, |b.times|) == b.times
            && TypesAt(c, pos, |b.types|) == b.types
  {
    PositionsOf(|pre| - 24, b, v1);
    hide TimesAt, TypesAt, EncodeBody, Concat, TimeChunks, TypeChunks, LeapChunks, Encodable;
    hide IndicesPos, TypesPos, CharsPos, CharsEnd, CountsOf;
    var afterTimes, beforeTypes, afterTypes := ListsIn(c, pre, b, v1, post);
    TimesDecode(c, pre, b, v1, afterTimes);
    TypesDecode(c, beforeTypes, b, v1, afterTypes);
  }

  /** A block reads back as the data it stands for exactly when it is acceptable,
      and is refused otherwise. */
  lemma BlockDecode(c: seq<byte>, pre: seq<byte>, b: Block, v1: bool, post: seq<byte>)
    requires Encodable(b, v1)
    requires c == pre + EncodeCounts(b, v1) + EncodeBody(b, v1) + post
    ensures BlockReadable(c, |pre|, v1) <==> Acceptable(b)
    ensures Acceptable(b) ==> BlockData(c, |pre|, v1) == DataOf(b, if v1 then [] else post)
  {
    hide TimesAt, TypesAt, CountsAt, EncodeCounts, EncodeBody, From;
    var counts, body := EncodeCounts(b, v1), EncodeBody(b, v1);
    assert c == pre + counts + (body + post);
    CountsDecode(c, pre, b, v1, body + post);
    if b.leaps == [] {
      BodyStrings(c, pre + counts, b, v1, post);
      BodyLists(c, pre + counts, b, v1, post);
    }
  }

  lemma LeapsEmpty(b: Block, v1: bool)
    requires Encodable(b, v1) && b.leaps == []
    ensures Concat(LeapChunks(b, v1)) == []
  {
  }

  /** The counts of the first block, and where the reader's sum of them leads. */
  lemma FirstHeader(version: byte, b: Block, rest: seq<byte>)
    requires Encodable(b, true)
    ensures var c := EncodeV1(version, b, rest);
            && |c| >= 44 && c[..4] == [0x54, 0x5A, 0x69, 0x66] && c[4] == version
            && CountsAt(c, 20) == CountsOf(b)
            && SecondHeaderPos(c) == |c| - |rest|
  {
    hide CountsAt, EncodeBody, EncodeCounts;
    var c := EncodeV1(version, b, rest);
    assert c == HeaderStart(version) + EncodeCounts(b, true) + (EncodeBody(b, true) + rest);
    CountsDecode(c, HeaderStart(version), b, true, EncodeBody(b, true) + rest);
    BodyLength(b, true);
    assert c[..20] == HeaderStart(version);
  }

  /** Loading inverts encoding.  A version 2 file yields its second block and
      footer, and the skip over the first block lands on the second header
      whatever that block holds; it loads exactly when the second block is
      acceptable. */
  lemma LoadVersion2(b1: Block, b2: Block, footer: seq<byte>)
    requires Encodable(b1, true) && Encodable(b2, false)
    ensures FileData(EncodeFile(0x32, b1, b2, footer)) == if Acceptable(b2) then Some(DataOf(b2, footer)) else None
  {
    hide BlockReadable, BlockData, EncodeBody, EncodeCounts, CountsAt, DataOf, Acceptable;
    var c := EncodeFile(0x32, b1, b2, footer);
    var pos := SecondBlock(b1, b2, footer);
    SecondDecode(b1, b2, footer, pos);
  }

  /** The second block of a version 2 file is the one chosen. */
  lemma SecondBlock(b1: Block, b2: Block, footer: seq<byte>) returns (pos: nat)
    requires Encodable(b1, true) && Encodable(b2, false)
    ensures var c := EncodeFile(0x32, b1, b2, footer);
            && ChosenBlock(c) == Some((pos, false)) && 64 <= pos <= |c|
            && c == c[..pos] + EncodeCounts(b2, false) + EncodeBody(b2, false) + footer
  {
    hide EncodeBody, EncodeCounts, CountsAt;
    var rest := HeaderStart(0x32) + EncodeCounts(b2, false) + EncodeBody(b2, false) + footer;
    var c := EncodeFile(0x32, b1, b2, footer);
    FirstHeader(0x32, b1, rest);
    var p := |c| - |rest|;
    assert c[p..] == rest;
    assert c[p..p + 4] == rest[..4] == HeaderStart(0x32)[..4] == [0x54, 0x5A, 0x69, 0x66];
    assert c == c[..p] + rest;
    pos := p + 20;
    assert c[..pos] == c[..p] + HeaderStart(0x32);
  }

  lemma SecondDecode(b1: Block, b2: Block, footer: seq<byte>, pos: nat)
    requires Encodable(b1, true) && Encodable(b2, false)
    requires var c := EncodeFile(0x32, b1, b2, footer);
             pos <= |c| && c == c[..pos] + EncodeCounts(b2, false) + EncodeBody(b2, false) + footer
    ensures var c := EncodeFile(0x32, b1, b2, footer);
            && (BlockReadable(c, pos, false) <==> Acceptable(b2))
            && (Acceptable(b2) ==> BlockData(c, pos, false) == DataOf(b2, footer))
  {
    hide BlockReadable, BlockData, EncodeBody, EncodeCounts, EncodeFile, DataOf, Acceptable;
    var c := EncodeFile(0x32, b1, b2, footer);
    BlockDecode(c, c[..pos], b2, false, footer);
  }

  /** Any other version byte, a version 3 file's included, makes the reader load
      the first block and stop there. */
  lemma LoadOtherVersion(version: byte, b: Block, rest: seq<byte>)
    requires version != 0x32 && Encodable(b, true)
    ensures FileData(EncodeV1(version, b, rest)) == if Acceptable(b) then Some(DataOf(b, [])) else None
  {
    hide BlockReadable, BlockData, EncodeBody, EncodeCounts, CountsAt, DataOf, Acceptable;
    FirstHeader(version, b, rest);
    BlockDecode(EncodeV1(version, b, rest), HeaderStart(version), b, true, rest);
  }

  // ---------- Files that are refused ----------

  /** A file too short for a header, or that does not begin with "TZif". */
  lemma BadStartRefused(c: seq<byte>)
    requires |c| < 44 || c[0] != 0x54 || c[1] != 0x5A || c[2] != 0x69 || c[3] != 0x66
    ensures FileData(c) == None
  {
    if |c| >= 44 {
      var head := c[..4];
      assert head[0] == c[0] && head[1] == c[1] && head[2] == c[2] && head[3] == c[3];
    }
  }

  /** A version 2 file whose second header does not begin with "TZif" or is not there. */
  lemma BadSecondHeaderRefused(b: Block, rest: seq<byte>)
    requires Encodable(b, true)
    requires |rest| < 4 || rest[0] != 0x54 || rest[1] != 0x5A || rest[2] != 0x69 || rest[3] != 0x66
    ensures FileData(EncodeV1(0x32, b, rest)) == None
  {
    hide EncodeBody, EncodeCounts, CountsAt;
    var c := EncodeV1(0x32, b, rest);
    FirstHeader(0x32, b, rest);
    var p := |c| - |rest|;
    assert c[p..] == rest;
    if |rest| >= 4 {
      var head := c[p..p + 4];
      assert head[0] == rest[0] && head[1] == rest[1] && head[2] == rest[2] && head[3] == rest[3];
    }
  }

  /** A version 2 file cut short loads exactly when what is left reaches to the end
      of the designations: the indicators are passed over unread. */
  lemma TruncatedRefused(b1: Block, b2: Block, footer: seq<byte>, n: nat)
    requires Encodable(b1, true) && Encodable(b2, false) && Acceptable(b2)
    requires n <= |EncodeFile(0x32, b1, b2, footer)|
    ensures var c := EncodeFile(0x32, b1, b2, footer);
            FileData(c[..n]).Some? <==> n >= |c| - |footer| - |b2.isstd| - |b2.isut|
  {
    hide BlockReadable, EncodeBody, EncodeCounts, CountsAt, DataOf, Acceptable, EncodeFile;
    var c := EncodeFile(0x32, b1, b2, footer);
    var pos := SecondBlock(b1, b2, footer);
    SecondDecode(b1, b2, footer, pos);
    SecondEnd(c, pos, b2, footer);
    PrefixChosen(c, n, pos);
    PrefixReadable(c, n, pos);
  }

  lemma SecondEnd(c: seq<byte>, pos: nat, b: Block, footer: seq<byte>)
    requires Encodable(b, false) && Acceptable(b)
    requires pos <= |c| && c == c[..pos] + EncodeCounts(b, false) + EncodeBody(b, false) + footer
    ensures pos + 24 <= |c|
    ensures CharsEnd(pos, false, CountsAt(c, pos)) == |c| - |footer| - |b.isstd| - |b.isut|
  {
    hide EncodeBody, EncodeCounts, CountsAt;
    assert c == c[..pos] + EncodeCounts(b, false) + (EncodeBody(b, false) + footer);
    CountsDecode(c, c[..pos], b, false, EncodeBody(b, false) + footer);
    BodyLength(b, false);
  }

  /** A shorter file leads to the same block, or to none that could be read. */
  lemma PrefixChosen(c: seq<byte>, n: nat, pos: nat)
    requires n <= |c| && ChosenBlock(c) == Some((pos, false)) && pos >= 44
    ensures n >= pos ==> ChosenBlock(c[..n]) == Some((pos, false))
    ensures ChosenBlock(c[..n]).Some? ==> ChosenBlock(c[..n]) == Some((pos, false))
  {
    if n >= 44 {
      assert c[..n][..4] == c[..4];
      PrefixCounts(c, n, 20);
      hide CountsAt;
      var p := SecondHeaderPos(c);
      if p + 4 <= n { assert c[..n][p..p + 4] == c[p..p + 4]; }
    }
  }

  lemma PrefixCounts(c: seq<byte>, n: nat, pos: nat)
    requires pos + 24 <= n <= |c|
    ensures CountsAt(c[..n], pos) == CountsAt(c, pos)
  {
    PrefixInt(c, n, pos);
    PrefixInt(c, n, pos + 4);
    PrefixInt(c, n, pos + 8);
    PrefixInt(c, n, pos + 12);
    PrefixInt(c, n, pos + 16);
    PrefixInt(c, n, pos + 20);
    hide IntAt;
  }

  lemma PrefixInt(c: seq<byte>, n: nat, pos: nat)
    requires pos + 4 <= n <= |c|
    ensures IntAt(c[..n], pos, 4) == IntAt(c, pos, 4)
  {
    assert c[..n][pos..pos + 4] == c[pos..pos + 4];
  }

  lemma PrefixReadable(c: seq<byte>, n: nat, pos: nat)
    requires n <= |c| && BlockReadable(c, pos, false)
    ensures pos + 24 <= CharsEnd(pos, false, CountsAt(c, pos))
    ensures BlockReadable(c[..n], pos, false) <==> CharsEnd(pos, false, CountsAt(c, pos)) <= n
  {
    if pos + 24 <= n {
      PrefixCounts(c, n, pos);
      hide CountsAt;
      var k := CountsAt(c, pos);
      if CharsPos(pos, false, k) <= n {
        assert IndicesAt(c[..n], pos, false, k) == IndicesAt(c, pos, false, k);
      }
    }
  }
}
