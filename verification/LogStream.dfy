/** Integers formatted in place into a fixed buffer, and the stream that
    accepts each item wholly or not at all. */
module LogStream {
  import opened CppInt
  import opened Numerals

  // ---------- convert, convertHex ----------

  /** Indexed from the middle, so that a negative remainder finds its digit. */
  const DIGITS := "9876543210123456789"
  const ZERO := 9

  function Reversed(s: string): (r: string)
    ensures |r| == |s|
  {
    seq(|s|, i requires 0 <= i < |s| => s[|s| - 1 - i])
  }

  lemma ReversedAppend(s: string, c: char)
    ensures Reversed(s + [c]) == [c] + Reversed(s)
  {
  }

  /** `std::reverse` on `buf[lo..hi]`. */
  method Reverse(buf: array<char>, lo: nat, hi: nat)
    requires lo <= hi <= buf.Length
    modifies buf
    ensures buf[..] == old(buf[..lo]) + Reversed(old(buf[lo..hi])) + old(buf[hi..])
  {
    var i, j := lo, hi;
    while i < j
      invariant lo <= i <= hi && i <= j + 1 && i - lo == hi - j
      invariant forall k | 0 <= k < buf.Length && (k < lo || k >= hi) :: buf[k] == old(buf[k])
      invariant forall k | lo <= k < i :: buf[k] == old(buf[hi - 1 - (k - lo)])
      invariant forall k | j <= k < hi :: buf[k] == old(buf[hi - 1 - (k - lo)])
      invariant forall k | i <= k < j :: buf[k] == old(buf[k])
    {
      j := j - 1;
      buf[i], buf[j] := buf[j], buf[i];
      i := i + 1;
    }
  }

  lemma TextThenNul(s: string, at: nat, p: nat, c: char)
    requires at <= p < |s|
    ensures var s' := s[p := c];
            s'[..at] == s[..at] && s'[at..p] == s[at..p] && s'[p..] == [c] + s[p + 1..]
  {
  }

  lemma Regroup(a: string, b: string, c: string, d: string)
    ensures a + b + (c + d) == a + b + c + d
  {
  }

  /** How both conversions end: a NUL after the text, and the text turned around. */
  method Terminate(buf: array<char>, at: nat, p: nat)
    requires at <= p < buf.Length
    modifies buf
    ensures buf[..] == old(buf[..at]) + Reversed(old(buf[at..p])) + ['\0'] + old(buf[p + 1..])
  {
    hide Reversed;
    ghost var before, text, after := buf[..at], buf[at..p], buf[p + 1..];
    TextThenNul(buf[..], at, p, '\0');
    buf[p] := '\0';
    Reverse(buf, at, p);
    Regroup(before, Reversed(text), ['\0'], after);
  }

  /** The digit loop of `convert`: least digit first, without negating `value`. */
  method WriteDigits(buf: array<char>, at: nat, value: int) returns (p: nat)
    requires at + |Numeral(Abs(value), 10)| <= buf.Length
    modifies buf
    ensures p == at + |Numeral(Abs(value), 10)|
    ensures Reversed(buf[at..p]) == Numeral(Abs(value), 10)
    ensures buf[..at] == old(buf[..at]) && buf[p..] == old(buf[p..])
  {
    hide DigitChar;
    var i := value;
    p := at;
    ghost var number := Numeral(Abs(value), 10);
    while true
      invariant at <= p < buf.Length
      invariant number == Numeral(Abs(i), 10) + Reversed(buf[at..p])
      invariant buf[..at] == old(buf[..at]) && buf[p..] == old(buf[p..])
      decreases Abs(i)
    {
      var lsd := Rem(i, 10);
      ghost var written := buf[at..p];
      LeastDigit(i);
      ReversedAppend(written, DIGITS[ZERO + lsd]);
      i := Quot(i, 10);
      buf[p] := DIGITS[ZERO + lsd];
      p := p + 1;
      assert buf[at..p] == written + [DIGITS[ZERO + lsd]];
      assert buf[p..] == old(buf[p..]);
      if i == 0 { break; }
    }
  }

  /** Writes `value` at `at`, terminated by a NUL, and nothing else. */
  method Convert(buf: array<char>, at: nat, value: int) returns (len: nat)
    requires at + |Decimal(value)| < buf.Length
    modifies buf
    ensures len == |Decimal(value)|
    ensures buf[..] == old(buf[..at]) + Decimal(value) + ['\0'] + old(buf[at + len + 1..])
  {
    hide Numeral, Reversed;
    var p := WriteDigits(buf, at, value);
    if value < 0 {
      ghost var digits := buf[at..p];
      ReversedAppend(digits, '-');
      buf[p] := '-';
      p := p + 1;
      assert buf[at..p] == digits + ['-'];
    }
    assert buf[..at] == old(buf[..at]) && buf[p + 1..] == old(buf[p + 1..]);
    assert Reversed(buf[at..p]) == Decimal(value);
    len := p - at;
    Terminate(buf, at, p);
  }

  /** The digit a truncating division leaves, for either sign. */
  lemma LeastDigit(i: int)
    ensures -9 <= Rem(i, 10) <= 9
    ensures Abs(Quot(i, 10)) == Abs(i) / 10
    ensures DIGITS[ZERO + Rem(i, 10)] == DigitChar(Abs(i) % 10)
  {
    RemSign(i, 10);
    SymmetricDigits(Rem(i, 10));
  }

  lemma SymmetricDigits(r: int)
    requires -9 <= r <= 9
    ensures DIGITS[ZERO + r] == DigitChar(Abs(r))
  {
  }

  method ConvertHex(buf: array<char>, at: nat, value: nat) returns (len: nat)
    requires at + |Numeral(value, 16)| < buf.Length
    modifies buf
    ensures len == |Numeral(value, 16)|
    ensures buf[..] == old(buf[..at]) + Numeral(value, 16) + ['\0'] + old(buf[at + len + 1..])
  {
    var i, p := value, at;
    while true
      invariant at <= p < buf.Length
      invariant Numeral(value, 16) == Numeral(i, 16) + Reversed(buf[at..p])
      invariant buf[..at] == old(buf[..at]) && buf[p..] == old(buf[p..])
      decreases i
    {
      var lsd := i % 16;
      ghost var written := buf[at..p];
      ReversedAppend(written, HEX_DIGITS[lsd]);
      i := i / 16;
      buf[p] := HEX_DIGITS[lsd];
      p := p + 1;
      assert buf[at..p] == written + [HEX_DIGITS[lsd]];
      assert buf[p..] == old(buf[p..]);
      if i == 0 { break; }
    }
    assert Reversed(buf[at..p]) == Numeral(value, 16);
    assert buf[p + 1..] == old(buf[p + 1..]);
    len := p - at;
    Terminate(buf, at, p);
  }

  // ---------- FixedBuffer ----------

  class FixedBuffer {
    const data: array<char>
    var cur: nat

    ghost predicate Valid()
      reads this
    {
      cur <= data.Length
    }

    function Contents(): string
      reads this, data
      requires Valid()
    {
      data[..cur]
    }

    constructor (size: nat)
      ensures Valid() && fresh(data) && data.Length == size && Contents() == []
    {
      data := new char[size];
      cur := 0;
    }

    function Avail(): nat
      reads this
      requires Valid()
    {
      data.Length - cur
    }

    /** Appends all of `text`, or nothing when it would leave no room. */
    method Append(text: string)
      requires Valid()
      modifies this, data
      ensures Valid()
      ensures Contents() == if old(Avail()) > |text| then old(Contents()) + text else old(Contents())
    {
      if Avail() > |text| {
        forall i | 0 <= i < |text| {
          data[cur + i] := text[i];
        }
        cur := cur + |text|;
        assert data[..cur] == old(data[..cur]) + text;
      }
    }

    /** Counts in text written at the cursor from outside. */
    method Add(len: nat)
      requires Valid() && len <= Avail()
      modifies this
      ensures Valid() && cur == old(cur) + len
    {
      cur := cur + len;
    }

    method Reset()
      modifies this
      ensures Valid() && Contents() == []
    {
      cur := 0;
    }
  }

  // ---------- LogStream ----------

  const SMALL_BUFFER := 4000
  const MAX_NUMERIC_SIZE := 48

  /** What can be streamed.  Text covers strings, characters, booleans and null strings. */
  datatype Item = Text(text: string) | Integer(value: int) | Pointer(address: nat)

  /** Integers of up to 64 bits, and addresses. */
  predicate Representable(item: Item) {
    match item
    case Text(_) => true
    case Integer(v) => INT64_MIN <= v <= UINT64_MAX
    case Pointer(p) => p <= UINT64_MAX
  }

  function Rendered(item: Item): string {
    match item
    case Text(s) => s
    case Integer(v) => Decimal(v)
    case Pointer(p) => "0x" + Numeral(p, 16)
  }

  /** Text needs room for itself and one byte; a number is tried only with 48 bytes free. */
  predicate Accepted(room: int, item: Item) {
    if item.Text? then room > |item.text| else room >= MAX_NUMERIC_SIZE
  }

  function Written(contents: string, item: Item, size: nat): string {
    if Accepted(size - |contents|, item) then contents + Rendered(item) else contents
  }

  class LogStream {
    const buffer: FixedBuffer

    ghost predicate Valid()
      reads this, buffer
    {
      buffer.Valid() && buffer.cur < buffer.data.Length == SMALL_BUFFER
    }

    function Contents(): string
      reads this, buffer, buffer.data
      requires Valid()
    {
      buffer.Contents()
    }

    constructor ()
      ensures Valid() && Contents() == [] && fresh(buffer) && fresh(buffer.data)
    {
      buffer := new FixedBuffer(SMALL_BUFFER);
    }

    method Append(text: string)
      requires Valid()
      modifies buffer, buffer.data
      ensures Valid()
      ensures Contents() == Written(old(Contents()), Text(text), SMALL_BUFFER)
      ensures Contents() == if |old(Contents())| + |text| < 4000 then old(Contents()) + text else old(Contents())
    {
      buffer.Append(text);
    }

    method WriteBool(v: bool)
      requires Valid()
      modifies buffer, buffer.data
      ensures Valid()
      ensures Contents() == Written(old(Contents()), Text(if v then "1" else "0"), SMALL_BUFFER)
    {
      buffer.Append(if v then "1" else "0");
    }

    /** `formatInteger`, for every integer type up to 64 bits: with 48 bytes free a
        canonical decimal of the number is appended, otherwise nothing. */
    method FormatInteger(v: int)
      requires Valid() && INT64_MIN <= v <= UINT64_MAX
      modifies buffer, buffer.data
      ensures Valid()
      ensures Contents() == Written(old(Contents()), Integer(v), SMALL_BUFFER)
      ensures var was, now := old(Contents()), Contents();
              if |was| + 48 <= 4000 then
                was <= now && IsDecimal(now[|was|..]) && DecimalValue(now[|was|..]) == v
              else
                now == was
    {
      RenderedReads(Integer(v));
      hide Decimal;
      if buffer.Avail() >= MAX_NUMERIC_SIZE {
        DecimalLength(v);
        var len := Convert(buffer.data, buffer.cur, v);
        buffer.Add(len);
      }
    }

    /** Under the same condition 0x and a canonical hexadecimal numeral. */
    method WritePointer(p: nat)
      requires Valid() && p <= UINT64_MAX
      modifies buffer, buffer.data
      ensures Valid()
      ensures Contents() == Written(old(Contents()), Pointer(p), SMALL_BUFFER)
      ensures var was, now := old(Contents()), Contents();
              if |was| + 48 <= 4000 then
                && |now| > |was| + 2 && was <= now
                && now[|was|] == '0' && now[|was| + 1] == 'x'
                && IsNumeral(now[|was| + 2..], 16) && Value(now[|was| + 2..], 16) == p
              else
                now == was
    {
      hide Numeral, Written;
      PointerReads(Contents(), p);
      PutPointer(p);
    }

    method PutPointer(p: nat)
      requires Valid() && p <= UINT64_MAX
      modifies buffer, buffer.data
      ensures Valid()
      ensures Contents() == Written(old(Contents()), Pointer(p), SMALL_BUFFER)
    {
      hide Numeral, Reversed;
      if buffer.Avail() >= MAX_NUMERIC_SIZE {
        HexLength(p);
        var at := buffer.cur;
        ghost var before := buffer.data[..at];
        buffer.data[at] := '0';
        buffer.data[at + 1] := 'x';
        assert buffer.data[..at + 2] == before + "0x";
        var len := ConvertHex(buffer.data, at + 2, p);
        buffer.Add(len + 2);
        assert buffer.data[..at + 2 + len] == before + ("0x" + Numeral(p, 16));
      }
    }

    /** Any one item. */
    method Write(item: Item)
      requires Valid() && Representable(item)
      modifies buffer, buffer.data
      ensures Valid()
      ensures Contents() == Written(old(Contents()), item, SMALL_BUFFER)
    {
      match item
      case Text(text) => Append(text);
      case Integer(v) => FormatInteger(v);
      case Pointer(p) => WritePointer(p);
    }

    /** A chain of `<<` leaves in the buffer what it held and whole items only, each
        of which reads back. */
    method WriteAll(items: seq<Item>) returns (ghost parts: seq<string>)
      requires Valid() && forall i | 0 <= i < |items| :: Representable(items[i])
      modifies buffer, buffer.data
      ensures Valid()
      ensures Contents() == WrittenAll(old(Contents()), items, SMALL_BUFFER)
      ensures Contents() == old(Contents()) + Joined(items, Kept(SMALL_BUFFER - |old(Contents())|, items))
      ensures Contents() == old(Contents()) + Flatten(parts) && |parts| == |items|
      ensures forall i | 0 <= i < |items| ::
                if Kept(SMALL_BUFFER - |old(Contents())|, items)[i] then Reads(parts[i], items[i]) else parts[i] == []
    {
      parts := JoinedReads(items, Kept(SMALL_BUFFER - |Contents()|, items));
      hide Rendered, Accepted, Written, Reads, Kept, Joined, Flatten;
      ghost var last := WrittenAll(Contents(), items, SMALL_BUFFER);
      OnlyWholeItems(Contents(), items, SMALL_BUFFER);
      assert items[0..] == items;
      for i := 0 to |items|
        invariant Valid() && WrittenAll(Contents(), items[i..], SMALL_BUFFER) == last
      {
        assert items[i..][1..] == items[i + 1..];
        Write(items[i]);
      }
    }

    method ResetBuffer()
      requires Valid()
      modifies buffer
      ensures Valid() && Contents() == []
    {
      buffer.Reset();
    }
  }

  lemma PointerReads(was: string, p: nat)
    ensures var now := Written(was, Pointer(p), SMALL_BUFFER);
            if |was| + 48 <= 4000 then
              && |now| > |was| + 2 && was <= now
              && now[|was|] == '0' && now[|was| + 1] == 'x'
              && IsNumeral(now[|was| + 2..], 16) && Value(now[|was| + 2..], 16) == p
            else
              now == was
  {
    NumeralValue(p, 16);
    PointerText(was, Numeral(p, 16));
    hide Numeral, IsNumeral, Value;
  }

  lemma PointerText(before: string, numeral: string)
    ensures var now, n := before + ("0x" + numeral), |before|;
            && before <= now && |now| == n + 2 + |numeral|
            && now[n] == '0' && now[n + 1] == 'x' && now[n + 2..] == numeral
  {
  }

  // ---------- Any sequence of items ----------

  function WrittenAll(contents: string, items: seq<Item>, size: nat): string
    decreases |items|
  {
    if items == [] then contents
    else WrittenAll(Written(contents, items[0], size), items[1..], size)
  }

  /** Some of the items, in order, rendered one after the other. */
  function Joined(items: seq<Item>, kept: seq<bool>): string
    requires |items| == |kept|
  {
    if items == [] then []
    else (if kept[0] then Rendered(items[0]) else []) + Joined(items[1..], kept[1..])
  }

  /** What a reader makes of a piece of text: the text itself, a canonical decimal
      of the number, or 0x and a canonical hexadecimal numeral of the address. */
  predicate Reads(text: string, item: Item) {
    match item
    case Text(s) => text == s
    case Integer(v) => IsDecimal(text) && DecimalValue(text) == v
    case Pointer(p) => |text| > 2 && text[..2] == "0x" && IsNumeral(text[2..], 16) && Value(text[2..], 16) == p
  }

  lemma RenderedReads(item: Item)
    ensures Reads(Rendered(item), item)
  {
    match item
    case Text(_) =>
    case Integer(v) => DecimalValueOf(v);
    case Pointer(p) =>
      NumeralValue(p, 16);
      assert ("0x" + Numeral(p, 16))[2..] == Numeral(p, 16);
      assert ("0x" + Numeral(p, 16))[..2] == "0x";
  }

  function Flatten(parts: seq<string>): string {
    if parts == [] then [] else parts[0] + Flatten(parts[1..])
  }

  /** The items kept are there one after the other, each of them readable. */
  lemma {:induction false} JoinedReads(items: seq<Item>, kept: seq<bool>) returns (parts: seq<string>)
    requires |items| == |kept|
    ensures |parts| == |items| && Joined(items, kept) == Flatten(parts)
    ensures forall i | 0 <= i < |items| :: if kept[i] then Reads(parts[i], items[i]) else parts[i] == []
    decreases |items|
  {
    if items == [] {
      parts := [];
    } else {
      RenderedReads(items[0]);
      hide Reads, Rendered;
      var rest := JoinedReads(items[1..], kept[1..]);
      parts := [if kept[0] then Rendered(items[0]) else []] + rest;
      assert parts[1..] == rest;
    }
  }

  lemma RenderedLength(item: Item)
    requires Representable(item) && !item.Text?
    ensures 0 < |Rendered(item)| <= 20
  {
    match item
    case Integer(v) => DecimalLength(v);
    case Pointer(p) => HexLength(p);
  }

  /** Which items find room, tried in order with `room` bytes free at first. */
  function Kept(room: int, items: seq<Item>): (kept: seq<bool>)
    ensures |kept| == |items|
  {
    if items == [] then []
    else
      var k := Accepted(room, items[0]);
      [k] + Kept(if k then room - |Rendered(items[0])| else room, items[1..])
  }

  /** Whatever is streamed, the buffer keeps a free byte and holds what it held
      before followed by whole items only, in order. */
  lemma {:induction false} OnlyWholeItems(contents: string, items: seq<Item>, size: nat)
    requires |contents| < size
    requires forall i | 0 <= i < |items| :: Representable(items[i])
    ensures |WrittenAll(contents, items, size)| < size
    ensures WrittenAll(contents, items, size) == contents + Joined(items, Kept(size - |contents|, items))
    decreases |items|
  {
    if items != [] {
      if !items[0].Text? { RenderedLength(items[0]); }
      hide Rendered;
      OnlyWholeItems(Written(contents, items[0], size), items[1..], size);
      var kept := Kept(size - |contents|, items);
      assert kept[1..] == Kept(size - |Written(contents, items[0], size)|, items[1..]);
    }
  }

  /** Item `i` is there exactly when it was acceptable after those kept before it. */
  lemma {:induction false} KeptWhenAccepted(room: int, items: seq<Item>, i: nat)
    requires i < |items|
    ensures var kept := Kept(room, items);
            var free := room - |Joined(items[..i], kept[..i])|;
            kept[i] <==> if items[i].Text? then free > |items[i].text| else free >= 48
  {
    hide Rendered;
    if i > 0 {
      var kept := Kept(room, items);
      KeptWhenAccepted(if kept[0] then room - |Rendered(items[0])| else room, items[1..], i - 1);
      assert items[..i][1..] == items[1..][..i - 1];
      assert kept[..i][1..] == kept[1..][..i - 1];
    }
  }

  /** Nothing is dropped while the items together leave room for one number. */
  lemma {:induction false} NothingDropped(contents: string, items: seq<Item>, size: nat)
    requires forall i | 0 <= i < |items| :: Representable(items[i])
    requires |contents| + |Joined(items, seq(|items|, _ => true))| + MAX_NUMERIC_SIZE <= size
    ensures WrittenAll(contents, items, size) == contents + Joined(items, seq(|items|, _ => true))
    decreases |items|
  {
    if items != [] {
      assert seq(|items|, _ => true)[1..] == seq(|items| - 1, _ => true);
      NothingDropped(contents + Rendered(items[0]), items[1..], size);
    }
  }
}
