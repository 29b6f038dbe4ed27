/** Reading a TZif file (section 3 of RFC 8536) through a file cursor. */
module TzFile {
  import opened Bytes
  import opened CppInt
  import opened TimeZone
  import opened Wrappers

  /** The first four are thrown as `logic_error` or one of its subclasses;
      `Unsupported` is a plain `return false`. */
  datatype Error = NotEnoughData | BadHead | BadLength | BadIndex | Unsupported

  const MAGIC: seq<byte> := [0x54, 0x5A, 0x69, 0x66]
  const VERSION_2: byte := 0x32

  // ---------- The cursor ----------

  class File {
    const contents: seq<byte>
    var pos: nat

    constructor (contents: seq<byte>)
      ensures this.contents == contents && pos == 0
    {
      this.contents := contents;
      pos := 0;
    }

    /** Reads `n` bytes or fails; a short read still consumes what was left. */
    method ReadBytes(n: int) returns (r: Result<seq<byte>, Error>)
      modifies this
      ensures r.Success? <==> n == 0 || (0 < n && old(pos) + n <= |contents|)
      ensures r.Success? ==> pos == old(pos) + n
      ensures r.Success? ==> r.value == if n == 0 then [] else contents[old(pos)..old(pos) + n]
    {
      if n == 0 {
        r := Success([]);
      } else if 0 < n && pos + n <= |contents| {
        r := Success(contents[pos..pos + n]);
        pos := pos + n;
      } else {
        if n > 0 { pos := Max(pos, |contents|); }
        r := Failure(NotEnoughData);
      }
    }

    method ReadInt(width: nat) returns (r: Result<int, Error>)
      requires width > 0
      modifies this
      ensures r.Success? <==> old(pos) + width <= |contents|
      ensures r.Success? ==> r.value == IntAt(contents, old(pos), width) && pos == old(pos) + width
    {
      var bytes :- ReadBytes(width);
      r := Success(Signed(bytes));
    }

    method ReadUInt8() returns (r: Result<byte, Error>)
      modifies this
      ensures r.Success? <==> old(pos) < |contents|
      ensures r.Success? ==> r.value == contents[old(pos)] && pos == old(pos) + 1
    {
      var bytes :- ReadBytes(1);
      r := Success(bytes[0]);
    }

    method ReadToEnd() returns (bytes: seq<byte>)
      modifies this
      ensures bytes == From(contents, old(pos))
    {
      bytes := From(contents, pos);
      pos := Max(pos, |contents|);
    }

    /** `fseek` from the current position: past the end is allowed, before the
        start is refused and changes nothing. */
    method Skip(bytes: int)
      modifies this
      ensures pos == Seek(old(pos), bytes)
    {
      pos := Seek(pos, bytes);
    }
  }

  function Seek(pos: nat, bytes: int): nat {
    if pos + bytes >= 0 then pos + bytes else pos
  }

  function From(c: seq<byte>, pos: nat): seq<byte> {
    if pos <= |c| then c[pos..] else []
  }

  function IntAt(c: seq<byte>, pos: nat, width: nat): int
    requires pos + width <= |c|
  {
    Signed(c[pos..pos + width])
  }

  // ---------- What a data block holds, by position ----------

  datatype Counts = Counts(isutcnt: int, isstdcnt: int, leapcnt: int, timecnt: int, typecnt: int, charcnt: int)

  function CountsAt(c: seq<byte>, pos: nat): Counts
    requires pos + 24 <= |c|
  {
    Counts(IntAt(c, pos, 4), IntAt(c, pos + 4, 4), IntAt(c, pos + 8, 4),
           IntAt(c, pos + 12, 4), IntAt(c, pos + 16, 4), IntAt(c, pos + 20, 4))
  }

  /** Bytes taken by `n` transition times. */
  function Times(v1: bool, n: int): int {
    if v1 then 4 * n else 8 * n
  }

  /** The counts `readDataBlock` goes on with: no leap seconds, and indicators
      for every type or for none.  Negative lengths are refused when space is
      reserved for them. */
  predicate Accepted(k: Counts) {
    && k.leapcnt == 0
    && (k.isutcnt == 0 || k.isutcnt == k.typecnt)
    && (k.isstdcnt == 0 || k.isstdcnt == k.typecnt)
    && k.timecnt >= 0 && k.typecnt >= 0 && k.charcnt >= 0
  }

  /** Positions after the counts: times, indices, types, designations. */
  function IndicesPos(pos: nat, v1: bool, k: Counts): int { pos + 24 + Times(v1, k.timecnt) }
  function TypesPos(pos: nat, v1: bool, k: Counts): int { IndicesPos(pos, v1, k) + k.timecnt }
  function CharsPos(pos: nat, v1: bool, k: Counts): int { TypesPos(pos, v1, k) + 6 * k.typecnt }
  function CharsEnd(pos: nat, v1: bool, k: Counts): int { CharsPos(pos, v1, k) + k.charcnt }

  predicate BlockReadable(c: seq<byte>, pos: nat, v1: bool) {
    && pos + 24 <= |c|
    && var k := CountsAt(c, pos);
       Accepted(k) && ListsReadable(c, pos, v1, k) && CharsEnd(pos, v1, k) <= |c|
  }

  /** The lists are there, and every transition's type is among those listed. */
  predicate ListsReadable(c: seq<byte>, pos: nat, v1: bool, k: Counts) {
    && k.timecnt >= 0 && k.typecnt >= 0
    && CharsPos(pos, v1, k) <= |c|
    && InRange(IndicesAt(c, pos, v1, k), k.typecnt)
  }

  predicate InRange(indices: seq<byte>, n: int) {
    forall i | 0 <= i < |indices| :: indices[i] < n
  }

  function IndicesAt(c: seq<byte>, pos: nat, v1: bool, k: Counts): (indices: seq<byte>)
    requires k.timecnt >= 0 && k.typecnt >= 0 && CharsPos(pos, v1, k) <= |c|
    ensures |indices| == k.timecnt
  {
    c[IndicesPos(pos, v1, k)..TypesPos(pos, v1, k)]
  }

  function TimesAt(c: seq<byte>, pos: nat, v1: bool, n: nat): (times: seq<int>)
    requires pos + Times(v1, n) <= |c|
    ensures |times| == n
  {
    seq(n, i requires 0 <= i < n => TimeAt(c, pos, v1, i))
  }

  function Transitions(times: seq<int>, indices: seq<byte>, types: seq<LocalTime>): seq<Transition>
    requires |times| == |indices| && InRange(indices, |types|)
  {
    seq(|times|, i requires 0 <= i < |times| =>
      Transition(times[i], times[i] + types[indices[i]].utcOffset, indices[i]))
  }

  function TypeAt(c: seq<byte>, pos: nat): LocalTime
    requires pos + 6 <= |c|
  {
    LocalTime(IntAt(c, pos, 4), c[pos + 4] != 0, c[pos + 5])
  }

  function TimeAt(c: seq<byte>, pos: nat, v1: bool, i: nat): int
    requires pos + Times(v1, i + 1) <= |c|
  {
    IntAt(c, pos + Times(v1, i), Times(v1, 1))
  }

  function TypesAt(c: seq<byte>, pos: nat, n: nat): (types: seq<LocalTime>)
    requires pos + 6 * n <= |c|
    ensures |types| == n
  {
    seq(n, i requires 0 <= i < n => TypeAt(c, pos + 6 * i))
  }

  function BlockData(c: seq<byte>, pos: nat, v1: bool): Data
    requires BlockReadable(c, pos, v1)
  {
    var k := CountsAt(c, pos);
    ListsAt(c, pos, v1, k).(
      abbreviation := c[CharsPos(pos, v1, k)..CharsEnd(pos, v1, k)],
      tzString := if v1 then [] else From(c, CharsEnd(pos, v1, k) + k.isstdcnt + k.isutcnt))
  }

  /** The transitions and the types. */
  function ListsAt(c: seq<byte>, pos: nat, v1: bool, k: Counts): Data
    requires ListsReadable(c, pos, v1, k)
  {
    var types := TypesAt(c, TypesPos(pos, v1, k), k.typecnt);
    Data(Transitions(TimesAt(c, pos + 24, v1, k.timecnt), IndicesAt(c, pos, v1, k), types), types, [], [])
  }

  // ---------- readDataBlock ----------

  method AddTransition(data: Data, utcTime: int, localTimeIdx: nat) returns (r: Result<Data, Error>)
    ensures r.Success? <==> localTimeIdx < |data.localTimes|
    ensures r.Success? ==>
              r.value == data.(transitions := data.transitions
                + [Transition(utcTime, utcTime + data.localTimes[localTimeIdx].utcOffset, localTimeIdx)])
  {
    if localTimeIdx >= |data.localTimes| {
      return Failure(BadIndex);
    }
    var lt := data.localTimes[localTimeIdx];
    r := Success(data.(transitions := data.transitions + [Transition(utcTime, utcTime + lt.utcOffset, localTimeIdx)]));
  }

  method ReadCounts(f: File) returns (r: Result<Counts, Error>)
    modifies f
    ensures r.Success? <==> old(f.pos) + 24 <= |f.contents|
    ensures r.Success? ==> r.value == CountsAt(f.contents, old(f.pos)) && f.pos == old(f.pos) + 24
  {
    var isutcnt :- f.ReadInt(4);
    var isstdcnt :- f.ReadInt(4);
    var leapcnt :- f.ReadInt(4);
    var timecnt :- f.ReadInt(4);
    var typecnt :- f.ReadInt(4);
    var charcnt :- f.ReadInt(4);
    r := Success(Counts(isutcnt, isstdcnt, leapcnt, timecnt, typecnt, charcnt));
  }

  method ReadTimes(f: File, v1: bool, n: nat) returns (r: Result<seq<int>, Error>)
    requires f.pos <= |f.contents|
    modifies f
    ensures r.Success? <==> old(f.pos) + Times(v1, n) <= |f.contents|
    ensures r.Success? ==>
              && f.pos == old(f.pos) + Times(v1, n)
              && r.value == TimesAt(f.contents, old(f.pos), v1, n)
  {
    var trans := [];
    for i := 0 to n
      invariant f.pos == old(f.pos) + Times(v1, i) <= |f.contents|
      invariant trans == TimesAt(f.contents, old(f.pos), v1, i)
    {
      var t :- f.ReadInt(Times(v1, 1));
      assert t == TimeAt(f.contents, old(f.pos), v1, i);
      trans := trans + [t];
    }
    r := Success(trans);
  }

  method ReadIndices(f: File, n: nat) returns (r: Result<seq<byte>, Error>)
    requires f.pos <= |f.contents|
    modifies f
    ensures r.Success? <==> old(f.pos) + n <= |f.contents|
    ensures r.Success? ==> f.pos == old(f.pos) + n && r.value == f.contents[old(f.pos)..f.pos]
  {
    var localtimes := [];
    for i := 0 to n
      invariant f.pos == old(f.pos) + i <= |f.contents|
      invariant localtimes == f.contents[old(f.pos)..f.pos]
    {
      var local :- f.ReadUInt8();
      localtimes := localtimes + [local];
    }
    r := Success(localtimes);
  }

  method ReadTypes(f: File, n: nat) returns (r: Result<seq<LocalTime>, Error>)
    requires f.pos <= |f.contents|
    modifies f
    ensures r.Success? <==> old(f.pos) + 6 * n <= |f.contents|
    ensures r.Success? ==>
              f.pos == old(f.pos) + 6 * n && r.value == TypesAt(f.contents, old(f.pos), n)
  {
    var types := [];
    for i := 0 to n
      invariant f.pos == old(f.pos) + 6 * i <= |f.contents|
      invariant |types| == i
      invariant forall j | 0 <= j < i :: types[j] == TypeAt(f.contents, old(f.pos) + 6 * j)
    {
      var gmtoff :- f.ReadInt(4);
      var isdst :- f.ReadUInt8();
      var abbrind :- f.ReadUInt8();
      types := types + [LocalTime(gmtoff, isdst != 0, abbrind)];
    }
    r := Success(types);
  }

  /** Adds a transition for each time, in order, unless some index has no type. */
  method AddTransitions(types: seq<LocalTime>, trans: seq<int>, localtimes: seq<byte>)
    returns (r: Result<Data, Error>)
    requires |trans| == |localtimes|
    ensures r.Success? <==> InRange(localtimes, |types|)
    ensures r.Success? ==> r.value == Data(Transitions(trans, localtimes, types), types, [], [])
  {
    var data := Data([], types, [], []);
    for i := 0 to |trans|
      invariant InRange(localtimes[..i], |types|)
      invariant data == Data(Transitions(trans[..i], localtimes[..i], types), types, [], [])
    {
      assert localtimes[..i + 1] == localtimes[..i] + [localtimes[i]];
      assert trans[..i + 1] == trans[..i] + [trans[i]];
      data :- AddTransition(data, trans[i], localtimes[i]);
    }
    assert trans[..|trans|] == trans && localtimes[..|trans|] == localtimes;
    r := Success(data);
  }

  /** The part of `readDataBlock` that fills the two lists; `pos` is where the counts began. */
  method ReadLists(f: File, ghost pos: nat, v1: bool, k: Counts) returns (r: Result<Data, Error>)
    requires f.pos == pos + 24 <= |f.contents|
    modifies f
    ensures r.Success? <==> ListsReadable(f.contents, pos, v1, k)
    ensures r.Success? ==> r.value == ListsAt(f.contents, pos, v1, k)
    ensures r.Success? ==> f.pos == CharsPos(pos, v1, k)
  {
    hide IntAt, InRange, Transitions, TimesAt, TypesAt;
    if k.timecnt < 0 { return Failure(BadLength); }
    var trans :- ReadTimes(f, v1, k.timecnt);
    var localtimes :- ReadIndices(f, k.timecnt);
    if k.typecnt < 0 { return Failure(BadLength); }
    var types :- ReadTypes(f, k.typecnt);
    r := AddTransitions(types, trans, localtimes);
  }

  /** Loads exactly the data at the cursor, and fails exactly when it is not readable. */
  method ReadDataBlock(f: File, v1: bool) returns (r: Result<Data, Error>)
    modifies f
    ensures r.Success? <==> BlockReadable(f.contents, old(f.pos), v1)
    ensures r.Success? ==> r.value == BlockData(f.contents, old(f.pos), v1)
  {
    hide IntAt, CountsAt, InRange, Transitions, TimesAt, TypesAt;
    var k :- ReadCounts(f);
    if k.leapcnt != 0 { return Failure(Unsupported); }
    if k.isutcnt != 0 && k.isutcnt != k.typecnt { return Failure(Unsupported); }
    if k.isstdcnt != 0 && k.isstdcnt != k.typecnt { return Failure(Unsupported); }

    var data :- ReadLists(f, old(f.pos), v1, k);
    var abbreviation :- f.ReadBytes(k.charcnt);
    f.Skip(k.leapcnt * (Times(v1, 1) + 4));
    f.Skip(k.isstdcnt);
    f.Skip(k.isutcnt);

    var tzString := [];
    if !v1 { tzString := f.ReadToEnd(); }
    r := Success(data.(abbreviation := abbreviation, tzString := tzString));
  }

  // ---------- readTimeZoneFile ----------

  /** The bytes the body of a first data block takes, as the reader adds them up. */
  function FirstBodyLength(k: Counts): int {
    4 * k.timecnt + k.timecnt + 6 * k.typecnt + k.charcnt + 8 * k.leapcnt + k.isstdcnt + k.isutcnt
  }

  function SecondHeaderPos(c: seq<byte>): nat
    requires 44 <= |c|
  {
    Seek(44, FirstBodyLength(CountsAt(c, 20)))
  }

  /** Where the block to be loaded starts, and whether its times have four bytes. */
  function ChosenBlock(c: seq<byte>): (r: Option<(nat, bool)>)
    ensures r.Some? ==> 44 <= |c|
  {
    if |c| < 44 || c[..4] != MAGIC then None
    else if c[4] != VERSION_2 then Some((20, true))
    else
      var p := SecondHeaderPos(c);
      if p + 4 <= |c| && c[p..p + 4] == MAGIC then Some((p + 20, false)) else None
  }

  /** What loading a file yields, by positions in it. */
  function FileData(c: seq<byte>): Option<Data> {
    match ChosenBlock(c)
    case Some((pos, v1)) => if BlockReadable(c, pos, v1) then Some(BlockData(c, pos, v1)) else None
    case None => None
  }

  method ReadTimeZoneFile(f: File) returns (r: Result<Data, Error>)
    requires f.pos == 0
    modifies f
    ensures r.Success? <==> FileData(f.contents).Some?
    ensures r.Success? ==> FileData(f.contents) == Some(r.value)
  {
    hide BlockReadable, BlockData, Signed;
    var head :- f.ReadBytes(4);
    if head != MAGIC { return Failure(BadHead); }
    var version :- f.ReadBytes(1);
    var _ :- f.ReadBytes(15);
    var k :- ReadCounts(f);

    if version == [VERSION_2] {
      f.Skip(FirstBodyLength(k));
      head :- f.ReadBytes(4);
      if head != MAGIC { return Failure(BadHead); }
      f.Skip(16);
      r := ReadDataBlock(f, false);
    } else {
      f.Skip(-4 * 6);  // rewind to the counts
      r := ReadDataBlock(f, true);
    }
  }

  method LoadZoneFile(zonefile: seq<byte>) returns (r: Option<Data>)
    ensures r == FileData(zonefile)
  {
    var f := new File(zonefile);
    var data := ReadTimeZoneFile(f);
    r := if data.Success? then Some(data.value) else None;
  }

  // ---------- What a loaded file guarantees ----------

  /** Every loaded transition has a type that exists and the matching local
      time.  The look-ups also need a first type, which is there exactly when
      the block loaded declares one; the reader does not insist on it. */
  lemma LoadedIsConsistent(c: seq<byte>)
    requires FileData(c).Some?
    ensures Consistent(FileData(c).value)
    ensures WellFormed(FileData(c).value) <==> CountsAt(c, ChosenBlock(c).value.0).typecnt != 0
  {
    var (pos, v1) := ChosenBlock(c).value;
    var d := BlockData(c, pos, v1);
    assert |d.localTimes| == CountsAt(c, pos).typecnt;
  }
}
