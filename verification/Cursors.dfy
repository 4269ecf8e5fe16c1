/** Segment names: how a range of positions is written in one, and read back. */
module Cursors {
  import opened Text

  datatype Variant = ByTime | ByBlock | BySeq {
    /** The declaration order, which is the derived order of the variants. */
    function Rank(): nat {
      match this case ByTime => 0 case ByBlock => 1 case BySeq => 2
    }
  }

  const I64_MIN := -0x8000_0000_0000_0000
  const I64_MAX := 0x7fff_ffff_ffff_ffff
  const U32_MAX := 0xffff_ffff
  const U64_MAX := 0xffff_ffff_ffff_ffff

  /** The widths names are parsed to: 64 and 32 bits, signed and not. */
  lemma MachineWidths()
    ensures I64_MAX == 9_223_372_036_854_775_807 && I64_MIN == -9_223_372_036_854_775_808
    ensures U32_MAX == 4_294_967_295 && U64_MAX == 18_446_744_073_709_551_615
  {
  }

  /** `x + 1` on an `i64`, stopping at its end. */
  function SaturatingSucc(x: int): int {
    if x >= I64_MAX then I64_MAX else x + 1
  }

  datatype Cursor =
    | Time(firstMicros: int, lastMicros: int, pid: nat, flush: nat)
    | Block(first: nat, last: nat)
    | Seq(first: nat, last: nat)
  {
    function Kind(): Variant {
      match this case Time(_, _, _, _) => ByTime case Block(_, _) => ByBlock case Seq(_, _) => BySeq
    }

    function First(): int {
      match this case Time(first, _, _, _) => first case Block(first, _) => first case Seq(first, _) => first
    }

    function Last(): int {
      match this case Time(_, last, _, _) => last case Block(_, last) => last case Seq(_, last) => last
    }

    function Flush(): nat {
      match this case Time(_, _, _, flush) => flush case _ => 0
    }

    /** The fields are machine integers. */
    predicate Fits() {
      match this
      case Time(first, last, pid, flush) =>
        I64_MIN <= first <= I64_MAX && I64_MIN <= last <= I64_MAX && pid <= U32_MAX && flush <= U64_MAX
      case Block(first, last) => first <= U64_MAX && last <= U64_MAX
      case Seq(first, last) => first <= U64_MAX && last <= U64_MAX
    }

    function FileName(): string {
      match this
      case Time(first, last, pid, flush) =>
        "t-" + (Signed(first, 1) + "_" + (Signed(last, 1) + "_" + (Padded(pid, 1) + "_" + Padded(flush, 1)))) + EXT
      case Block(first, last) => "b-" + (Padded(first, 1) + "_" + Padded(last, 1)) + EXT
      case Seq(first, last) => "s-" + (Padded(first, 1) + "_" + Padded(last, 1)) + EXT
    }

    function TempFileName(): string {
      "." + FileName() + WRITING
    }
  }

  const EXT := ".parquet"
  const WRITING := ".writing"

  /** The listing order within a partition. */
  predicate ListedBefore(a: Cursor, b: Cursor) {
    || a.Kind().Rank() < b.Kind().Rank()
    || (a.Kind() == b.Kind() && (a.First() < b.First() || (a.First() == b.First() && a.Flush() <= b.Flush())))
  }

  function StripSuffix(s: string, suffix: string): Option<string> {
    if |s| >= |suffix| && s[|s| - |suffix|..] == suffix then Some(s[..|s| - |suffix|]) else None
  }

  function Split(s: string, c: char): (parts: seq<string>)
    ensures |parts| >= 1
  {
    if s == "" then [""]
    else
      var rest := Split(s[1..], c);
      if s[0] == c then [""] + rest else [[s[0]] + rest[0]] + rest[1..]
  }

  function Within(n: Option<int>, lo: int, hi: int): Option<int> {
    if n.Some? && lo <= n.value <= hi then n else None
  }

  function ParseI64(s: string): Option<int> { Within(ParseSigned(s), I64_MIN, I64_MAX) }

  function ParseNatTo(s: string, max: nat): Option<nat> {
    match ParseUnsigned(s) case Some(n) => if n <= max then Some(n) else None case None => None
  }

  function ParseRange(fields: seq<string>): Option<(nat, nat)> {
    if |fields| != 2 then None
    else
      match (ParseNatTo(fields[0], U64_MAX), ParseNatTo(fields[1], U64_MAX))
      case (Some(first), Some(last)) => Some((first, last))
      case _ => None
  }

  function ParseTime(fields: seq<string>): Option<Cursor> {
    if |fields| != 4 then None
    else
      match (ParseI64(fields[0]), ParseI64(fields[1]), ParseNatTo(fields[2], U32_MAX), ParseNatTo(fields[3], U64_MAX))
      case (Some(first), Some(last), Some(pid), Some(flush)) => Some(Time(first, last, pid, flush))
      case _ => None
  }

  function ParseStem(tag: char, fields: seq<string>): Option<Cursor> {
    if tag == 't' then ParseTime(fields)
    else if tag == 'b' then
      match ParseRange(fields) case Some(r) => Some(Block(r.0, r.1)) case None => None
    else if tag == 's' then
      match ParseRange(fields) case Some(r) => Some(Seq(r.0, r.1)) case None => None
    else None
  }

  /** `None` for anything that is not a segment's name, a temporary included. */
  function Parse(name: string): Option<Cursor> {
    match StripSuffix(name, EXT)
    case None => None
    case Some(stem) =>
      if |stem| < 2 || stem[1] != '-' then None else ParseStem(stem[0], Split(stem[2..], '_'))
  }

  lemma {:induction false} SplitAfter(a: string, rest: string, c: char)
    requires c !in a
    ensures Split(a + [c] + rest, c) == [a] + Split(rest, c)
    ensures Split(a, c) == [a]
    decreases |a|
  {
    var s := a + [c] + rest;
    if a == "" {
      assert s[1..] == rest;
    } else {
      SplitAfter(a[1..], rest, c);
      assert s[1..] == a[1..] + [c] + rest;
      assert [a[0]] + a[1..] == a;
    }
  }

  lemma DigitsHaveNoUnderscore(n: int)
    ensures '_' !in Signed(n, 1)
    ensures n >= 0 ==> '_' !in Padded(n, 1)
  {
  }

  lemma FourFields(a: string, b: string, c: string, d: string)
    requires '_' !in a && '_' !in b && '_' !in c && '_' !in d
    ensures Split(a + "_" + (b + "_" + (c + "_" + d)), '_') == [a, b, c, d]
  {
    SplitAfter(a, b + "_" + (c + "_" + d), '_');
    SplitAfter(b, c + "_" + d, '_');
    SplitAfter(c, d, '_');
    SplitAfter(d, "", '_');
  }

  lemma TimeRoundTrips(c: Cursor)
    requires c.Time? && c.Fits()
    ensures ParseTime([Signed(c.firstMicros, 1), Signed(c.lastMicros, 1), Padded(c.pid, 1), Padded(c.flush, 1)]) == Some(c)
  {
    ParseSignedText(c.firstMicros, 1);
    ParseSignedText(c.lastMicros, 1);
    ParsePadded(c.pid, 1);
    ParsePadded(c.flush, 1);
  }

  lemma TemporaryIsNoSegment(c: Cursor)
    ensures Parse(c.TempFileName()) == None
  {
    var temp := c.TempFileName();
    assert temp[|temp| - 1] == 'g' && EXT[|EXT| - 1] == 't';
    assert temp[|temp| - |EXT|..][|EXT| - 1] == 'g';
  }

  /** A name says its cursor: what is listed is what was written, for every cursor of machine integers. */
  lemma NameRoundTrips(c: Cursor)
    requires c.Fits()
    ensures Parse(c.FileName()) == Some(c)
  {
    var name := c.FileName();
    var stem := name[..|name| - |EXT|];
    assert stem + EXT == name && StripSuffix(name, EXT) == Some(stem);
    match c {
      case Time(first, last, pid, flush) =>
        DigitsHaveNoUnderscore(first);
        DigitsHaveNoUnderscore(last);
        FourFields(Signed(first, 1), Signed(last, 1), Padded(pid, 1), Padded(flush, 1));
        assert stem[2..] == Signed(first, 1) + "_" + (Signed(last, 1) + "_" + (Padded(pid, 1) + "_" + Padded(flush, 1)));
        TimeRoundTrips(c);
      case Block(first, last) => RangeRoundTrips("b-", stem, first, last);
      case Seq(first, last) => RangeRoundTrips("s-", stem, first, last);
    }
  }

  lemma RangeRoundTrips(tag: string, stem: string, first: nat, last: nat)
    requires |tag| == 2 && stem == tag + (Padded(first, 1) + "_" + Padded(last, 1))
    requires first <= U64_MAX && last <= U64_MAX
    ensures ParseRange(Split(stem[2..], '_')) == Some((first, last))
  {
    assert stem[2..] == Padded(first, 1) + "_" + Padded(last, 1);
    DigitsHaveNoUnderscore(first);
    DigitsHaveNoUnderscore(last);
    SplitAfter(Padded(first, 1), Padded(last, 1), '_');
    SplitAfter(Padded(last, 1), "", '_');
    ParsePadded(first, 1);
    ParsePadded(last, 1);
  }

  /** So no two segments of one partition share a name. */
  lemma NamesAreDistinct(a: Cursor, b: Cursor)
    requires a.Fits() && b.Fits() && a != b
    ensures a.FileName() != b.FileName()
  {
    NameRoundTrips(a);
    NameRoundTrips(b);
  }

  lemma OneDigit(n: nat)
    requires n < 10
    ensures Padded(n, 1) == [Digit(n)] && Padded(n, 0) == [Digit(n)]
  {
  }

  lemma TwoDigits(n: nat)
    requires 10 <= n < 100
    ensures Padded(n, 1) == [Digit(n / 10), Digit(n % 10)]
  {
    OneDigit(n / 10);
  }

  /** What names look like on disk: a letter for what is counted, the range, and for receipts whose flush it was. */
  lemma TimeNamesLookLike()
    ensures Time(-5, 12, 34, 6).FileName() == "t--5_12_34_6.parquet"
  {
    OneDigit(5);
    TwoDigits(12);
    TwoDigits(34);
    OneDigit(6);
    assert Signed(-5, 1) == "-5" && Signed(12, 1) == "12";
  }

  lemma BlockNamesLookLike()
    ensures Block(7, 20).FileName() == "b-7_20.parquet"
    ensures Block(7, 20).TempFileName() == ".b-7_20.parquet.writing"
  {
    OneDigit(7);
    TwoDigits(20);
    assert Block(7, 20).FileName() == "b-7_20.parquet";
  }

  lemma SequenceNamesLookLike()
    ensures Seq(7, 20).FileName() == "s-7_20.parquet"
  {
    OneDigit(7);
    TwoDigits(20);
  }
}
