/** Pairs of integers in parameter values: printing with "%d", parsing with strtol, and the list
    parser of camera/CameraParameters.cpp.  int has 32 bits and long has 64. */
module SizeStrings {
  import opened CStrings
  import opened Parcels
  import opened ParameterStrings

  // ---------------------------------------------------------------- printing

  function Digit(d: nat): char
    requires d < 10
  {
    ('0' as int + d) as char
  }

  predicate IsDigit(c: char) { '0' <= c <= '9' }

  function DigitValue(c: char): nat { if IsDigit(c) then c as int - '0' as int else 0 }

  function Decimal(n: nat): (s: string)
    ensures |s| > 0
  {
    (if n < 10 then "" else Decimal(n / 10)) + [Digit(n % 10)]
  }

  lemma {:induction false} DecimalDigits(n: nat, i: nat)
    requires i < |Decimal(n)|
    ensures IsDigit(Decimal(n)[i])
  {
    if n >= 10 && i < |Decimal(n / 10)| {
      DecimalDigits(n / 10, i);
    }
  }

  /** sprintf("%d"). */
  function Printed(n: int): string { if n < 0 then "-" + Decimal(-n) else Decimal(n) }

  /** sprintf("%dx%d"), or with another delimiter. */
  function PairString(w: int, h: int, delim: char): string { Printed(w) + [delim] + Printed(h) }

  lemma {:induction false} DecimalLength(n: nat, k: nat, bound: nat)
    requires k > 0 && bound == Tens(k) && n < bound
    ensures |Decimal(n)| <= k
  {
    if n >= 10 {
      DecimalLength(n / 10, k - 1, bound / 10);
    }
  }

  function Tens(k: nat): nat { if k == 0 then 1 else 10 * Tens(k - 1) }

  function Magnitude(n: int): nat { if n < 0 then -n else n }

  /** The text of a pair takes at most 23 characters: with its terminator it fits the 32-byte buffer. */
  lemma PairFits(w: Int32, h: Int32, delim: char)
    ensures |PairString(w, h, delim)| + 1 <= 24 < 32
  {
    assert Tens(5) == 100000 && Tens(10) == 100000 * 100000;
    DecimalLength(Magnitude(w), 10, Tens(10));
    DecimalLength(Magnitude(h), 10, Tens(10));
  }

  lemma PrintedAllowed(n: int)
    ensures Allowed(Printed(n)) && Printed(n) != ""
  {
    var digits := Decimal(Magnitude(n));
    forall i | 0 <= i < |digits|
      ensures digits[i] != '=' && digits[i] != ';'
    {
      DecimalDigits(Magnitude(n), i);
    }
    assert Allowed(digits);
    assert Printed(n) == digits || Printed(n) == "-" + digits;
  }

  // ---------------------------------------------------------------- strtol

  predicate IsSpace(c: char) { c == ' ' || '\t' <= c <= '\r' }

  function SkipSpace(s: string, i: nat): (j: nat)
    requires i <= |s|
    ensures i <= j <= |s|
    decreases |s| - i
  {
    if i < |s| && IsSpace(s[i]) then SkipSpace(s, i + 1) else i
  }

  function SkipDigits(s: string, i: nat): (j: nat)
    requires i <= |s|
    ensures i <= j <= |s|
    decreases |s| - i
  {
    if i < |s| && IsDigit(s[i]) then SkipDigits(s, i + 1) else i
  }

  function Number(s: string): nat {
    if s == "" then 0 else 10 * Number(s[..|s| - 1]) + DigitValue(s[|s| - 1])
  }

  /** A long saturates. */
  function ToLong(n: int): Int64 {
    if n > 0x7fff_ffff_ffff_ffff then 0x7fff_ffff_ffff_ffff
    else if n < -0x8000_0000_0000_0000 then -0x8000_0000_0000_0000
    else n
  }

  /** strtol(s + at, &end, 10), as the value and the position of end. */
  function Strtol(s: string, at: nat): (r: (int, nat))
    requires at <= |s|
    ensures at <= r.1 <= |s|
  {
    var i := SkipSpace(s, at);
    var start := if At(s, i) == '-' || At(s, i) == '+' then i + 1 else i;
    var end := SkipDigits(s, start);
    if end == start then (0, at)
    else
      var n: int := Number(s[start..end]);
      (ToLong(if At(s, i) == '-' then -n else n), end)
  }

  lemma {:induction false} NumberOfDecimal(n: nat)
    ensures Number(Decimal(n)) == n
  {
    var s := Decimal(n);
    assert s[|s| - 1] == Digit(n % 10);
    if n < 10 {
      assert s == [Digit(n)] && s[..|s| - 1] == "";
    } else {
      assert s[..|s| - 1] == Decimal(n / 10);
      NumberOfDecimal(n / 10);
    }
  }

  lemma {:induction false} SkipsAllDigits(s: string, i: nat, j: nat)
    requires i <= j <= |s| && (forall k :: i <= k < j ==> IsDigit(s[k])) && !IsDigit(At(s, j))
    ensures SkipDigits(s, i) == j
    decreases j - i
  {
    if i < j {
      SkipsAllDigits(s, i + 1, j);
    }
  }

  /** text stands in s at a position. */
  predicate StandsAt(s: string, at: nat, text: string) { at + |text| <= |s| && s[at..at + |text|] == text }

  lemma SplitText(s: string, at: nat, a: string, b: string)
    requires StandsAt(s, at, a + b)
    ensures StandsAt(s, at, a) && StandsAt(s, at + |a|, b)
  {
    assert s[at..at + |a|] == s[at..at + |a + b|][..|a|];
    assert s[at + |a|..at + |a + b|] == s[at..at + |a + b|][|a|..];
  }

  lemma SkipsDecimal(s: string, at: nat, m: nat)
    requires StandsAt(s, at, Decimal(m)) && !IsDigit(At(s, at + |Decimal(m)|))
    ensures SkipDigits(s, at) == at + |Decimal(m)| && IsDigit(s[at])
  {
    hide SkipDigits, Decimal;
    var end := at + |Decimal(m)|;
    forall k | at <= k < end
      ensures IsDigit(s[k])
    {
      DecimalDigits(m, k - at);
      assert s[k] == s[at..end][k - at];
    }
    SkipsAllDigits(s, at, end);
  }

  /** What was printed is read back, and end is left right after it. */
  lemma StrtolReadsPrinted(s: string, at: nat, n: Int32)
    requires StandsAt(s, at, Printed(n)) && !IsDigit(At(s, at + |Printed(n)|))
    ensures Strtol(s, at) == (n, at + |Printed(n)|)
  {
    hide SkipDigits, Decimal, Number;
    NumberOfDecimal(Magnitude(n));
    if n < 0 {
      SplitText(s, at, "-", Decimal(Magnitude(n)));
      SkipsDecimal(s, at + 1, Magnitude(n));
      assert s[at] == s[at..at + 1][0] == '-';
    } else {
      SkipsDecimal(s, at, n);
    }
  }

  // ---------------------------------------------------------------- parse_pair

  datatype Parse = Parse(first: Int32, second: Int32, end: nat)

  /** parse_pair: two integers with the delimiter right after the first. */
  function ParsePair(s: string, at: nat, delim: char): (r: Option<Parse>)
    requires at <= |s| && delim != '\0'
    ensures r.Some? ==> at < r.value.end <= |s|
  {
    var (w, end) := Strtol(s, at);
    if At(s, end) != delim then None
    else
      var (h, last) := Strtol(s, end + 1);
      Some(Parse(ToInt32(w), ToInt32(h), last))
  }

  /** A printed pair is parsed, and the position is left right after it. */
  lemma PairIsParsed(s: string, at: nat, w: Int32, h: Int32, delim: char)
    requires delim != '\0' && !IsDigit(delim)
    requires StandsAt(s, at, PairString(w, h, delim)) && !IsDigit(At(s, at + |PairString(w, h, delim)|))
    ensures ParsePair(s, at, delim) == Some(Parse(w, h, at + |PairString(w, h, delim)|))
  {
    hide Strtol, Printed;
    SplitText(s, at, Printed(w) + [delim], Printed(h));
    SplitText(s, at, Printed(w), [delim]);
    var mid := at + |Printed(w)|;
    assert s[mid] == s[mid..mid + 1][0] == delim;
    StrtolReadsPrinted(s, at, w);
    StrtolReadsPrinted(s, mid + 1, h);
  }

  // ---------------------------------------------------------------- parseSizesList

  datatype Size = Size(width: Int32, height: Int32)

  /** The sizes parseSizesList pushes, from a position on; it stops at the first malformed pair. */
  function SizesFrom(s: string, at: nat): seq<Size>
    requires at <= |s|
    decreases |s| - at
  {
    var p := ParsePair(s, at, 'x');
    if p.None? || (At(s, p.value.end) != ',' && At(s, p.value.end) != '\0') then []
    else
      var size := Size(p.value.first, p.value.second);
      if At(s, p.value.end) == '\0' then [size] else [size] + SizesFrom(s, p.value.end + 1)
  }

  function SizeText(size: Size): string { PairString(size.width, size.height, 'x') }

  /** "WxH,WxH". */
  function SizeList(sizes: seq<Size>): string {
    if sizes == [] then ""
    else if |sizes| == 1 then SizeText(sizes[0])
    else SizeText(sizes[0]) + ("," + SizeList(sizes[1..]))
  }

  lemma {:induction false} SizesFromList(s: string, at: nat, sizes: seq<Size>)
    requires sizes != [] && StandsAt(s, at, SizeList(sizes)) && at + |SizeList(sizes)| == |s|
    ensures SizesFrom(s, at) == sizes
    decreases |sizes|
  {
    hide ParsePair, PairString, SizesFrom, At;
    var size := sizes[0];
    var end := at + |SizeText(size)|;
    if |sizes| == 1 {
      SizeThenEnd(s, at, size);
      assert sizes == [size];
    } else {
      var rest := SizeList(sizes[1..]);
      SplitText(s, at, SizeText(size), "," + rest);
      SplitText(s, end, ",", rest);
      SizeThenComma(s, at, size);
      SizesFromList(s, end + 1, sizes[1..]);
      assert sizes == [size] + sizes[1..];
    }
  }

  lemma SizeThenEnd(s: string, at: nat, size: Size)
    requires StandsAt(s, at, SizeText(size)) && at + |SizeText(size)| == |s|
    ensures SizesFrom(s, at) == [size]
  {
    hide ParsePair, PairString;
    PairIsParsed(s, at, size.width, size.height, 'x');
  }

  lemma SizeThenComma(s: string, at: nat, size: Size)
    requires StandsAt(s, at, SizeText(size)) && StandsAt(s, at + |SizeText(size)|, ",")
    ensures SizesFrom(s, at) == [size] + SizesFrom(s, at + |SizeText(size)| + 1)
  {
    hide ParsePair, PairString;
    var end := at + |SizeText(size)|;
    assert s[end] == s[end..end + 1][0] == ',';
    PairIsParsed(s, at, size.width, size.height, 'x');
  }

  /** Every list of 32-bit pairs printed as "WxH" joined by ',' is recovered. */
  lemma SizesListRoundTrip(sizes: seq<Size>)
    ensures SizesFrom(SizeList(sizes), 0) == sizes
  {
    if sizes == [] {
      assert SizesFrom("", 0) == [];
    } else {
      SizesFromList(SizeList(sizes), 0, sizes);
    }
  }

  /** parseSizesList on a C string, adding to a vector; a null string, for a missing parameter,
      adds nothing.  The cursor stays within the string and its terminator and moves on in every pass. */
  method ParseSizesList(sizesStr: Option<string>, before: seq<Size>) returns (sizes: seq<Size>)
    requires sizesStr.Some? ==> '\0' !in sizesStr.value
    ensures sizes == before + if sizesStr.None? then [] else SizesFrom(sizesStr.value, 0)
  {
    hide ParsePair;
    sizes := before;
    if sizesStr.None? {
      return;
    }
    var s := sizesStr.value;
    var start := 0;
    while true
      invariant start <= |s|
      invariant sizes + SizesFrom(s, start) == before + SizesFrom(s, 0)
      decreases |s| - start
    {
      var p := ParsePair(s, start, 'x');
      if p.None? || (At(s, p.value.end) != ',' && At(s, p.value.end) != '\0') {
        assert sizes + [] == sizes;
        return;
      }
      var size := Size(p.value.first, p.value.second);
      if At(s, p.value.end) == '\0' {
        sizes := sizes + [size];
        return;
      }
      assert sizes + ([size] + SizesFrom(s, p.value.end + 1)) == (sizes + [size]) + SizesFrom(s, p.value.end + 1);
      sizes := sizes + [size];
      start := p.value.end + 1;
    }
  }
}
