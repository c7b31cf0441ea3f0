/** What flat parameter strings, numbers and sizes mean, in terms of their characters, and what set and
    get do with them: camera/CameraParameters.cpp and camera/CameraParameters2.cpp. */
module ParameterMeaning {
  import opened CStrings
  import opened Parcels
  import opened ParameterStrings
  import opened SizeStrings
  import P1 = CameraParameters
  import P2 = CameraParameters2

  // ---------------------------------------------------------------- flat strings

  /** The flat form, from its end: "...;key=value". */
  lemma {:induction false} FlatAppends(ps: seq<Pair>, p: Pair)
    ensures Flat([p]) == p.key + "=" + p.value
    ensures ps != [] ==> Flat(ps + [p]) == Flat(ps) + ";" + p.key + "=" + p.value
    decreases |ps|
  {
    if |ps| == 1 {
      assert (ps + [p])[1..] == [p];
      assert ParameterStrings.Item(ps[0]) + ";" + ParameterStrings.Item(p) == ParameterStrings.Item(ps[0]) + ";" + p.key + "=" + p.value;
    } else if |ps| > 1 {
      assert (ps + [p])[1..] == ps[1..] + [p];
      FlatAppends(ps[1..], p);
      assert ParameterStrings.Item(ps[0]) + ";" + (Flat(ps[1..]) + ";" + p.key + "=" + p.value)
          == ParameterStrings.Item(ps[0]) + ";" + Flat(ps[1..]) + ";" + p.key + "=" + p.value;
    }
  }

  /** What the parser takes off the front of any string: up to the first '=' the key, up to the next ';'
      the value; without an '=' nothing. */
  lemma ChunkSplits(s: string)
    ensures FirstChunk(s).None? <==> '=' !in s
    ensures FirstChunk(s).Some? ==>
      var c := FirstChunk(s).value;
      && '=' !in c.pair.key && ';' !in c.pair.value
      && (c.rest.None? ==> s == c.pair.key + "=" + c.pair.value)
      && (c.rest.Some? ==> s == c.pair.key + "=" + c.pair.value + ";" + c.rest.value)
  {
    hide StrChr;
    StrChrFinds(s, '=');
    var b := StrChr(s, '=');
    if b.Some? {
      var a := s[b.value + 1..];
      StrChrFinds(a, ';');
      Rejoin(s, b.value, "=");
      var e := StrChr(a, ';');
      if e.Some? {
        Rejoin(a, e.value, ";");
        Regroup(s[..b.value] + "=", a[..e.value], ";", a[e.value + 1..]);
      }
    }
  }

  lemma Rejoin(s: string, i: nat, c: string)
    requires i < |s| && c == [s[i]]
    ensures s == s[..i] + c + s[i + 1..]
  {
  }

  lemma Regroup(a: string, b: string, c: string, d: string)
    ensures a + (b + c + d) == a + b + c + d
  {
  }

  /** And so on with the rest, as long as there is one. */
  lemma ParsedUnrolls(s: string)
    ensures FirstChunk(s).None? ==> Parsed(s) == []
    ensures FirstChunk(s).Some? && FirstChunk(s).value.rest.None? ==> Parsed(s) == [FirstChunk(s).value.pair]
    ensures FirstChunk(s).Some? && FirstChunk(s).value.rest.Some? ==>
      Parsed(s) == [FirstChunk(s).value.pair] + Parsed(FirstChunk(s).value.rest.value)
  {
    hide FirstChunk;
  }

  // ---------------------------------------------------------------- set and get

  predicate HasSeparator(s: string) { '=' in s || ';' in s }

  /** set stores the value when neither key nor value holds a separator, and changes nothing otherwise;
      it never changes another key. */
  lemma SetIsSeen(ps: seq<Pair>, key: string, value: string, other: string)
    requires P1.Good(ps)
    ensures var ps' := P1.Apply(ps, P1.Set(Some(key), Some(value)));
      && Stored(ps', other) == (if other == key && !HasSeparator(key) && !HasSeparator(value) then Some(value) else Stored(ps, other))
      && (HasSeparator(key) || HasSeparator(value) ==> ps' == ps)
    ensures P1.Apply(ps, P1.Set(None, Some(value))) == ps && P1.Apply(ps, P1.Set(Some(key), None)) == ps
  {
    hide P1.Put, Stored;
    P1.PutIsSeen(ps, Pair(key, value), other);
  }

  /** The same of the set-ordered class, where a pair that is taken also becomes the last one. */
  lemma SetMovesToEnd(ps: seq<Pair>, key: string, value: string)
    ensures var ps' := P2.Apply(ps, P2.Set(key, value));
      && (HasSeparator(key) || HasSeparator(value) ==> ps' == ps)
      && (!HasSeparator(key) && !HasSeparator(value) ==> ps' != [] && ps'[|ps'| - 1] == Pair(key, value))
  {
    hide KeyIndex;
  }

  // ---------------------------------------------------------------- numbers

  lemma {:induction false} NumberOfAnyDecimal(s: string, at: nat, m: nat)
    requires StandsAt(s, at, Decimal(m)) && !IsDigit(At(s, at + |Decimal(m)|))
    ensures SkipDigits(s, at) == at + |Decimal(m)| && Number(s[at..at + |Decimal(m)|]) == m && IsDigit(s[at])
  {
    SkipsDecimal(s, at, m);
    NumberOfDecimal(m);
  }

  /** strtol reads any decimal number, with a sign or without, and saturates at 64 bits. */
  lemma StrtolSaturates(s: string, at: nat, sign: string, m: nat)
    requires (sign == "" || sign == "-" || sign == "+") && StandsAt(s, at, sign + Decimal(m))
    requires !IsDigit(At(s, at + |sign| + |Decimal(m)|))
    ensures var n: int := if sign == "-" then -(m as int) else m;
      Strtol(s, at) == (if n > 0x7fff_ffff_ffff_ffff then 0x7fff_ffff_ffff_ffff
                        else if n < -0x8000_0000_0000_0000 then -0x8000_0000_0000_0000 else n,
                        at + |sign| + |Decimal(m)|)
  {
    hide SkipDigits, Decimal, Number;
    SplitText(s, at, sign, Decimal(m));
    NumberOfAnyDecimal(s, at + |sign|, m);
    if sign != "" {
      assert s[at] == s[at..at + 1][0] == sign[0];
    }
  }

  /** Whitespace in front of a number is skipped. */
  lemma StrtolSkipsSpace(s: string, at: nat)
    requires at < |s| && (s[at] == ' ' || '\t' <= s[at] <= '\r') && Strtol(s, at + 1).1 > at + 1
    ensures Strtol(s, at) == Strtol(s, at + 1)
  {
    hide SkipDigits, Number;
  }

  // ---------------------------------------------------------------- sizes

  /** A size getter answers -1x-1 for a missing or empty value and for one that does not start with a
      number and an 'x'. */
  lemma NoSizeStored(ps: seq<Pair>, key: string)
    ensures Stored(ps, key).None? || Stored(ps, key) == Some("") ==> P1.SizeOf(ps, key) == Size(-1, -1)
    ensures Stored(ps, key).Some? && ParsePair(Stored(ps, key).value, 0, 'x').None? ==> P1.SizeOf(ps, key) == Size(-1, -1)
  {
    hide ParsePair;
  }

  lemma PairNeedsDelimiter(s: string, at: nat, delim: char)
    requires at <= |s| && delim != '\0'
    ensures ParsePair(s, at, delim).Some? <==> At(s, Strtol(s, at).1) == delim
  {
    hide Strtol;
  }

  /** A list is read up to the first size that is followed by something else than ',' or the end: that
      size and all behind it are dropped. */
  lemma {:induction false} SizesBeforeJunk(s: string, at: nat, sizes: seq<Size>)
    requires sizes != [] && StandsAt(s, at, SizeList(sizes)) && at + |SizeList(sizes)| < |s|
    requires var c := s[at + |SizeList(sizes)|]; c != ',' && c != '\0' && !IsDigit(c)
    ensures SizesFrom(s, at) == sizes[..|sizes| - 1]
    decreases |sizes|
  {
    hide ParsePair, PairString, SizesFrom, At;
    var size := sizes[0];
    var end := at + |SizeText(size)|;
    if |sizes| == 1 {
      SizeThenJunk(s, at, size);
      assert sizes[..0] == [];
    } else {
      var rest := SizeList(sizes[1..]);
      SplitText(s, at, SizeText(size), "," + rest);
      SplitText(s, end, ",", rest);
      SizeThenComma(s, at, size);
      SizesBeforeJunk(s, end + 1, sizes[1..]);
      assert sizes[..|sizes| - 1] == [size] + sizes[1..][..|sizes| - 2];
    }
  }

  lemma SizeThenJunk(s: string, at: nat, size: Size)
    requires StandsAt(s, at, SizeText(size)) && at + |SizeText(size)| < |s|
    requires var c := s[at + |SizeText(size)|]; c != ',' && c != '\0' && !IsDigit(c)
    ensures SizesFrom(s, at) == []
  {
    hide ParsePair, PairString;
    PairIsParsed(s, at, size.width, size.height, 'x');
  }
}
