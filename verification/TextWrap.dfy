/** Greedy line breaking of cmds/screenrecord/TextRenderer.cpp on a mutable C string, with reals
    for floats. */
module TextWrap {
  import opened CStrings
  import opened Parcels

  // ---------------------------------------------------------------- the font

  const FIRST_GLYPH_CHAR := 32
  const NUM_GLYPHS := 95
  const MAX_GLYPH_HEIGHT := 34
  const OUTLINE_WIDTH := 1

  /** FontBitmap::glyphWidth and mScale.  No glyph is narrower than its outline and gap. */
  datatype Font = Font(glyphWidth: seq<nat>, scale: real)

  predicate Usable(f: Font) {
    |f.glyphWidth| == NUM_GLYPHS && f.scale >= 0.0 && forall i :: 0 <= i < NUM_GLYPHS ==> f.glyphWidth[i] >= 1 + OUTLINE_WIDTH
  }

  function GlyphHeight(f: Font): real { MAX_GLYPH_HEIGHT as real * f.scale }

  /** glyphIndex: a character without a glyph is shown as '?'. */
  function GlyphIndex(ch: char): (chi: nat)
    ensures chi < NUM_GLYPHS
  {
    var chi := ch as int - FIRST_GLYPH_CHAR;
    if chi < 0 || chi >= NUM_GLYPHS then '?' as int - FIRST_GLYPH_CHAR else chi
  }

  function CharWidth(f: Font, ch: char): (w: real)
    requires Usable(f)
    ensures w >= 0.0
  {
    (f.glyphWidth[GlyphIndex(ch)] - 1 - OUTLINE_WIDTH) as real * f.scale
  }

  /** computeScaledStringWidth. */
  function Width(f: Font, s: string): (w: real)
    requires Usable(f)
    ensures w >= 0.0
  {
    if s == "" then 0.0 else Width(f, s[..|s| - 1]) + CharWidth(f, s[|s| - 1])
  }

  lemma {:induction false} WidthMonotone(f: Font, s: string, i: nat)
    requires Usable(f) && i <= |s|
    ensures Width(f, s[..i]) <= Width(f, s)
    decreases |s|
  {
    if i == |s| {
      assert s[..i] == s;
    } else {
      var front := s[..|s| - 1];
      assert s[..i] == front[..i];
      WidthMonotone(f, front, i);
    }
  }

  lemma {:induction false} CharFitsIfStringFits(f: Font, s: string, i: nat)
    requires Usable(f) && i < |s|
    ensures CharWidth(f, s[i]) <= Width(f, s)
    decreases |s|
  {
    if i < |s| - 1 {
      CharFitsIfStringFits(f, s[..|s| - 1], i);
    }
  }

  method ComputeScaledStringWidth(f: Font, str: string) returns (width: real)
    requires Usable(f)
    ensures width == Width(f, str)
  {
    width := 0.0;
    for i := 0 to |str|
      invariant width == Width(f, str[..i])
    {
      assert str[..i + 1][..i] == str[..i];
      width := width + CharWidth(f, str[i]);
    }
    assert str[..|str|] == str;
  }

  // ---------------------------------------------------------------- where a line breaks

  predicate IsSpace(ch: char) { ch == ' ' || ch == '\t' || ch == '\n' || ch == '\r' }

  /** strchr(kWhitespace, ch) != NULL: the terminator of kWhitespace is found as well. */
  predicate StrChrFindsSpace(ch: char) { IsSpace(ch) || ch == '\0' }

  /** The number of prefix lengths, from i on, that the loop of breakString accepts, plus i. */
  function Accepted(f: Font, s: string, maxWidth: real, i: nat): (k: nat)
    requires Usable(f) && i <= |s|
    ensures i <= k <= |s|
    ensures k > i ==> Width(f, s[..k - 1]) < maxWidth
    ensures k < |s| ==> Width(f, s[..k]) >= maxWidth
    decreases |s| - i
  {
    if i < |s| && Width(f, s[..i]) < maxWidth then Accepted(f, s, maxWidth, i + 1) else i
  }

  /** The longest prefix that is known to fit, but at least one character. */
  function GoodPos(f: Font, s: string, maxWidth: real): (g: nat)
    requires Usable(f) && s != ""
    ensures 1 <= g <= |s| && (g == |s| ==> g == 1)
  {
    var k := Accepted(f, s, maxWidth, 0);
    if k <= 1 then 1 else k - 1
  }

  /** The last position from g down to 1 that holds whitespace, or the terminator; g if there is none. */
  function ScanBack(s: string, g: nat, i: nat): (b: nat)
    requires i <= g <= |s|
    ensures b <= g && (i > 0 ==> b <= i || b == g)
    ensures g >= 1 ==> b >= 1
  {
    if i == 0 then g else if StrChrFindsSpace(At(s, i)) then i else ScanBack(s, g, i - 1)
  }

  /** Where breakString breaks a string that does not fit. */
  function BreakPos(f: Font, s: string, maxWidth: real): (b: nat)
    requires Usable(f) && s != ""
    ensures 1 <= b <= |s| && (b == |s| ==> |s| == 1)
  {
    var g := GoodPos(f, s, maxWidth);
    ScanBack(s, g, g)
  }

  /** The line up to the break fits, unless it is a single character that does not. */
  lemma BreakFits(f: Font, s: string, maxWidth: real)
    requires Usable(f) && s != ""
    ensures var b := BreakPos(f, s, maxWidth);
      Width(f, s[..b]) < maxWidth || (b == 1 && Width(f, s[..1]) >= maxWidth)
  {
    var k, b := Accepted(f, s, maxWidth, 0), BreakPos(f, s, maxWidth);
    if k > 1 {
      assert s[..b] == s[..k - 1][..b];
      WidthMonotone(f, s[..k - 1], b);
    }
  }

  lemma {:induction false} ScanBackFindsLast(s: string, g: nat, i: nat)
    requires i <= g <= |s|
    ensures var b := ScanBack(s, g, i);
      (forall j :: 1 <= j <= i && StrChrFindsSpace(At(s, j)) ==> j <= b && StrChrFindsSpace(At(s, b)))
  {
    if i > 0 && !StrChrFindsSpace(At(s, i)) {
      ScanBackFindsLast(s, g, i - 1);
    }
  }

  lemma GoodPosIsGreatest(f: Font, s: string, maxWidth: real, j: nat)
    requires Usable(f) && 1 <= j < |s| && Width(f, s[..j]) < maxWidth
    ensures j <= GoodPos(f, s, maxWidth)
  {
    hide Width;
    var k := Accepted(f, s, maxWidth, 0);
    if k <= j {
      assert s[..k] == s[..j][..k];
      WidthMonotone(f, s[..j], k);
    }
  }

  /** Greedy: a line ends at the last whitespace that lets it fit, and only when there is none
      in the middle of a word, as late as it fits. */
  lemma BreakIsGreedy(f: Font, s: string, maxWidth: real, j: nat)
    requires Usable(f) && 1 <= j < |s| && Width(f, s[..j]) < maxWidth
    ensures var b := BreakPos(f, s, maxWidth);
      && (StrChrFindsSpace(s[j]) ==> StrChrFindsSpace(At(s, b)) && j <= b)
      && (!StrChrFindsSpace(At(s, b)) ==> j <= b)
  {
    hide GoodPos, Width;
    var g := GoodPos(f, s, maxWidth);
    GoodPosIsGreatest(f, s, maxWidth, j);
    ScanBackFindsLast(s, g, g);
    ScanBackMisses(s, g, g);
    assert At(s, j) == s[j];
  }

  lemma {:induction false} ScanBackMisses(s: string, g: nat, i: nat)
    requires i <= g <= |s|
    ensures ScanBack(s, g, i) == g || StrChrFindsSpace(At(s, ScanBack(s, g, i)))
  {
    if i > 0 && !StrChrFindsSpace(At(s, i)) {
      ScanBackMisses(s, g, i - 1);
    }
  }

  // ---------------------------------------------------------------- wrapping a string

  /** A line and what was skipped after it. */
  datatype Piece = Piece(text: string, skipped: string)

  /** Where a line ends and where the next one starts. */
  datatype Break = Break(at: nat, next: nat)

  /** The break of a line, if the string needs one: whitespace there is skipped.  At the terminator,
      which passes for whitespace, the next line would start past it. */
  function Cut(f: Font, s: string, limit: real): (c: Option<Break>)
    requires Usable(f)
    ensures c.None? <==> s == "" || Width(f, s) <= limit
    ensures c.Some? ==> 1 <= c.value.at <= |s| && c.value.at <= c.value.next <= c.value.at + 1
    ensures c.Some? ==> (c.value.next > c.value.at <==> StrChrFindsSpace(At(s, c.value.at)))
  {
    if s == "" || Width(f, s) <= limit then None
    else
      var b := BreakPos(f, s, limit);
      Some(Break(b, if StrChrFindsSpace(At(s, b)) then b + 1 else b))
  }

  /** Pieces in front of others. */
  function Drawn(done: seq<Piece>, rest: Option<seq<Piece>>): Option<seq<Piece>> {
    if rest.None? then None else Some(done + rest.value)
  }

  /** The lines of a string: `limit` is the width of the first, `indented` that of the others.
      None: the cursor moves past the terminator. */
  function Wrap(f: Font, s: string, limit: real, indented: real): Option<seq<Piece>>
    requires Usable(f)
    decreases |s|
  {
    var c := Cut(f, s, limit);
    if c.None? then Some([Piece(s, "")])
    else if c.value.next > |s| then None
    else
      Drawn([Piece(s[..c.value.at], s[c.value.at..c.value.next])], Wrap(f, s[c.value.next..], indented, indented))
  }

  function Join(ps: seq<Piece>): string {
    if ps == [] then "" else ps[0].text + ps[0].skipped + Join(ps[1..])
  }

  /** Only one whitespace character is ever skipped, and only the last line can be empty. */
  predicate Tidy(ps: seq<Piece>) {
    ps != [] &&
    if |ps| == 1 then ps[0].skipped == ""
    else
      && ps[0].text != ""
      && (ps[0].skipped == "" || (|ps[0].skipped| == 1 && IsSpace(ps[0].skipped[0])))
      && Tidy(ps[1..])
  }

  /** Putting back at each break nothing or the one skipped whitespace character gives back the input. */
  lemma {:induction false} WrapRejoins(f: Font, s: string, limit: real, indented: real)
    requires Usable(f) && Wrap(f, s, limit, indented).Some? && '\0' !in s
    ensures Join(Wrap(f, s, limit, indented).value) == s && Tidy(Wrap(f, s, limit, indented).value)
    decreases |s|
  {
    hide Cut, Width, Join, Tidy, Usable;
    var c := Cut(f, s, limit);
    if c.None? {
      JoinOne(Piece(s, ""));
    } else {
      var (b, n) := (c.value.at, c.value.next);
      WrapRejoins(f, s[n..], indented, indented);
      assert n > b ==> s[b] == At(s, b) && s[b] in s;
      JoinCons(Piece(s[..b], s[b..n]), Wrap(f, s[n..], indented, indented).value);
      assert s[..b] + s[b..n] + s[n..] == s;
    }
  }

  lemma JoinOne(p: Piece)
    requires p.skipped == ""
    ensures Join([p]) == p.text && Tidy([p])
  {
    assert p.text + "" + "" == p.text;
  }

  lemma JoinCons(p: Piece, ps: seq<Piece>)
    requires Tidy(ps) && p.text != "" && (p.skipped == "" || (|p.skipped| == 1 && IsSpace(p.skipped[0])))
    ensures Join([p] + ps) == p.text + p.skipped + Join(ps) && Tidy([p] + ps)
  {
    assert ([p] + ps)[1..] == ps;
  }

  /** The width limit of each line. */
  predicate LinesFit(f: Font, ps: seq<Piece>, limit: real, indented: real)
    requires Usable(f)
  {
    forall i :: 0 <= i < |ps| ==> Width(f, ps[i].text) <= if i == 0 then limit else indented
  }

  lemma Width1(f: Font, s: string)
    requires Usable(f) && |s| > 0
    ensures Width(f, s[..1]) == CharWidth(f, s[0])
  {
    assert s[..1][..0] == "";
  }

  /** When every glyph of the string fits the indented line, and that is the narrower one, the
      cursor never moves past the terminator and every line fits its limit. */
  lemma {:induction false} WrapFits(f: Font, s: string, limit: real, indented: real)
    requires Usable(f) && 0.0 <= indented <= limit
    requires forall i :: 0 <= i < |s| ==> CharWidth(f, s[i]) <= indented
    ensures var r := Wrap(f, s, limit, indented); r.Some? && LinesFit(f, r.value, limit, indented)
    decreases |s|
  {
    hide CharWidth, BreakPos, Width;
    var c := Cut(f, s, limit);
    if c.Some? {
      var b := c.value.at;
      Width1(f, s);
      BreakFits(f, s, limit);
      assert s[..|s|] == s;
      WrapFits(f, s[c.value.next..], indented, indented);
      assert Width(f, s[..b]) <= limit;
    } else if s == "" {
      WidthOfNothing(f);
    }
  }

  lemma WidthOfNothing(f: Font)
    requires Usable(f)
    ensures Width(f, "") == 0.0
  {
  }

  /** The condition a caller can check: the string fits the first line, or its last character fits
      the indented one. */
  predicate LastFits(f: Font, s: string, limit: real, indented: real)
    requires Usable(f) && s != ""
  {
    Width(f, s) <= limit || CharWidth(f, s[|s| - 1]) <= indented
  }

  /** The cursor stays within the string whenever the string fits or its last character does. */
  lemma {:induction false} LastFitsIsSafe(f: Font, s: string, limit: real, indented: real)
    requires Usable(f) && s != "" && indented <= limit && LastFits(f, s, limit, indented)
    ensures Wrap(f, s, limit, indented).Some?
    decreases |s|
  {
    hide CharWidth, BreakPos, Width;
    var c := Cut(f, s, limit);
    if c.Some? {
      Width1(f, s);
      assert s[..|s|] == s;
      var rest := s[c.value.next..];
      if rest != "" {
        assert rest[|rest| - 1] == s[|s| - 1];
        LastFitsIsSafe(f, rest, indented, indented);
      }
    }
  }

  /** When it does not hold for a string that does not end in whitespace, the cursor moves past the
      terminator: the last character ends up alone on a line it does not fit, breakString breaks
      right after it, and the terminator there passes for whitespace to be skipped. */
  lemma {:induction false} LastTooWideOverruns(f: Font, s: string, limit: real, indented: real)
    requires Usable(f) && s != "" && indented <= limit && !LastFits(f, s, limit, indented)
    requires !StrChrFindsSpace(s[|s| - 1])
    ensures Wrap(f, s, limit, indented).None?
    decreases |s|
  {
    hide CharWidth, BreakPos, Width;
    var c := Cut(f, s, limit);
    if c.value.next <= |s| {
      var rest := s[c.value.next..];
      assert rest[|rest| - 1] == s[|s| - 1];
      CharFitsIfStringFits(f, rest, |rest| - 1);
      LastTooWideOverruns(f, rest, indented, indented);
    }
  }

  /** A single whitespace character at the end is never left alone: the line before it breaks right
      at it and skips it. */
  lemma {:induction false} SingleTrailingSpaceIsSafe(f: Font, s: string, limit: real, indented: real)
    requires Usable(f) && |s| >= 2 && IsSpace(s[|s| - 1]) && !StrChrFindsSpace(s[|s| - 2])
    ensures Wrap(f, s, limit, indented).Some?
    decreases |s|
  {
    hide CharWidth, BreakPos, Width;
    var c := CutWithin(f, s, limit);
    if c.Some? {
      var rest := s[c.value.next..];
      if rest != "" {
        assert rest[|rest| - 1] == s[|s| - 1];
        SingleTrailingSpaceIsSafe(f, rest, indented, indented);
      } else {
        assert Wrap(f, rest, indented, indented).Some?;
      }
    }
  }

  /** A break of two or more characters lies before the terminator. */
  lemma CutWithin(f: Font, s: string, limit: real) returns (c: Option<Break>)
    requires Usable(f) && |s| >= 2
    ensures c == Cut(f, s, limit) && (c.Some? ==> c.value.at < |s|)
  {
    c := Cut(f, s, limit);
  }

  lemma LoneCharacterIsSafeIffItFits(f: Font, s: string, limit: real, indented: real)
    requires Usable(f) && |s| == 1
    ensures Wrap(f, s, limit, indented).Some? <==> Width(f, s) <= limit
  {
    hide CharWidth, BreakPos, Width;
  }

  /** Exactly when drawing stays within the string, for strings that do not end in two or more
      whitespace characters: the string fits the first line, or its last character fits the
      indented one, or that is a single whitespace character after another one.  The condition is
      sufficient for every string. */
  lemma SafeIffLastFits(f: Font, s: string, limit: real, indented: real)
    requires Usable(f) && s != "" && indented <= limit && '\0' !in s
    ensures LastFits(f, s, limit, indented) ==> Wrap(f, s, limit, indented).Some?
    ensures |s| == 1 || !IsSpace(s[|s| - 1]) || !IsSpace(s[|s| - 2]) ==>
      (Wrap(f, s, limit, indented).Some? <==> LastFits(f, s, limit, indented) || (|s| >= 2 && IsSpace(s[|s| - 1])))
  {
    hide Wrap, Width, CharWidth;
    assert s[|s| - 1] in s;
    if LastFits(f, s, limit, indented) {
      LastFitsIsSafe(f, s, limit, indented);
    } else if !IsSpace(s[|s| - 1]) {
      LastTooWideOverruns(f, s, limit, indented);
    } else if |s| == 1 {
      LoneCharacterIsSafeIffItFits(f, s, limit, indented);
    } else if !IsSpace(s[|s| - 2]) {
      assert s[|s| - 2] in s;
      SingleTrailingSpaceIsSafe(f, s, limit, indented);
    }
  }

  /** An empty last line comes from whitespace at the end of the string that was skipped. */
  lemma {:induction false} BlankLineMeansTrailingSpace(f: Font, s: string, limit: real, indented: real)
    requires Usable(f) && s != "" && '\0' !in s && Wrap(f, s, limit, indented).Some?
    ensures var ps := Wrap(f, s, limit, indented).value;
      ps != [] && (ps[|ps| - 1].text == "" ==> IsSpace(s[|s| - 1]))
    decreases |s|
  {
    hide Cut, Width;
    var c := Cut(f, s, limit);
    if c.Some? {
      var rest := s[c.value.next..];
      if rest == "" {
        assert s[|s| - 1] == At(s, c.value.at) && s[|s| - 1] in s;
      } else {
        assert rest[|rest| - 1] == s[|s| - 1];
        BlankLineMeansTrailingSpace(f, rest, indented, indented);
      }
    }
  }

  /** One more character behind a string that needs a break leaves the break where it is. */
  lemma CutStays(f: Font, t: string, ch: char, limit: real)
    requires Usable(f) && Cut(f, t, limit).Some? && Cut(f, t, limit).value.next <= |t|
    ensures Cut(f, t + [ch], limit) == Cut(f, t, limit)
  {
    hide Width, CharWidth;
    var s := t + [ch];
    assert s[..|t|] == t;
    WidthMonotone(f, s, |t|);
    AcceptedStays(f, t, ch, limit, 0);
    var g := GoodPos(f, t, limit);
    LongerLoneCharacter(f, t, limit);
    ScanBackStays(t, ch, g, g);
  }

  /** Only a lone character has its break at the terminator. */
  lemma LongerLoneCharacter(f: Font, t: string, limit: real)
    requires Usable(f) && Cut(f, t, limit).Some? && Cut(f, t, limit).value.next <= |t|
    ensures GoodPos(f, t, limit) < |t|
  {
    hide Width, Accepted;
  }

  lemma {:induction false} AcceptedStays(f: Font, t: string, ch: char, limit: real, i: nat)
    requires Usable(f) && i <= |t| && Width(f, t) >= limit
    ensures Accepted(f, t + [ch], limit, i) == Accepted(f, t, limit, i)
    decreases |t| - i
  {
    hide Width;
    assert (t + [ch])[..i] == t[..i];
    if i < |t| {
      AcceptedStays(f, t, ch, limit, i + 1);
    } else {
      assert t[..i] == t;
    }
  }

  lemma {:induction false} ScanBackStays(t: string, ch: char, g: nat, i: nat)
    requires i <= g < |t|
    ensures ScanBack(t + [ch], g, i) == ScanBack(t, g, i)
  {
    if i > 0 {
      ScanBackStays(t, ch, g, i - 1);
    }
  }

  /** The width limit of the last of these lines. */
  function Room(ps: seq<Piece>, limit: real, indented: real): real { if |ps| <= 1 then limit else indented }

  /** The lines with one more whitespace character behind a last line that leaves some room. */
  function WithSpace(f: Font, ps: seq<Piece>, ch: char, room: real): seq<Piece>
    requires Usable(f) && ps != []
  {
    var last := ps[|ps| - 1].text;
    ps[..|ps| - 1] + if Width(f, last + [ch]) <= room then [Piece(last + [ch], "")] else [Piece(last, [ch]), Piece("", "")]
  }

  lemma SpaceBehindOneLine(f: Font, text: string, ch: char, limit: real, indented: real)
    requires Usable(f) && text != "" && IsSpace(ch) && Width(f, text) < limit
    ensures Wrap(f, text + [ch], limit, indented) == Some(WithSpace(f, [Piece(text, "")], ch, limit))
  {
    hide Width, Accepted;
    var s := text + [ch];
    var ps := [Piece(text, "")];
    assert ps[..0] + [Piece(s, "")] == [Piece(s, "")];
    if Width(f, s) > limit {
      assert s[..|text|] == text && At(s, |text|) == ch;
      GoodPosIsGreatest(f, s, limit, |text|);
      assert Cut(f, s, limit) == Some(Break(|text|, |text| + 1));
      assert s[|text|..|text| + 1] == [ch] && s[|text| + 1..] == "";
      assert Wrap(f, "", indented, indented) == Some([Piece("", "")]);
      assert [Piece(text, [ch])] + [Piece("", "")] == [] + [Piece(text, [ch]), Piece("", "")];
    }
  }

  /** Exactly when whitespace at the end draws an empty line, although breakString leaves it to its
      caller not to: behind a last line that leaves some room, a whitespace character is drawn with it
      when it still fits, and otherwise is skipped and an empty line follows. */
  lemma {:induction false} BlankLineIffSpaceDoesNotFit(f: Font, t: string, ch: char, limit: real, indented: real)
    requires Usable(f) && IsSpace(ch) && Wrap(f, t, limit, indented).Some?
    requires var ps := Wrap(f, t, limit, indented).value;
      ps != [] && ps[|ps| - 1].text != "" && Width(f, ps[|ps| - 1].text) < Room(ps, limit, indented)
    ensures var (ps, r) := (Wrap(f, t, limit, indented).value, Wrap(f, t + [ch], limit, indented));
      && r == Some(WithSpace(f, ps, ch, Room(ps, limit, indented)))
      && (r.value[|r.value| - 1].text == "" <==> Width(f, ps[|ps| - 1].text + [ch]) > Room(ps, limit, indented))
    decreases |t|
  {
    hide Cut, Width, WithSpace;
    var c := Cut(f, t, limit);
    var ps := Wrap(f, t, limit, indented).value;
    if c.None? {
      SpaceBehindOneLine(f, t, ch, limit, indented);
    } else {
      CutStays(f, t, ch, limit);
      var n := c.value.next;
      var rest := t[n..];
      var more := Wrap(f, rest, indented, indented).value;
      var first := Piece(t[..c.value.at], t[c.value.at..n]);
      WrapIsNotEmpty(f, rest, indented, indented);
      assert ps == [first] + more && ps[|ps| - 1] == more[|more| - 1];
      BlankLineIffSpaceDoesNotFit(f, rest, ch, indented, indented);
      SpaceGoesOn(f, t, ch, limit, indented);
      WithSpaceCons(f, first, more, ch, indented);
    }
    LastWithSpace(f, ps, ch, Room(ps, limit, indented));
  }

  /** The break of the longer string leaves the same first piece and one character more. */
  lemma SpaceGoesOn(f: Font, t: string, ch: char, limit: real, indented: real)
    requires Usable(f) && Cut(f, t, limit).Some? && Cut(f, t, limit).value.next <= |t|
    requires Cut(f, t + [ch], limit) == Cut(f, t, limit)
    ensures var c := Cut(f, t, limit).value;
      Wrap(f, t + [ch], limit, indented)
      == Drawn([Piece(t[..c.at], t[c.at..c.next])], Wrap(f, t[c.next..] + [ch], indented, indented))
  {
    hide Cut, Width;
    var c := Cut(f, t, limit).value;
    var s := t + [ch];
    assert s[..c.at] == t[..c.at] && s[c.at..c.next] == t[c.at..c.next] && s[c.next..] == t[c.next..] + [ch];
  }

  lemma WrapIsNotEmpty(f: Font, t: string, limit: real, indented: real)
    requires Usable(f)
    ensures Wrap(f, t, limit, indented).Some? ==> Wrap(f, t, limit, indented).value != []
  {
    hide Cut, Width;
  }

  lemma WithSpaceCons(f: Font, p: Piece, ps: seq<Piece>, ch: char, room: real)
    requires Usable(f) && ps != []
    ensures [p] + WithSpace(f, ps, ch, room) == WithSpace(f, [p] + ps, ch, room)
  {
    hide Width;
    assert ([p] + ps)[..|ps|] == [p] + ps[..|ps| - 1];
  }

  lemma LastWithSpace(f: Font, ps: seq<Piece>, ch: char, room: real)
    requires Usable(f) && ps != []
    ensures var r := WithSpace(f, ps, ch, room);
      r != [] && (r[|r| - 1].text == "" <==> Width(f, ps[|ps| - 1].text + [ch]) > room)
  {
    hide Width;
  }

  /** For text that fits the first line, the condition is one a caller can check. */
  lemma TrailingSpaceDrawsBlankLine(f: Font, text: string, ch: char, limit: real, indented: real)
    requires Usable(f) && text != "" && IsSpace(ch) && Width(f, text) < limit
    ensures Wrap(f, text + [ch], limit, indented)
         == Some(if Width(f, text + [ch]) > limit then [Piece(text, [ch]), Piece("", "")] else [Piece(text + [ch], "")])
  {
    hide Width, Wrap;
    SpaceBehindOneLine(f, text, ch, limit, indented);
    var ps := [Piece(text, "")];
    var tail := if Width(f, text + [ch]) <= limit then [Piece(text + [ch], "")] else [Piece(text, [ch]), Piece("", "")];
    assert WithSpace(f, ps, ch, limit) == ps[..0] + tail == tail;
  }

  /** Behind an empty last line the next character stands alone: the cursor stays within the string
      exactly when that character fits the line. */
  lemma {:induction false} CharacterBehindBlankLine(f: Font, t: string, ch: char, limit: real, indented: real)
    requires Usable(f) && Wrap(f, t, limit, indented).Some?
    requires var ps := Wrap(f, t, limit, indented).value; ps != [] && ps[|ps| - 1].text == ""
    ensures var ps := Wrap(f, t, limit, indented).value;
      Wrap(f, t + [ch], limit, indented).Some? <==> CharWidth(f, ch) <= Room(ps, limit, indented)
    decreases |t|
  {
    hide Cut, Width, CharWidth;
    var c := Cut(f, t, limit);
    if c.None? {
      assert t + [ch] == [ch];
      LoneCharacterIsSafeIffItFits(f, [ch], limit, indented);
      Width1(f, [ch]);
      assert [ch][..1] == [ch];
    } else {
      CutStays(f, t, ch, limit);
      var rest := t[c.value.next..];
      var more := Wrap(f, rest, indented, indented).value;
      WrapIsNotEmpty(f, rest, indented, indented);
      assert Wrap(f, t, limit, indented).value[|more|] == more[|more| - 1];
      CharacterBehindBlankLine(f, rest, ch, indented, indented);
      SpaceGoesOn(f, t, ch, limit, indented);
    }
  }

  // ---------------------------------------------------------------- drawing

  /** A call of drawString. */
  datatype Line = Line(x: real, y: real, text: string)

  datatype Screen = Screen(width: nat, height: nat, border: real, indentMult: real)

  function AtLeast(x: real, low: real): real { if x < low then low else x }

  /** The room from xpos to the border. */
  function Limit(sc: Screen, xpos: real): real { sc.width as real - sc.border - AtLeast(xpos, sc.border) }

  ghost predicate Placed(lines: seq<Line>, ps: seq<Piece>, x: real, indent: real, y: real, h: real) {
    && |lines| == |ps|
    && forall i :: 0 <= i < |lines| ==>
         lines[i] == Line(if i == 0 then x else x + indent, y + i as real * h, ps[i].text)
  }

  /** strlen, on the characters from a pointer on. */
  function CString(a: seq<char>): string { if a == [] || a[0] == '\0' then "" else [a[0]] + CString(a[1..]) }

  lemma {:induction false} CStringIs(s: string, tail: seq<char>)
    requires '\0' !in s
    ensures CString(s + ['\0'] + tail) == s
  {
    if s != "" {
      assert s[0] in s;
      assert (s + ['\0'] + tail)[1..] == s[1..] + ['\0'] + tail;
      CStringIs(s[1..], tail);
    }
  }

  /** breakString on the C string that starts at `start`. */
  method BreakString(f: Font, mangle: array<char>, start: nat, maxWidth: real, ghost s: string) returns (brk: Option<nat>)
    requires Usable(f) && start + |s| < mangle.Length && '\0' !in s && mangle[start..] == s + ['\0']
    ensures brk == if s == "" || Width(f, s) <= maxWidth then None else Some(start + BreakPos(f, s, maxWidth))
  {
    hide CharWidth;
    assert s + ['\0'] + [] == s + ['\0'];
    CStringIs(s, []);
    var str := CString(mangle[start..]);
    var len := |str|;
    if len == 0 {
      return None;
    }
    var stringWidth := ComputeScaledStringWidth(f, str);
    if stringWidth <= maxWidth {
      return None;
    }
    var goodPos := FindGoodPos(f, str, maxWidth);
    var i := goodPos;
    while i > 0
      invariant 0 <= i <= goodPos <= len
      invariant ScanBack(str, goodPos, i) == ScanBack(str, goodPos, goodPos)
    {
      assert mangle[start..][i] == At(str, i);
      if StrChrFindsSpace(mangle[start + i]) {
        return Some(start + i);
      }
      i := i - 1;
    }
    brk := Some(start + goodPos);
  }

  /** The loop that looks for the longest prefix that fits. */
  method FindGoodPos(f: Font, str: string, maxWidth: real) returns (goodPos: nat)
    requires Usable(f) && str != ""
    ensures goodPos == GoodPos(f, str, maxWidth)
  {
    hide Width, CharWidth;
    goodPos := 0;
    var i := 0;
    while i < |str|
      invariant i <= |str| && goodPos == if i <= 1 then 0 else i - 1
      invariant Accepted(f, str, maxWidth, i) == Accepted(f, str, maxWidth, 0)
    {
      var stringWidth := ComputeScaledStringWidth(f, str[..i]);
      if stringWidth < maxWidth {
        goodPos := i;
      } else {
        break;
      }
      i := i + 1;
    }
    if goodPos == 0 {
      goodPos := 1;
    }
  }

  /** drawWrappedString: the calls of drawString, the new ypos, and whether the cursor moved past
      the terminator.  xpos has to leave the line no negative width: the conversion of a negative
      width to size_t is undefined. */
  method DrawWrappedString(f: Font, sc: Screen, xpos: real, ypos: real, str: string)
    returns (lines: seq<Line>, y: real, past: bool)
    requires Usable(f) && '\0' !in str && Limit(sc, xpos) >= 0.0
    ensures var indent := sc.indentMult * f.scale;
      var (x, top) := (AtLeast(xpos, sc.border), AtLeast(ypos, sc.border));
      if sc.width == 0 || sc.height == 0 then lines == [] && y == ypos && !past
      else if Limit(sc, xpos) < 1.0 then lines == [] && y == top && !past
      else
        var ps := Wrap(f, str, Limit(sc, xpos), Limit(sc, xpos) - indent);
        && (past <==> ps.None?)
        && (!past ==> Placed(lines, ps.value, x, indent, top, GlyphHeight(f)))
        && (!past ==> y == top + |lines| as real * GlyphHeight(f))
  {
    hide Width, BreakPos, GlyphHeight, CharWidth;
    lines, y, past := [], ypos, false;
    if sc.width == 0 || sc.height == 0 {
      return;
    }
    var indentWidth := sc.indentMult * f.scale;
    var x := AtLeast(xpos, sc.border);
    y := AtLeast(ypos, sc.border);
    var limit := Limit(sc, xpos);
    var maxWidth: nat := limit.Floor;
    if maxWidth < 1 {
      return;
    }
    var stringWidth := ComputeScaledStringWidth(f, str);
    if stringWidth <= maxWidth as real {
      lines := [Line(x, y, str)];
      y := y + GlyphHeight(f);
      assert Wrap(f, str, limit, limit - indentWidth) == Some([Piece(str, "")]);
    } else {
      lines, y, past := DrawPieces(f, str, x, y, limit, indentWidth);
    }
  }

  /** The loop over the lines. */
  method DrawPieces(f: Font, str: string, x: real, top: real, limit: real, indentWidth: real)
    returns (lines: seq<Line>, y: real, past: bool)
    requires Usable(f) && '\0' !in str
    ensures past <==> Wrap(f, str, limit, limit - indentWidth).None?
    ensures !past ==>
      Placed(lines, Wrap(f, str, limit, limit - indentWidth).value, x, indentWidth, top, GlyphHeight(f))
    ensures !past ==> y == top + |lines| as real * GlyphHeight(f)
  {
    hide Width, Cut, GlyphHeight, Wrap, Placed, Drawn, StrChrFindsSpace;
    lines, y, past := [], top, false;
    var mangle := new char[|str| + 1](i requires 0 <= i <= |str| => At(str, i));
    assert mangle[..] == str + ['\0'];
    hide At, Usable;
    var start := Some(0);
    ghost var done: seq<Piece> := [];
    ghost var whole := Wrap(f, str, limit, limit - indentWidth);
    assert str[0..] == str;
    NothingDrawn(whole);
    NothingPlaced(x, indentWidth, top, GlyphHeight(f));
    while start.Some?
      invariant mangle[..] == str + ['\0']
      invariant start.Some? ==> start.value <= |str| && (start.value == 0 <==> done == [])
      invariant start.Some? ==>
        whole == Drawn(done, Wrap(f, str[start.value..], if start.value == 0 then limit else limit - indentWidth,
                                  limit - indentWidth))
      invariant start.None? ==> if past then whole == None else whole == Some(done)
      invariant past ==> start.None?
      invariant Placed(lines, done, x, indentWidth, top, GlyphHeight(f))
      invariant |lines| == |done| && y == top + |lines| as real * GlyphHeight(f)
      decreases if start.Some? then |str| + 1 - start.value else 0
    {
      var from := start.value;
      ghost var s := str[from..];
      var xposAdj := if from == 0 then x else x + indentWidth;
      var room := if from == 0 then limit else limit - indentWidth;
      assert mangle[from..] == s + ['\0'];
      WrapStep(f, done, s, room, limit - indentWidth);
      CutAt(f, str, from, room);
      var text, brk := DrawLine(f, mangle, from, room, s);
      ghost var skipped := if brk.Some? && brk.value.next <= |str| then str[brk.value.at..brk.value.next] else "";
      PlaceOne(lines, done, Piece(text, skipped), x, indentWidth, top, GlyphHeight(f));
      lines := lines + [Line(xposAdj, y, text)];
      done := done + [Piece(text, skipped)];
      if brk.None? {
        start := None;
      } else if brk.value.next > |str| {
        past := true;
        start := None;
      } else {
        start := Some(brk.value.next);
      }
      y := y + GlyphHeight(f);
    }
  }

  /** The body of that loop: the string is cut at the break for the time of the call of drawString. */
  method DrawLine(f: Font, mangle: array<char>, start: nat, maxWidth: real, ghost s: string)
    returns (text: string, brk: Option<Break>)
    requires Usable(f) && start + |s| < mangle.Length && '\0' !in s && mangle[start..] == s + ['\0']
    modifies mangle
    ensures mangle[..] == old(mangle[..])
    ensures var c := Cut(f, s, maxWidth);
      if c.None? then brk.None? && text == s
      else brk == Some(Break(start + c.value.at, start + c.value.next)) && text == s[..c.value.at]
  {
    hide Width, BreakPos, CString;
    ghost var before := mangle[..];
    var at := BreakString(f, mangle, start, maxWidth, s);
    if at.None? {
      ReadsRest(mangle[start..], s);
      return CString(mangle[start..]), None;
    }
    var ch := mangle[at.value];
    assert ch == mangle[start..][at.value - start] == At(s, at.value - start);
    mangle[at.value] := '\0';
    assert mangle[start..] == s[..at.value - start] + ['\0'] + mangle[at.value + 1..];
    CStringIs(s[..at.value - start], mangle[at.value + 1..]);
    text := CString(mangle[start..]);
    mangle[at.value] := ch;
    assert mangle[..] == before;
    brk := Some(Break(at.value, if StrChrFindsSpace(ch) then at.value + 1 else at.value));
  }

  lemma ReadsRest(a: seq<char>, s: string)
    requires '\0' !in s && a == s + ['\0']
    ensures CString(a) == s
  {
    CStringIs(s, []);
    assert s + ['\0'] + [] == a;
  }

  lemma NothingDrawn(r: Option<seq<Piece>>)
    ensures r == Drawn([], r)
  {
    assert r.Some? ==> [] + r.value == r.value;
  }

  /** A break of the rest of a string, as positions in the whole string. */
  lemma CutAt(f: Font, str: string, from: nat, room: real)
    requires Usable(f) && from <= |str|
    ensures var (s, c) := (str[from..], Cut(f, str[from..], room));
      c.Some? && c.value.next <= |s| ==>
        && from + c.value.next <= |str| && s[c.value.next..] == str[from + c.value.next..]
        && s[c.value.at..c.value.next] == str[from + c.value.at..from + c.value.next]
  {
  }

  lemma NothingPlaced(x: real, indent: real, y: real, h: real)
    ensures Placed([], [], x, indent, y, h)
  {
  }

  lemma PlaceOne(lines: seq<Line>, ps: seq<Piece>, p: Piece, x: real, indent: real, y: real, h: real)
    requires Placed(lines, ps, x, indent, y, h)
    ensures Placed(lines + [Line(if ps == [] then x else x + indent, y + |lines| as real * h, p.text)], ps + [p],
                   x, indent, y, h)
    ensures (|lines| + 1) as real * h == |lines| as real * h + h
  {
  }

  /** One line, in terms of what is left to draw. */
  lemma WrapStep(f: Font, done: seq<Piece>, s: string, room: real, indented: real)
    requires Usable(f)
    ensures var (c, r) := (Cut(f, s, room), Drawn(done, Wrap(f, s, room, indented)));
      && (c.None? ==> r == Some(done + [Piece(s, "")]))
      && (c.Some? && c.value.next > |s| ==> r.None?)
      && (c.Some? && c.value.next <= |s| ==>
            r == Drawn(done + [Piece(s[..c.value.at], s[c.value.at..c.value.next])],
                       Wrap(f, s[c.value.next..], indented, indented)))
  {
    hide Cut, Width;
    var c := Cut(f, s, room);
    if c.Some? && c.value.next <= |s| {
      var (p, more) := (Piece(s[..c.value.at], s[c.value.at..c.value.next]), Wrap(f, s[c.value.next..], indented, indented));
      if more.Some? {
        assert done + ([p] + more.value) == (done + [p]) + more.value;
      }
    }
  }
}
