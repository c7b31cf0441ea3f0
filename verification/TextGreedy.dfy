/** What greedy wrapping means, line by line, and that it is what cmds/screenrecord/TextRenderer.cpp
    does: every line the renderer draws is the one this says, and no other lines are. */
module TextGreedy {
  import opened CStrings
  import opened Parcels
  import opened TextWrap

  // ---------------------------------------------------------------- the font

  /** A printable ASCII character has its own glyph, everything else is shown as '?'; neighbours share
      the gap and the outline. */
  lemma CharWidthMeans(f: Font, ch: char)
    requires Usable(f)
    ensures CharWidth(f, ch) ==
      (f.glyphWidth[if ' ' <= ch <= '~' then ch as int - 32 else 31] - 2) as real * f.scale
  {
  }

  /** A line is 34 pixels high before scaling, and what it may take lies between xpos, or the left
      border, and the right border. */
  lemma LayoutMeans(f: Font, sc: Screen, xpos: real)
    ensures GlyphHeight(f) == 34.0 * f.scale
    ensures Limit(sc, xpos) == sc.width as real - sc.border - (if xpos < sc.border then sc.border else xpos)
  {
  }

  // ---------------------------------------------------------------- greedy lines

  /** The first line of r, when r does not fit the room: it fits, unless it is a single character; no
      prefix that fits ends at a later whitespace, or goes further when the line ends inside a word; a
      whitespace character it ends at is skipped. */
  ghost predicate GreedyLine(f: Font, r: string, p: Piece, room: real)
    requires Usable(f)
  {
    var n := |p.text|;
    && 1 <= n < |r| && p.text == r[..n] && Width(f, r) > room
    && (n == 1 || Width(f, r[..n]) < room)
    && p.skipped == (if IsSpace(r[n]) then [r[n]] else "")
    && (forall j :: 1 <= j < |r| && Width(f, r[..j]) < room && IsSpace(r[j]) ==> j <= n && IsSpace(r[n]))
    && (!IsSpace(r[n]) ==> forall j :: 1 <= j < |r| && Width(f, r[..j]) < room ==> j <= n)
  }

  /** All lines: the last one is what fits as a whole. */
  ghost predicate GreedyLines(f: Font, s: string, ps: seq<Piece>, limit: real, indented: real)
    requires Usable(f)
    decreases |ps|
  {
    ps != [] &&
    if |ps| == 1 then ps[0] == Piece(s, "") && (s == "" || Width(f, s) <= limit)
    else
      && GreedyLine(f, s, ps[0], limit)
      && GreedyLines(f, s[|ps[0].text| + |ps[0].skipped|..], ps[1..], indented, indented)
  }

  lemma NoNul(s: string, i: nat)
    requires '\0' !in s && i < |s|
    ensures StrChrFindsSpace(At(s, i)) <==> IsSpace(s[i])
  {
    assert s[i] in s;
  }

  /** The break of the code is the greedy one. */
  lemma CutIsGreedy(f: Font, s: string, limit: real)
    requires Usable(f) && '\0' !in s && Cut(f, s, limit).Some? && Cut(f, s, limit).value.next <= |s|
    ensures var c := Cut(f, s, limit).value; GreedyLine(f, s, Piece(s[..c.at], s[c.at..c.next]), limit)
  {
    hide Width, GoodPos, ScanBack;
    var c := Cut(f, s, limit).value;
    var n := c.at;
    LongerLoneCharacter(f, s, limit);
    BreakBelow(f, s, limit);
    NoNul(s, n);
    BreakFits(f, s, limit);
    forall j | 1 <= j < |s| && Width(f, s[..j]) < limit
      ensures (IsSpace(s[j]) ==> j <= n && IsSpace(s[n])) && (!IsSpace(s[n]) ==> j <= n)
    {
      BreakIsGreedy(f, s, limit, j);
      NoNul(s, j);
    }
    assert IsSpace(s[n]) ==> s[n..n + 1] == [s[n]];
  }

  lemma BreakBelow(f: Font, s: string, limit: real)
    requires Usable(f) && s != "" && GoodPos(f, s, limit) < |s|
    ensures BreakPos(f, s, limit) < |s|
  {
    hide Width, GoodPos;
  }

  /** Everything the renderer draws is greedy. */
  lemma {:induction false} WrapIsGreedy(f: Font, s: string, limit: real, indented: real)
    requires Usable(f) && '\0' !in s && Wrap(f, s, limit, indented).Some?
    ensures GreedyLines(f, s, Wrap(f, s, limit, indented).value, limit, indented)
    decreases |s|
  {
    hide Cut, Width, GreedyLine;
    var c := Cut(f, s, limit);
    var ps := Wrap(f, s, limit, indented).value;
    if c.Some? {
      var (b, n) := (c.value.at, c.value.next);
      CutIsGreedy(f, s, limit);
      var more := Wrap(f, s[n..], indented, indented).value;
      WrapIsNotEmpty(f, s[n..], indented, indented);
      WrapIsGreedy(f, s[n..], indented, indented);
      assert ps[1..] == more && ps[0] == Piece(s[..b], s[b..n]);
    }
  }

  /** There is only one greedy first line. */
  lemma GreedyLineIsUnique(f: Font, r: string, p: Piece, q: Piece, room: real)
    requires Usable(f) && GreedyLine(f, r, p, room) && GreedyLine(f, r, q, room)
    ensures p == q
  {
    hide Width;
    var (m, n) := (|p.text|, |q.text|);
    if m > 1 {
      ShorterFits(f, r, m, room);
    }
    if n > 1 {
      ShorterFits(f, r, n, room);
    }
    assert m == n;
  }

  lemma ShorterFits(f: Font, r: string, m: nat, room: real)
    requires Usable(f) && 1 <= m <= |r| && Width(f, r[..m]) < room
    ensures Width(f, r[..1]) < room
  {
    hide CharWidth;
    assert r[..m][..1] == r[..1];
    WidthMonotone(f, r[..m], 1);
  }

  /** And nothing else is greedy: wrapping succeeds exactly when there are greedy lines, and these are
      the lines it draws. */
  lemma {:induction false} GreedyIsWrap(f: Font, s: string, ps: seq<Piece>, limit: real, indented: real)
    requires Usable(f) && '\0' !in s && GreedyLines(f, s, ps, limit, indented)
    ensures Wrap(f, s, limit, indented) == Some(ps)
    decreases |ps|
  {
    hide Cut, Width, GreedyLine;
    if |ps| == 1 {
      assert ps == [Piece(s, "")];
    } else {
      GreedyNeedsBreak(f, s, ps[0], limit);
      var c := Cut(f, s, limit).value;
      CutIsGreedy(f, s, limit);
      GreedyLineIsUnique(f, s, ps[0], Piece(s[..c.at], s[c.at..c.next]), limit);
      GreedyIsWrap(f, s[c.next..], ps[1..], indented, indented);
      assert [ps[0]] + ps[1..] == ps;
    }
  }

  lemma GreedyNeedsBreak(f: Font, s: string, p: Piece, limit: real)
    requires Usable(f) && GreedyLine(f, s, p, limit)
    ensures Cut(f, s, limit).Some? && Cut(f, s, limit).value.next <= |s|
  {
    hide Width, BreakPos;
  }
}
