/** C strings: sequences of characters other than NUL, with an implicit terminator. */
module CStrings {
  import opened Parcels

  /** strchr, as an index. */
  function StrChr(s: string, c: char): (r: Option<nat>)
    ensures r.Some? ==> r.value < |s|
  {
    if s == "" then None
    else if s[0] == c then Some(0)
    else
      var r := StrChr(s[1..], c);
      if r.None? then None else Some(r.value + 1)
  }

  lemma {:induction false} StrChrFinds(s: string, c: char)
    ensures var r := StrChr(s, c);
      && (r.Some? ==> s[r.value] == c && c !in s[..r.value])
      && (r.None? <==> c !in s)
  {
    if s != "" && s[0] != c {
      StrChrFinds(s[1..], c);
      assert s == [s[0]] + s[1..];
      var r := StrChr(s[1..], c);
      if r.Some? {
        assert s[..r.value + 1] == [s[0]] + s[1..][..r.value];
      }
    }
  }

  lemma {:induction false} StrChrAt(s: string, c: char, i: nat)
    requires i < |s| && s[i] == c && c !in s[..i]
    ensures StrChr(s, c) == Some(i)
  {
    if i > 0 {
      assert s[0] == s[..i][0] && s[1..][..i - 1] == s[..i][1..];
      StrChrAt(s[1..], c, i - 1);
    }
  }

  /** The character at a position, with the terminator behind the last one. */
  function At(s: string, i: nat): char { if i < |s| then s[i] else '\0' }
}
