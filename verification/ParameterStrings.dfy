/** The flat form of camera parameters, "key=value;key=value", printed by flatten and parsed by
    unflatten of camera/CameraParameters.cpp and camera/CameraParameters2.cpp.

    Strings are C strings: sequences of characters other than NUL, with an implicit terminator. */
module ParameterStrings {
  import opened CStrings
  import opened Parcels

  datatype Pair = Pair(key: string, value: string)

  function Item(p: Pair): string { p.key + "=" + p.value }

  /** What flatten prints. */
  function Flat(ps: seq<Pair>): string {
    if ps == [] then ""
    else if |ps| == 1 then Item(ps[0])
    else Item(ps[0]) + ";" + Flat(ps[1..])
  }

  datatype Chunk = Chunk(pair: Pair, rest: Option<string>)

  /** One pass of unflatten's loop: the pair it adds, and where it goes on if the item ended in ';'. */
  function FirstChunk(s: string): (r: Option<Chunk>)
    ensures r.Some? && r.value.rest.Some? ==> |r.value.rest.value| < |s|
  {
    var b := StrChr(s, '=');
    if b.None? then None
    else
      var a := s[b.value + 1..];
      var e := StrChr(a, ';');
      if e.None? then Some(Chunk(Pair(s[..b.value], a), None))
      else Some(Chunk(Pair(s[..b.value], a[..e.value]), Some(a[e.value + 1..])))
  }

  /** The pairs that unflatten adds, in order. */
  function Parsed(s: string): seq<Pair>
    decreases |s|
  {
    var c := FirstChunk(s);
    if c.None? then []
    else if c.value.rest.None? then [c.value.pair]
    else [c.value.pair] + Parsed(c.value.rest.value)
  }

  /** No '=' in a key and no ';' in a value; a key may hold ';' and a value '='. */
  predicate CleanPair(p: Pair) { '=' !in p.key && ';' !in p.value }

  predicate Clean(ps: seq<Pair>) { forall i :: 0 <= i < |ps| ==> CleanPair(ps[i]) }

  lemma ChunkIsClean(s: string)
    ensures FirstChunk(s).Some? ==> CleanPair(FirstChunk(s).value.pair)
  {
    hide StrChr;
    StrChrFinds(s, '=');
    var b := StrChr(s, '=');
    if b.Some? {
      StrChrFinds(s[b.value + 1..], ';');
    }
  }

  /** Whatever the string, what unflatten adds is clean. */
  lemma {:induction false} ParsedIsClean(s: string)
    ensures Clean(Parsed(s))
    decreases |s|
  {
    hide FirstChunk;
    ChunkIsClean(s);
    var c := FirstChunk(s);
    if c.Some? && c.value.rest.Some? {
      ParsedIsClean(c.value.rest.value);
    }
  }

  lemma NoChunk(s: string)
    requires StrChr(s, '=').None?
    ensures FirstChunk(s).None?
  {
  }

  lemma LastChunk(p: Pair)
    requires CleanPair(p)
    ensures FirstChunk(Item(p)) == Some(Chunk(p, None))
  {
    hide StrChr;
    assert Item(p)[..|p.key|] == p.key;
    StrChrAt(Item(p), '=', |p.key|);
    assert Item(p)[|p.key| + 1..] == p.value;
    StrChrFinds(p.value, ';');
  }

  lemma InnerChunk(p: Pair, tail: string)
    requires CleanPair(p)
    ensures FirstChunk(Item(p) + ";" + tail) == Some(Chunk(p, Some(tail)))
  {
    hide StrChr;
    var s := Item(p) + ";" + tail;
    assert s[..|p.key|] == p.key;
    StrChrAt(s, '=', |p.key|);
    var a := s[|p.key| + 1..];
    assert a == p.value + ";" + tail;
    assert a[..|p.value|] == p.value;
    StrChrAt(a, ';', |p.value|);
    assert a[|p.value| + 1..] == tail;
  }

  /** The parser inverts the printer on every clean list, order and repetitions included. */
  lemma {:induction false} ParsedFlat(ps: seq<Pair>)
    requires Clean(ps)
    ensures Parsed(Flat(ps)) == ps
    decreases |ps|
  {
    hide FirstChunk;
    if |ps| == 1 {
      LastChunk(ps[0]);
      assert ps == [ps[0]];
    } else if ps == [] {
      NoChunk("");
    } else {
      InnerChunk(ps[0], Flat(ps[1..]));
      ParsedFlat(ps[1..]);
      assert ps == [ps[0]] + ps[1..];
    }
  }

  /** flatten. */
  method Flatten(ps: seq<Pair>) returns (flattened: string)
    ensures flattened == Flat(ps)
  {
    flattened := "";
    assert ps[0..] == ps;
    assert "" + Flat(ps) == Flat(ps);
    for i := 0 to |ps|
      invariant flattened + Flat(ps[i..]) == Flat(ps)
    {
      FlatStep(flattened, ps, i);
      flattened := flattened + ps[i].key;
      flattened := flattened + "=";
      flattened := flattened + ps[i].value;
      if i != |ps| - 1 {
        flattened := flattened + ";";
      }
    }
    assert ps[|ps|..] == [] && flattened + "" == flattened;
  }

  lemma FlatStep(flattened: string, ps: seq<Pair>, i: nat)
    requires i < |ps|
    ensures i == |ps| - 1 ==> flattened + ps[i].key + "=" + ps[i].value + Flat(ps[i + 1..]) == flattened + Flat(ps[i..])
    ensures i != |ps| - 1 ==>
      flattened + ps[i].key + "=" + ps[i].value + ";" + Flat(ps[i + 1..]) == flattened + Flat(ps[i..])
  {
    assert ps[i..][1..] == ps[i + 1..];
    if i == |ps| - 1 {
      assert flattened + ps[i].key + "=" + ps[i].value + "" == flattened + Item(ps[i]);
    } else {
      assert flattened + ps[i].key + "=" + ps[i].value + ";" + Flat(ps[i + 1..])
          == flattened + (Item(ps[i]) + ";" + Flat(ps[i + 1..]));
    }
  }

  /** The index of the first pair with the key, or the number of pairs. */
  function KeyIndex(ps: seq<Pair>, key: string): (i: nat)
    ensures i <= |ps|
    ensures i < |ps| ==> ps[i].key == key
    ensures forall j :: 0 <= j < i ==> ps[j].key != key
  {
    if ps == [] then 0 else if ps[0].key == key then 0 else 1 + KeyIndex(ps[1..], key)
  }

  /** removeItem: the first pair of the key goes. */
  function Drop(ps: seq<Pair>, key: string): seq<Pair> {
    var i := KeyIndex(ps, key);
    if i < |ps| then ps[..i] + ps[i + 1..] else ps
  }

  /** The first value stored for a key. */
  function Stored(ps: seq<Pair>, key: string): Option<string> {
    var i := KeyIndex(ps, key);
    if i < |ps| then Some(ps[i].value) else None
  }

  predicate Allowed(s: string) { '=' !in s && ';' !in s }

  lemma ParsedStep(done: seq<Pair>, s: string)
    ensures var c := FirstChunk(s);
      && (c.None? ==> done + Parsed(s) == done)
      && (c.Some? && c.value.rest.None? ==> done + Parsed(s) == done + [c.value.pair])
      && (c.Some? && c.value.rest.Some? ==> done + Parsed(s) == done + [c.value.pair] + Parsed(c.value.rest.value))
  {
    hide FirstChunk;
    assert done + [] == done;
    var c := FirstChunk(s);
    if c.Some? && c.value.rest.Some? {
      var more := Parsed(c.value.rest.value);
      assert done + ([c.value.pair] + more) == done + [c.value.pair] + more;
    }
  }

  lemma Tail(s: string, a: nat, n: nat)
    requires a + n <= |s|
    ensures s[a..][n..] == s[a + n..]
  {
  }

  lemma ChunkOf(s: string, b: nat, t: string)
    requires StrChr(s, '=') == Some(b) && t == s[b + 1..]
    ensures var e := StrChr(t, ';');
      FirstChunk(s) == Some(if e.None? then Chunk(Pair(s[..b], t), None)
                            else Chunk(Pair(s[..b], t[..e.value]), Some(t[e.value + 1..])))
  {
    hide StrChr;
  }

  /** The body of the loop of unflatten: the bounds of the next key and its value. */
  method FindItem(params: string, from: nat) returns (c: Option<Chunk>, a: nat)
    requires from <= |params|
    ensures c == FirstChunk(params[from..])
    ensures c.Some? && c.value.rest.Some? ==> from < a <= |params| && params[a..] == c.value.rest.value
  {
    hide StrChr, FirstChunk;
    a := from;
    var b := StrChr(params[a..], '=');
    if b.None? {
      NoChunk(params[a..]);
      return None, a;
    }
    Tail(params, a, b.value + 1);
    ChunkOf(params[a..], b.value, params[a + b.value + 1..]);
    var k := params[a..][..b.value];
    a := a + b.value + 1;
    var e := StrChr(params[a..], ';');
    if e.None? {
      return Some(Chunk(Pair(k, params[a..]), None)), a;
    }
    Tail(params, a, e.value + 1);
    var v := params[a..][..e.value];
    a := a + e.value + 1;
    c := Some(Chunk(Pair(k, v), Some(params[a..])));
  }
}
