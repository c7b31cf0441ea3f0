/** CameraParameters of camera/CameraParameters.cpp: parameters in a vector sorted by key. */
module CameraParameters {
  import opened CStrings
  import opened Parcels
  import opened SortedVectors
  import opened ParameterStrings
  import opened SizeStrings

  // ---------------------------------------------------------------- the sorted vector

  ghost predicate KeysAscend(ps: seq<Pair>) {
    forall i, j :: 0 <= i < j < |ps| ==> StrLess(ps[i].key, ps[j].key)
  }

  /** KeyedVector::add and replaceValueFor. */
  function Put(ps: seq<Pair>, p: Pair): seq<Pair> {
    if ps == [] then [p]
    else
      var last := ps[|ps| - 1];
      if last.key == p.key then ps[..|ps| - 1] + [p]
      else if StrLess(last.key, p.key) then ps + [p]
      else Put(ps[..|ps| - 1], p) + [last]
  }

  function PutAll(ps: seq<Pair>): seq<Pair> {
    if ps == [] then [] else Put(PutAll(ps[..|ps| - 1]), ps[|ps| - 1])
  }

  /** Sorted and clean: what every reachable map is. */
  ghost predicate Good(ps: seq<Pair>) { KeysAscend(ps) && Clean(ps) }

  lemma KeyAt(ps: seq<Pair>, i: nat)
    requires KeysAscend(ps) && i < |ps|
    ensures KeyIndex(ps, ps[i].key) == i
  {
    var k := KeyIndex(ps, ps[i].key);
    StrLessTotal(ps[i].key, ps[i].key);
  }

  lemma {:induction false} PutKeepsOrder(ps: seq<Pair>, p: Pair)
    requires KeysAscend(ps)
    ensures KeysAscend(Put(ps, p))
    ensures forall i :: 0 <= i < |Put(ps, p)| ==> Put(ps, p)[i] == p || Put(ps, p)[i] in ps
    decreases |ps|
  {
    if ps != [] {
      var front, last := ps[..|ps| - 1], ps[|ps| - 1];
      assert ps == front + [last];
      if last.key == p.key {
      } else if StrLess(last.key, p.key) {
        forall i | 0 <= i < |front|
          ensures StrLess(ps[i].key, p.key)
        {
          StrLessTransitive(ps[i].key, last.key, p.key);
        }
      } else {
        PutKeepsOrder(front, p);
        StrLessTotal(last.key, p.key);
        var r := Put(front, p);
        forall i | 0 <= i < |r|
          ensures StrLess(r[i].key, last.key)
        {
          if r[i] != p {
            var j :| 0 <= j < |front| && front[j] == r[i];
            assert StrLess(ps[j].key, ps[|ps| - 1].key);
          }
        }
      }
    }
  }

  lemma PutKeepsGood(ps: seq<Pair>, p: Pair)
    requires Good(ps) && CleanPair(p)
    ensures Good(Put(ps, p))
  {
    PutKeepsOrder(ps, p);
    var r := Put(ps, p);
    forall i | 0 <= i < |r|
      ensures CleanPair(r[i])
    {
      if r[i] != p {
        var j :| 0 <= j < |ps| && ps[j] == r[i];
      }
    }
  }

  lemma {:induction false} PutHas(ps: seq<Pair>, p: Pair)
    ensures p in Put(ps, p)
    decreases |ps|
  {
    if ps != [] && ps[|ps| - 1].key != p.key && !StrLess(ps[|ps| - 1].key, p.key) {
      PutHas(ps[..|ps| - 1], p);
    }
  }

  lemma {:induction false} PutKeepsOthers(ps: seq<Pair>, p: Pair, q: Pair)
    requires q.key != p.key
    ensures q in Put(ps, p) <==> q in ps
    decreases |ps|
  {
    if ps != [] {
      assert ps == ps[..|ps| - 1] + [ps[|ps| - 1]];
      PutKeepsOthers(ps[..|ps| - 1], p, q);
    }
  }

  lemma StoredIffIn(ps: seq<Pair>, key: string, value: string)
    requires KeysAscend(ps)
    ensures Stored(ps, key) == Some(value) <==> Pair(key, value) in ps
  {
    if Pair(key, value) in ps {
      var i :| 0 <= i < |ps| && ps[i] == Pair(key, value);
      KeyAt(ps, i);
    }
  }

  /** Putting a pair stores its value under its key, and nothing else changes. */
  lemma PutIsSeen(ps: seq<Pair>, p: Pair, key: string)
    requires KeysAscend(ps)
    ensures Stored(Put(ps, p), key) == if key == p.key then Some(p.value) else Stored(ps, key)
  {
    hide Put;
    PutKeepsOrder(ps, p);
    if key == p.key {
      PutHas(ps, p);
      StoredIffIn(Put(ps, p), key, p.value);
    } else {
      var before, after := Stored(ps, key), Stored(Put(ps, p), key);
      if before.Some? {
        StoredIffIn(ps, key, before.value);
        PutKeepsOthers(ps, p, Pair(key, before.value));
        StoredIffIn(Put(ps, p), key, before.value);
      } else if after.Some? {
        StoredIffIn(Put(ps, p), key, after.value);
        PutKeepsOthers(ps, p, Pair(key, after.value));
        StoredIffIn(ps, key, after.value);
      }
    }
  }

  lemma DropKeepsGood(ps: seq<Pair>, key: string)
    requires Good(ps)
    ensures Good(Drop(ps, key))
  {
  }

  lemma DropKeepsOthers(ps: seq<Pair>, dropped: string, q: Pair)
    requires KeysAscend(ps)
    ensures q in Drop(ps, dropped) <==> q in ps && q.key != dropped
  {
    var i := KeyIndex(ps, dropped);
    if i < |ps| {
      assert ps == ps[..i] + ([ps[i]] + ps[i + 1..]);
      if q in ps[i + 1..] {
        var j :| 0 <= j < |ps[i + 1..]| && ps[i + 1..][j] == q;
        assert StrLess(ps[i].key, ps[i + 1 + j].key);
        StrLessTotal(dropped, q.key);
      }
    }
  }

  /** Removing a key leaves nothing under it and every other key alone. */
  lemma DropIsSeen(ps: seq<Pair>, dropped: string, key: string)
    requires Good(ps)
    ensures Stored(Drop(ps, dropped), key) == if key == dropped then None else Stored(ps, key)
  {
    hide Drop;
    DropKeepsGood(ps, dropped);
    var before, after := Stored(ps, key), Stored(Drop(ps, dropped), key);
    if after.Some? {
      StoredIffIn(Drop(ps, dropped), key, after.value);
      DropKeepsOthers(ps, dropped, Pair(key, after.value));
      StoredIffIn(ps, key, after.value);
    } else if before.Some? {
      StoredIffIn(ps, key, before.value);
      DropKeepsOthers(ps, dropped, Pair(key, before.value));
      StoredIffIn(Drop(ps, dropped), key, before.value);
    }
  }

  lemma {:induction false} PutAllGood(ps: seq<Pair>)
    requires Clean(ps)
    ensures Good(PutAll(ps))
    decreases |ps|
  {
    if ps != [] {
      PutAllGood(ps[..|ps| - 1]);
      PutKeepsGood(PutAll(ps[..|ps| - 1]), ps[|ps| - 1]);
    }
  }

  lemma {:induction false} PutAllAscending(ps: seq<Pair>)
    requires KeysAscend(ps)
    ensures PutAll(ps) == ps
    decreases |ps|
  {
    if ps != [] {
      var front, last := ps[..|ps| - 1], ps[|ps| - 1];
      PutAllAscending(front);
      assert ps == front + [last];
      if front != [] {
        assert StrLess(ps[|front| - 1].key, last.key);
        StrLessTotal(ps[|front| - 1].key, last.key);
      }
    }
  }

  /** The last value the list has for a key. */
  function LastValue(ps: seq<Pair>, key: string): Option<string> {
    if ps == [] then None
    else if ps[|ps| - 1].key == key then Some(ps[|ps| - 1].value)
    else LastValue(ps[..|ps| - 1], key)
  }

  lemma {:induction false} PutAllIsSeen(ps: seq<Pair>, key: string)
    requires Clean(ps)
    ensures Stored(PutAll(ps), key) == LastValue(ps, key)
    decreases |ps|
  {
    if ps != [] {
      PutAllGood(ps[..|ps| - 1]);
      PutAllIsSeen(ps[..|ps| - 1], key);
      PutIsSeen(PutAll(ps[..|ps| - 1]), ps[|ps| - 1], key);
    }
  }

  // ---------------------------------------------------------------- the laws

  function Unflattened(s: string): seq<Pair> { PutAll(Parsed(s)) }

  lemma UnflattenedGood(s: string)
    ensures Good(Unflattened(s))
  {
    ParsedIsClean(s);
    PutAllGood(Parsed(s));
  }

  /** After unflatten, each key has the last value the string gives it. */
  lemma UnflattenedMeans(s: string, key: string)
    ensures Stored(Unflattened(s), key) == LastValue(Parsed(s), key)
  {
    ParsedIsClean(s);
    PutAllIsSeen(Parsed(s), key);
  }

  lemma GoodRoundTrip(ps: seq<Pair>)
    requires Good(ps)
    ensures Unflattened(Flat(ps)) == ps
  {
    ParsedFlat(ps);
    PutAllAscending(ps);
  }

  /** For every string, flattening what was unflattened and unflattening it again changes nothing. */
  lemma UnflattenFlattenUnflatten(s: string)
    ensures Unflattened(Flat(Unflattened(s))) == Unflattened(s)
  {
    UnflattenedGood(s);
    GoodRoundTrip(Unflattened(s));
  }

  datatype Op = Set(key: Option<string>, value: Option<string>) | Remove(removed: string) | Unflatten(flat: string)

  function Apply(ps: seq<Pair>, op: Op): seq<Pair> {
    match op
    case Set(key, value) =>
      if key.None? || value.None? || !Allowed(key.value) || !Allowed(value.value) then ps
      else Put(ps, Pair(key.value, value.value))
    case Remove(key) => Drop(ps, key)
    case Unflatten(flat) => Unflattened(flat)
  }

  function Run(ps: seq<Pair>, ops: seq<Op>): seq<Pair>
    decreases |ops|
  {
    if ops == [] then ps else Run(Apply(ps, ops[0]), ops[1..])
  }

  lemma ApplyKeepsGood(ps: seq<Pair>, op: Op)
    requires Good(ps)
    ensures Good(Apply(ps, op))
  {
    match op
    case Set(key, value) =>
      if key.Some? && value.Some? && Allowed(key.value) && Allowed(value.value) {
        PutKeepsGood(ps, Pair(key.value, value.value));
      }
    case Remove(key) => DropKeepsGood(ps, key);
    case Unflatten(flat) => UnflattenedGood(flat);
  }

  lemma {:induction false} RunKeepsGood(ps: seq<Pair>, ops: seq<Op>)
    requires Good(ps)
    ensures Good(Run(ps, ops))
    decreases |ops|
  {
    if ops != [] {
      ApplyKeepsGood(ps, ops[0]);
      RunKeepsGood(Apply(ps, ops[0]), ops[1..]);
    }
  }

  /** Every map reachable by any run of set, remove and unflatten survives flatten and unflatten. */
  lemma ReachableSurvives(ops: seq<Op>)
    ensures Unflattened(Flat(Run([], ops))) == Run([], ops)
  {
    RunKeepsGood([], ops);
    GoodRoundTrip(Run([], ops));
  }

  // ---------------------------------------------------------------- the class

  class CameraParameters {
    var mMap: seq<Pair>

    ghost predicate Valid()
      reads this
    {
      Good(mMap)
    }

    constructor ()
      ensures Valid() && mMap == []
    {
      mMap := [];
    }

    method Flatten() returns (flattened: string)
      ensures flattened == Flat(mMap)
      ensures Valid() ==> Unflattened(flattened) == mMap
    {
      flattened := ParameterStrings.Flatten(mMap);
      if Good(mMap) {
        GoodRoundTrip(mMap);
      }
    }

    method Unflatten(params: string)
      modifies this
      ensures Valid() && mMap == Unflattened(params)
    {
      hide FirstChunk, Parsed, PutAll, Put, Good;
      UnflattenedGood(params);
      NothingPut(params);
      mMap := [];
      var a := 0;
      assert params[0..] == params;
      ghost var done: seq<Pair> := [];
      while true
        invariant a <= |params|
        invariant mMap == PutAll(done) && done + Parsed(params[a..]) == Parsed(params)
        decreases |params| - a
      {
        ParsedStep(done, params[a..]);
        var c, next := FindItem(params, a);
        if c.None? {
          break;
        }
        mMap := Put(mMap, c.value.pair);
        done := PutNext(done, c.value.pair);
        if c.value.rest.None? {
          break;
        }
        a := next;
      }
    }

    method Set(key: Option<string>, value: Option<string>)
      requires Valid()
      modifies this
      ensures Valid() && mMap == Apply(old(mMap), Op.Set(key, value))
    {
      ApplyKeepsGood(mMap, Op.Set(key, value));
      if key.None? || value.None? { return; }
      StrChrFinds(key.value, '=');
      StrChrFinds(key.value, ';');
      StrChrFinds(value.value, '=');
      StrChrFinds(value.value, ';');
      if StrChr(key.value, '=').Some? || StrChr(key.value, ';').Some? { return; }
      if StrChr(value.value, '=').Some? || StrChr(value.value, ';').Some? { return; }
      mMap := Put(mMap, Pair(key.value, value.value));
    }

    method Remove(key: string)
      requires Valid()
      modifies this
      ensures Valid() && mMap == Drop(old(mMap), key)
    {
      DropKeepsGood(mMap, key);
      mMap := Drop(mMap, key);
    }

    /** setPreviewSize, setVideoSize and setPictureSize, which differ in the key only. */
    method SetSize(key: string, size: Size)
      requires Valid() && IsSizeKey(key)
      modifies this
      ensures Valid() && SizeOf(mMap, key) == size
      ensures forall other :: other != key ==> Stored(mMap, other) == Stored(old(mMap), other)
    {
      hide SizeOf, Good, SizeText;
      ghost var before := mMap;
      SizesAreInverse(mMap, key, size);
      SizeTextAllowed(size);
      forall other | other != key
        ensures Stored(Apply(before, Op.Set(Some(key), Some(SizeText(size)))), other) == Stored(before, other)
      {
        SetKeepsOthers(before, key, SizeText(size), other);
      }
      Set(Some(key), Some(SizeText(size)));
    }

    /** getPreviewSize, getVideoSize and getPictureSize. */
    method GetSize(key: string) returns (size: Size)
      ensures size == SizeOf(mMap, key)
    {
      size := Size(-1, -1);
      var p := Get(key);
      if p.None? { return; }
      var parsed := ParsePair(p.value, 0, 'x');
      if parsed.Some? {
        size := Size(parsed.value.first, parsed.value.second);
      }
    }

    /** getSupportedPreviewSizes, getSupportedVideoSizes and getSupportedPictureSizes. */
    method GetSupportedSizes(key: string, before: seq<Size>) returns (sizes: seq<Size>)
      requires forall i :: 0 <= i < |mMap| ==> '\0' !in mMap[i].value
      ensures forall list :: Stored(mMap, key) == Some(SizeList(list)) ==> sizes == before + list
      ensures sizes == before +
        if Stored(mMap, key).None? || Stored(mMap, key) == Some("") then [] else SizesFrom(Stored(mMap, key).value, 0)
    {
      hide SizesFrom;
      var p := Get(key);
      sizes := ParseSizesList(p, before);
      forall list | Stored(mMap, key) == Some(SizeList(list))
        ensures sizes == before + list
      {
        SizesListRoundTrip(list);
        SizeListEmpty(list);
      }
    }

    /** get: an empty value reads like a missing one. */
    method Get(key: string) returns (value: Option<string>)
      ensures value == if Stored(mMap, key) == Some("") then None else Stored(mMap, key)
    {
      var i := KeyIndex(mMap, key);
      var v := if i < |mMap| then mMap[i].value else "";
      value := if |v| == 0 then None else Some(v);
    }
  }

  lemma NothingPut(params: string)
    ensures PutAll([]) == [] && [] + Parsed(params) == Parsed(params)
  {
  }

  const KEY_PREVIEW_SIZE := "preview-size"
  const KEY_VIDEO_SIZE := "video-size"
  const KEY_PICTURE_SIZE := "picture-size"

  predicate IsSizeKey(key: string) { key == KEY_PREVIEW_SIZE || key == KEY_VIDEO_SIZE || key == KEY_PICTURE_SIZE }

  /** What the three size getters answer. */
  function SizeOf(ps: seq<Pair>, key: string): Size {
    var v := Stored(ps, key);
    if v.None? || v == Some("") then Size(-1, -1)
    else
      var p := ParsePair(v.value, 0, 'x');
      if p.None? then Size(-1, -1) else Size(p.value.first, p.value.second)
  }

  lemma SizeTextAllowed(size: Size)
    ensures Allowed(SizeText(size)) && SizeText(size) != ""
  {
    hide Printed;
    PrintedAllowed(size.width);
    PrintedAllowed(size.height);
  }

  /** A size setter followed by its getter gives the size back, whatever it is; a getter followed
      by its setter changes nothing when the value is a size in the setter's own form. */
  lemma SizesAreInverse(ps: seq<Pair>, key: string, size: Size)
    requires Good(ps) && IsSizeKey(key)
    ensures SizeOf(Apply(ps, Set(Some(key), Some(SizeText(size)))), key) == size
    ensures Stored(ps, key) == Some(SizeText(size)) ==> Apply(ps, Set(Some(key), Some(SizeText(SizeOf(ps, key))))) == ps
  {
    hide ParsePair, SizeText, Put, Stored, Good;
    SizeTextAllowed(size);
    SizeTextParsed(size);
    KeyAllowed(key);
    PutSeen(ps, key, SizeText(size));
    if Stored(ps, key) == Some(SizeText(size)) {
      PutStored(ps, key, SizeText(size));
    }
  }

  lemma PutSeen(ps: seq<Pair>, key: string, value: string)
    requires Good(ps)
    ensures Stored(Put(ps, Pair(key, value)), key) == Some(value)
  {
    PutIsSeen(ps, Pair(key, value), key);
  }

  lemma PutStored(ps: seq<Pair>, key: string, value: string)
    requires Good(ps) && Stored(ps, key) == Some(value)
    ensures Put(ps, Pair(key, value)) == ps
  {
    PutSame(ps, KeyIndex(ps, key));
  }

  lemma SizeTextParsed(size: Size)
    ensures ParsePair(SizeText(size), 0, 'x').Some?
    ensures var p := ParsePair(SizeText(size), 0, 'x').value; p.first == size.width && p.second == size.height
  {
    hide ParsePair, PairString;
    PairIsParsed(SizeText(size), 0, size.width, size.height, 'x');
  }

  lemma KeyAllowed(key: string)
    requires IsSizeKey(key)
    ensures Allowed(key)
  {
  }

  lemma SetKeepsOthers(ps: seq<Pair>, key: string, value: string, other: string)
    requires Good(ps) && other != key
    ensures Stored(Apply(ps, Set(Some(key), Some(value))), other) == Stored(ps, other)
  {
    hide Put, Stored;
    PutIsSeen(ps, Pair(key, value), other);
  }

  lemma SizeListEmpty(list: seq<Size>)
    ensures SizeList(list) == "" ==> list == []
  {
    hide PairString;
    if list != [] {
      SizeTextAllowed(list[0]);
    }
  }

  /** Putting the pair that is there changes nothing. */
  lemma {:induction false} PutSame(ps: seq<Pair>, i: nat)
    requires KeysAscend(ps) && i < |ps|
    ensures Put(ps, ps[i]) == ps
    decreases |ps|
  {
    var front, last := ps[..|ps| - 1], ps[|ps| - 1];
    assert ps == front + [last];
    if i < |ps| - 1 {
      StrLessTotal(ps[i].key, last.key);
      PutSame(front, i);
    }
  }

  ghost function PutNext(done: seq<Pair>, p: Pair): (r: seq<Pair>)
    ensures r == done + [p] && PutAll(r) == Put(PutAll(done), p)
  {
    assert (done + [p])[..|done|] == done;
    done + [p]
  }

}
