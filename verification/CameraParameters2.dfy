/** CameraParameters2 of camera/CameraParameters2.cpp: parameters in the order in which they were
    last set, kept in the OrderedKeyedVector of camera/CameraParameters2.h, whose add does not
    look for an existing key. */
module CameraParameters2 {
  import opened CStrings
  import opened Parcels
  import opened ParameterStrings
  import opened SizeStrings

  // ---------------------------------------------------------------- the ordered vector

  ghost predicate DistinctKeys(ps: seq<Pair>) {
    forall i, j :: 0 <= i < j < |ps| ==> ps[i].key != ps[j].key
  }

  /** replaceValueFor: the key's position becomes the last one. */
  function Replace(ps: seq<Pair>, key: string, value: string): seq<Pair> { Drop(ps, key) + [Pair(key, value)] }

  // ---------------------------------------------------------------- the order of setting

  datatype Op = Set(key: string, value: string) | Remove(removed: string)

  predicate Takes(op: Op) { op.Set? && Allowed(op.key) && Allowed(op.value) }

  function Apply(ps: seq<Pair>, op: Op): seq<Pair> {
    match op
    case Set(key, value) => if Takes(op) then Replace(ps, key, value) else ps
    case Remove(key) => Drop(ps, key)
  }

  /** The state after a run of set and remove. */
  function Run(start: seq<Pair>, ops: seq<Op>): seq<Pair> {
    if ops == [] then start else Apply(Run(start, ops[..|ops| - 1]), ops[|ops| - 1])
  }

  /** When a key was last set, if it has not been removed since: keys of the starting state count
      as set before the run, in their order. */
  function LastSet(start: seq<Pair>, ops: seq<Op>, key: string): Option<nat> {
    if ops == [] then
      var i := KeyIndex(start, key);
      if i < |start| then Some(i) else None
    else
      var last := ops[|ops| - 1];
      if Takes(last) && last.key == key then Some(|start| + |ops| - 1)
      else if last == Remove(key) then None
      else LastSet(start, ops[..|ops| - 1], key)
  }

  /** The value a key was last set to. */
  function LastValue(start: seq<Pair>, ops: seq<Op>, key: string): Option<string> {
    if ops == [] then Stored(start, key)
    else
      var last := ops[|ops| - 1];
      if Takes(last) && last.key == key then Some(last.value)
      else if last == Remove(key) then None
      else LastValue(start, ops[..|ops| - 1], key)
  }

  /** compareSetOrder: negative, zero or positive like the difference of the positions. */
  function SetOrder(ps: seq<Pair>, key1: string, key2: string): Result<int> {
    var (i, j) := (KeyIndex(ps, key1), KeyIndex(ps, key2));
    if i == |ps| || j == |ps| then Err(NameNotFound)
    else Ok(if i == j then 0 else if i < j then -1 else 1)
  }

  /** Every pair is where its key was last set, and holds the value of that moment. */
  ghost predicate Stamped(start: seq<Pair>, ops: seq<Op>, ps: seq<Pair>) {
    && (forall i :: 0 <= i < |ps| ==>
          LastSet(start, ops, ps[i].key).Some? && LastSet(start, ops, ps[i].key).value < |start| + |ops|)
    && (forall i, j :: 0 <= i < j < |ps| ==>
          LastSet(start, ops, ps[i].key).value < LastSet(start, ops, ps[j].key).value)
  }

  lemma StampedDistinct(start: seq<Pair>, ops: seq<Op>, ps: seq<Pair>)
    requires Stamped(start, ops, ps)
    ensures DistinctKeys(ps)
  {
  }

  lemma DistinctIndex(ps: seq<Pair>, i: nat)
    requires DistinctKeys(ps) && i < |ps|
    ensures KeyIndex(ps, ps[i].key) == i
  {
  }

  /** Where a pair was before a key was dropped. */
  function Before(ps: seq<Pair>, key: string, i: nat): nat { if i < KeyIndex(ps, key) then i else i + 1 }

  /** After dropping a key, it is gone and the others are there in their order. */
  lemma DropAt(ps: seq<Pair>, key: string, i: nat)
    requires DistinctKeys(ps) && i < |Drop(ps, key)|
    ensures Before(ps, key, i) < |ps|
    ensures Drop(ps, key)[i] == ps[Before(ps, key, i)]
    ensures Drop(ps, key)[i].key != key
  {
    hide KeyIndex;
    var k := KeyIndex(ps, key);
    if k <= i {
      assert ps[k].key != ps[i + 1].key;
    }
  }

  lemma DropStamped(start: seq<Pair>, ops: seq<Op>, op: Op, key: string, ps: seq<Pair>)
    requires Stamped(start, ops, ps)
    requires (Takes(op) && op.key == key) || op == Remove(key)
    ensures Stamped(start, ops + [op], Drop(ps, key))
  {
    hide LastSet, Drop, KeyIndex;
    var more := ops + [op];
    var r := Drop(ps, key);
    StampedDistinct(start, ops, ps);
    forall i | 0 <= i < |r|
      ensures Before(ps, key, i) < |ps| && r[i] == ps[Before(ps, key, i)]
      ensures LastSet(start, more, r[i].key) == LastSet(start, ops, r[i].key)
    {
      DropAt(ps, key, i);
      OtherKeepsStamp(start, ops, op, r[i].key);
    }
    forall i, j | 0 <= i < j < |r|
      ensures LastSet(start, more, r[i].key).value < LastSet(start, more, r[j].key).value
    {
      assert Before(ps, key, i) < Before(ps, key, j);
    }
  }

  lemma OtherKeepsStamp(start: seq<Pair>, ops: seq<Op>, op: Op, key: string)
    requires !(Takes(op) && op.key == key) && op != Remove(key)
    ensures LastSet(start, ops + [op], key) == LastSet(start, ops, key)
    ensures LastValue(start, ops + [op], key) == LastValue(start, ops, key)
  {
    assert (ops + [op])[..|ops|] == ops;
  }

  lemma IgnoredStamped(start: seq<Pair>, ops: seq<Op>, op: Op, ps: seq<Pair>)
    requires Stamped(start, ops, ps) && op.Set? && !Takes(op)
    ensures Stamped(start, ops + [op], ps)
  {
    hide LastSet;
    forall i | 0 <= i < |ps|
      ensures LastSet(start, ops + [op], ps[i].key) == LastSet(start, ops, ps[i].key)
    {
      OtherKeepsStamp(start, ops, op, ps[i].key);
    }
  }

  lemma NewStamp(start: seq<Pair>, ops: seq<Op>, op: Op)
    requires Takes(op)
    ensures LastSet(start, ops + [op], op.key) == Some(|start| + |ops|)
  {
    hide KeyIndex, Takes;
    var more := ops + [op];
    assert more[|more| - 1] == op && |more| - 1 == |ops|;
  }

  /** At the end of a run from distinct keys, the pairs stand in the order of last setting. */
  lemma {:induction false} RunIsStamped(start: seq<Pair>, ops: seq<Op>)
    requires DistinctKeys(start)
    ensures Stamped(start, ops, Run(start, ops))
    decreases |ops|
  {
    if ops == [] {
      forall i | 0 <= i < |start|
        ensures KeyIndex(start, start[i].key) == i
      {
        DistinctIndex(start, i);
      }
    } else {
      var before, op := ops[..|ops| - 1], ops[|ops| - 1];
      RunIsStamped(start, before);
      assert ops == before + [op];
      ApplyStamped(start, before, op, Run(start, before));
    }
  }

  lemma ApplyStamped(start: seq<Pair>, before: seq<Op>, op: Op, ps: seq<Pair>)
    requires Stamped(start, before, ps)
    ensures Stamped(start, before + [op], Apply(ps, op))
  {
    hide LastSet, Drop, KeyIndex;
    if Takes(op) {
      DropStamped(start, before, op, op.key, ps);
      NewStamp(start, before, op);
      StampedDistinct(start, before, ps);
      forall i | 0 <= i < |Drop(ps, op.key)|
        ensures LastSet(start, before + [op], Drop(ps, op.key)[i].key).value < |start| + |before|
      {
        DropAt(ps, op.key, i);
        OtherKeepsStamp(start, before, op, Drop(ps, op.key)[i].key);
      }
    } else if op.Set? {
      IgnoredStamped(start, before, op, ps);
    } else {
      DropStamped(start, before, op, op.removed, ps);
    }
  }

  /** The value behind the first one of a key, if the key is repeated. */
  function SecondValue(ps: seq<Pair>, key: string): Option<string> {
    var i := SecondIndex(ps, key);
    if i < |ps| then Some(ps[i].value) else None
  }

  lemma DistinctHasNoSecond(ps: seq<Pair>, key: string)
    requires DistinctKeys(ps)
    ensures SecondIndex(ps, key) == |ps|
  {
    hide KeyIndex;
    var i := KeyIndex(ps, key);
    if i < |ps| {
      NoKey(ps[i + 1..], key);
    }
  }

  /** What get shows after replaceValueFor: a repeated key shows its second value, not the new one. */
  lemma ReplaceIsSeen(ps: seq<Pair>, key: string, value: string, other: string)
    ensures Stored(Replace(ps, key, value), other) ==
      if other != key then Stored(ps, other)
      else if SecondValue(ps, key).Some? then SecondValue(ps, key) else Some(value)
  {
    hide KeyIndex;
    if other != key {
      DropIsSeen(ps, key, other);
      AppendSeen(Drop(ps, key), Pair(key, value), other);
    } else {
      SetIsSeenIffNotRepeated(ps, key, value);
    }
  }

  lemma FirstKey(ps: seq<Pair>, key: string, i: nat)
    requires i < |ps| && ps[i].key == key && forall j :: 0 <= j < i ==> ps[j].key != key
    ensures KeyIndex(ps, key) == i
  {
  }

  lemma AppendSeen(ps: seq<Pair>, p: Pair, other: string)
    requires p.key != other
    ensures Stored(ps + [p], other) == Stored(ps, other)
  {
    hide KeyIndex;
    var i := KeyIndex(ps, other);
    if i < |ps| {
      FirstKey(ps + [p], other, i);
    }
  }

  /** What get shows after removeItem: nothing under the key exactly when it was not repeated, its
      second value otherwise; every other key is untouched. */
  lemma DropIsSeen(ps: seq<Pair>, key: string, other: string)
    ensures Stored(Drop(ps, key), other) == if other == key then SecondValue(ps, key) else Stored(ps, other)
  {
    hide KeyIndex;
    var i, k := KeyIndex(ps, key), KeyIndex(ps, other);
    var r := Drop(ps, key);
    if other == key {
      DropLeavesSecond(ps, key);
    } else if k < |ps| && i < |ps| {
      FirstKey(r, other, if k < i then k else k - 1);
    } else if i < |ps| {
      NoKey(r, other);
    }
  }

  lemma DropLeavesSecond(ps: seq<Pair>, key: string)
    ensures Stored(Drop(ps, key), key) == SecondValue(ps, key)
  {
    hide KeyIndex;
    var i, second := KeyIndex(ps, key), SecondIndex(ps, key);
    var r := Drop(ps, key);
    if i < |ps| {
      forall j | i <= j < |r| && j < second - 1
        ensures r[j].key != key
      {
        assert r[j] == ps[i + 1..][j - i];
      }
      if second < |ps| {
        FirstKey(r, key, second - 1);
      } else {
        NoKey(r, key);
      }
    }
  }

  lemma NoKey(ps: seq<Pair>, key: string)
    requires forall j :: 0 <= j < |ps| ==> ps[j].key != key
    ensures KeyIndex(ps, key) == |ps|
  {
  }

  /** A key is present after a run exactly when it has a last setting, with the value of it. */
  lemma {:induction false} RunIsSeen(start: seq<Pair>, ops: seq<Op>, key: string)
    requires DistinctKeys(start)
    ensures Stored(Run(start, ops), key) == LastValue(start, ops, key)
    ensures LastSet(start, ops, key).Some? <==> LastValue(start, ops, key).Some?
    decreases |ops|
  {
    hide Replace, Drop, Stored, SecondIndex;
    if ops == [] {
      StoredIfFound(start, key);
    } else {
      var before, op := ops[..|ops| - 1], ops[|ops| - 1];
      var ps := Run(start, before);
      RunIsSeen(start, before, key);
      RunIsStamped(start, before);
      StampedDistinct(start, before, ps);
      if Takes(op) {
        DistinctHasNoSecond(ps, op.key);
        ReplaceIsSeen(ps, op.key, op.value, key);
      } else if op.Remove? {
        DistinctHasNoSecond(ps, op.removed);
        DropIsSeen(ps, op.removed, key);
      }
    }
  }

  lemma StoredIfFound(ps: seq<Pair>, key: string)
    ensures Stored(ps, key).Some? <==> KeyIndex(ps, key) < |ps|
  {
  }

  /** After any run of set and remove, compareSetOrder finds exactly the keys that are set, and
      orders two of them by when each was last set. */
  lemma SetOrderIsLastSetOrder(start: seq<Pair>, ops: seq<Op>, key1: string, key2: string)
    requires DistinctKeys(start)
    ensures var (t1, t2, r) := (LastSet(start, ops, key1), LastSet(start, ops, key2), SetOrder(Run(start, ops), key1, key2));
      && (r.Ok? <==> t1.Some? && t2.Some?)
      && (r.Ok? ==> (r.value < 0 <==> t1.value < t2.value) && (r.value == 0 <==> t1 == t2) && (r.value > 0 <==> t1.value > t2.value))
  {
    hide Run, LastSet, KeyIndex;
    RunIsSeen(start, ops, key1);
    RunIsSeen(start, ops, key2);
    RunIsStamped(start, ops);
  }

  lemma {:induction false} RunStaysClean(start: seq<Pair>, ops: seq<Op>)
    requires Clean(start)
    ensures Clean(Run(start, ops))
    decreases |ops|
  {
    hide KeyIndex;
    if ops != [] {
      RunStaysClean(start, ops[..|ops| - 1]);
    }
  }

  /** flatten, then unflatten into a fresh object: the same pairs in the same order. */
  lemma OrderSurvivesFlattening(flat: string, ops: seq<Op>)
    ensures Parsed(Flat(Run(Parsed(flat), ops))) == Run(Parsed(flat), ops)
  {
    ParsedIsClean(flat);
    RunStaysClean(Parsed(flat), ops);
    ParsedFlat(Run(Parsed(flat), ops));
  }

  // ---------------------------------------------------------------- duplicate keys

  /** Where the key occurs a second time, or the number of pairs. */
  function SecondIndex(ps: seq<Pair>, key: string): (i: nat)
    ensures i <= |ps| && (i < |ps| ==> ps[i].key == key)
  {
    var i := KeyIndex(ps, key);
    if i == |ps| then i else i + 1 + KeyIndex(ps[i + 1..], key)
  }

  /** unflatten adds a repeated key twice.  After that, set does not make get see the new value:
      set removes the first pair of the key only, and get finds the next one.  get sees the value
      that was set exactly when the key occurs at most once, or happens to have it there already. */
  lemma SetIsSeenIffNotRepeated(ps: seq<Pair>, key: string, value: string)
    ensures var second := SecondIndex(ps, key);
      Stored(Replace(ps, key, value), key) == if second < |ps| then Some(ps[second].value) else Some(value)
    ensures Stored(Replace(ps, key, value), key) == Some(value)
       <==> SecondIndex(ps, key) == |ps| || ps[SecondIndex(ps, key)].value == value
  {
    hide KeyIndex;
    var r := Replace(ps, key, value);
    var i, second := KeyIndex(ps, key), SecondIndex(ps, key);
    if i == |ps| {
      FirstKey(r, key, |ps|);
    } else {
      forall j | i <= j < second - 1
        ensures r[j].key != key
      {
        assert r[j] == ps[i + 1..][j - i];
      }
      FirstKey(r, key, second - 1);
    }
  }

  /** A failing family: one key twice in a flat string, then set to a third value. */
  lemma RepeatedKeyGoesStale(key: string, first: string, second: string, value: string)
    requires Allowed(key) && Allowed(first) && Allowed(second) && Allowed(value) && value != second
    ensures var ps := Parsed(Flat([Pair(key, first), Pair(key, second)]));
      Stored(Apply(ps, Set(key, value)), key) == Some(second)
  {
    var ps := [Pair(key, first), Pair(key, second)];
    ParsedFlat(ps);
    SetIsSeenIffNotRepeated(ps, key, value);
    assert ps[1..][0].key == key;
  }

  /** A key that was just set compares as later than another present one exactly when it was not
      repeated, or when its second occurrence came after the other key. */
  lemma SetIsLastIff(ps: seq<Pair>, key: string, value: string, other: string)
    requires other != key && KeyIndex(ps, other) < |ps|
    ensures var second := SecondIndex(ps, key);
      SetOrder(Replace(ps, key, value), key, other) == Ok(1) <==> second == |ps| || KeyIndex(ps, other) < second
  {
    hide KeyIndex;
    hide SecondIndex, Replace;
    PlaceOfOther(ps, key, value, other);
    PlaceAfterSet(ps, key, value);
    SecondIsLater(ps, key);
  }

  lemma SecondIsLater(ps: seq<Pair>, key: string)
    ensures KeyIndex(ps, key) == |ps| ==> SecondIndex(ps, key) == |ps|
    ensures KeyIndex(ps, key) < |ps| ==> KeyIndex(ps, key) < SecondIndex(ps, key)
  {
  }

  lemma PlaceOfOther(ps: seq<Pair>, key: string, value: string, other: string)
    requires other != key && KeyIndex(ps, other) < |ps|
    ensures var (r, i, k) := (Replace(ps, key, value), KeyIndex(ps, key), KeyIndex(ps, other));
      KeyIndex(r, other) == (if i < k then k - 1 else k) && KeyIndex(r, other) < |r| - 1
  {
    hide KeyIndex;
    var i, k := KeyIndex(ps, key), KeyIndex(ps, other);
    FirstKey(Replace(ps, key, value), other, if i < k then k - 1 else k);
  }

  /** Where a key is found after it was set. */
  lemma PlaceAfterSet(ps: seq<Pair>, key: string, value: string)
    ensures var (r, second) := (Replace(ps, key, value), SecondIndex(ps, key));
      KeyIndex(r, key) == (if second < |ps| then second - 1 else |r| - 1) && KeyIndex(r, key) < |r|
  {
    hide KeyIndex;
    var r := Replace(ps, key, value);
    var i, second := KeyIndex(ps, key), SecondIndex(ps, key);
    if i == |ps| {
      FirstKey(r, key, |ps|);
    } else {
      forall j | i <= j < second - 1
        ensures r[j].key != key
      {
        assert r[j] == ps[i + 1..][j - i];
      }
      FirstKey(r, key, second - 1);
    }
  }

  // ---------------------------------------------------------------- the class

  const KEY_PREVIEW_FPS_RANGE := "preview-fps-range"

  class CameraParameters2 {
    var mMap: seq<Pair>

    constructor ()
      ensures mMap == []
    {
      mMap := [];
    }

    method Flatten() returns (flattened: string)
      ensures flattened == Flat(mMap)
      ensures Clean(mMap) ==> Parsed(flattened) == mMap
    {
      flattened := ParameterStrings.Flatten(mMap);
      if Clean(mMap) {
        ParsedFlat(mMap);
      }
    }

    method Unflatten(params: string)
      modifies this
      ensures mMap == Parsed(params) && Clean(mMap)
    {
      hide FirstChunk, Parsed;
      ParsedIsClean(params);
      mMap := [];
      var a := 0;
      assert params[0..] == params;
      assert [] + Parsed(params) == Parsed(params);
      while true
        invariant a <= |params|
        invariant mMap + Parsed(params[a..]) == Parsed(params)
        decreases |params| - a
      {
        ParsedStep(mMap, params[a..]);
        var c, next := FindItem(params, a);
        if c.None? {
          break;
        }
        mMap := mMap + [c.value.pair];
        if c.value.rest.None? {
          break;
        }
        a := next;
      }
    }

    method Set(key: string, value: string)
      modifies this
      ensures mMap == Apply(old(mMap), Op.Set(key, value))
      ensures Takes(Op.Set(key, value)) && SecondValue(old(mMap), key).None? ==> Stored(mMap, key) == Some(value)
      ensures Takes(Op.Set(key, value)) && SecondValue(old(mMap), key).Some? ==>
        Stored(mMap, key) == SecondValue(old(mMap), key)
    {
      hide KeyIndex, Drop, StrChr, SecondIndex;
      StrChrFinds(key, '=');
      StrChrFinds(key, ';');
      StrChrFinds(value, '=');
      StrChrFinds(value, ';');
      if StrChr(key, '=').Some? || StrChr(key, ';').Some? { return; }
      if StrChr(value, '=').Some? || StrChr(value, ';').Some? { return; }
      ReplaceIsSeen(mMap, key, value, key);
      mMap := Replace(mMap, key, value);
    }

    method Remove(key: string)
      modifies this
      ensures mMap == Drop(old(mMap), key)
      ensures Stored(mMap, key) == SecondValue(old(mMap), key)
      ensures forall other :: other != key ==> Stored(mMap, other) == Stored(old(mMap), other)
    {
      hide Stored, SecondValue;
      ghost var before := mMap;
      DropIsSeen(before, key, key);
      forall other | other != key
        ensures Stored(Drop(before, key), other) == Stored(before, other)
      {
        DropIsSeen(before, key, other);
      }
      mMap := Drop(mMap, key);
    }

    /** get: here an empty value is a value. */
    method Get(key: string) returns (value: Option<string>)
      ensures value == Stored(mMap, key)
    {
      var idx := KeyIndex(mMap, key);
      value := if idx == |mMap| then None else Some(mMap[idx].value);
    }

    method CompareSetOrder(key1: Option<string>, key2: Option<string>) returns (order: Result<int>)
      ensures key1.None? || key2.None? ==> order == Err(BadValue)
      ensures key1.Some? && key2.Some? ==> order == SetOrder(mMap, key1.value, key2.value)
    {
      if key1.None? || key2.None? { return Err(BadValue); }
      var index1 := KeyIndex(mMap, key1.value);
      var index2 := KeyIndex(mMap, key2.value);
      if index1 == |mMap| || index2 == |mMap| { return Err(NameNotFound); }
      order := Ok(if index1 == index2 then 0 else if index1 < index2 then -1 else 1);
    }

    /** setPreviewFpsRange; the getter then reads the range, unless the key is repeated: then it still
        reads its second value. */
    method SetPreviewFpsRange(minFps: Int32, maxFps: Int32)
      modifies this
      ensures FpsRange(mMap) == if SecondValue(old(mMap), KEY_PREVIEW_FPS_RANGE).Some?
        then RangeIn(SecondValue(old(mMap), KEY_PREVIEW_FPS_RANGE)) else (minFps, maxFps)
    {
      hide PairString, Stored, Replace, ParsePair, SecondValue;
      RangeTextAllowed(minFps, maxFps);
      PairIsParsed(PairString(minFps, maxFps, ','), 0, minFps, maxFps, ',');
      Set(KEY_PREVIEW_FPS_RANGE, PairString(minFps, maxFps, ','));
    }

    method GetPreviewFpsRange() returns (minFps: Int32, maxFps: Int32)
      ensures (minFps, maxFps) == FpsRange(mMap)
    {
      minFps, maxFps := -1, -1;
      var p := Get(KEY_PREVIEW_FPS_RANGE);
      if p.None? { return; }
      var parsed := ParsePair(p.value, 0, ',');
      if parsed.Some? {
        minFps, maxFps := parsed.value.first, parsed.value.second;
      }
    }
  }

  function FpsRange(ps: seq<Pair>): (int, int) { RangeIn(Stored(ps, KEY_PREVIEW_FPS_RANGE)) }

  function RangeIn(v: Option<string>): (int, int) {
    if v.None? then (-1, -1)
    else
      var p := ParsePair(v.value, 0, ',');
      if p.None? then (-1, -1) else (p.value.first, p.value.second)
  }

  lemma RangeTextAllowed(minFps: int, maxFps: int)
    ensures Allowed(PairString(minFps, maxFps, ',')) && Allowed(KEY_PREVIEW_FPS_RANGE)
  {
    hide Printed;
    PrintedAllowed(minFps);
    PrintedAllowed(maxFps);
  }
}
