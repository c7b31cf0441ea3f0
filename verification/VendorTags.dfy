/** The vendor tag descriptor of camera/VendorTagDescriptor.cpp: four tables and a reverse index
    built from a list of tags, and their parcel codec. */
module VendorTags {
  import opened Parcels
  import opened SortedVectors

  const VENDOR_BOUNDARY: int := 0x8000_0000    // CAMERA_METADATA_VENDOR_TAG_BOUNDARY
  const NUM_TYPES: int := 6
  const TAG_COUNT_ERR: int := -1
  const TAG_TYPE_ERR: int := -1

  // ---------------------------------------------------------------- the tables

  datatype Tables = Tables(
    reverse: map<string, map<string, nat>>,   // mReverseMapping: section, name -> tag
    names: map<nat, string>,                  // mTagToNameMap
    sectionOf: map<nat, nat>,              // mTagToSectionMap: an index into sections
    types: map<nat, int>,                   // mTagToTypeMap
    sections: seq<string>,                       // mSections
    count: int)                                // mTagCount

  const EMPTY := Tables(map[], map[], map[], map[], [], 0)

  predicate Covers(t: Tables) {
    && t.names.Keys == t.sectionOf.Keys == t.types.Keys
    && forall tag :: tag in t.sectionOf ==> t.sectionOf[tag] < |t.sections|
  }

  /** The inner KeyedVector of a section, empty if there is none yet. */
  function Inner(r: map<string, map<string, nat>>, section: string): map<string, nat> {
    if section in r then r[section] else map[]
  }

  function AddReverse(r: map<string, map<string, nat>>, section: string, name: string, tag: nat)
    : map<string, map<string, nat>>
  {
    r[section := Inner(r, section)[name := tag]]
  }

  /** The loop that sets up the reverse mapping. */
  function Reverse(tags: seq<nat>, names: map<nat, string>, sections: map<nat, string>)
    : map<string, map<string, nat>>
    requires forall t :: t in tags ==> t in names && t in sections
  {
    if tags == [] then map[]
    else
      var last := tags[|tags| - 1];
      AddReverse(Reverse(tags[..|tags| - 1], names, sections), sections[last], names[last], last)
  }

  function LookupTag(t: Tables, name: string, section: string): Result<nat> {
    if section !in t.reverse || name !in t.reverse[section] then Err(BadValue) else Ok(t.reverse[section][name])
  }

  /** The last tag of the list that has this name and section. */
  function LastMatch(tags: seq<nat>, names: map<nat, string>, sections: map<nat, string>,
                     name: string, section: string): (r: Result<nat>)
    requires forall t :: t in tags ==> t in names && t in sections
    ensures r.Ok? ==> r.value in tags && names[r.value] == name && sections[r.value] == section
    ensures r.Err? ==> r.status == BadValue && forall t :: t in tags ==> !(names[t] == name && sections[t] == section)
  {
    if tags == [] then Err(BadValue)
    else
      var last := tags[|tags| - 1];
      if names[last] == name && sections[last] == section then Ok(last)
      else
        assert tags == tags[..|tags| - 1] + [last];
        LastMatch(tags[..|tags| - 1], names, sections, name, section)
  }

  /** The reverse index answers with the last tag of that name and section. */
  lemma {:induction false} ReverseIsLastMatch(tags: seq<nat>, names: map<nat, string>,
                                              sections: map<nat, string>, name: string, section: string)
    requires forall t :: t in tags ==> t in names && t in sections
    ensures var r := Reverse(tags, names, sections);
      LastMatch(tags, names, sections, name, section)
      == (if section in r && name in r[section] then Ok(r[section][name]) else Err(BadValue))
    decreases |tags|
  {
    if tags != [] {
      ReverseIsLastMatch(tags[..|tags| - 1], names, sections, name, section);
    }
  }

  // ---------------------------------------------------------------- creating from ops

  /** vendor_tag_ops_t: what its functions answer.  A tag that is not in `names` or `sections`
      gets NULL there, and one that is not in `kinds` gets a type that does not exist. */
  datatype Ops = Ops(
    count: int,
    tags: seq<nat>,
    names: map<nat, string>,
    sections: map<nat, string>,
    kinds: map<nat, int>)

  /** What createDescriptorFromOps checks of one tag. */
  predicate AcceptableTag(ops: Ops, t: nat) {
    VENDOR_BOUNDARY <= t < TWO32 && t in ops.names && t in ops.sections && t in ops.kinds && 0 <= ops.kinds[t] < NUM_TYPES
  }

  predicate Acceptable(ops: Ops) {
    0 <= ops.count < TWO31 && forall i :: 0 <= i < |ops.tags| ==> AcceptableTag(ops, ops.tags[i])
  }

  /** The part of a table of answers that is about these tags. */
  function About<V>(m: map<nat, V>, tags: seq<nat>): map<nat, V>
    requires forall t :: t in tags ==> t in m
  {
    map t | t in tags :: m[t]
  }

  /** The SortedVector of all section names. */
  function SectionList(sections: map<nat, string>, tags: seq<nat>): seq<string>
    requires forall t :: t in tags ==> t in sections
  {
    if tags == [] then [] else Insert(SectionList(sections, tags[..|tags| - 1]), sections[tags[|tags| - 1]])
  }

  lemma {:induction false} SectionListSorted(sections: map<nat, string>, tags: seq<nat>)
    requires forall t :: t in tags ==> t in sections
    ensures Sorted(SectionList(sections, tags)) && |SectionList(sections, tags)| <= |tags|
    ensures forall t :: t in tags ==> sections[t] in SectionList(sections, tags)
    ensures forall x :: x in SectionList(sections, tags) ==> exists t :: t in tags && sections[t] == x
    decreases |tags|
  {
    if tags != [] {
      var front, last := tags[..|tags| - 1], tags[|tags| - 1];
      assert tags == front + [last];
      SectionListSorted(sections, front);
      InsertSorted(SectionList(sections, front), sections[last]);
      forall x | x in SectionList(sections, tags)
        ensures exists t :: t in tags && sections[t] == x
      {
        if x == sections[last] {
          assert last in tags;
        } else {
          var t :| t in front && sections[t] == x;
          assert t in tags;
        }
      }
    }
  }

  /** The section index of every tag. */
  function SectionIndexes(sections: map<nat, string>, list: seq<string>, tags: seq<nat>): (m: map<nat, nat>)
    requires forall t :: t in tags ==> t in sections && sections[t] in list
    ensures forall t :: t in m <==> t in tags
    ensures forall t :: t in tags ==> m[t] == IndexOf(list, sections[t])
  {
    if tags == [] then map[]
    else
      assert tags == tags[..|tags| - 1] + [tags[|tags| - 1]];
      SectionIndexes(sections, list, tags[..|tags| - 1])[tags[|tags| - 1] := IndexOf(list, sections[tags[|tags| - 1]])]
  }

  /** The tables createDescriptorFromOps builds. */
  ghost function Created(ops: Ops): Tables
    requires Acceptable(ops) && |ops.tags| == ops.count
  {
    SectionListSorted(ops.sections, ops.tags);
    var sections := SectionList(ops.sections, ops.tags);
    Tables(Reverse(ops.tags, ops.names, ops.sections),
           About(ops.names, ops.tags),
           SectionIndexes(ops.sections, sections, ops.tags),
           About(ops.kinds, ops.tags),
           sections,
           ops.count)
  }

  // ---------------------------------------------------------------- the parcel codec

  function EncodeEntry(t: Tables, tag: nat): seq<Item>
    requires Covers(t) && tag in t.names
  {
    [I32(ToInt32(tag)), I32(ToInt32(t.types[tag])), Str8(t.names[tag]), I32(ToInt32(t.sectionOf[tag]))]
  }

  function EncodeEntries(t: Tables, tags: seq<nat>): seq<Item>
    requires Covers(t) && forall tag :: tag in tags ==> tag in t.names
  {
    if tags == [] then [] else EncodeEntry(t, tags[0]) + EncodeEntries(t, tags[1..])
  }

  function Strings(ss: seq<string>): seq<Item> { seq(|ss|, i requires 0 <= i < |ss| => Str8(ss[i])) }

  function TagArray(t: Tables): seq<nat> { Ascending(t.names.Keys) }

  /** writeToParcel. */
  function Encode(t: Tables): seq<Item>
    requires Covers(t)
  {
    [I32(ToInt32(t.count))] + EncodeEntries(t, TagArray(t)) + EncodedSections(t)
  }

  function EncodedSections(t: Tables): seq<Item> {
    if |t.sections| > 0 then [I32(ToInt32(|t.sections|))] + Strings(t.sections) else []
  }

  datatype Entry = Entry(tag: nat, kind: int, name: string, index: nat)

  function ReadEntry(items: seq<Item>): Read<Entry> {
    var (v, rest) :- ReadI32(items);
    var tag := ToUInt32(v);
    if tag < VENDOR_BOUNDARY then Err(BadValue)
    else
      var (kind, rest) :- ReadI32(rest);
      if kind < 0 || kind >= NUM_TYPES then Err(BadValue)
      else
        var (name, rest) := ReadStr8(rest);
        if name == "" then Err(NotEnoughData)
        else
          var (index, rest) :- ReadI32(rest);
          Ok((Entry(tag, kind, name, ToUInt32(index)), rest))
  }

  function ReadEntries(items: seq<Item>, n: nat): Read<seq<Entry>> {
    if n == 0 then Ok(([], items))
    else
      var (e, rest) :- ReadEntry(items);
      var (es, rest) :- ReadEntries(rest, n - 1);
      Ok(([e] + es, rest))
  }

  function ReadSections(items: seq<Item>, n: nat): Read<seq<string>>
    decreases n
  {
    if n == 0 then Ok(([], items))
    else
      var (s, rest) := ReadStr8(items);
      if s == "" then Err(NotEnoughData)
      else
        var (ss, rest) :- ReadSections(rest, n - 1);
        Ok(([s] + ss, rest))
  }

  function MaxIndex(es: seq<Entry>): nat {
    if es == [] then 0
    else
      var m := MaxIndex(es[..|es| - 1]);
      if m >= es[|es| - 1].index then m else es[|es| - 1].index
  }

  function InsertAll(ss: seq<string>): seq<string> {
    if ss == [] then [] else Insert(InsertAll(ss[..|ss| - 1]), ss[|ss| - 1])
  }

  /** A KeyedVector filled by one add after the other: later entries replace earlier ones. */
  function Filled<V>(ks: seq<nat>, vs: seq<V>): (m: map<nat, V>)
    requires |ks| == |vs|
    ensures forall k :: k in m <==> k in ks
  {
    if ks == [] then map[]
    else
      assert ks == ks[..|ks| - 1] + [ks[|ks| - 1]];
      Filled(ks[..|ks| - 1], vs[..|vs| - 1])[ks[|ks| - 1] := vs[|vs| - 1]]
  }

  function TagsOf(es: seq<Entry>): seq<nat> { seq(|es|, i requires 0 <= i < |es| => es[i].tag) }

  function NamesOf(es: seq<Entry>): map<nat, string> {
    Filled(TagsOf(es), seq(|es|, i requires 0 <= i < |es| => es[i].name))
  }

  function IndexesOf(es: seq<Entry>): map<nat, nat> {
    var indexes: seq<nat> := seq(|es|, i requires 0 <= i < |es| => es[i].index);
    Filled(TagsOf(es), indexes)
  }

  function TypesOf(es: seq<Entry>): map<nat, int> {
    Filled(TagsOf(es), seq(|es|, i requires 0 <= i < |es| => es[i].kind))
  }

  predicate IndexesFit(es: seq<Entry>, sections: seq<string>) {
    forall tag :: tag in IndexesOf(es) ==> IndexesOf(es)[tag] < |sections|
  }

  /** The section names by tag, through mTagToSectionMap and mSections. */
  function ByIndex(indexes: map<nat, nat>, sections: seq<string>): map<nat, string>
    requires forall tag :: tag in indexes ==> indexes[tag] < |sections|
  {
    map tag | tag in indexes :: sections[indexes[tag]]
  }

  function FromEntries(es: seq<Entry>, sections: seq<string>): Tables
    requires IndexesFit(es, sections)
  {
    Tables(Reverse(TagsOf(es), NamesOf(es), ByIndex(IndexesOf(es), sections)),
           NamesOf(es), IndexesOf(es), TypesOf(es), sections, |es|)
  }

  /** readFromParcel into a fresh descriptor.  The code checks the greatest section index against the
      number of sections in 32 bits and before names that repeat fall together; an index it lets
      through although it is beyond mSections ends in OutOfBounds here. */
  function Decode(items: seq<Item>): Read<Tables> {
    var (count, rest) :- ReadI32(items);
    if count < 0 then Err(BadValue)
    else
      var (es, rest) :- ReadEntries(rest, count);
      if count == 0 then Ok((EMPTY, rest)) else DecodeSections(es, rest)
  }

  function DecodeSections(es: seq<Entry>, items: seq<Item>): Read<Tables> {
    var (v, rest) :- ReadI32(items);
    if ToUInt32(v) < ToUInt32(MaxIndex(es) + 1) then Err(BadValue)
    else if ToUInt32(v) == 0 then Err(Aborted)
    else
      var (ss, rest) :- ReadSections(rest, ToUInt32(v));
      if !IndexesFit(es, InsertAll(ss)) then Err(OutOfBounds)
      else Ok((FromEntries(es, InsertAll(ss)), rest))
  }

  // ---------------------------------------------------------------- the reverse index agrees

  function SectionNames(t: Tables): map<nat, string>
    requires Covers(t)
  {
    ByIndex(t.sectionOf, t.sections)
  }

  /** t's tables are about exactly these tags, and its reverse index was set up in their order. */
  ghost predicate BuiltFrom(t: Tables, tags: seq<nat>) {
    && Covers(t) && Sorted(t.sections)
    && (forall tag :: tag in tags <==> tag in t.names)
    && t.reverse == Reverse(tags, t.names, SectionNames(t))
  }

  /** The reverse index was set up from the other tables, in some order of the tags. */
  ghost predicate Consistent(t: Tables) { exists tags: seq<nat> :: BuiltFrom(t, tags) }

  ghost predicate Has(t: Tables, tag: nat, name: string, section: string)
    requires Covers(t)
  {
    tag in t.names && t.names[tag] == name && t.sections[t.sectionOf[tag]] == section
  }

  /** No two tags share their name and section. */
  ghost predicate DistinctPairs(t: Tables)
    requires Covers(t)
  {
    forall a, b | a in t.names && b in t.names ::
      (t.names[a] == t.names[b] && t.sections[t.sectionOf[a]] == t.sections[t.sectionOf[b]]) ==> a == b
  }

  /** lookupTag succeeds exactly when some tag has that name and section, and gives one that has;
      it inverts getTagName and getSectionName when pairs are distinct. */
  lemma LookupAgrees(t: Tables, tags: seq<nat>, name: string, section: string)
    requires BuiltFrom(t, tags)
    ensures LookupTag(t, name, section) == LastMatch(tags, t.names, SectionNames(t), name, section)
    ensures LookupTag(t, name, section).Ok? <==> exists tag: nat :: Has(t, tag, name, section)
    ensures LookupTag(t, name, section).Ok? ==> Has(t, LookupTag(t, name, section).value, name, section)
    ensures DistinctPairs(t) ==>
      forall tag: nat :: Has(t, tag, name, section) ==> LookupTag(t, name, section) == Ok(tag)
  {
    var r := LastMatch(tags, t.names, SectionNames(t), name, section);
    ReverseIsLastMatch(tags, t.names, SectionNames(t), name, section);
    forall tag: nat | Has(t, tag, name, section)
      ensures r.Ok? && (DistinctPairs(t) ==> r.value == tag)
    {
      assert tag in tags;
    }
    if r.Ok? {
      assert Has(t, r.value, name, section);
    }
  }

  lemma {:induction false} ReverseDependsOnTags(tags: seq<nat>, n1: map<nat, string>, s1: map<nat, string>,
                                                n2: map<nat, string>, s2: map<nat, string>)
    requires forall t :: t in tags ==> t in n1 && t in s1 && t in n2 && t in s2 && n1[t] == n2[t] && s1[t] == s2[t]
    ensures Reverse(tags, n1, s1) == Reverse(tags, n2, s2)
    decreases |tags|
  {
    if tags != [] {
      assert tags[|tags| - 1] in tags;
      ReverseDependsOnTags(tags[..|tags| - 1], n1, s1, n2, s2);
    }
  }

  lemma CreatedTag(ops: Ops, tag: nat)
    requires Acceptable(ops) && |ops.tags| == ops.count && tag in ops.tags
    ensures var t := Created(ops);
      && tag in t.names && tag in t.types && tag in t.sectionOf && t.sectionOf[tag] < |t.sections|
      && AcceptableTag(ops, tag)
      && t.names[tag] == ops.names[tag] && t.types[tag] == ops.kinds[tag]
      && t.sections[t.sectionOf[tag]] == ops.sections[tag]
  {
    hide SectionList, Insert, IndexOf, Reverse, Sorted;
    SectionListSorted(ops.sections, ops.tags);
  }

  lemma CreatedKeys(ops: Ops)
    requires Acceptable(ops) && |ops.tags| == ops.count
    ensures var t := Created(ops);
      && (forall tag :: tag in t.names <==> tag in ops.tags)
      && (forall tag :: tag in t.types <==> tag in ops.tags)
      && (forall tag :: tag in t.sectionOf <==> tag in ops.tags)
      && Sorted(t.sections) && t.count == |ops.tags|
      && (forall tag :: tag in ops.tags ==> tag in ops.names && tag in ops.sections)
      && t.reverse == Reverse(ops.tags, ops.names, ops.sections)
  {
    hide SectionList, Insert, IndexOf, Reverse, Sorted;
    SectionListSorted(ops.sections, ops.tags);
  }

  /** What createDescriptorFromOps builds answers as the ops do, and its reverse index agrees. */
  lemma CreatedAgreesWithOps(ops: Ops)
    requires Acceptable(ops) && |ops.tags| == ops.count
    ensures var t := Created(ops);
      && BuiltFrom(t, ops.tags) && t.count == |ops.tags|
      && (forall tag :: tag in t.names <==> tag in ops.tags)
      && (forall tag :: tag in t.names ==>
            t.names[tag] == ops.names[tag] && t.types[tag] == ops.kinds[tag]
            && t.sections[t.sectionOf[tag]] == ops.sections[tag])
      && (forall x :: x in t.sections ==> exists tag :: tag in ops.tags && ops.sections[tag] == x)
  {
    hide Created, Sorted, Reverse;
    CreatedKeys(ops);
    CreatedSections(ops);
    var t := Created(ops);
    forall tag | tag in ops.tags
      ensures t.sectionOf[tag] < |t.sections| && t.sections[t.sectionOf[tag]] == ops.sections[tag]
      ensures t.names[tag] == ops.names[tag] && t.types[tag] == ops.kinds[tag]
    {
      CreatedTag(ops, tag);
    }
    assert t.names.Keys == t.sectionOf.Keys == t.types.Keys;
    ReverseDependsOnTags(ops.tags, ops.names, ops.sections, t.names, SectionNames(t));
  }

  lemma CreatedSections(ops: Ops)
    requires Acceptable(ops) && |ops.tags| == ops.count
    ensures |Created(ops).sections| <= ops.count
    ensures forall x :: x in Created(ops).sections ==> exists tag :: tag in ops.tags && tag in ops.sections && ops.sections[tag] == x
  {
    hide SectionIndexes, Reverse, About;
    SectionListSorted(ops.sections, ops.tags);
  }

  // ---------------------------------------------------------------- the round trip

  function EntryOf(t: Tables, tag: nat): Entry
    requires Covers(t) && tag in t.names
  {
    Entry(tag, t.types[tag], t.names[tag], t.sectionOf[tag])
  }

  function EntriesOf(t: Tables, tags: seq<nat>): seq<Entry>
    requires Covers(t) && forall tag :: tag in tags ==> tag in t.names
  {
    seq(|tags|, i requires 0 <= i < |tags| => EntryOf(t, tags[i]))
  }

  /** Tables whose numbers the parcel's 32-bit fields hold. */
  ghost predicate Fits(t: Tables) {
    && Covers(t) && |t.sections| < TWO31
    && forall tag :: tag in t.names ==> VENDOR_BOUNDARY <= tag < TWO32 && 0 <= t.types[tag] < NUM_TYPES
  }

  lemma EntryIsRead(t: Tables, tag: nat, rest: seq<Item>)
    requires Fits(t) && tag in t.names
    ensures ReadEntry(EncodeEntry(t, tag) + rest)
         == if t.names[tag] == "" then Err(NotEnoughData) else Ok((EntryOf(t, tag), rest))
  {
    var items := EncodeEntry(t, tag) + rest;
    assert items[1..][1..][1..][1..] == rest;
    assert ToUInt32(ToInt32(tag)) == tag && ToUInt32(ToInt32(t.sectionOf[tag])) == t.sectionOf[tag];
  }

  lemma {:induction false} EntriesAreRead(t: Tables, tags: seq<nat>, rest: seq<Item>)
    requires Fits(t) && forall tag :: tag in tags ==> tag in t.names && t.names[tag] != ""
    ensures ReadEntries(EncodeEntries(t, tags) + rest, |tags|) == Ok((EntriesOf(t, tags), rest))
    decreases |tags|
  {
    if tags == [] {
      assert EncodeEntries(t, tags) + rest == rest;
    } else {
      var first := EncodeEntry(t, tags[0]);
      var more := EncodeEntries(t, tags[1..]) + rest;
      assert EncodeEntries(t, tags) + rest == first + more;
      EntryIsRead(t, tags[0], more);
      EntriesAreRead(t, tags[1..], rest);
      assert [EntryOf(t, tags[0])] + EntriesOf(t, tags[1..]) == EntriesOf(t, tags);
    }
  }

  lemma {:induction false} SectionsAreRead(ss: seq<string>, rest: seq<Item>)
    requires forall i :: 0 <= i < |ss| ==> ss[i] != ""
    ensures ReadSections(Strings(ss) + rest, |ss|) == Ok((ss, rest))
    decreases |ss|
  {
    if ss == [] {
      assert Strings(ss) + rest == rest;
    } else {
      assert (Strings(ss) + rest)[1..] == Strings(ss[1..]) + rest;
      SectionsAreRead(ss[1..], rest);
      assert [ss[0]] + ss[1..] == ss;
    }
  }

  lemma {:induction false} InsertAllSorted(ss: seq<string>)
    requires Sorted(ss)
    ensures InsertAll(ss) == ss
    decreases |ss|
  {
    if ss != [] {
      InsertAllSorted(ss[..|ss| - 1]);
      assert ss[..|ss| - 1] + [ss[|ss| - 1]] == ss;
      InsertLast(ss[..|ss| - 1], ss[|ss| - 1]);
    }
  }

  lemma {:induction false} FilledFrom<V>(ks: seq<nat>, vs: seq<V>, m: map<nat, V>)
    requires |ks| == |vs| && forall i :: 0 <= i < |ks| ==> ks[i] in m && vs[i] == m[ks[i]]
    ensures forall k :: k in Filled(ks, vs) ==> k in m && Filled(ks, vs)[k] == m[k]
    decreases |ks|
  {
    if ks != [] {
      FilledFrom(ks[..|ks| - 1], vs[..|vs| - 1], m);
    }
  }

  lemma {:induction false} MaxIndexBelow(es: seq<Entry>, n: nat)
    requires n > 0 && forall e :: e in es ==> e.index < n
    ensures MaxIndex(es) < n
    decreases |es|
  {
    if es != [] {
      assert es[|es| - 1] in es;
      MaxIndexBelow(es[..|es| - 1], n);
    }
  }

  lemma Refilled<V>(tags: seq<nat>, vs: seq<V>, m: map<nat, V>)
    requires |tags| == |vs| && forall i :: 0 <= i < |tags| ==> tags[i] in m && vs[i] == m[tags[i]]
    requires forall tag :: tag in m ==> tag in tags
    ensures Filled(tags, vs) == m
  {
    FilledFrom(tags, vs, m);
  }

  /** The entries of t, read back, fill the same tables. */
  lemma EntriesRefillNames(t: Tables, tags: seq<nat>)
    requires Covers(t) && forall tag :: tag in tags <==> tag in t.names
    ensures TagsOf(EntriesOf(t, tags)) == tags && NamesOf(EntriesOf(t, tags)) == t.names
  {
    var es := EntriesOf(t, tags);
    assert TagsOf(es) == tags;
    Refilled(tags, seq(|es|, i requires 0 <= i < |es| => es[i].name), t.names);
  }

  lemma EntriesRefillTypes(t: Tables, tags: seq<nat>)
    requires Covers(t) && forall tag :: tag in tags <==> tag in t.names
    ensures TypesOf(EntriesOf(t, tags)) == t.types
  {
    var es := EntriesOf(t, tags);
    assert TagsOf(es) == tags;
    Refilled(tags, seq(|es|, i requires 0 <= i < |es| => es[i].kind), t.types);
  }

  lemma EntriesRefillIndexes(t: Tables, tags: seq<nat>)
    requires Covers(t) && forall tag :: tag in tags <==> tag in t.names
    ensures IndexesOf(EntriesOf(t, tags)) == t.sectionOf
    ensures MaxIndex(EntriesOf(t, tags)) <= |t.sections|
    ensures t.names != map[] ==> MaxIndex(EntriesOf(t, tags)) < |t.sections|
  {
    var es := EntriesOf(t, tags);
    assert TagsOf(es) == tags;
    var indexes: seq<nat> := seq(|es|, i requires 0 <= i < |es| => es[i].index);
    Refilled(tags, indexes, t.sectionOf);
    if t.names != map[] {
      var tag :| tag in t.names;
      assert t.sectionOf[tag] < |t.sections|;
      MaxIndexBelow(es, |t.sections|);
    } else {
      assert es == [];
    }
  }

  lemma SectionListIsRead(ss: seq<string>, rest: seq<Item>)
    requires |ss| < TWO31
    requires forall i :: 0 <= i < |ss| ==> ss[i] != ""
    ensures var items := [I32(ToInt32(|ss|))] + Strings(ss) + rest;
      ReadI32(items) == Ok((|ss|, Strings(ss) + rest)) && ReadSections(Strings(ss) + rest, |ss|) == Ok((ss, rest))
  {
    var items := [I32(ToInt32(|ss|))] + Strings(ss) + rest;
    assert items[1..] == Strings(ss) + rest;
    SectionsAreRead(ss, rest);
  }

  lemma EntriesRebuild(t: Tables)
    requires Covers(t) && t.count == |t.names|
    ensures var es := EntriesOf(t, TagArray(t));
      IndexesFit(es, t.sections) && FromEntries(es, t.sections) == Reindexed(t)
  {
    var tags := TagArray(t);
    EntriesRefillNames(t, tags);
    EntriesRefillTypes(t, tags);
    EntriesRefillIndexes(t, tags);
    assert |tags| == |t.names.Keys|;
  }

  lemma SectionsDecode(es: seq<Entry>, ss: seq<string>, rest: seq<Item>)
    requires InsertAll(ss) == ss && IndexesFit(es, ss) && MaxIndex(es) < |ss| < TWO31
    requires forall i :: 0 <= i < |ss| ==> ss[i] != ""
    ensures DecodeSections(es, [I32(ToInt32(|ss|))] + Strings(ss) + rest) == Ok((FromEntries(es, ss), rest))
  {
    SectionListIsRead(ss, rest);
    assert ToUInt32(MaxIndex(es) + 1) == MaxIndex(es) + 1;
  }

  lemma RoundTripSections(t: Tables, rest: seq<Item>)
    requires Fits(t) && InsertAll(t.sections) == t.sections && t.names != map[] && t.count == |t.names|
    requires forall i :: 0 <= i < |t.sections| ==> t.sections[i] != ""
    ensures DecodeSections(EntriesOf(t, TagArray(t)), EncodedSections(t) + rest) == Ok((Reindexed(t), rest))
  {
    hide FromEntries, Ascending, InsertAll, EntriesOf, MaxIndex, ReadSections, DecodeSections;
    EntriesRebuild(t);
    EntriesRefillIndexes(t, TagArray(t));
    SectionsDecode(EntriesOf(t, TagArray(t)), t.sections, rest);
  }

  /** writeToParcel, then readFromParcel into a fresh descriptor: when mTagCount is the number of
      entries and no name is empty, the tables come back, the parcel is left at what follows, and
      the reverse index is set up again in ascending order of the tags. */
  lemma RoundTrip(t: Tables, rest: seq<Item>)
    requires Fits(t) && Sorted(t.sections) && t.count == |t.names| < TWO31
    requires forall tag :: tag in t.names ==> t.names[tag] != ""
    requires forall i :: 0 <= i < |t.sections| ==> t.sections[i] != ""
    requires t.names == map[] ==> t.sections == []
    ensures Decode(Encode(t) + rest) == Ok((Reindexed(t), rest)) && BuiltFrom(Reindexed(t), TagArray(t))
  {
    InsertAllSorted(t.sections);
    RoundTripDecodes(t, rest);
    ReindexedIsBuilt(t);
  }

  lemma ReindexedIsBuilt(t: Tables)
    requires Covers(t) && Sorted(t.sections)
    ensures BuiltFrom(Reindexed(t), TagArray(t))
  {
    hide Sorted, Reverse, ByIndex, Ascending;
    assert SectionNames(Reindexed(t)) == SectionNames(t);
  }

  lemma DecodeByParts(items: seq<Item>, count: nat, rest: seq<Item>, es: seq<Entry>, tail: seq<Item>)
    requires ReadI32(items) == Ok((count, rest)) && ReadEntries(rest, count) == Ok((es, tail))
    ensures Decode(items) == if count == 0 then Ok((EMPTY, tail)) else DecodeSections(es, tail)
  {
  }

  lemma RoundTripDecodes(t: Tables, rest: seq<Item>)
    requires Fits(t) && InsertAll(t.sections) == t.sections && t.count == |t.names| < TWO31
    requires forall tag :: tag in t.names ==> t.names[tag] != ""
    requires forall i :: 0 <= i < |t.sections| ==> t.sections[i] != ""
    requires t.names == map[] ==> t.sections == []
    ensures Decode(Encode(t) + rest) == Ok((Reindexed(t), rest))
  {
    var tags := TagArray(t);
    var tail := EncodedSections(t) + rest;
    EncodedStart(t, rest);
    EntriesAreRead(t, tags, tail);
    assert |tags| == |t.names.Keys|;
    DecodeByParts(Encode(t) + rest, t.count, EncodeEntries(t, tags) + tail, EntriesOf(t, tags), tail);
    if t.names == map[] {
      assert tail == rest;
      EmptyReindexed(t);
    } else {
      RoundTripSections(t, rest);
    }
  }

  lemma EmptyReindexed(t: Tables)
    requires Covers(t) && t.names == map[] && t.sections == [] && t.count == 0
    ensures Reindexed(t) == EMPTY && TagArray(t) == []
  {
    assert t.sectionOf == map[] && t.types == map[];
  }

  lemma DropFirst(x: Item, a: seq<Item>, b: seq<Item>, c: seq<Item>)
    ensures ([x] + a + b + c)[0] == x && ([x] + a + b + c)[1..] == a + (b + c)
  {
  }

  lemma EncodedStart(t: Tables, rest: seq<Item>)
    requires Covers(t) && 0 <= t.count < TWO31
    ensures var items := Encode(t) + rest;
      ReadI32(items) == Ok((t.count, EncodeEntries(t, TagArray(t)) + (EncodedSections(t) + rest)))
  {
    DropFirst(I32(ToInt32(t.count)), EncodeEntries(t, TagArray(t)), EncodedSections(t), rest);
  }

  /** t with its reverse index set up in ascending order of the tags. */
  function Reindexed(t: Tables): Tables
    requires Covers(t)
  {
    t.(reverse := Reverse(TagArray(t), t.names, SectionNames(t)))
  }

  // ---------------------------------------------------------------- exactly when it round-trips

  predicate NoRepeats(tags: seq<nat>) {
    tags == [] || (tags[|tags| - 1] !in tags[..|tags| - 1] && NoRepeats(tags[..|tags| - 1]))
  }

  function Members(tags: seq<nat>): (s: set<nat>)
    ensures forall t :: t in s <==> t in tags
  {
    if tags == [] then {}
    else
      assert tags == tags[..|tags| - 1] + [tags[|tags| - 1]];
      Members(tags[..|tags| - 1]) + {tags[|tags| - 1]}
  }

  lemma {:induction false} RepeatsShrink(tags: seq<nat>)
    ensures |Members(tags)| <= |tags|
    ensures |Members(tags)| == |tags| <==> NoRepeats(tags)
    decreases |tags|
  {
    if tags != [] {
      RepeatsShrink(tags[..|tags| - 1]);
    }
  }

  lemma ReadEntriesStep(items: seq<Item>, n: nat)
    ensures ReadEntries(items, n + 1).Ok?
       <==> ReadEntry(items).Ok? && ReadEntries(ReadEntry(items).value.1, n).Ok?
  {
  }

  lemma EntriesStart(t: Tables, tags: seq<nat>, rest: seq<Item>)
    requires Fits(t) && (forall i :: 0 <= i < |tags| ==> tags[i] in t.names) && tags != []
    ensures EncodeEntries(t, tags) + rest == EncodeEntry(t, tags[0]) + (EncodeEntries(t, tags[1..]) + rest)
  {
    hide EncodeEntry;
  }

  ghost predicate AllNamed(t: Tables, tags: seq<nat>)
    requires forall i :: 0 <= i < |tags| ==> tags[i] in t.names
  {
    forall i :: 0 <= i < |tags| ==> t.names[tags[i]] != ""
  }

  lemma AllNamedSplits(t: Tables, tags: seq<nat>)
    requires tags != [] && forall i :: 0 <= i < |tags| ==> tags[i] in t.names
    ensures AllNamed(t, tags) <==> t.names[tags[0]] != "" && AllNamed(t, tags[1..])
  {
    assert tags == [tags[0]] + tags[1..];
  }

  lemma {:induction false} EntriesReadable(t: Tables, tags: seq<nat>, rest: seq<Item>, more: nat)
    requires Fits(t) && forall i :: 0 <= i < |tags| ==> tags[i] in t.names
    ensures ReadEntries(EncodeEntries(t, tags) + rest, |tags| + more).Ok?
       <==> AllNamed(t, tags) && ReadEntries(rest, more).Ok?
    decreases |tags|
  {
    hide EncodeEntry, EncodeEntries, ReadEntry, ReadEntries, AllNamed;
    if tags == [] {
      NoEntriesStart(t, rest);
    } else {
      EntriesReadable(t, tags[1..], rest, more);
      FirstEntryReadable(t, tags, EncodeEntries(t, tags[1..]) + rest, |tags| - 1 + more);
      EntriesStart(t, tags, rest);
      AllNamedSplits(t, tags);
    }
  }

  lemma NoEntriesStart(t: Tables, rest: seq<Item>)
    requires Fits(t)
    ensures EncodeEntries(t, []) + rest == rest && AllNamed(t, [])
  {
  }

  lemma FirstEntryReadable(t: Tables, tags: seq<nat>, after: seq<Item>, n: nat)
    requires Fits(t) && tags != [] && tags[0] in t.names
    ensures ReadEntries(EncodeEntry(t, tags[0]) + after, n + 1).Ok?
       <==> t.names[tags[0]] != "" && ReadEntries(after, n).Ok?
  {
    hide EncodeEntry, ReadEntry, ReadEntries;
    EntryIsRead(t, tags[0], after);
    ReadEntriesStep(EncodeEntry(t, tags[0]) + after, n);
  }

  lemma {:induction false} SectionsReadable(ss: seq<string>, rest: seq<Item>)
    requires ReadSections(Strings(ss) + rest, |ss|).Ok?
    ensures forall i :: 0 <= i < |ss| ==> ss[i] != ""
    decreases |ss|
  {
    if ss != [] {
      assert (Strings(ss) + rest)[1..] == Strings(ss[1..]) + rest;
      SectionsReadable(ss[1..], rest);
      forall i | 0 <= i < |ss|
        ensures ss[i] != ""
      {
        assert i > 0 ==> ss[i] == ss[1..][i - 1];
      }
    }
  }

  lemma DecodeNeedsEntries(items: seq<Item>, count: nat, rest: seq<Item>)
    requires ReadI32(items) == Ok((count, rest)) && ReadEntries(rest, count).Err?
    ensures Decode(items).Err?
  {
  }

  lemma SectionCountIsNoTag(ss: seq<string>, rest: seq<Item>, n: nat)
    requires 0 < |ss| < TWO31 && n > 0
    ensures ReadEntries([I32(ToInt32(|ss|))] + Strings(ss) + rest, n).Err?
  {
    var items := [I32(ToInt32(|ss|))] + Strings(ss) + rest;
    assert items[0] == I32(|ss|);
    ReadEntriesStep(items, n - 1);
  }

  /** After the entries the reader takes the section count for another tag, and refuses it. */
  lemma MissingEntryIsRefused(items: seq<Item>, t: Tables, tags: seq<nat>, more: nat, rest: seq<Item>)
    requires Fits(t) && (forall i :: 0 <= i < |tags| ==> tags[i] in t.names) && 0 < more && 0 < |t.sections|
    requires ReadI32(items) == Ok((|tags| + more, EncodeEntries(t, tags) + (EncodedSections(t) + rest)))
    ensures Decode(items).Err?
  {
    hide Decode, EncodeEntries, ReadEntries;
    var tail := EncodedSections(t) + rest;
    SectionCountIsNoTag(t.sections, rest, more);
    EntriesReadable(t, tags, tail, more);
    DecodeNeedsEntries(items, |tags| + more, EncodeEntries(t, tags) + tail);
  }

  lemma EmptyTagNameIsRefused(items: seq<Item>, t: Tables, tags: seq<nat>, k: nat, tail: seq<Item>)
    requires Fits(t) && (forall i :: 0 <= i < |tags| ==> tags[i] in t.names)
    requires k < |tags| && t.names[tags[k]] == ""
    requires ReadI32(items) == Ok((|tags|, EncodeEntries(t, tags) + tail))
    ensures Decode(items).Err?
  {
    hide Decode, EncodeEntries, ReadEntries;
    EntriesReadable(t, tags, tail, 0);
    DecodeNeedsEntries(items, |tags|, EncodeEntries(t, tags) + tail);
  }

  lemma RepeatedTagIsRefused(t: Tables, rest: seq<Item>)
    requires Fits(t) && |t.names| < t.count < TWO31 && 0 < |t.sections|
    ensures Decode(Encode(t) + rest).Err?
  {
    hide Decode, Encode, EncodeEntries, EncodedSections, Ascending, ReadI32;
    assert |TagArray(t)| == |t.names.Keys|;
    EncodedStart(t, rest);
    MissingEntryIsRefused(Encode(t) + rest, t, TagArray(t), t.count - |TagArray(t)|, rest);
  }

  lemma EmptySectionIsRefused(es: seq<Entry>, ss: seq<string>, rest: seq<Item>)
    requires 0 < |ss| < TWO31 && "" in ss
    ensures DecodeSections(es, [I32(ToInt32(|ss|))] + Strings(ss) + rest).Err?
  {
    var items := [I32(ToInt32(|ss|))] + Strings(ss) + rest;
    assert items[0] == I32(|ss|) && items[1..] == Strings(ss) + rest;
    if ReadSections(Strings(ss) + rest, |ss|).Ok? {
      SectionsReadable(ss, rest);
    }
  }

  lemma EmptyNameIsRefused(t: Tables, tag: nat, rest: seq<Item>)
    requires Fits(t) && |t.names| == t.count < TWO31 && tag in t.names && t.names[tag] == ""
    ensures Decode(Encode(t) + rest).Err?
  {
    hide Decode, Encode, EncodeEntries, EncodedSections, Ascending, ReadI32;
    var tags := TagArray(t);
    assert |tags| == |t.names.Keys|;
    EncodedStart(t, rest);
    var k :| 0 <= k < |tags| && tags[k] == tag;
    EmptyTagNameIsRefused(Encode(t) + rest, t, tags, k, EncodedSections(t) + rest);
  }

  lemma EmptySectionNameIsRefused(t: Tables, rest: seq<Item>)
    requires Fits(t) && |t.names| == t.count < TWO31 && 0 < t.count && 0 < |t.sections|
    requires "" in t.sections && forall tag :: tag in t.names ==> t.names[tag] != ""
    ensures Decode(Encode(t) + rest).Err?
  {
    hide Decode, Encode, EncodeEntries, EncodedSections, Ascending, ReadI32;
    assert |TagArray(t)| == |t.names.Keys|;
    EncodedStart(t, rest);
    EmptySectionInParcel(t, TagArray(t), Encode(t) + rest, rest);
  }

  lemma EmptySectionInParcel(t: Tables, tags: seq<nat>, items: seq<Item>, rest: seq<Item>)
    requires Fits(t) && 0 < |tags| && 0 < |t.sections| && "" in t.sections
    requires forall tag :: tag in tags ==> tag in t.names && t.names[tag] != ""
    requires ReadI32(items) == Ok((|tags|, EncodeEntries(t, tags) + (EncodedSections(t) + rest)))
    ensures Decode(items).Err?
  {
    var tail := EncodedSections(t) + rest;
    EntriesAreRead(t, tags, tail);
    DecodeByParts(items, |tags|, EncodeEntries(t, tags) + tail, EntriesOf(t, tags), tail);
    EmptySectionIsRefused(EntriesOf(t, tags), t.sections, rest);
  }

  predicate CleanList(ops: Ops)
    requires Acceptable(ops)
  {
    NoRepeats(ops.tags) && forall i :: 0 <= i < |ops.tags| ==> ops.names[ops.tags[i]] != "" && ops.sections[ops.tags[i]] != ""
  }

  /** The descriptor built from ops survives the parcel, tables and all, exactly when no tag is
      listed twice and no tag or section name is empty; otherwise it cannot be read. */
  lemma SurvivesIffListIsClean(ops: Ops, rest: seq<Item>)
    requires Acceptable(ops) && |ops.tags| == ops.count
    ensures Covers(Created(ops))
    ensures CleanList(ops) ==> Decode(Encode(Created(ops)) + rest) == Ok((Reindexed(Created(ops)), rest))
    ensures !CleanList(ops) ==> Decode(Encode(Created(ops)) + rest).Err?
  {
    hide Decode, Encode, Created, Fits, Reindexed, Sorted;
    var t := Created(ops);
    CreatedAgreesWithOps(ops);
    CreatedFits(ops);
    RepeatsShrink(ops.tags);
    assert t.names.Keys == Members(ops.tags);
    if !NoRepeats(ops.tags) {
      RepeatedTagIsRefused(t, rest);
    } else if CleanList(ops) {
      CleanNames(ops);
      RoundTrip(t, rest);
    } else {
      UncleanNames(ops);
      if tag :| tag in t.names && t.names[tag] == "" {
        EmptyNameIsRefused(t, tag, rest);
      } else {
        EmptySectionNameIsRefused(t, rest);
      }
    }
  }

  lemma UncleanNames(ops: Ops)
    requires Acceptable(ops) && |ops.tags| == ops.count && NoRepeats(ops.tags) && !CleanList(ops)
    ensures var t := Created(ops);
      0 < ops.count && ((exists tag :: tag in t.names && t.names[tag] == "") || "" in t.sections)
  {
    var t := Created(ops);
    CreatedAgreesWithOps(ops);
    var i :| 0 <= i < |ops.tags| && (ops.names[ops.tags[i]] == "" || ops.sections[ops.tags[i]] == "");
    var tag := ops.tags[i];
    assert tag in t.names && t.names[tag] == ops.names[tag] && t.sections[t.sectionOf[tag]] == ops.sections[tag];
  }

  lemma CleanNames(ops: Ops)
    requires Acceptable(ops) && |ops.tags| == ops.count && CleanList(ops)
    ensures forall tag :: tag in Created(ops).names ==> Created(ops).names[tag] != ""
    ensures forall i :: 0 <= i < |Created(ops).sections| ==> Created(ops).sections[i] != ""
  {
    var t := Created(ops);
    CreatedAgreesWithOps(ops);
    forall i | 0 <= i < |t.sections|
      ensures t.sections[i] != ""
    {
      assert t.sections[i] in t.sections;
    }
  }

  lemma CreatedFits(ops: Ops)
    requires Acceptable(ops) && |ops.tags| == ops.count
    ensures Fits(Created(ops)) && (ops.count > 0 ==> 0 < |Created(ops).sections|)
    ensures ops.count == 0 ==> Created(ops).sections == []
    ensures ops.count > 0 ==> Created(ops).names != map[]
  {
    hide Created;
    CreatedAgreesWithOps(ops);
    CreatedSections(ops);
    var t := Created(ops);
    forall tag | tag in t.names
      ensures VENDOR_BOUNDARY <= tag < TWO32 && 0 <= t.types[tag] < NUM_TYPES
    {
      var i :| 0 <= i < |ops.tags| && ops.tags[i] == tag;
      assert AcceptableTag(ops, ops.tags[i]);
    }
    if ops.count > 0 {
      assert ops.tags[0] in ops.tags && ops.tags[0] in t.names;
    }
  }

  lemma {:induction false} LastMatchIsGreatest(tags: seq<nat>, names: map<nat, string>, sections: map<nat, string>,
                                               name: string, section: string)
    requires forall t :: t in tags ==> t in names && t in sections
    requires forall i, j :: 0 <= i < j < |tags| ==> tags[i] < tags[j]
    ensures var r := LastMatch(tags, names, sections, name, section);
      r.Ok? ==> forall t :: t in tags && names[t] == name && sections[t] == section ==> t <= r.value
    decreases |tags|
  {
    if tags != [] {
      var front, last := tags[..|tags| - 1], tags[|tags| - 1];
      assert tags == front + [last];
      if !(names[last] == name && sections[last] == section) {
        LastMatchIsGreatest(front, names, sections, name, section);
      }
    }
  }

  ghost predicate GreatestWith(t: Tables, tag: nat, name: string, section: string)
    requires Covers(t)
  {
    Has(t, tag, name, section) && forall other: nat :: Has(t, other, name, section) ==> other <= tag
  }

  lemma ReindexedFindsGreatest(t: Tables, name: string, section: string)
    requires Covers(t) && Sorted(t.sections)
    ensures var r := LookupTag(Reindexed(t), name, section);
      && (r.Ok? <==> exists tag: nat :: Has(t, tag, name, section))
      && (r.Ok? ==> GreatestWith(t, r.value, name, section))
  {
    var t' := Reindexed(t);
    var tags := TagArray(t);
    ReindexedIsBuilt(t);
    assert SectionNames(t') == SectionNames(t);
    ReverseIsLastMatch(tags, t.names, SectionNames(t), name, section);
    LastMatchIsGreatest(tags, t.names, SectionNames(t), name, section);
    var r := LastMatch(tags, t.names, SectionNames(t), name, section);
    forall tag: nat | Has(t, tag, name, section)
      ensures r.Ok? && tag <= r.value
    {
      assert tag in tags;
    }
    if r.Ok? {
      assert Has(t, r.value, name, section);
    }
  }

  /** After the round trip a (section, name) pair shared by several tags resolves to the greatest
      of them, before it to the last listed: the answers agree exactly when that is the same tag,
      and always when pairs are distinct. */
  lemma LookupAcrossParcel(ops: Ops, name: string, section: string)
    requires Acceptable(ops) && |ops.tags| == ops.count
    ensures Covers(Created(ops))
    ensures var t := Created(ops);
      var (before, after) := (LookupTag(t, name, section), LookupTag(Reindexed(t), name, section));
      && (before.Ok? <==> after.Ok?)
      && (after.Ok? ==> GreatestWith(t, after.value, name, section))
      && (before.Ok? ==> (before == after <==> GreatestWith(t, before.value, name, section)))
      && (DistinctPairs(t) ==> before == after)
  {
    hide Created, Reindexed, LookupTag, LastMatch, Sorted;
    var t := Created(ops);
    CreatedAgreesWithOps(ops);
    LookupAgrees(t, ops.tags, name, section);
    ReindexedFindsGreatest(t, name, section);
    LookupStatus(t, name, section);
    LookupStatus(Reindexed(t), name, section);
    GreatestAgrees(t, LookupTag(t, name, section), LookupTag(Reindexed(t), name, section), name, section);
  }

  lemma LookupStatus(t: Tables, name: string, section: string)
    ensures LookupTag(t, name, section).Err? ==> LookupTag(t, name, section).status == BadValue
  {
  }

  /** Two answers for the same pair, the second of them the greatest. */
  lemma GreatestAgrees(t: Tables, before: Result<nat>, after: Result<nat>, name: string, section: string)
    requires Covers(t) && before.Ok? == after.Ok?
    requires before.Err? ==> before.status == BadValue
    requires after.Err? ==> after.status == BadValue
    requires before.Ok? ==> Has(t, before.value, name, section)
    requires DistinctPairs(t) ==> forall tag: nat :: Has(t, tag, name, section) ==> before == Ok(tag)
    requires after.Ok? ==> GreatestWith(t, after.value, name, section)
    ensures before.Ok? ==> (before == after <==> GreatestWith(t, before.value, name, section))
    ensures DistinctPairs(t) ==> before == after
  {
  }
}
