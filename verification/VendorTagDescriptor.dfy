/** VendorTagDescriptor and VendorTagDescriptorCache of camera/VendorTagDescriptor.cpp as classes;
    every method is tied to the tables of module VendorTags. */
module VendorTagDescriptors {
  import opened Parcels
  import opened SortedVectors
  import opened VendorTags
  import opened VendorTagParcels

  class VendorTagDescriptor {
    var mReverseMapping: map<string, map<string, nat>>
    var mTagToNameMap: map<nat, string>
    var mTagToSectionMap: map<nat, nat>
    var mTagToTypeMap: map<nat, int>
    var mSections: seq<string>
    var mTagCount: int

    function Abs(): Tables
      reads this
    {
      Tables(mReverseMapping, mTagToNameMap, mTagToSectionMap, mTagToTypeMap, mSections, mTagCount)
    }

    constructor ()
      ensures Abs() == EMPTY
    {
      mReverseMapping, mTagToNameMap, mTagToSectionMap, mTagToTypeMap := map[], map[], map[], map[];
      mSections, mTagCount := [], 0;
    }

    method CopyFrom(src: VendorTagDescriptor)
      modifies this
      ensures Abs() == old(src.Abs())
    {
      if this == src { return; }
      mReverseMapping := map[];
      var todo := src.mReverseMapping.Keys;
      while todo != {}
        invariant src.Abs() == old(src.Abs()) && todo <= src.mReverseMapping.Keys
        invariant mReverseMapping == map s | s in src.mReverseMapping && s !in todo :: src.mReverseMapping[s]
        decreases todo
      {
        var section :| section in todo;
        mReverseMapping := mReverseMapping[section := src.mReverseMapping[section]];
        todo := todo - {section};
      }
      assert mReverseMapping == src.mReverseMapping;
      mTagToNameMap := src.mTagToNameMap;
      mTagToSectionMap := src.mTagToSectionMap;
      mTagToTypeMap := src.mTagToTypeMap;
      mSections := src.mSections;
      mTagCount := src.mTagCount;
    }

    // ---- building

    static method CreateDescriptorFromOps(ops: Ops) returns (r: Result<VendorTagDescriptor>)
      requires ops.count >= 0 ==> |ops.tags| == ops.count
      ensures r.Ok? <==> Acceptable(ops)
      ensures r.Ok? ==> fresh(r.value) && r.value.Abs() == Created(ops) && Consistent(r.value.Abs())
      ensures r.Err? ==> r.status == BadValue
    {
      hide AcceptableTag, SectionList, SectionIndexes, Reverse, About, BuiltFrom;
      if ops.count < 0 || ops.count >= TWO31 {
        return Err(BadValue);
      }
      var desc := new VendorTagDescriptor();
      desc.mTagCount := ops.count;
      var sections := desc.CollectTags(ops);
      if sections.Err? {
        return Err(sections.status);
      }
      desc.mSections := sections.value;
      desc.IndexTags(ops);
      CreatedIsConsistent(ops);
      r := Ok(desc);
    }

    /** The first loop: names, types and the sorted section list. */
    method CollectTags(ops: Ops) returns (r: Result<seq<string>>)
      requires Abs() == EMPTY.(count := ops.count)
      modifies this`mTagToNameMap, this`mTagToTypeMap
      ensures r.Ok? <==> forall i :: 0 <= i < |ops.tags| ==> AcceptableTag(ops, ops.tags[i])
      ensures r.Err? ==> r.status == BadValue
      ensures r.Ok? ==> mTagToNameMap == About(ops.names, ops.tags) && mTagToTypeMap == About(ops.kinds, ops.tags)
      ensures r.Ok? ==> r.value == SectionList(ops.sections, ops.tags)
    {
      hide SectionList, About, Insert;
      var sections: seq<string> := [];
      NothingCollected(ops);
      for i := 0 to |ops.tags|
        invariant forall j :: 0 <= j < i ==> AcceptableTag(ops, ops.tags[j])
        invariant mTagToNameMap == About(ops.names, ops.tags[..i])
        invariant mTagToTypeMap == About(ops.kinds, ops.tags[..i])
        invariant sections == SectionList(ops.sections, ops.tags[..i])
      {
        var tag := ops.tags[i];
        if tag < VENDOR_BOUNDARY || tag >= TWO32 || tag !in ops.names || tag !in ops.sections {
          return Err(BadValue);
        }
        if tag !in ops.kinds || ops.kinds[tag] < 0 || ops.kinds[tag] >= NUM_TYPES {
          return Err(BadValue);
        }
        AboutSnoc(ops.names, ops.tags, i);
        AboutSnoc(ops.kinds, ops.tags, i);
        SectionListSnoc(ops.sections, ops.tags, i);
        mTagToNameMap := mTagToNameMap[tag := ops.names[tag]];
        sections := Insert(sections, ops.sections[tag]);
        mTagToTypeMap := mTagToTypeMap[tag := ops.kinds[tag]];
      }
      assert ops.tags[..|ops.tags|] == ops.tags;
      r := Ok(sections);
    }

    /** The second loop, here as two: section indices and the reverse mapping. */
    method IndexTags(ops: Ops)
      requires Acceptable(ops) && mSections == SectionList(ops.sections, ops.tags)
      modifies this`mTagToSectionMap, this`mReverseMapping
      ensures mReverseMapping == Reverse(ops.tags, ops.names, ops.sections)
      ensures forall t :: t in ops.tags ==> ops.sections[t] in mSections
      ensures mTagToSectionMap == SectionIndexes(ops.sections, mSections, ops.tags)
    {
      SectionListSorted(ops.sections, ops.tags);
      mTagToSectionMap := IndexSections(ops.sections, mSections, ops.tags);
      mReverseMapping := SetUpReverse(ops.tags, ops.names, ops.sections);
    }

    static method IndexSections(sections: map<nat, string>, list: seq<string>, tags: seq<nat>)
      returns (indexes: map<nat, nat>)
      requires forall t :: t in tags ==> t in sections && sections[t] in list
      ensures indexes == SectionIndexes(sections, list, tags)
    {
      indexes := map[];
      for i := 0 to |tags|
        invariant indexes == SectionIndexes(sections, list, tags[..i])
      {
        assert tags[..i + 1][..i] == tags[..i];
        indexes := indexes[tags[i] := IndexOf(list, sections[tags[i]])];
      }
      assert tags[..|tags|] == tags;
    }

    /** The loop that sets up the reverse mapping, with a new inner vector for a new section. */
    static method SetUpReverse(tags: seq<nat>, names: map<nat, string>, sections: map<nat, string>)
      returns (reverse: map<string, map<string, nat>>)
      requires forall t :: t in tags ==> t in names && t in sections
      ensures reverse == Reverse(tags, names, sections)
    {
      reverse := map[];
      for i := 0 to |tags|
        invariant reverse == Reverse(tags[..i], names, sections)
      {
        assert tags[i] in tags;
        ReverseSnoc(tags, i, names, sections);
        var section := sections[tags[i]];
        if section !in reverse {
          var empty: map<string, nat> := map[];
          reverse := reverse[section := empty];
        }
        var nameMapper: map<string, nat> := reverse[section];
        reverse := reverse[section := nameMapper[names[tags[i]] := tags[i]]];
      }
      assert tags[..|tags|] == tags;
    }

    // ---- the parcel

    method WriteToParcel(parcel: Parcel)
      requires Covers(Abs())
      modifies parcel`items
      ensures parcel.items == old(parcel.items) + Encode(Abs())
    {
      hide EncodeEntries, Strings, Ascending;
      ghost var before := parcel.items;
      var t := Abs();
      parcel.Write(I32(ToInt32(t.count)));
      WriteEntries(t, TagArray(t), parcel);
      if |t.sections| > 0 {
        parcel.Write(I32(ToInt32(|t.sections|)));
        WriteSections(t.sections, parcel);
      }
      Appended(before, I32(ToInt32(t.count)), EncodeEntries(t, TagArray(t)), EncodedSections(t));
    }

    static method WriteEntries(t: Tables, tags: seq<nat>, parcel: Parcel)
      requires Covers(t) && forall tag :: tag in tags ==> tag in t.names
      modifies parcel`items
      ensures parcel.items == old(parcel.items) + EncodeEntries(t, tags)
    {
      ghost var start := parcel.items;
      for i := 0 to |tags|
        invariant parcel.items == start + EncodeEntries(t, tags[..i])
      {
        WriteEntry(t, tags[i], parcel);
        EncodeEntriesSnoc(t, tags[..i], tags[i]);
        assert tags[..i + 1] == tags[..i] + [tags[i]];
      }
      assert tags[..|tags|] == tags;
    }

    static method WriteEntry(t: Tables, tag: nat, parcel: Parcel)
      requires Covers(t) && tag in t.names
      modifies parcel`items
      ensures parcel.items == old(parcel.items) + EncodeEntry(t, tag)
    {
      parcel.Write(I32(ToInt32(tag)));
      parcel.Write(I32(ToInt32(t.types[tag])));
      parcel.Write(Str8(t.names[tag]));
      parcel.Write(I32(ToInt32(t.sectionOf[tag])));
    }

    static method WriteSections(sections: seq<string>, parcel: Parcel)
      modifies parcel`items
      ensures parcel.items == old(parcel.items) + Strings(sections)
    {
      for i := 0 to |sections|
        invariant parcel.items == old(parcel.items) + Strings(sections)[..i]
      {
        parcel.Write(Str8(sections[i]));
      }
    }

    /** readFromParcel into a fresh descriptor; whatever the parcel, an accepted one gives tables whose
        reverse index agrees with the others. */
    method ReadFromParcel(parcel: Parcel) returns (r: Result<()>)
      requires parcel.Valid() && Abs() == EMPTY
      modifies this, parcel`pos
      ensures parcel.Valid()
      ensures Decode(old(parcel.Rest())).Ok? ==> r.Ok? && Decode(old(parcel.Rest())) == Ok((Abs(), parcel.Rest()))
      ensures Decode(old(parcel.Rest())).Err? ==> r.Err? && r.status == Decode(old(parcel.Rest())).status
      ensures r.Ok? ==> Consistent(Abs())
    {
      hide Consistent, DecodeSections, ReadEntries;
      if Decode(parcel.Rest()).Ok? {
        DecodedIsConsistent(parcel.Rest());
      }
      var count := parcel.Take(ReadI32(parcel.Rest()));
      if count.Err? { return Err(count.status); }
      if count.value < 0 { return Err(BadValue); }
      mTagCount := count.value;
      var entries := ReadTags(parcel, count.value);
      if entries.Err? { return Err(entries.status); }
      if count.value == 0 { return Ok(()); }
      r := ReadSectionsAndIndex(parcel, entries.value);
    }

    method ReadSectionsAndIndex(parcel: Parcel, es: seq<Entry>) returns (r: Result<()>)
      requires parcel.Valid() && mSections == [] && mReverseMapping == map[] && mTagCount == |es|
      requires mTagToNameMap == NamesOf(es) && mTagToSectionMap == IndexesOf(es) && mTagToTypeMap == TypesOf(es)
      modifies this`mSections, this`mReverseMapping, parcel`pos
      ensures parcel.Valid()
      ensures var d := DecodeSections(es, old(parcel.Rest()));
        if d.Ok? then r.Ok? && d == Ok((Abs(), parcel.Rest())) else r == Err(d.status)
    {
      hide NamesOf, IndexesOf, TypesOf, Reverse, ReadSections, InsertAll;
      var sectionCount := parcel.Take(ReadI32(parcel.Rest()));
      if sectionCount.Err? { return Err(sectionCount.status); }
      if ToUInt32(sectionCount.value) < ToUInt32(MaxIndex(es) + 1) { return Err(BadValue); }
      if ToUInt32(sectionCount.value) == 0 { return Err(Aborted); }
      ghost var names := ReadSections(parcel.Rest(), ToUInt32(sectionCount.value));
      var sections := ReadSectionNames(parcel, ToUInt32(sectionCount.value));
      if sections.Err? { return Err(sections.status); }
      r := ReverseTags(es);
    }

    /** The loop over the tags; allTags and the index maximum are read off the entries afterwards. */
    method ReadTags(parcel: Parcel, n: nat) returns (r: Result<seq<Entry>>)
      requires parcel.Valid() && mTagToNameMap == map[] && mTagToSectionMap == map[] && mTagToTypeMap == map[]
      modifies this`mTagToNameMap, this`mTagToSectionMap, this`mTagToTypeMap, parcel`pos
      ensures parcel.Valid()
      ensures ReadEntries(old(parcel.Rest()), n).Ok? ==> r.Ok? && ReadEntries(old(parcel.Rest()), n) == Ok((r.value, parcel.Rest()))
      ensures ReadEntries(old(parcel.Rest()), n).Err? ==> r == Err(ReadEntries(old(parcel.Rest()), n).status)
      ensures r.Ok? ==> mTagToNameMap == NamesOf(r.value) && mTagToSectionMap == IndexesOf(r.value)
      ensures r.Ok? ==> mTagToTypeMap == TypesOf(r.value) && |r.value| == n
    {
      hide ReadEntry, ReadEntries, NamesOf, IndexesOf, TypesOf;
      var es: seq<Entry> := [];
      StartEntries(parcel.Rest(), n);
      ghost var spec := ReadEntries(parcel.Rest(), n);
      assert spec.Ok? ==> [] + spec.value.0 == spec.value.0;
      var names, indexes, types := mTagToNameMap, mTagToSectionMap, mTagToTypeMap;
      for i := 0 to n
        invariant parcel.Valid() && |es| == i
        invariant names == NamesOf(es) && indexes == IndexesOf(es) && types == TypesOf(es)
        invariant spec == Prepend(es, ReadEntries(parcel.Rest(), n - i))
      {
        PrependStep(es, parcel.Rest(), n - i);
        var e := ReadTag(parcel);
        if e.Err? { return Err(e.status); }
        AddEntry(es, e.value);
        names := names[e.value.tag := e.value.name];
        indexes := indexes[e.value.tag := e.value.index];
        types := types[e.value.tag := e.value.kind];
        es := es + [e.value];
      }
      DoneEntries(es, parcel.Rest());
      mTagToNameMap, mTagToSectionMap, mTagToTypeMap := names, indexes, types;
      r := Ok(es);
    }

    /** One pass of that loop: the four fields with their checks. */
    method ReadTag(parcel: Parcel) returns (r: Result<Entry>)
      requires parcel.Valid()
      modifies parcel`pos
      ensures parcel.Valid()
      ensures ReadEntry(old(parcel.Rest())).Ok? ==> r.Ok? && ReadEntry(old(parcel.Rest())) == Ok((r.value, parcel.Rest()))
      ensures ReadEntry(old(parcel.Rest())).Err? ==> r == Err(ReadEntry(old(parcel.Rest())).status)
    {
      hide IsSuffix;
      var v := parcel.Take(ReadI32(parcel.Rest()));
      if v.Err? { return Err(v.status); }
      var tag := ToUInt32(v.value);
      if tag < VENDOR_BOUNDARY { return Err(BadValue); }
      var kind := parcel.Take(ReadI32(parcel.Rest()));
      if kind.Err? { return Err(kind.status); }
      if kind.value < 0 || kind.value >= NUM_TYPES { return Err(BadValue); }
      var name := parcel.TakeStr8();
      if name == "" { return Err(NotEnoughData); }
      var index := parcel.Take(ReadI32(parcel.Rest()));
      if index.Err? { return Err(index.status); }
      r := Ok(Entry(tag, kind.value, name, ToUInt32(index.value)));
    }

    method ReadSectionNames(parcel: Parcel, n: nat) returns (r: Result<()>)
      requires parcel.Valid() && mSections == []
      modifies this`mSections, parcel`pos
      ensures parcel.Valid()
      ensures ReadSections(old(parcel.Rest()), n).Ok? ==>
        r.Ok? && mSections == InsertAll(ReadSections(old(parcel.Rest()), n).value.0)
        && parcel.Rest() == ReadSections(old(parcel.Rest()), n).value.1
      ensures ReadSections(old(parcel.Rest()), n).Err? ==> r == Err(ReadSections(old(parcel.Rest()), n).status)
    {
      ghost var ss: seq<string> := [];
      ghost var spec := ReadSections(parcel.Rest(), n);
      assert spec.Ok? ==> [] + spec.value.0 == spec.value.0;
      for i := 0 to n
        invariant parcel.Valid() && mSections == InsertAll(ss)
        invariant spec == Prepend(ss, ReadSections(parcel.Rest(), n - i))
      {
        var name := parcel.TakeStr8();
        if name == "" { return Err(NotEnoughData); }
        mSections := Insert(mSections, name);
        assert (ss + [name])[..|ss|] == ss;
        assert forall more: seq<string> :: ss + ([name] + more) == (ss + [name]) + more;
        ss := ss + [name];
      }
      assert ss + [] == ss;
      r := Ok(());
    }

    /** Sets up the reverse mapping from the tables just read; OutOfBounds is the unchecked access
        to mSections. */
    method ReverseTags(es: seq<Entry>) returns (r: Result<()>)
      requires mReverseMapping == map[] && mTagToNameMap == NamesOf(es) && mTagToSectionMap == IndexesOf(es)
      modifies this`mReverseMapping
      ensures r.Ok? <==> IndexesFit(es, mSections)
      ensures r.Err? ==> r.status == OutOfBounds
      ensures r.Ok? ==> mReverseMapping == Reverse(TagsOf(es), NamesOf(es), ByIndex(IndexesOf(es), mSections))
    {
      hide Reverse, TypesOf;
      var tags := TagsOf(es);
      for i := 0 to |es|
        invariant forall j :: 0 <= j < i ==> mTagToSectionMap[tags[j]] < |mSections|
      {
        assert tags[i] in tags;
        if mTagToSectionMap[tags[i]] >= |mSections| { return Err(OutOfBounds); }
      }
      mReverseMapping := SetUpReverse(tags, mTagToNameMap, ByIndex(mTagToSectionMap, mSections));
      r := Ok(());
    }

    // ---- the getters

    /** The number of tags, or an error value when there are none. */
    function GetTagCount(): (n: int)
      reads this
      ensures n == TAG_COUNT_ERR <==> mTagToNameMap == map[]
    {
      if |mTagToNameMap| == 0 then TAG_COUNT_ERR else |mTagToNameMap|
    }

    method GetTagArray(tagArray: array<nat>)
      requires tagArray.Length >= |mTagToNameMap|
      modifies tagArray
      ensures tagArray[..|mTagToNameMap|] == TagArray(Abs())
      ensures tagArray[|mTagToNameMap|..] == old(tagArray[|mTagToNameMap|..])
    {
      hide Ascending;
      var tags := TagArray(Abs());
      assert |tags| == |mTagToNameMap.Keys|;
      for i := 0 to |tags|
        invariant tagArray[..i] == tags[..i]
        invariant tagArray[|tags|..] == old(tagArray[|tags|..])
      {
        tagArray[i] := tags[i];
      }
    }

    function GetSectionName(tag: nat): Option<string>
      requires Covers(Abs())
      reads this
    {
      if tag !in mTagToSectionMap then None else Some(mSections[mTagToSectionMap[tag]])
    }

    function GetTagName(tag: nat): Option<string>
      reads this
    {
      if tag !in mTagToNameMap then None else Some(mTagToNameMap[tag])
    }

    function GetTagType(tag: nat): int
      requires Covers(Abs())
      reads this
    {
      if tag !in mTagToNameMap then TAG_TYPE_ERR else mTagToTypeMap[tag]
    }

    /** The getters of a descriptor created from ops answer as the ops do, and only for its tags. */
    lemma GettersAnswerAsOps(ops: Ops, tag: nat)
      requires Acceptable(ops) && |ops.tags| == ops.count && Abs() == Created(ops)
      ensures Covers(Abs())
      ensures tag in ops.tags ==> GetTagName(tag) == Some(ops.names[tag]) && GetSectionName(tag) == Some(ops.sections[tag])
      ensures tag in ops.tags ==> GetTagType(tag) == ops.kinds[tag]
      ensures tag !in ops.tags ==> GetTagName(tag) == None && GetSectionName(tag) == None && GetTagType(tag) == TAG_TYPE_ERR
      ensures GetTagCount() == if ops.tags == [] then TAG_COUNT_ERR else |Members(ops.tags)|
    {
      hide Created, Reverse;
      CreatedAgreesWithOps(ops);
      assert mTagToNameMap.Keys == Members(ops.tags);
      assert ops.tags != [] ==> ops.tags[0] in mTagToNameMap;
    }

    /** lookupTag.  It inverts getTagName and getSectionName: it succeeds exactly when some tag has the
        name and section, with one that has; with distinct pairs that is the only one. */
    method Lookup(name: string, section: string) returns (r: Result<nat>)
      requires Consistent(Abs())
      ensures r == LookupTag(Abs(), name, section)
      ensures r.Ok? ==> GetTagName(r.value) == Some(name) && GetSectionName(r.value) == Some(section)
      ensures r.Err? ==> r.status == BadValue
      ensures r.Err? ==> forall tag: nat :: GetTagName(tag) == Some(name) ==> GetSectionName(tag) != Some(section)
      ensures DistinctPairs(Abs()) ==>
        forall tag: nat :: GetTagName(tag) == Some(name) && GetSectionName(tag) == Some(section) ==> r == Ok(tag)
    {
      hide LastMatch, Reverse, DistinctPairs;
      ghost var order :| BuiltFrom(Abs(), order);
      LookupAgrees(Abs(), order, name, section);
      forall tag: nat | GetTagName(tag) == Some(name) && GetSectionName(tag) == Some(section)
        ensures Has(Abs(), tag, name, section)
      {
      }
      if section !in mReverseMapping {
        return Err(BadValue);
      }
      if name !in mReverseMapping[section] {
        return Err(BadValue);
      }
      r := Ok(mReverseMapping[section][name]);
    }
  }

  lemma CreatedIsConsistent(ops: Ops)
    requires Acceptable(ops) && |ops.tags| == ops.count
    ensures Consistent(Created(ops))
  {
    hide Created, BuiltFrom;
    CreatedAgreesWithOps(ops);
  }

  lemma {:induction false} EncodeEntriesSnoc(t: Tables, tags: seq<nat>, tag: nat)
    requires Covers(t) && tag in t.names && forall x :: x in tags ==> x in t.names
    ensures EncodeEntries(t, tags + [tag]) == EncodeEntries(t, tags) + EncodeEntry(t, tag)
    decreases |tags|
  {
    if tags == [] {
      assert EncodeEntries(t, [tag]) == EncodeEntry(t, tag) + [];
    } else {
      assert (tags + [tag])[1..] == tags[1..] + [tag];
      EncodeEntriesSnoc(t, tags[1..], tag);
    }
  }

  lemma AboutSnoc<V>(m: map<nat, V>, tags: seq<nat>, i: nat)
    requires i < |tags| && forall j :: 0 <= j <= i ==> tags[j] in m
    ensures About(m, tags[..i + 1]) == About(m, tags[..i])[tags[i] := m[tags[i]]]
  {
    assert tags[..i + 1] == tags[..i] + [tags[i]];
  }

  lemma NothingCollected(ops: Ops)
    ensures About(ops.names, []) == map[] && About(ops.kinds, []) == map[] && SectionList(ops.sections, []) == []
  {
  }

  lemma SectionListSnoc(sections: map<nat, string>, tags: seq<nat>, i: nat)
    requires i < |tags| && forall j :: 0 <= j <= i ==> tags[j] in sections
    ensures SectionList(sections, tags[..i + 1]) == Insert(SectionList(sections, tags[..i]), sections[tags[i]])
  {
    assert tags[..i + 1][..i] == tags[..i];
  }

  lemma StartEntries(items: seq<Item>, n: nat)
    ensures Prepend([], ReadEntries(items, n)) == ReadEntries(items, n)
    ensures NamesOf([]) == map[] && IndexesOf([]) == map[] && TypesOf([]) == map[]
  {
    if ReadEntries(items, n).Ok? {
      var es := ReadEntries(items, n).value.0;
      assert [] + es == es;
    }
  }

  lemma DoneEntries(es: seq<Entry>, items: seq<Item>)
    ensures Prepend(es, ReadEntries(items, 0)) == Ok((es, items))
  {
    assert es + [] == es;
  }

  lemma PrependStep(es: seq<Entry>, items: seq<Item>, n: nat)
    requires n > 0
    ensures ReadEntry(items).Err? ==> Prepend(es, ReadEntries(items, n)) == Err(ReadEntry(items).status)
    ensures ReadEntry(items).Ok? ==>
      Prepend(es, ReadEntries(items, n))
      == Prepend(es + [ReadEntry(items).value.0], ReadEntries(ReadEntry(items).value.1, n - 1))
  {
    if ReadEntry(items).Ok? {
      var (e, rest) := ReadEntry(items).value;
      if ReadEntries(rest, n - 1).Ok? {
        var more := ReadEntries(rest, n - 1).value.0;
        assert es + ([e] + more) == (es + [e]) + more;
      }
    }
  }

  lemma ReverseSnoc(tags: seq<nat>, i: nat, names: map<nat, string>, sections: map<nat, string>)
    requires i < |tags| && forall t :: t in tags ==> t in names && t in sections
    ensures Reverse(tags[..i + 1], names, sections)
         == AddReverse(Reverse(tags[..i], names, sections), sections[tags[i]], names[tags[i]], tags[i])
  {
    assert tags[..i + 1][..i] == tags[..i];
  }

  lemma Appended(before: seq<Item>, x: Item, a: seq<Item>, b: seq<Item>)
    ensures before + [x] + a + b == before + ([x] + a + b)
  {
  }

  lemma AddEntry(es: seq<Entry>, e: Entry)
    ensures var more := es + [e];
      && NamesOf(more) == NamesOf(es)[e.tag := e.name]
      && IndexesOf(more) == IndexesOf(es)[e.tag := e.index]
      && TypesOf(more) == TypesOf(es)[e.tag := e.kind]
  {
    var more := es + [e];
    assert TagsOf(more)[..|es|] == TagsOf(es);
    assert seq(|more|, i requires 0 <= i < |more| => more[i].name)[..|es|] == seq(|es|, i requires 0 <= i < |es| => es[i].name);
    assert seq(|more|, i requires 0 <= i < |more| => more[i].kind)[..|es|] == seq(|es|, i requires 0 <= i < |es| => es[i].kind);
    var indexes: seq<nat> := seq(|es|, i requires 0 <= i < |es| => es[i].index);
    var moreIndexes: seq<nat> := seq(|more|, i requires 0 <= i < |more| => more[i].index);
    assert moreIndexes[..|es|] == indexes;
  }

  // ---------------------------------------------------------------- the vendor-id cache

  type Vendors = map<nat, Tables>

  /** What writeToParcel writes, readFromParcel reads back. */
  ghost predicate ReadsBack(t: Tables) {
    Covers(t) && forall rest :: Decode(Encode(t) + rest) == Ok((Reindexed(t), rest))
  }

  /** RoundTrip says which tables these are; descriptors created from a clean list are among them. */
  lemma CreatedReadsBack(ops: Ops)
    requires Acceptable(ops) && |ops.tags| == ops.count && CleanList(ops)
    ensures ReadsBack(Created(ops))
  {
    CreatedAgreesWithOps(ops);
    forall rest
      ensures Decode(Encode(Created(ops)) + rest) == Ok((Reindexed(Created(ops)), rest))
    {
      SurvivesIffListIsClean(ops, rest);
    }
  }

  ghost predicate AllReadBack(m: Vendors, ids: seq<nat>) {
    forall i :: 0 <= i < |ids| ==> ids[i] in m && ReadsBack(m[ids[i]])
  }

  ghost function EncodeVendors(m: Vendors, ids: seq<nat>): seq<Item>
    requires AllReadBack(m, ids)
    decreases |ids|
  {
    if ids == [] then []
    else
      [U64(ids[0])] + Encode(m[ids[0]]) + EncodeVendors(m, ids[1..])
  }

  /** The reading loop, from a cache that holds m; an id that is already there is refused. */
  function DecodeVendors(m: Vendors, items: seq<Item>, n: nat): Read<Vendors>
    decreases n
  {
    if n == 0 then Ok((m, items))
    else
      var (id, rest) :- ReadU64(items);
      var (t, rest) :- Decode(rest);
      if id in m then Err(BadValue) else DecodeVendors(m[id := t], rest, n - 1)
  }

  function DecodeCache(m: Vendors, items: seq<Item>): Read<Vendors> {
    var (n, rest) :- ReadI32(items);
    if n < 0 then Err(BadValue) else DecodeVendors(m, rest, n)
  }

  /** before with the descriptors of ids, as they come out of a parcel, added one by one. */
  ghost function AddAll(before: Vendors, m: Vendors, ids: seq<nat>): Vendors
    requires AllReadBack(m, ids)
    decreases |ids|
  {
    if ids == [] then before
    else
      AddAll(before[ids[0] := Reindexed(m[ids[0]])], m, ids[1..])
  }

  lemma VendorIsRead(before: Vendors, id: nat, t: Tables, more: seq<Item>, n: nat)
    requires ReadsBack(t) && id !in before && n > 0
    ensures DecodeVendors(before, [U64(id)] + (Encode(t) + more), n)
         == DecodeVendors(before[id := Reindexed(t)], more, n - 1)
  {
    hide Decode, Encode;
    var items := [U64(id)] + (Encode(t) + more);
    assert items[1..] == Encode(t) + more;
  }

  lemma {:induction false} VendorsAreRead(m: Vendors, ids: seq<nat>, before: Vendors, rest: seq<Item>)
    requires AllReadBack(m, ids)
    requires forall i :: 0 <= i < |ids| ==> ids[i] !in before
    requires forall i, j :: 0 <= i < j < |ids| ==> ids[i] != ids[j]
    ensures DecodeVendors(before, EncodeVendors(m, ids) + rest, |ids|) == Ok((AddAll(before, m, ids), rest))
    decreases |ids|
  {
    hide Decode, Encode, Covers, Reindexed;
    if ids == [] {
      assert EncodeVendors(m, ids) + rest == rest;
    } else {
      var id, more := ids[0], EncodeVendors(m, ids[1..]) + rest;
      assert EncodeVendors(m, ids) + rest == [U64(id)] + (Encode(m[id]) + more);
      VendorIsRead(before, id, m[id], more, |ids|);
      VendorsAreRead(m, ids[1..], before[id := Reindexed(m[id])], rest);
    }
  }

  lemma {:induction false} AddAllAdds(before: Vendors, m: Vendors, ids: seq<nat>, id: nat)
    requires AllReadBack(m, ids)
    ensures var r := AddAll(before, m, ids);
      && (id in ids ==> id in m && ReadsBack(m[id]) && id in r && r[id] == Reindexed(m[id]))
      && (id !in ids ==> (id in r <==> id in before) && (id in r ==> r[id] == before[id]))
    decreases |ids|
  {
    if ids != [] {
      assert forall x :: x in ids <==> x == ids[0] || x in ids[1..];
      AddAllAdds(before[ids[0] := Reindexed(m[ids[0]])], m, ids[1..], id);
    }
  }

  /** The round trip lifts to the cache, in whatever order its hash map is iterated: the same ids
      come back, each with its descriptor. */
  lemma CacheRoundTrip(m: Vendors, ids: seq<nat>, rest: seq<Item>)
    requires AllReadBack(m, ids) && |ids| < TWO31
    requires forall id :: id in m ==> id in ids
    requires forall i, j :: 0 <= i < j < |ids| ==> ids[i] != ids[j]
    ensures var d := DecodeCache(map[], [I32(ToInt32(|ids|))] + EncodeVendors(m, ids) + rest);
      && d.Ok? && d.value.1 == rest
      && (forall id :: id in d.value.0 <==> id in m)
      && (forall id :: id in m ==> Covers(m[id]) && d.value.0[id] == Reindexed(m[id]))
  {
    hide Decode, Encode;
    var body := EncodeVendors(m, ids) + rest;
    assert [I32(ToInt32(|ids|))] + EncodeVendors(m, ids) + rest == [I32(|ids|)] + body;
    CountIsRead(|ids|, body);
    VendorsAreRead(m, ids, map[], rest);
    AllAdded(m, ids);
  }

  lemma CountIsRead(n: nat, body: seq<Item>)
    requires n < TWO31
    ensures DecodeCache(map[], [I32(n)] + body) == DecodeVendors(map[], body, n)
  {
    hide Decode;
    assert ([I32(n)] + body)[1..] == body;
  }

  lemma AllAdded(m: Vendors, ids: seq<nat>)
    requires AllReadBack(m, ids) && forall id :: id in m ==> id in ids
    ensures forall id :: id in AddAll(map[], m, ids) <==> id in m
    ensures forall id :: id in m ==> Covers(m[id]) && AddAll(map[], m, ids)[id] == Reindexed(m[id])
  {
    forall id: nat
      ensures id in AddAll(map[], m, ids) <==> id in m
      ensures id in m ==> Covers(m[id]) && AddAll(map[], m, ids)[id] == Reindexed(m[id])
    {
      AddAllAdds(map[], m, ids, id);
    }
  }

  class VendorTagDescriptorCache {
    var mVendorMap: Vendors

    constructor ()
      ensures mVendorMap == map[]
    {
      mVendorMap := map[];
    }

    method AddVendorDescriptor(id: nat, desc: Tables) returns (r: Result<()>)
      modifies this
      ensures id in old(mVendorMap) ==> r == Err(BadValue) && mVendorMap == old(mVendorMap)
      ensures id !in old(mVendorMap) ==> r.Ok? && mVendorMap == old(mVendorMap)[id := desc]
    {
      if id in mVendorMap { return Err(BadValue); }
      mVendorMap := mVendorMap[id := desc];
      r := Ok(());
    }

    method GetVendorTagDescriptor(id: nat) returns (r: Result<Tables>)
      ensures id in mVendorMap ==> r == Ok(mVendorMap[id])
      ensures id !in mVendorMap ==> r == Err(NameNotFound)
    {
      r := if id in mVendorMap then Ok(mVendorMap[id]) else Err(NameNotFound);
    }

    method ReadFromParcel(parcel: Parcel) returns (r: Result<()>)
      requires parcel.Valid()
      modifies this, parcel`pos
      ensures parcel.Valid()
      ensures var d := DecodeCache(old(mVendorMap), old(parcel.Rest()));
        if d.Ok? then r.Ok? && d == Ok((mVendorMap, parcel.Rest())) else r == Err(d.status)
    {
      hide Decode;
      ghost var spec := DecodeCache(mVendorMap, parcel.Rest());
      var count := parcel.Take(ReadI32(parcel.Rest()));
      if count.Err? { return Err(count.status); }
      if count.value < 0 { return Err(BadValue); }
      for i := 0 to count.value
        invariant parcel.Valid()
        invariant spec == DecodeVendors(mVendorMap, parcel.Rest(), count.value - i)
      {
        var id := parcel.Take(ReadU64(parcel.Rest()));
        if id.Err? { return Err(id.status); }
        var desc := new VendorTagDescriptor();
        var read := desc.ReadFromParcel(parcel);
        if read.Err? { return Err(read.status); }
        var added := AddVendorDescriptor(id.value, desc.Abs());
        if added.Err? { return Err(added.status); }
      }
      r := Ok(());
    }
  }
}
