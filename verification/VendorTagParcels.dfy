/** Vendor tag parcels from anywhere: what a descriptor read from one is like, and exactly which of
    them make the reader of camera/VendorTagDescriptor.cpp access mSections out of range. */
module VendorTagParcels {
  import opened Parcels
  import opened SortedVectors
  import opened VendorTags

  // ---------------------------------------------------------------- the sections of a parcel

  lemma {:induction false} InsertAllIsSorted(ss: seq<string>)
    ensures Sorted(InsertAll(ss))
    ensures forall x :: x in InsertAll(ss) <==> x in ss
    decreases |ss|
  {
    if ss != [] {
      InsertAllIsSorted(ss[..|ss| - 1]);
      InsertSorted(InsertAll(ss[..|ss| - 1]), ss[|ss| - 1]);
      assert ss == ss[..|ss| - 1] + [ss[|ss| - 1]];
    }
  }

  /** The different section names. */
  function NameSet(ss: seq<string>): set<string> {
    if ss == [] then {} else NameSet(ss[..|ss| - 1]) + {ss[|ss| - 1]}
  }

  lemma {:induction false} NameSetMembers(ss: seq<string>, x: string)
    ensures x in NameSet(ss) <==> x in ss
    decreases |ss|
  {
    if ss != [] {
      NameSetMembers(ss[..|ss| - 1], x);
      assert ss == ss[..|ss| - 1] + [ss[|ss| - 1]];
    }
  }

  lemma {:induction false} InsertLength(s: seq<string>, x: string)
    requires Sorted(s)
    ensures |Insert(s, x)| == if x in s then |s| else |s| + 1
    decreases |s|
  {
    if s != [] {
      var front, last := s[..|s| - 1], s[|s| - 1];
      assert s == front + [last];
      StrLessTotal(last, x);
      if last != x && !StrLess(last, x) {
        InsertLength(front, x);
      } else if StrLess(last, x) {
        forall j | 0 <= j < |s|
          ensures s[j] != x
        {
        }
      }
    }
  }

  /** The section vector has one element for every different name. */
  lemma {:induction false} InsertAllLength(ss: seq<string>)
    ensures |InsertAll(ss)| == |NameSet(ss)| <= |ss|
    decreases |ss|
  {
    if ss != [] {
      var front, last := ss[..|ss| - 1], ss[|ss| - 1];
      InsertAllLength(front);
      InsertAllIsSorted(front);
      InsertLength(InsertAll(front), last);
      NameSetMembers(front, last);
      assert last in NameSet(front) ==> NameSet(ss) == NameSet(front);
    }
  }

  predicate DistinctNames(ss: seq<string>) { forall i, j :: 0 <= i < j < |ss| ==> ss[i] != ss[j] }

  lemma {:induction false} AllNamesCount(ss: seq<string>)
    requires DistinctNames(ss)
    ensures |NameSet(ss)| == |ss|
    decreases |ss|
  {
    if ss != [] {
      var front, last := ss[..|ss| - 1], ss[|ss| - 1];
      AllNamesCount(front);
      NameSetMembers(front, last);
    }
  }

  /** Sections keep the positions they have in the parcel exactly when they arrive strictly ascending. */
  lemma SectionsKeepPlacesIffAscending(ss: seq<string>)
    ensures InsertAll(ss) == ss <==> Sorted(ss)
  {
    InsertAllIsSorted(ss);
    if Sorted(ss) {
      InsertAllSorted(ss);
    }
  }

  // ---------------------------------------------------------------- which indices are in range

  lemma {:induction false} MaxIndexIsGreatest(es: seq<Entry>, i: nat)
    requires i < |es|
    ensures es[i].index <= MaxIndex(es)
    decreases |es|
  {
    if i < |es| - 1 {
      MaxIndexIsGreatest(es[..|es| - 1], i);
    }
  }

  lemma {:induction false} MaxIndexIsThere(es: seq<Entry>) returns (i: nat)
    requires es != []
    ensures i < |es| && es[i].index == MaxIndex(es)
    decreases |es|
  {
    var front := es[..|es| - 1];
    if front == [] || MaxIndex(front) < es[|es| - 1].index {
      i := |es| - 1;
    } else {
      i := MaxIndexIsThere(front);
    }
  }

  lemma {:induction false} FilledComesFrom<V>(ks: seq<nat>, vs: seq<V>, k: nat) returns (i: nat)
    requires |ks| == |vs| && k in ks
    ensures i < |ks| && ks[i] == k && Filled(ks, vs)[k] == vs[i]
    decreases |ks|
  {
    assert ks == ks[..|ks| - 1] + [ks[|ks| - 1]];
    if ks[|ks| - 1] == k {
      i := |ks| - 1;
    } else {
      i := FilledComesFrom(ks[..|ks| - 1], vs[..|vs| - 1], k);
    }
  }

  lemma {:induction false} FilledAtDistinct<V>(ks: seq<nat>, vs: seq<V>, i: nat)
    requires |ks| == |vs| && NoRepeats(ks) && i < |ks|
    ensures ks[i] in ks && Filled(ks, vs)[ks[i]] == vs[i]
    decreases |ks|
  {
    if i < |ks| - 1 {
      var front := ks[..|ks| - 1];
      assert front[i] in front;
      FilledAtDistinct(front, vs[..|vs| - 1], i);
    }
  }

  function IndexSeq(es: seq<Entry>): seq<nat> { seq(|es|, i requires 0 <= i < |es| => es[i].index) }

  /** Indices up to the greatest are all that the reader looks up. */
  lemma IndexAtMostMax(es: seq<Entry>, tag: nat)
    requires tag in IndexesOf(es)
    ensures es != [] && IndexesOf(es)[tag] <= MaxIndex(es)
  {
    var i := FilledComesFrom(TagsOf(es), IndexSeq(es), tag);
    MaxIndexIsGreatest(es, i);
  }

  /** For entries with different tags, exactly when every access to the sections is in range. */
  lemma IndexesFitIff(es: seq<Entry>, sections: seq<string>)
    requires NoRepeats(TagsOf(es))
    ensures IndexesFit(es, sections) <==> es == [] || MaxIndex(es) < |sections|
  {
    hide MaxIndex, NoRepeats;
    if es == [] || MaxIndex(es) < |sections| {
      MaxFits(es, sections);
    } else {
      var i := MaxIndexIsThere(es);
      FilledAtDistinct(TagsOf(es), IndexSeq(es), i);
      var tag := TagsOf(es)[i];
      assert tag in IndexesOf(es) && IndexesOf(es)[tag] == MaxIndex(es);
    }
  }

  /** In every case it is enough that the greatest index is in range. */
  lemma MaxFits(es: seq<Entry>, sections: seq<string>)
    requires es == [] || MaxIndex(es) < |sections|
    ensures IndexesFit(es, sections)
  {
    forall tag | tag in IndexesOf(es)
      ensures IndexesOf(es)[tag] < |sections|
    {
      IndexAtMostMax(es, tag);
    }
  }

  /** The code's check is enough when the section names are pairwise different and no index is 2^32-1. */
  lemma CheckIsEnough(es: seq<Entry>, ss: seq<string>)
    requires DistinctNames(ss) && MaxIndex(es) < TWO32 - 1
    requires ToUInt32(MaxIndex(es) + 1) <= |ss|
    ensures IndexesFit(es, InsertAll(ss))
  {
    AllNamesCount(ss);
    InsertAllLength(ss);
    MaxFits(es, InsertAll(ss));
  }

  /** Exactly what the reader does with the sections of a parcel, for entries with different tags:
      it accepts them, refuses them, or goes out of range although its check passed - the last when
      there are fewer different names than the greatest index needs. */
  lemma SectionsAreSafeIff(es: seq<Entry>, ss: seq<string>, rest: seq<Item>)
    requires NoRepeats(TagsOf(es)) && es != [] && 0 < |ss| < TWO31 && "" !in ss
    ensures var d := DecodeSections(es, [I32(ToInt32(|ss|))] + Strings(ss) + rest);
      && (|ss| < ToUInt32(MaxIndex(es) + 1) ==> d == Err(BadValue))
      && (|ss| >= ToUInt32(MaxIndex(es) + 1) ==> (d.Ok? <==> MaxIndex(es) < |NameSet(ss)|))
      && (|ss| >= ToUInt32(MaxIndex(es) + 1) && d.Err? ==> d == Err(OutOfBounds))
      && (d.Ok? ==> d.value.0.sections == InsertAll(ss) && d.value.1 == rest)
  {
    hide IndexesFit, InsertAll, FromEntries, Strings, MaxIndex, NameSet, ReadSections;
    forall i | 0 <= i < |ss|
      ensures ss[i] != ""
    {
      assert ss[i] in ss;
    }
    SectionListIsRead(ss, rest);
    InsertAllLength(ss);
    IndexesFitIff(es, InsertAll(ss));
    SectionsOfFromEntries(es, InsertAll(ss));
  }

  /** Without any sections the check only passes when it has wrapped, and then a fatal check stops the process. */
  lemma NoSectionsAbortsIffWrapped(es: seq<Entry>, rest: seq<Item>)
    requires MaxIndex(es) < TWO32
    ensures DecodeSections(es, [I32(0)] + rest) == Err(if MaxIndex(es) == TWO32 - 1 then Aborted else BadValue)
  {
    hide MaxIndex, ReadSections;
    assert ([I32(0)] + rest)[1..] == rest;
  }

  lemma SectionsOfFromEntries(es: seq<Entry>, sections: seq<string>)
    ensures IndexesFit(es, sections) ==> FromEntries(es, sections).sections == sections
  {
    hide IndexesFit, Reverse, NamesOf, IndexesOf, TypesOf;
  }

  /** The first failing family: two sections of the same name, and an index beyond the one that is left. */
  lemma RepeatedSectionGoesOutOfBounds(tag: nat, kind: int, name: string, section: string)
    requires VENDOR_BOUNDARY <= tag < TWO32 && 0 <= kind < NUM_TYPES && name != "" && section != ""
    ensures Decode([I32(1)] + OneEntry(tag, kind, name, 1) + ([I32(ToInt32(2))] + Strings([section, section])))
         == Err(OutOfBounds)
  {
    hide DecodeSections, ReadEntries, Decode;
    var ss := [section, section];
    var tail := [I32(ToInt32(2))] + Strings(ss) + [];
    var es := [Entry(tag, kind, name, 1)];
    assert [I32(ToInt32(2))] + Strings(ss) == tail;
    OneEntryDecodes(tag, kind, name, 1, tail);
    assert NoRepeats(TagsOf(es)) && MaxIndex(es) == 1 by { OneEntryFacts(es[0]); }
    assert NameSet(ss) == {section} by {
      OneName(section);
      assert ss[..1] == [section];
    }
    SectionsAreSafeIff(es, ss, []);
  }

  /** The second: the greatest index plus one wraps to 0, and the check lets everything through. */
  lemma WrappedIndexGoesOutOfBounds(tag: nat, kind: int, name: string, section: string)
    requires VENDOR_BOUNDARY <= tag < TWO32 && 0 <= kind < NUM_TYPES && name != "" && section != ""
    ensures Decode([I32(1)] + OneEntry(tag, kind, name, TWO32 - 1) + ([I32(ToInt32(1))] + Strings([section])))
         == Err(OutOfBounds)
  {
    hide DecodeSections, ReadEntries, Decode;
    var ss := [section];
    var tail := [I32(ToInt32(1))] + Strings(ss) + [];
    var es := [Entry(tag, kind, name, TWO32 - 1)];
    assert [I32(ToInt32(1))] + Strings(ss) == tail;
    OneEntryDecodes(tag, kind, name, TWO32 - 1, tail);
    assert NoRepeats(TagsOf(es)) && MaxIndex(es) == TWO32 - 1 by { OneEntryFacts(es[0]); }
    OneName(section);
    SectionsAreSafeIff(es, ss, []);
  }

  lemma OneName(x: string)
    ensures NameSet([x]) == {x}
  {
    assert [x][..0] == [] && NameSet([]) == {};
  }

  function OneEntry(tag: nat, kind: int, name: string, index: nat): seq<Item>
    requires 0 <= kind < NUM_TYPES
  {
    [I32(ToInt32(tag)), I32(kind), Str8(name), I32(ToInt32(index))]
  }

  lemma OneEntryFacts(e: Entry)
    ensures NoRepeats(TagsOf([e])) && MaxIndex([e]) == e.index
  {
    assert TagsOf([e])[..0] == [] && [e][..0] == [];
  }

  lemma OneEntryDecodes(tag: nat, kind: int, name: string, index: nat, tail: seq<Item>)
    requires VENDOR_BOUNDARY <= tag < TWO32 && 0 <= kind < NUM_TYPES && name != "" && index < TWO32
    ensures Decode([I32(1)] + OneEntry(tag, kind, name, index) + tail) == DecodeSections([Entry(tag, kind, name, index)], tail)
  {
    hide DecodeSections, ReadEntry, Decode;
    var items := [I32(1)] + OneEntry(tag, kind, name, index) + tail;
    var e := Entry(tag, kind, name, index);
    assert items[1..] == OneEntry(tag, kind, name, index) + tail;
    OneEntryIsRead(tag, kind, name, index, tail);
    assert [e] + [] == [e];
    assert ReadEntries(tail, 0) == Ok(([], tail));
    assert ReadEntries(items[1..], 1) == Ok(([e], tail));
    DecodeByParts(items, 1, items[1..], [e], tail);
  }

  lemma OneEntryIsRead(tag: nat, kind: int, name: string, index: nat, tail: seq<Item>)
    requires VENDOR_BOUNDARY <= tag < TWO32 && 0 <= kind < NUM_TYPES && name != "" && index < TWO32
    ensures ReadEntry(OneEntry(tag, kind, name, index) + tail) == Ok((Entry(tag, kind, name, index), tail))
  {
    var items := OneEntry(tag, kind, name, index) + tail;
    assert items[1..][1..][1..][1..] == tail;
    assert ToUInt32(ToInt32(tag)) == tag && ToUInt32(ToInt32(index)) == index;
  }

  // ---------------------------------------------------------------- every accepted parcel

  lemma FromEntriesIsBuilt(es: seq<Entry>, sections: seq<string>)
    requires IndexesFit(es, sections) && Sorted(sections)
    ensures BuiltFrom(FromEntries(es, sections), TagsOf(es))
  {
    hide Reverse, Sorted;
    var t := FromEntries(es, sections);
    assert SectionNames(t) == ByIndex(IndexesOf(es), sections);
  }

  lemma DecodedParts(items: seq<Item>) returns (es: seq<Entry>, ss: seq<string>)
    requires Decode(items).Ok? && Decode(items).value.0 != EMPTY
    ensures IndexesFit(es, InsertAll(ss)) && Decode(items).value.0 == FromEntries(es, InsertAll(ss))
  {
    hide ReadEntries, ReadSections, IndexesFit, FromEntries, InsertAll, MaxIndex;
    var (count, rest) := ReadI32(items).value;
    var (es', tail) := ReadEntries(rest, count).value;
    var (v, after) := ReadI32(tail).value;
    es := es';
    ss := ReadSections(after, ToUInt32(v)).value.0;
  }

  /** Whatever the parcel, repeated tags, any order of tags and sections: when it is accepted, the
      reverse index of the descriptor agrees with its other tables. */
  lemma DecodedIsConsistent(items: seq<Item>)
    requires Decode(items).Ok?
    ensures Consistent(Decode(items).value.0)
  {
    hide Decode, IndexesFit, FromEntries, InsertAll, BuiltFrom;
    if Decode(items).value.0 == EMPTY {
      EmptyIsBuilt();
    } else {
      var es, ss := DecodedParts(items);
      InsertAllIsSorted(ss);
      FromEntriesIsBuilt(es, InsertAll(ss));
    }
  }

  lemma EmptyIsBuilt()
    ensures BuiltFrom(EMPTY, [])
  {
    assert SectionNames(EMPTY) == map[];
  }

  /** A tag has the section name that stands at its index in the parcel when the sections arrive
      strictly ascending, as the writer emits them. */
  lemma SectionOfTag(es: seq<Entry>, ss: seq<string>, tag: nat)
    requires Sorted(ss) && IndexesFit(es, ss) && tag in IndexesOf(es)
    ensures InsertAll(ss) == ss && Covers(FromEntries(es, ss))
    ensures SectionNames(FromEntries(es, ss))[tag] == ss[IndexesOf(es)[tag]]
  {
    hide Reverse, Sorted;
    SectionsKeepPlacesIffAscending(ss);
    assert Covers(FromEntries(es, ss));
  }

  // ---------------------------------------------------------------- entries, field by field

  /** What the reader does with the four fields of a tag: its id, its type, its name and the index of
      its section, the first and the last of which are unsigned. */
  lemma EntryIsAcceptedIff(id: Int32, kind: Int32, name: string, index: Int32, rest: seq<Item>)
    ensures var d := ReadEntry([I32(id), I32(kind), Str8(name), I32(index)] + rest);
      if id >= 0 || kind < 0 || kind > 5 then d == Err(BadValue)
      else if name == "" then d == Err(NotEnoughData)
      else d == Ok((Entry(id + 0x1_0000_0000, kind, name, if index >= 0 then index else index + 0x1_0000_0000), rest))
  {
    var items := [I32(id), I32(kind), Str8(name), I32(index)] + rest;
    assert items[1..][1..][1..][1..] == rest;
    assert ToUInt32(id) == (if id >= 0 then id else id + 0x1_0000_0000);
    assert ToUInt32(index) == (if index >= 0 then index else index + 0x1_0000_0000);
  }

  /** The tags a descriptor can be created from. */
  lemma AcceptableMeans(ops: Ops)
    ensures Acceptable(ops) <==>
      && 0 <= ops.count <= 0x7fff_ffff
      && forall i :: 0 <= i < |ops.tags| ==>
           0x8000_0000 <= ops.tags[i] <= 0xffff_ffff && ops.tags[i] in ops.names && ops.tags[i] in ops.sections
           && ops.tags[i] in ops.kinds && 0 <= ops.kinds[ops.tags[i]] <= 5
  {
    assert forall i :: 0 <= i < |ops.tags| ==> (AcceptableTag(ops, ops.tags[i]) <==>
      0x8000_0000 <= ops.tags[i] <= 0xffff_ffff && ops.tags[i] in ops.names && ops.tags[i] in ops.sections
      && ops.tags[i] in ops.kinds && 0 <= ops.kinds[ops.tags[i]] <= 5);
  }

  /** In a parcel the k-th tag in ascending order takes the four items from 4k on. */
  lemma {:induction false} EntryLayout(t: Tables, tags: seq<nat>, k: nat)
    requires Covers(t) && (forall tag :: tag in tags ==> tag in t.names) && k < |tags|
    ensures |EncodeEntries(t, tags)| == 4 * |tags|
    ensures var items := EncodeEntries(t, tags);
      && items[4 * k] == I32(ToInt32(tags[k])) && items[4 * k + 1] == I32(ToInt32(t.types[tags[k]]))
      && items[4 * k + 2] == Str8(t.names[tags[k]]) && items[4 * k + 3] == I32(ToInt32(t.sectionOf[tags[k]]))
    decreases |tags|
  {
    hide Covers;
    EntriesLength(t, tags);
    if k > 0 {
      EntryLayout(t, tags[1..], k - 1);
    }
  }

  lemma {:induction false} EntriesLength(t: Tables, tags: seq<nat>)
    requires Covers(t) && forall tag :: tag in tags ==> tag in t.names
    ensures |EncodeEntries(t, tags)| == 4 * |tags|
    decreases |tags|
  {
    if tags != [] {
      EntriesLength(t, tags[1..]);
    }
  }

  /** Around them stand the number of tags, and behind them the number of sections and their names,
      unless there are none. */
  lemma ParcelLayout(t: Tables)
    requires Covers(t)
    ensures var (items, n) := (Encode(t), 4 * |TagArray(t)|);
      && |items| == 1 + n + (if t.sections == [] then 0 else 1 + |t.sections|)
      && items[0] == I32(ToInt32(t.count)) && items[1..1 + n] == EncodeEntries(t, TagArray(t))
      && (t.sections != [] ==> items[1 + n] == I32(ToInt32(|t.sections|)))
      && (forall i :: 0 <= i < |t.sections| ==> items[2 + n + i] == Str8(t.sections[i]))
  {
    hide Covers, EncodeEntries, Ascending, Strings;
    EntriesLength(t, TagArray(t));
    InThreeParts(I32(ToInt32(t.count)), EncodeEntries(t, TagArray(t)), EncodedSections(t));
    StringsAt(t.sections);
  }

  lemma InThreeParts(first: Item, a: seq<Item>, b: seq<Item>)
    ensures var items := [first] + a + b;
      && |items| == 1 + |a| + |b| && items[0] == first && items[1..1 + |a|] == a
      && forall i :: 0 <= i < |b| ==> items[1 + |a| + i] == b[i]
  {
  }

  lemma StringsAt(ss: seq<string>)
    ensures |Strings(ss)| == |ss| && forall i :: 0 <= i < |ss| ==> Strings(ss)[i] == Str8(ss[i])
  {
  }
}
