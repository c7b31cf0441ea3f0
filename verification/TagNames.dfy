/** CameraMetadata::getTagFromName of camera/CameraMetadata.cpp: the section is the longest one
    whose name begins the input, and the tag name is what follows it and one separator. */
module TagNames {
  import opened Parcels
  import opened VendorTags

  /** The tables of the camera_metadata library: section names, the tags [begin, end) of each
      section, and the name of every tag. */
  datatype BuiltIn = BuiltIn(sections: seq<string>, bounds: seq<(nat, nat)>, tagNames: map<nat, string>)

  ghost predicate Complete(b: BuiltIn) {
    && |b.bounds| == |b.sections|
    && (forall i :: 0 <= i < |b.bounds| ==> b.bounds[i].0 <= b.bounds[i].1)
    && (forall i, tag: nat :: 0 <= i < |b.bounds| && b.bounds[i].0 <= tag < b.bounds[i].1 ==> tag in b.tagNames)
  }

  /** The built-in sections, followed by those of the vendor descriptor if there is one. */
  function AllSections(b: BuiltIn, vendor: Option<Tables>): seq<string> {
    b.sections + if vendor.None? then [] else vendor.value.sections
  }

  // ---------------------------------------------------------------- the section

  /** The first of the longest names that name begins with. */
  ghost predicate IsBest(sections: seq<string>, name: string, i: nat) {
    && i < |sections| && sections[i] <= name
    && (forall j :: 0 <= j < |sections| && sections[j] <= name ==> |sections[j]| <= |sections[i]|)
    && (forall j :: 0 <= j < i && sections[j] <= name ==> |sections[j]| < |sections[i]|)
  }

  ghost predicate NoneBegins(sections: seq<string>, name: string) {
    forall j :: 0 <= j < |sections| ==> !(sections[j] <= name)
  }

  lemma BestIsUnique(sections: seq<string>, name: string, i: nat, k: nat)
    requires IsBest(sections, name, i) && IsBest(sections, name, k)
    ensures i == k
  {
  }

  /** The loop that looks for the section. */
  method FindSection(sections: seq<string>, name: string) returns (best: Option<nat>)
    ensures best.Some? ==> IsBest(sections, name, best.value)
    ensures best.None? ==> NoneBegins(sections, name)
  {
    best := None;
    var sectionLength := 0;
    for i := 0 to |sections|
      invariant best.Some? ==> IsBest(sections[..i], name, best.value) && sectionLength == |sections[best.value]|
      invariant best.None? ==> NoneBegins(sections[..i], name)
    {
      if sections[i] <= name {
        if best.None? || sectionLength < |sections[i]| {
          best, sectionLength := Some(i), |sections[i]|;
        }
      }
    }
    assert sections[..|sections|] == sections;
  }

  // ---------------------------------------------------------------- the tag

  /** tag lies in the i-th section and has this name there. */
  ghost predicate InSection(b: BuiltIn, vendor: Option<Tables>, i: nat, tag: nat, tagName: string)
    requires Complete(b) && (vendor.Some? ==> Covers(vendor.value))
  {
    i < |AllSections(b, vendor)| &&
    if i < |b.sections| then b.bounds[i].0 <= tag < b.bounds[i].1 && b.tagNames[tag] == tagName
    else Has(vendor.value, tag, tagName, vendor.value.sections[i - |b.sections|])
  }

  /** Among the tags of a built-in section the first one of the name is taken. */
  ghost predicate IsFirst(b: BuiltIn, i: nat, tag: nat, tagName: string)
    requires Complete(b) && i < |b.sections|
  {
    forall other: nat :: b.bounds[i].0 <= other < tag && other < b.bounds[i].1 ==> b.tagNames[other] != tagName
  }

  /** The loop over the tags of a built-in section. */
  method FindTag(b: BuiltIn, i: nat, tagName: string) returns (candidate: nat)
    requires Complete(b) && i < |b.sections|
    ensures b.bounds[i].0 <= candidate <= b.bounds[i].1
    ensures candidate < b.bounds[i].1 ==> b.tagNames[candidate] == tagName
    ensures IsFirst(b, i, candidate, tagName)
  {
    candidate := b.bounds[i].0;
    while candidate < b.bounds[i].1
      invariant b.bounds[i].0 <= candidate <= b.bounds[i].1
      invariant IsFirst(b, i, candidate, tagName)
    {
      if b.tagNames[candidate] == tagName {
        break;
      }
      candidate := candidate + 1;
    }
  }

  /** What getTagFromName may answer. */
  ghost predicate Answers(b: BuiltIn, vendor: Option<Tables>, name: string, r: Result<nat>)
    requires Complete(b) && (vendor.Some? ==> Covers(vendor.value))
  {
    var sections := AllSections(b, vendor);
    && (NoneBegins(sections, name) ==> r == Err(NameNotFound))
    && forall i: nat :: IsBest(sections, name, i) ==> AnswersIn(b, vendor, name, i, r)
  }

  /** The answer once the section is known to be the i-th. */
  ghost predicate AnswersIn(b: BuiltIn, vendor: Option<Tables>, name: string, i: nat, r: Result<nat>)
    requires Complete(b) && (vendor.Some? ==> Covers(vendor.value))
    requires i < |AllSections(b, vendor)|
  {
    var start := |AllSections(b, vendor)[i]| + 1;
    if start >= |name| then r == Err(BadValue)
    else
      && (r.Ok? ==> InSection(b, vendor, i, r.value, name[start..]))
      && (r.Ok? && i < |b.sections| ==> IsFirst(b, i, r.value, name[start..]))
      && (r.Err? ==> r.status == NameNotFound && forall tag: nat :: !InSection(b, vendor, i, tag, name[start..]))
  }

  /** What lookupTag says about a vendor section. */
  lemma VendorTagIsFound(b: BuiltIn, vendor: Option<Tables>, i: nat, tagName: string)
    requires Complete(b) && vendor.Some? && Consistent(vendor.value) && |b.sections| <= i < |AllSections(b, vendor)|
    ensures Covers(vendor.value)
    ensures var found := LookupTag(vendor.value, tagName, AllSections(b, vendor)[i]);
      && (found.Ok? ==> InSection(b, vendor, i, found.value, tagName))
      && (found.Err? ==> forall tag: nat :: !InSection(b, vendor, i, tag, tagName))
  {
    hide LookupTag, LastMatch, Reverse, DistinctPairs;
    var order :| BuiltFrom(vendor.value, order);
    LookupAgrees(vendor.value, order, tagName, AllSections(b, vendor)[i]);
  }

  /** getTagFromName, with a vendor descriptor built from ops or read from any parcel. */
  method GetTagFromName(b: BuiltIn, vendor: Option<Tables>, name: string) returns (r: Result<nat>)
    requires Complete(b) && (vendor.Some? ==> Consistent(vendor.value))
    ensures Answers(b, vendor, name, r)
  {
    hide LookupTag, Consistent, Has;
    var sections := AllSections(b, vendor);
    var best := FindSection(sections, name);
    if best.None? {
      return Err(NameNotFound);
    }
    var i := best.value;
    forall k | IsBest(sections, name, k)
      ensures k == i
    {
      BestIsUnique(sections, name, i, k);
    }
    var start := |sections[i]| + 1;
    if start >= |name| {
      return Err(BadValue);
    }
    if i < |b.sections| {
      var candidate := FindTag(b, i, name[start..]);
      if candidate == b.bounds[i].1 {
        return Err(NameNotFound);
      }
      r := Ok(candidate);
    } else {
      VendorTagIsFound(b, vendor, i, name[start..]);
      var found := LookupTag(vendor.value, name[start..], sections[i]);
      if found.Err? {
        return Err(NameNotFound);
      }
      r := found;
    }
  }

  // ---------------------------------------------------------------- what full names resolve to

  /** No longer section name begins the full name, and no earlier section has the same name. */
  ghost predicate Undisputed(sections: seq<string>, i: nat, full: string)
    requires i < |sections|
  {
    && (forall j :: 0 <= j < |sections| && |sections[j]| > |sections[i]| ==> !(sections[j] <= full))
    && (forall j :: 0 <= j < i ==> sections[j] != sections[i])
  }

  /** The section that is settled on for a full name is its own exactly when it is undisputed. */
  lemma OwnSectionIffUndisputed(sections: seq<string>, i: nat, full: string)
    requires i < |sections| && sections[i] <= full
    ensures IsBest(sections, full, i) <==> Undisputed(sections, i, full)
  {
    if Undisputed(sections, i, full) {
      forall j | 0 <= j < |sections| && sections[j] <= full && |sections[j]| == |sections[i]|
        ensures i <= j
      {
        assert sections[j] == full[..|sections[j]|] == sections[i];
      }
    }
  }

  /** Every tag whose full name - section, any one separator, tag name - is undisputed resolves to
      a tag of the same section and name; an empty tag name is refused.  On success the tag lies in
      the section and its name is what follows the section and one separator. */
  lemma FullNameResolves(b: BuiltIn, vendor: Option<Tables>, i: nat, tag: nat, separator: char, tagName: string,
                         r: Result<nat>)
    requires Complete(b) && (vendor.Some? ==> Covers(vendor.value))
    requires InSection(b, vendor, i, tag, tagName)
    requires Answers(b, vendor, AllSections(b, vendor)[i] + [separator] + tagName, r)
    requires Undisputed(AllSections(b, vendor), i, AllSections(b, vendor)[i] + [separator] + tagName)
    ensures tagName != "" ==> r.Ok? && InSection(b, vendor, i, r.value, tagName)
    ensures tagName == "" ==> r == Err(BadValue)
  {
    var sections := AllSections(b, vendor);
    var full := sections[i] + [separator] + tagName;
    OwnSectionIffUndisputed(sections, i, full);
    assert full[|sections[i]| + 1..] == tagName;
    assert AnswersIn(b, vendor, full, i, r);
  }

  /** A vendor section whose name is that of a built-in one is never settled on. */
  lemma BuiltInWinsTies(b: BuiltIn, vendor: Option<Tables>, k: nat, i: nat, full: string)
    requires k < |b.sections| <= i < |AllSections(b, vendor)|
    requires AllSections(b, vendor)[i] == b.sections[k]
    ensures !IsBest(AllSections(b, vendor), full, i)
  {
    assert AllSections(b, vendor)[k] == b.sections[k];
  }

  /** The answer is determined, up to which of several vendor tags of one section and name it is. */
  lemma AnswersAgree(b: BuiltIn, vendor: Option<Tables>, name: string, r1: Result<nat>, r2: Result<nat>)
    requires Complete(b) && (vendor.Some? ==> Covers(vendor.value))
    requires Answers(b, vendor, name, r1) && Answers(b, vendor, name, r2)
    ensures r1.Ok? <==> r2.Ok?
    ensures r1.Err? ==> r1 == r2
    ensures vendor.None? || DistinctPairs(vendor.value) ==> r1 == r2
  {
    var sections := AllSections(b, vendor);
    if !NoneBegins(sections, name) {
      SomeBest(sections, name);
      var i: nat :| IsBest(sections, name, i);
      assert AnswersIn(b, vendor, name, i, r1) && AnswersIn(b, vendor, name, i, r2);
    }
  }

  lemma {:induction false} SomeBest(sections: seq<string>, name: string)
    requires !NoneBegins(sections, name)
    ensures exists i: nat :: IsBest(sections, name, i)
    decreases |sections|
  {
    var k := |sections| - 1;
    var front := sections[..k];
    if NoneBegins(front, name) {
      assert IsBest(sections, name, k);
    } else {
      SomeBest(front, name);
      var i: nat :| IsBest(front, name, i);
      assert IsBest(sections, name, if sections[k] <= name && |sections[k]| > |sections[i]| then k else i);
    }
  }
}
