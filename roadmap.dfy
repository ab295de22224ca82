/**
 * The roadmap page: lessons grouped into difficulty buckets, each shown section
 * sorted by `order`, sections in a fixed order with empty ones skipped, and the
 * completed/total count of each section.
 */
module Roadmap {
  import opened Outcomes
  import opened Types
  import opened Lessons

  /** The keys of `SECTION_LABELS`, in declaration order. */
  const SectionKeys: seq<string> := ["beginner", "intermediate", "advanced", "bonus"]

  /** `SECTION_LABELS`: the heading shown for each section key. */
  function SectionLabel(key: string): string {
    if key == "beginner" then "TypeScript Fundamentals"
    else if key == "intermediate" then "Intermediate TypeScript"
    else if key == "advanced" then "Advanced TypeScript"
    else "Bonus Modules"
  }

  /** The bucket of a difficulty: itself for the three known ones, "bonus" for anything else. */
  function BucketKey(difficulty: string): string {
    if difficulty == "beginner" then "beginner"
    else if difficulty == "intermediate" then "intermediate"
    else if difficulty == "advanced" then "advanced"
    else "bonus"
  }

  /** The lessons of `ls` whose bucket is `key`, in the order of `ls` (the pushes of the loop). */
  function Bucket(ls: seq<Lesson>, key: string): (b: seq<Lesson>)
    ensures |b| <= |ls|
  {
    if ls == [] then []
    else
      var last := ls[|ls| - 1];
      Bucket(ls[..|ls| - 1], key) + (if BucketKey(last.difficulty) == key then [last] else [])
  }

  /** A bucket holds only lessons of the list whose bucket key is its own. */
  lemma {:induction false} BucketMembers(ls: seq<Lesson>, key: string)
    ensures forall l | l in Bucket(ls, key) :: l in ls && BucketKey(l.difficulty) == key
  {
    if ls != [] {
      var init := ls[..|ls| - 1];
      BucketMembers(init, key);
      forall l | l in Bucket(init, key)
        ensures l in ls
      {
        var i :| 0 <= i < |init| && init[i] == l;
        assert ls[i] == l;
      }
    }
  }

  /** Each known difficulty is its own bucket; anything else goes to "bonus"; no other key is produced. */
  lemma BucketKeyCases(difficulty: string)
    ensures BucketKey(difficulty) in SectionKeys
    ensures KnownDifficulty(difficulty) ==> BucketKey(difficulty) == difficulty
    ensures !KnownDifficulty(difficulty) ==> BucketKey(difficulty) == "bonus"
  {
  }

  /** Every lesson lands in the bucket of its own difficulty (and, by `BucketMembers`, in no other). */
  lemma {:induction false} LessonInOwnBucket(ls: seq<Lesson>, i: nat)
    requires i < |ls|
    ensures ls[i] in Bucket(ls, BucketKey(ls[i].difficulty))
  {
    if i < |ls| - 1 {
      assert ls[..|ls| - 1][i] == ls[i];
      LessonInOwnBucket(ls[..|ls| - 1], i);
    }
  }

  /** The four buckets together hold as many lessons as the list. */
  lemma {:induction false} BucketSizesSum(ls: seq<Lesson>)
    ensures |Bucket(ls, "beginner")| + |Bucket(ls, "intermediate")| + |Bucket(ls, "advanced")| + |Bucket(ls, "bonus")| == |ls|
  {
    if ls != [] {
      BucketSizesSum(ls[..|ls| - 1]);
    }
  }

  /** Appending one lesson pushes it onto its own bucket and leaves the others alone. */
  lemma BucketSnoc(ls: seq<Lesson>, x: Lesson, key: string)
    ensures Bucket(ls + [x], key) == Bucket(ls, key) + (if BucketKey(x.difficulty) == key then [x] else [])
  {
    assert (ls + [x])[..|ls|] == ls;
  }

  /** `groupLessonsByDifficulty`: a bucket is created on its first lesson and pushed to. */
  method GroupLessons(lessons: seq<Lesson>) returns (groups: map<string, seq<Lesson>>)
    ensures forall key | key in groups :: groups[key] == Bucket(lessons, key) && groups[key] != []
    ensures forall key | key !in groups :: Bucket(lessons, key) == []
  {
    groups := map[];
    var i := 0;
    while i < |lessons|
      invariant 0 <= i <= |lessons|
      invariant forall key | key in groups :: groups[key] == Bucket(lessons[..i], key) && groups[key] != []
      invariant forall key | key !in groups :: Bucket(lessons[..i], key) == []
    {
      var lesson := lessons[i];
      var key := BucketKey(lesson.difficulty);
      assert lessons[..i + 1] == lessons[..i] + [lesson];
      forall k
        ensures Bucket(lessons[..i + 1], k) == Bucket(lessons[..i], k) + (if key == k then [lesson] else [])
      {
        BucketSnoc(lessons[..i], lesson, k);
      }
      if key in groups {
        groups := groups[key := groups[key] + [lesson]];
      } else {
        groups := groups[key := [lesson]];
      }
      i := i + 1;
    }
    assert lessons[..i] == lessons;
  }

  // ---------------------------------------------------------------------------
  // Sorting a section

  predicate SortedByOrder(s: seq<Lesson>) {
    forall i, j | 0 <= i < j < |s| :: s[i].order <= s[j].order
  }

  /** `sectionLessons.sort((a, b) => a.order - b.order)`, in place. */
  method SortByOrder(a: array<Lesson>)
    modifies a
    ensures SortedByOrder(a[..])
    ensures multiset(a[..]) == multiset(old(a[..]))
  {
    var i := 0;
    while i < a.Length
      invariant 0 <= i <= a.Length
      invariant SortedByOrder(a[..i])
      invariant multiset(a[..]) == multiset(old(a[..]))
    {
      InsertLast(a, i);
      i := i + 1;
    }
  }

  /** No two lessons of `s` share an `order` (true of the shipped catalog, where lesson `i` has order `i + 1`). */
  predicate DistinctOrders(s: seq<Lesson>) {
    forall i, j | 0 <= i < j < |s| :: s[i].order != s[j].order
  }

  /**
   * With distinct orders there is only one sorted arrangement of a collection of
   * lessons, so whether the sort keeps equal keys in place cannot change its result.
   */
  lemma {:induction false} SortedUnique(a: seq<Lesson>, b: seq<Lesson>)
    requires SortedByOrder(a) && SortedByOrder(b) && DistinctOrders(b)
    requires multiset(a) == multiset(b)
    ensures a == b
    decreases |a|
  {
    if a != [] {
      SortedSameHead(a, b);
      var ta, tb := a[1..], b[1..];
      assert a == [a[0]] + ta && b == [b[0]] + tb;
      assert multiset(ta) == multiset(a) - multiset{a[0]};
      assert multiset(tb) == multiset(b) - multiset{a[0]};
      SortedTail(a);
      SortedTail(b);
      DistinctTail(b);
      SortedUnique(ta, tb);
    }
  }

  /** Two such arrangements start with the same lesson: the one of least order. */
  lemma SortedSameHead(a: seq<Lesson>, b: seq<Lesson>)
    requires SortedByOrder(a) && SortedByOrder(b) && DistinctOrders(b)
    requires multiset(a) == multiset(b) && a != []
    ensures b != [] && a[0] == b[0]
  {
    assert a[0] in multiset(b);
    var j :| 0 <= j < |b| && b[j] == a[0];
    assert b[0] in multiset(a);
    var i :| 0 <= i < |a| && a[i] == b[0];
    assert j == 0;
  }

  lemma SortedTail(s: seq<Lesson>)
    requires s != [] && SortedByOrder(s)
    ensures SortedByOrder(s[1..])
  {
    assert forall p | 0 <= p < |s| - 1 :: s[1..][p] == s[p + 1];
  }

  lemma DistinctTail(s: seq<Lesson>)
    requires s != [] && DistinctOrders(s)
    ensures DistinctOrders(s[1..])
  {
    assert forall p | 0 <= p < |s| - 1 :: s[1..][p] == s[p + 1];
  }

  /** Orders strictly increasing along `s`: sorted, and no order repeated. */
  predicate IncreasingOrders(s: seq<Lesson>) {
    forall i, j | 0 <= i < j < |s| :: s[i].order < s[j].order
  }

  /** A bucket keeps the relative order of the list it is taken from. */
  lemma {:induction false} BucketIncreasing(ls: seq<Lesson>, key: string)
    requires IncreasingOrders(ls)
    ensures IncreasingOrders(Bucket(ls, key))
  {
    if ls != [] {
      var init, last := ls[..|ls| - 1], ls[|ls| - 1];
      assert forall p | 0 <= p < |init| :: init[p] == ls[p];
      BucketIncreasing(init, key);
      BucketMembers(init, key);
      var bi := Bucket(init, key);
      forall x | x in bi
        ensures x.order < last.order
      {
        var k :| 0 <= k < |init| && init[k] == x;
      }
      var b := Bucket(ls, key);
      assert b == bi || b == bi + [last];
      forall i, j | 0 <= i < j < |b|
        ensures b[i].order < b[j].order
      {
        assert b[i] == bi[i];
        if j < |bi| {
          assert b[j] == bi[j];
        }
      }
    }
  }

  /** The shipped catalog lists its lessons in increasing order (lesson `i` has order `i + 1`). */
  lemma CatalogIncreasing()
    ensures IncreasingOrders(Catalog)
  {
    forall i | 0 <= i < |Catalog|
      ensures Catalog[i].order == i + 1
    {
      CatalogLessonWellFormed(i);
    }
  }

  /**
   * For the shipped catalog the sort has only one possible outcome: any ascending
   * arrangement of a section's lessons is the bucket in catalog order.
   */
  lemma CatalogSectionInCatalogOrder(key: string, section: seq<Lesson>)
    requires SortedByOrder(section) && multiset(section) == multiset(Bucket(Catalog, key))
    ensures section == Bucket(Catalog, key)
  {
    CatalogIncreasing();
    BucketIncreasing(Catalog, key);
    SortedUnique(section, Bucket(Catalog, key));
  }

  /** `s` with the neighbours at `p - 1` and `p` exchanged. */
  function Swap(s: seq<Lesson>, p: nat): (t: seq<Lesson>)
    requires 0 < p < |s|
    ensures |t| == |s| && multiset(t) == multiset(s)
  {
    s[p - 1 := s[p]][p := s[p - 1]]
  }

  /**
   * While `s[i]` is carried down to position `j`: the prefix `s[..i + 1]` is sorted
   * apart from position `j`, whose lesson orders strictly before everything after it,
   * and its two neighbours are in order with each other.
   */
  predicate Inserting(s: seq<Lesson>, i: nat, j: nat) {
    && j <= i < |s|
    && (forall p, q | 0 <= p < q <= i && p != j && q != j :: s[p].order <= s[q].order)
    && (forall q | j < q <= i :: s[j].order < s[q].order)
    && (0 < j < i ==> s[j - 1].order <= s[j + 1].order)
  }

  lemma InsertingStart(s: seq<Lesson>, i: nat)
    requires i < |s| && SortedByOrder(s[..i])
    ensures Inserting(s, i, i)
  {
    forall p, q | 0 <= p < q < i
      ensures s[p].order <= s[q].order
    {
      assert s[..i][p] == s[p] && s[..i][q] == s[q];
    }
  }

  lemma InsertingStep(s: seq<Lesson>, i: nat, j: nat)
    requires Inserting(s, i, j) && 0 < j && s[j - 1].order > s[j].order
    ensures Inserting(Swap(s, j), i, j - 1)
  {
  }

  lemma InsertingDone(s: seq<Lesson>, i: nat, j: nat)
    requires Inserting(s, i, j) && (j == 0 || s[j - 1].order <= s[j].order)
    ensures SortedByOrder(s[..i + 1])
  {
    assert forall p, q | 0 <= p < q <= i :: s[p].order <= s[q].order;
  }

  /** Moves `a[i]` down into the sorted prefix `a[..i]` by neighbour swaps. */
  method InsertLast(a: array<Lesson>, i: nat)
    requires i < a.Length && SortedByOrder(a[..i])
    modifies a
    ensures SortedByOrder(a[..i + 1])
    ensures multiset(a[..]) == multiset(old(a[..]))
  {
    InsertingStart(a[..], i);
    var j: nat := i;
    while j > 0 && a[j - 1].order > a[j].order
      invariant Inserting(a[..], i, j)
      invariant multiset(a[..]) == multiset(old(a[..]))
    {
      ghost var s := a[..];
      a[j - 1], a[j] := a[j], a[j - 1];
      assert a[..] == Swap(s, j);
      InsertingStep(s, i, j);
      j := j - 1;
    }
    InsertingDone(a[..], i, j);
  }

  // ---------------------------------------------------------------------------
  // Sections

  datatype Section = Section(key: string, heading: string, lessons: seq<Lesson>)

  /** The section keys of `keys` whose bucket is non-empty, in order. */
  function VisibleKeys(ls: seq<Lesson>, keys: seq<string>): (vs: seq<string>)
    ensures |vs| <= |keys|
  {
    if keys == [] then []
    else
      var key := keys[|keys| - 1];
      VisibleKeys(ls, keys[..|keys| - 1]) + (if Bucket(ls, key) != [] then [key] else [])
  }

  /** A key is visible exactly when it is one of `keys` and its bucket is non-empty. */
  lemma {:induction false} VisibleKeysMembers(ls: seq<Lesson>, keys: seq<string>, k: string)
    ensures k in VisibleKeys(ls, keys) <==> k in keys && Bucket(ls, k) != []
  {
    if keys != [] {
      var earlier := keys[..|keys| - 1];
      VisibleKeysMembers(ls, earlier, k);
      assert keys == earlier + [keys[|keys| - 1]];
    }
  }

  /** The section shown for `key`: its heading, and the bucket's lessons sorted by `order`. */
  predicate SectionShows(section: Section, lessons: seq<Lesson>, key: string) {
    && section.key == key
    && section.heading == SectionLabel(key)
    && SortedByOrder(section.lessons)
    && multiset(section.lessons) == multiset(Bucket(lessons, key))
  }

  /** `sections` shows one section for each key of `keys` with a non-empty bucket, in order. */
  predicate SectionsMatch(sections: seq<Section>, lessons: seq<Lesson>, keys: seq<string>)
    decreases |keys|
  {
    if keys == [] then sections == []
    else
      var key := keys[|keys| - 1];
      var earlier := keys[..|keys| - 1];
      if Bucket(lessons, key) == [] then SectionsMatch(sections, lessons, earlier)
      else
        && sections != []
        && SectionShows(sections[|sections| - 1], lessons, key)
        && SectionsMatch(sections[..|sections| - 1], lessons, earlier)
  }

  /** As many sections as visible keys. */
  lemma {:induction false} SectionsMatchLength(sections: seq<Section>, lessons: seq<Lesson>, keys: seq<string>)
    requires SectionsMatch(sections, lessons, keys)
    ensures |sections| == |VisibleKeys(lessons, keys)|
  {
    if keys != [] {
      var earlier := keys[..|keys| - 1];
      if Bucket(lessons, keys[|keys| - 1]) == [] {
        SectionsMatchLength(sections, lessons, earlier);
      } else {
        SectionsMatchLength(sections[..|sections| - 1], lessons, earlier);
      }
    }
  }

  /** The j-th section is the section of the j-th visible key. */
  lemma {:induction false} SectionsMatchAt(sections: seq<Section>, lessons: seq<Lesson>, keys: seq<string>, j: nat)
    requires SectionsMatch(sections, lessons, keys) && j < |sections|
    ensures j < |VisibleKeys(lessons, keys)| && SectionShows(sections[j], lessons, VisibleKeys(lessons, keys)[j])
    decreases |keys|, 1
  {
    if Bucket(lessons, keys[|keys| - 1]) == [] {
      SectionsMatchAt(sections, lessons, keys[..|keys| - 1], j);
    } else {
      SectionsMatchAtShown(sections, lessons, keys, j);
    }
  }

  /** `SectionsMatchAt` when the last key's section is shown. */
  lemma {:induction false} SectionsMatchAtShown(sections: seq<Section>, lessons: seq<Lesson>, keys: seq<string>, j: nat)
    requires SectionsMatch(sections, lessons, keys) && j < |sections|
    requires keys != [] && Bucket(lessons, keys[|keys| - 1]) != []
    ensures j < |VisibleKeys(lessons, keys)| && SectionShows(sections[j], lessons, VisibleKeys(lessons, keys)[j])
    decreases |keys|, 0
  {
    var key := keys[|keys| - 1];
    var earlier := keys[..|keys| - 1];
    var before := VisibleKeys(lessons, earlier);
    var n := |sections| - 1;
    SectionsMatchLength(sections[..n], lessons, earlier);
    var vs := VisibleKeys(lessons, keys);
    assert vs == before + [key];
    if j < n {
      SectionsMatchAt(sections[..n], lessons, earlier, j);
      assert sections[..n][j] == sections[j];
      assert vs[j] == before[j];
    } else {
      assert vs[j] == key;
    }
  }

  /** Spelled out: the i-th section is the i-th visible key's section. */
  lemma SectionsMatchVisible(sections: seq<Section>, lessons: seq<Lesson>, keys: seq<string>)
    requires SectionsMatch(sections, lessons, keys)
    ensures |sections| == |VisibleKeys(lessons, keys)|
    ensures forall j | 0 <= j < |sections| :: SectionShows(sections[j], lessons, VisibleKeys(lessons, keys)[j])
  {
    SectionsMatchLength(sections, lessons, keys);
    forall j | 0 <= j < |sections|
      ensures SectionShows(sections[j], lessons, VisibleKeys(lessons, keys)[j])
    {
      SectionsMatchAt(sections, lessons, keys, j);
    }
  }

  /** One section's lessons: the bucket copied to an array and sorted there. */
  method SectionLessons(bucket: seq<Lesson>) returns (sorted: seq<Lesson>)
    ensures SortedByOrder(sorted)
    ensures multiset(sorted) == multiset(bucket)
  {
    var a := new Lesson[|bucket|](i requires 0 <= i < |bucket| => bucket[i]);
    assert a[..] == bucket;
    SortByOrder(a);
    sorted := a[..];
  }

  /** One turn of the section loop keeps `SectionsMatch`, whether it pushes a section or not. */
  lemma SectionsMatchStep(sections: seq<Section>, lessons: seq<Lesson>, keys: seq<string>, k: nat, sorted: seq<Lesson>)
    requires k < |keys| && SectionsMatch(sections, lessons, keys[..k])
    requires SortedByOrder(sorted) && multiset(sorted) == multiset(Bucket(lessons, keys[k]))
    ensures sorted != [] ==> SectionsMatch(sections + [Section(keys[k], SectionLabel(keys[k]), sorted)], lessons, keys[..k + 1])
    ensures sorted == [] ==> SectionsMatch(sections, lessons, keys[..k + 1])
  {
    var key := keys[k];
    assert keys[..k + 1][..k] == keys[..k];
    if sorted != [] {
      assert sorted[0] in multiset(Bucket(lessons, key));
      var pushed := sections + [Section(key, SectionLabel(key), sorted)];
      assert pushed[..|sections|] == sections;
    } else {
      assert |Bucket(lessons, key)| == |multiset(Bucket(lessons, key))| == 0;
    }
  }

  /** The loop over the section keys, given the grouped lessons. */
  method SectionsFor(lessons: seq<Lesson>, groups: map<string, seq<Lesson>>, keys: seq<string>)
    returns (sections: seq<Section>)
    requires forall key | key in groups :: groups[key] == Bucket(lessons, key)
    requires forall key | key !in groups :: Bucket(lessons, key) == []
    ensures SectionsMatch(sections, lessons, keys)
  {
    sections := [];
    var k := 0;
    while k < |keys|
      invariant 0 <= k <= |keys|
      invariant SectionsMatch(sections, lessons, keys[..k])
    {
      var key := keys[k];
      var sorted := SectionLessons(if key in groups then groups[key] else []);
      SectionsMatchStep(sections, lessons, keys, k, sorted);
      if sorted != [] {
        sections := sections + [Section(key, SectionLabel(key), sorted)];
      }
      k := k + 1;
    }
    assert keys[..k] == keys;
  }

  /** The rendered sections: each key of `SectionKeys` in turn, skipped when its sorted list is empty. */
  method Sections(lessons: seq<Lesson>) returns (sections: seq<Section>)
    ensures SectionsMatch(sections, lessons, SectionKeys)
  {
    var groups := GroupLessons(lessons);
    sections := SectionsFor(lessons, groups, SectionKeys);
  }

  // ---------------------------------------------------------------------------
  // Completion

  /** A card shows "Completed" exactly when its id is listed (nothing before progress loads). */
  predicate CardCompleted(lesson: Lesson, progress: Option<UserProgress>) {
    progress.Some? && lesson.id in progress.value.completedLessons
  }

  /** `completed`: the section's lessons whose card shows "Completed"; 0 before progress loads. */
  function CompletedInSection(section: seq<Lesson>, progress: Option<UserProgress>): (n: nat)
    ensures n <= |section|
    ensures progress.None? ==> n == 0
  {
    if section == [] then 0
    else
      CompletedInSection(section[..|section| - 1], progress)
        + (if CardCompleted(section[|section| - 1], progress) then 1 else 0)
  }

  function IdSet(section: seq<Lesson>): set<string> {
    set i | 0 <= i < |section| :: section[i].id
  }

  predicate DistinctIds(section: seq<Lesson>) {
    forall i, j | 0 <= i < j < |section| :: section[i].id != section[j].id
  }

  /** The ids of the section and of its last lesson. */
  lemma IdSetSnoc(section: seq<Lesson>)
    requires |section| > 0
    ensures IdSet(section) == IdSet(section[..|section| - 1]) + {section[|section| - 1].id}
  {
    var init := section[..|section| - 1];
    forall x | x in IdSet(section)
      ensures x in IdSet(init) + {section[|section| - 1].id}
    {
      var i :| 0 <= i < |section| && section[i].id == x;
      if i < |init| {
        assert init[i] == section[i];
      }
    }
    forall x | x in IdSet(init)
      ensures x in IdSet(section)
    {
      var i :| 0 <= i < |init| && init[i].id == x;
      assert section[i] == init[i];
    }
  }

  /** Dropping the last lesson keeps the ids distinct, and the last id is not among the rest. */
  lemma DistinctIdsInit(section: seq<Lesson>)
    requires |section| > 0 && DistinctIds(section)
    ensures DistinctIds(section[..|section| - 1])
    ensures section[|section| - 1].id !in IdSet(section[..|section| - 1])
  {
    var n := |section| - 1;
    var init := section[..n];
    forall i, j | 0 <= i < j < n
      ensures init[i].id != init[j].id
    {
      assert init[i] == section[i] && init[j] == section[j];
    }
    forall i | 0 <= i < n
      ensures init[i].id != section[n].id
    {
      assert init[i] == section[i];
    }
  }

  /** Adding a new element to a set adds one to its overlap with `listed` exactly when it is listed. */
  lemma OverlapAddOne(ids: set<string>, x: string, listed: set<string>)
    requires x !in ids
    ensures |(ids + {x}) * listed| == |ids * listed| + (if x in listed then 1 else 0)
  {
    if x in listed {
      assert (ids + {x}) * listed == (ids * listed) + {x};
    } else {
      assert (ids + {x}) * listed == ids * listed;
    }
  }

  /**
   * With distinct ids in the section, `completed` is the number of section ids that
   * the completed list mentions, however often and in whatever order.
   */
  lemma {:induction false} CompletedCountsListedIds(section: seq<Lesson>, p: UserProgress)
    requires DistinctIds(section)
    ensures CompletedInSection(section, Some(p)) == |IdSet(section) * set id | id in p.completedLessons|
  {
    if section == [] {
      assert IdSet(section) == {};
    } else {
      var n := |section| - 1;
      DistinctIdsInit(section);
      CompletedCountsListedIds(section[..n], p);
      IdSetSnoc(section);
      OverlapAddOne(IdSet(section[..n]), section[n].id, set id | id in p.completedLessons);
    }
  }

  /** An id that belongs to no lesson of the section does not change its count. */
  lemma {:induction false} CompletedIgnoresOtherIds(section: seq<Lesson>, p: UserProgress, id: string)
    requires forall l | l in section :: l.id != id
    ensures CompletedInSection(section, Some(p.(completedLessons := p.completedLessons + [id])))
         == CompletedInSection(section, Some(p))
  {
    if section != [] {
      CompletedIgnoresOtherIds(section[..|section| - 1], p, id);
    }
  }

  /** Lessons of the three known difficulties leave the "bonus" bucket empty. */
  lemma {:induction false} NoBonusWhenKnown(ls: seq<Lesson>)
    requires forall i | 0 <= i < |ls| :: KnownDifficulty(ls[i].difficulty)
    ensures Bucket(ls, "bonus") == []
  {
    if ls != [] {
      NoBonusWhenKnown(ls[..|ls| - 1]);
    }
  }

  /** The shipped catalog has no lesson in the "bonus" bucket, so that section is never shown. */
  lemma CatalogHasNoBonusSection()
    ensures Bucket(Catalog, "bonus") == []
    ensures "bonus" !in VisibleKeys(Catalog, SectionKeys)
  {
    CatalogIsWellFormed();
    forall i | 0 <= i < |Catalog|
      ensures KnownDifficulty(Catalog[i].difficulty)
    {
      assert LessonWellFormed(Catalog, i);
    }
    NoBonusWhenKnown(Catalog);
    VisibleKeysMembers(Catalog, SectionKeys, "bonus");
  }
}
