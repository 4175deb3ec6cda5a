/** The sections of one version of a table, collected until every one is present. */
module SectionSets {
  import opened Bytes

  /** A section as the collector sees it. */
  datatype Section<+V, +T> = Section(version: V, number: nat, last: nat, table: T)

  datatype Slots<+V, +T> = Slots(version: Option<V>, last: Option<nat>, sections: seq<Option<Section<V, T>>>)

  /** One place per section number, once a first section has said how many there are. */
  predicate Sized<V, T>(s: Slots<V, T>) {
    && (s.version.Some? <==> s.last.Some?)
    && |s.sections| == if s.last.Some? then s.last.value + 1 else 0
  }

  type SectionSet<V, T> = s: Slots<V, T> | Sized(s) witness Slots(None, None, [])

  function Fresh<V, T>(): SectionSet<V, T> { Slots(None, None, []) }

  function Blank<T>(count: nat): seq<Option<T>> { seq(count, i => None) }

  /** A section of another version, or of another length, starts the set over. */
  function Add<V(==), T>(set0: SectionSet<V, T>, s: Section<V, T>): SectionSet<V, T> {
    var base :=
      if set0.version != Some(s.version) || set0.last != Some(s.last)
      then Slots(Some(s.version), Some(s.last), Blank(s.last + 1)) else set0;
    if s.number > s.last then base
    else base.(sections := base.sections[s.number := Some(s)])
  }

  predicate Complete<V, T>(set0: SectionSet<V, T>) {
    && set0.version.Some? && set0.last.Some? && set0.sections != []
    && forall i :: 0 <= i < |set0.sections| ==> set0.sections[i].Some?
  }

  function Values<V, T>(set0: SectionSet<V, T>): seq<T> { Present(set0.sections) }

  function Present<V, T>(sections: seq<Option<Section<V, T>>>): seq<T> {
    if sections == [] then []
    else (if sections[0].Some? then [sections[0].value.table] else []) + Present(sections[1..])
  }

  function Collected<V(==), T>(stream: seq<Section<V, T>>): SectionSet<V, T>
    decreases |stream|
  {
    if stream == [] then Fresh() else Add(Collected(stream[..|stream| - 1]), stream[|stream| - 1])
  }

  // ----- what the set should hold, read off the whole stream

  predicate SameTable<V(==), T>(a: Section<V, T>, b: Section<V, T>) { a.version == b.version && a.last == b.last }

  /** Where the run of sections of the current version and length begins. */
  function Since<V(==), T>(stream: seq<Section<V, T>>): (from: nat)
    ensures from <= |stream|
    ensures stream != [] ==> from < |stream|
    ensures forall i :: from <= i < |stream| ==>
              stream[i].version == stream[|stream| - 1].version && stream[i].last == stream[|stream| - 1].last
    ensures from > 0 ==>
              stream[from - 1].version != stream[|stream| - 1].version
              || stream[from - 1].last != stream[|stream| - 1].last
    decreases |stream|
  {
    if |stream| <= 1 then 0
    else
      var before := stream[..|stream| - 1];
      if SameTable(before[|before| - 1], stream[|stream| - 1]) then Since(before) else |stream| - 1
  }

  /** A section numbered n has come at or after position `from`. */
  predicate Arrived<V, T>(stream: seq<Section<V, T>>, from: nat, n: nat)
    requires from <= |stream|
  {
    exists i :: from <= i < |stream| && stream[i].number == n
  }

  /** The latest section numbered n from position `from` on. */
  function Latest<V, T>(stream: seq<Section<V, T>>, from: nat, n: nat): (r: Option<Section<V, T>>)
    requires from <= |stream|
    ensures r.Some? <==> Arrived(stream, from, n)
    ensures r.Some? ==> r.value.number == n && exists i :: from <= i < |stream| && stream[i] == r.value
                                                          && forall j :: i < j < |stream| ==> stream[j].number != n
    decreases |stream|
  {
    if |stream| == from then None
    else if stream[|stream| - 1].number == n then Some(stream[|stream| - 1])
    else Latest(stream[..|stream| - 1], from, n)
  }

  ghost predicate Holds<V(!new), T(!new)>(set0: SectionSet<V, T>, stream: seq<Section<V, T>>) {
    && stream != []
    && (var final := stream[|stream| - 1];
        && set0.version == Some(final.version) && set0.last == Some(final.last)
        && |set0.sections| == final.last + 1
        && forall n: nat :: n <= final.last ==> set0.sections[n] == Latest(stream, Since(stream), n))
  }

  /** The set holds, in each place, the latest section of the current version and length with that number. */
  lemma {:induction false} CollectedHolds<V(!new), T(!new)>(stream: seq<Section<V, T>>)
    requires stream != []
    ensures Holds(Collected(stream), stream)
    decreases |stream|
  {
    var before, s := stream[..|stream| - 1], stream[|stream| - 1];
    if before != [] {
      CollectedHolds(before);
      assert before[|before| - 1] == stream[|stream| - 2];
    }
  }

  /** Every number from 0 to the last has come since the version began. */
  ghost predicate AllCame<V(!new), T(!new)>(stream: seq<Section<V, T>>) {
    stream != [] && (var from, last := Since(stream), stream[|stream| - 1].last;
                     forall n: nat :: n <= last ==> Arrived(stream, from, n))
  }

  /** It is complete exactly when every number from 0 to the last has come since the version began. */
  lemma CompleteExactly<V(!new), T(!new)>(stream: seq<Section<V, T>>)
    ensures Complete(Collected(stream)) <==> AllCame(stream)
  {
    if stream == [] { return; }
    CollectedHolds(stream);
    var c := Collected(stream);
    hide Collected;
    hide Since;
    hide Latest;
    hide Arrived;
    if Complete(c) {
      forall n: nat | n <= stream[|stream| - 1].last ensures Arrived(stream, Since(stream), n) {
        assert c.sections[n] == Latest(stream, Since(stream), n);
      }
    } else {
      var n: nat :| n < |c.sections| && c.sections[n].None?;
      assert c.sections[n] == Latest(stream, Since(stream), n);
      assert !Arrived(stream, Since(stream), n);
    }
  }

  lemma SinceAtMost<V, T>(before: seq<Section<V, T>>, own: seq<Section<V, T>>)
    requires own != [] && forall s :: s in own ==> s.version == own[0].version && s.last == own[0].last
    ensures Since(before + own) <= |before|
    ensures before != [] && !SameTable(before[|before| - 1], own[0]) ==> Since(before + own) == |before|
  {
    hide Since;
    var stream := before + own;
    var from, final := Since(stream), stream[|stream| - 1];
    assert own[|own| - 1] in own && own[0] in own && final == own[|own| - 1];
    forall i | |before| <= i < |stream|
      ensures stream[i].version == final.version && stream[i].last == final.last
    {
      assert stream[i] == own[i - |before|] && own[i - |before|] in own;
    }
    assert before != [] ==> stream[|before| - 1] == before[|before| - 1];
  }

  /** Whatever came before, a version is complete once each of its numbers has come, in any order and any number of
      times, with nothing of another version between them. */
  lemma ComesComplete<V(!new), T(!new)>(before: seq<Section<V, T>>, own: seq<Section<V, T>>)
    requires own != [] && forall s :: s in own ==> s.version == own[0].version && s.last == own[0].last
    requires forall n: nat :: n <= own[0].last ==> Arrived(own, 0, n)
    ensures Complete(Collected(before + own)) && |Values(Collected(before + own))| == own[0].last + 1
  {
    hide Collected;
    hide Values;
    hide Complete;
    SinceAtMost(before, own);
    hide Since;
    var stream := before + own;
    assert own[|own| - 1] in own && stream[|stream| - 1] == own[|own| - 1];
    forall n: nat | n <= own[0].last
      ensures Arrived(stream, Since(stream), n)
    {
      assert Arrived(own, 0, n);
      var i :| 0 <= i < |own| && own[i].number == n;
      assert stream[|before| + i].number == n;
    }
    CompleteExactly(stream);
    ValuesInOrder(stream);
  }

  lemma {:induction false} AllPresent<V, T>(sections: seq<Option<Section<V, T>>>)
    requires forall i :: 0 <= i < |sections| ==> sections[i].Some?
    ensures |Present(sections)| == |sections|
    ensures forall i :: 0 <= i < |sections| ==> Present(sections)[i] == sections[i].value.table
  {
    if sections != [] { AllPresent(sections[1..]); }
  }

  /** A complete set yields one table per number, in section order, whatever order they arrived in. */
  lemma ValuesInOrder<V(!new), T(!new)>(stream: seq<Section<V, T>>)
    requires stream != [] && Complete(Collected(stream))
    ensures |Values(Collected(stream))| == stream[|stream| - 1].last + 1
    ensures forall n: nat :: n <= stream[|stream| - 1].last ==>
              Latest(stream, Since(stream), n).Some?
              && Values(Collected(stream))[n] == Latest(stream, Since(stream), n).value.table
  {
    CollectedHolds(stream);
    AllPresent(Collected(stream).sections);
  }
}
