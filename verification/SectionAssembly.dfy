/** Assembling network information and address map tables from their sections. */
module SectionAssembly {
  import opened Bytes
  import opened SectionSets

  datatype TableId = TableId(table: nat, extension: nat)

  datatype Version = Version(number: nat, current: bool)

  datatype TableKey = TableKey(id: TableId, version: Version)

  /** The lists a section carries: descriptors and streams of a NIT, or the services of an AMT. */
  datatype Body<A, B> = Body(first: seq<A>, second: seq<B>)

  datatype Arrival<A, B> = Arrival(id: TableId, section: Section<Version, Body<A, B>>, offset: nat)

  datatype Held<A, B> = Held(body: Body<A, B>, offset: nat)

  datatype Assembly<A, B> = Assembly(last: nat, sections: map<nat, Held<A, B>>, emitted: bool)

  datatype Snapshot<A, B> = Snapshot(key: TableKey, last: nat, offset: nat, body: Body<A, B>)

  type Assemblies<A, B> = map<TableKey, Assembly<A, B>>

  function Plus<A, B>(a: Body<A, B>, b: Body<A, B>): Body<A, B> { Body(a.first + b.first, a.second + b.second) }

  function EmptyAssembly<A, B>(): Assembly<A, B> { Assembly(0, map[], false) }

  /** The bodies of sections 0 to count - 1, one after the other. */
  function Joined<A, B>(sections: map<nat, Held<A, B>>, count: nat): Body<A, B>
    requires forall n: nat :: n < count ==> n in sections
    decreases count
  {
    if count == 0 then Body([], []) else Plus(Joined(sections, count - 1), sections[count - 1].body)
  }

  /** Only the version that came last is kept. */
  function OnlyVersion<A, B>(all: Assemblies<A, B>, key: TableKey): Assemblies<A, B> {
    map k | k in all && (k.id != key.id || k == key) :: all[k]
  }

  predicate AllThere<A, B>(a: Assembly<A, B>) {
    |a.sections| == a.last + 1 && forall n: nat :: n <= a.last ==> n in a.sections
  }

  function Base<A, B>(all: Assemblies<A, B>, key: TableKey, last: nat): Assembly<A, B> {
    var found := if key in all then all[key] else EmptyAssembly();
    if found.sections != map[] && found.last != last then EmptyAssembly().(last := last) else found.(last := last)
  }

  function KeyOf<A, B>(a: Arrival<A, B>): TableKey { TableKey(a.id, a.section.version) }

  function Accept<A(==), B(==)>(all: Assemblies<A, B>, a: Arrival<A, B>): (Assemblies<A, B>, Option<Snapshot<A, B>>) {
    var kept := OnlyVersion(all, KeyOf(a));
    var base := Base(kept, KeyOf(a), a.section.last);
    var n := a.section.number;
    if n in base.sections && base.sections[n].body == a.section.table then (kept[KeyOf(a) := base], None)
    else
      var next := base.(sections := base.sections[n := Held(a.section.table, a.offset)], emitted := false);
      if !AllThere(next) then (kept[KeyOf(a) := next], None)
      else (kept[KeyOf(a) := next.(emitted := true)],
            Some(Snapshot(KeyOf(a), next.last, next.sections[0].offset, Joined(next.sections, next.last + 1))))
  }

  function After<A(==), B(==)>(stream: seq<Arrival<A, B>>): Assemblies<A, B>
    decreases |stream|
  {
    if stream == [] then map[] else Accept(After(stream[..|stream| - 1]), stream[|stream| - 1]).0
  }

  // ----- what one table should hold, read off the stream

  /** The sections of one table, in order of arrival. */
  function Of<A, B>(stream: seq<Arrival<A, B>>, id: TableId): seq<Section<Version, Body<A, B>>>
    decreases |stream|
  {
    if stream == [] then []
    else
      var a := stream[|stream| - 1];
      Of(stream[..|stream| - 1], id) + if a.id == id then [a.section] else []
  }

  /** The parsers refuse a section whose number passes the last. */
  ghost predicate Lawful<A, B>(stream: seq<Arrival<A, B>>) {
    forall a :: a in stream ==> a.section.number <= a.section.last
  }

  /** One assembly holds the latest section of each number that has come since its version began. */
  ghost predicate Mirrors<A(!new), B(!new)>(a: Assembly<A, B>, own: seq<Section<Version, Body<A, B>>>) {
    && own != []
    && a.last == own[|own| - 1].last
    && (forall n: nat :: n in a.sections <==> Arrived(own, Since(own), n))
    && (forall n: nat :: n in a.sections ==>
          n <= a.last && a.sections[n].body == Latest(own, Since(own), n).value.table)
  }

  ghost predicate HoldsFor<A(!new), B(!new)>(all: Assemblies<A, B>, own: seq<Section<Version, Body<A, B>>>,
                                             id: TableId) {
    && (forall k :: k in all && k.id == id ==> own != [] && k.version == own[|own| - 1].version)
    && (own != [] ==> (var key := TableKey(id, own[|own| - 1].version); key in all && Mirrors(all[key], own)))
  }

  // ----- one more section

  lemma SinceNext<A, B>(own: seq<Section<Version, Body<A, B>>>, s: Section<Version, Body<A, B>>)
    ensures Since(own + [s]) == if own != [] && SameTable(own[|own| - 1], s) then Since(own) else |own|
  {
    assert (own + [s])[..|own|] == own;
  }

  lemma LatestNext<A, B>(own: seq<Section<Version, Body<A, B>>>, s: Section<Version, Body<A, B>>, from: nat, n: nat)
    requires from <= |own|
    ensures Latest(own + [s], from, n) == if s.number == n then Some(s) else Latest(own, from, n)
    ensures Arrived(own + [s], from, n) <==> s.number == n || Arrived(own, from, n)
  {
    assert (own + [s])[..|own|] == own;
    hide Arrived;
  }

  lemma NothingSince<A, B>(own: seq<Section<Version, Body<A, B>>>, n: nat)
    ensures !Arrived(own, |own|, n)
  {}

  /** The assembly the section is added to holds what came of its version so far, or nothing. */
  lemma BaseMirrors<A(!new), B(!new)>(all: Assemblies<A, B>, own: seq<Section<Version, Body<A, B>>>, id: TableId,
                                      s: Section<Version, Body<A, B>>)
    requires HoldsFor(all, own, id)
    ensures (var base := Base(OnlyVersion(all, TableKey(id, s.version)), TableKey(id, s.version), s.last);
             && base.last == s.last
             && if own != [] && SameTable(own[|own| - 1], s) then Mirrors(base, own) else base.sections == map[])
  {
    var key := TableKey(id, s.version);
    if own != [] && own[|own| - 1].version == s.version {
      var final := own[|own| - 1];
      assert Arrived(own, Since(own), final.number);
      assert final.number in all[key].sections;
    }
    hide Latest;
    hide Since;
    hide Arrived;
  }

  lemma PutMirrors<A(!new), B(!new)>(base: Assembly<A, B>, own: seq<Section<Version, Body<A, B>>>,
                                     s: Section<Version, Body<A, B>>, held: Held<A, B>, emitted: bool)
    requires base.last == s.last && s.number <= s.last && held.body == s.table
    requires if own != [] && SameTable(own[|own| - 1], s) then Mirrors(base, own) else base.sections == map[]
    ensures Mirrors(Assembly(base.last, base.sections[s.number := held], emitted), own + [s])
  {
    hide Latest;
    hide Since;
    hide Arrived;
    SinceNext(own, s);
    var from := Since(own + [s]);
    forall n: nat
      ensures Latest(own + [s], from, n) == if s.number == n then Some(s) else Latest(own, from, n)
      ensures Arrived(own + [s], from, n) <==> s.number == n || Arrived(own, from, n)
      ensures from == |own| ==> !Arrived(own, from, n)
    {
      LatestNext(own, s, from, n);
      NothingSince(own, n);
    }
  }

  lemma SameMirrors<A(!new), B(!new)>(base: Assembly<A, B>, own: seq<Section<Version, Body<A, B>>>,
                                      s: Section<Version, Body<A, B>>)
    requires base.last == s.last && s.number <= s.last
    requires s.number in base.sections && base.sections[s.number].body == s.table
    requires if own != [] && SameTable(own[|own| - 1], s) then Mirrors(base, own) else base.sections == map[]
    ensures Mirrors(base, own + [s])
  {
    hide Mirrors;
    PutMirrors(base, own, s, base.sections[s.number], base.emitted);
    assert base.sections[s.number := base.sections[s.number]] == base.sections;
  }

  lemma AcceptHoldsOwn<A(!new), B(!new)>(all: Assemblies<A, B>, own: seq<Section<Version, Body<A, B>>>,
                                         a: Arrival<A, B>)
    requires HoldsFor(all, own, a.id) && a.section.number <= a.section.last
    ensures HoldsFor(Accept(all, a).0, own + [a.section], a.id)
  {
    hide Mirrors;
    hide SameTable;
    hide Joined;
    hide AllThere;
    hide Base;
    var s := a.section;
    var kept := OnlyVersion(all, KeyOf(a));
    var base := Base(kept, KeyOf(a), s.last);
    BaseMirrors(all, own, a.id, s);
    if s.number in base.sections && base.sections[s.number].body == s.table {
      SameMirrors(base, own, s);
    } else {
      PutMirrors(base, own, s, Held(s.table, a.offset), false);
      PutMirrors(base, own, s, Held(s.table, a.offset), true);
    }
  }

  lemma AcceptHoldsOther<A(!new), B(!new)>(all: Assemblies<A, B>, own: seq<Section<Version, Body<A, B>>>, id: TableId,
                                           a: Arrival<A, B>)
    requires HoldsFor(all, own, id) && id != a.id
    ensures HoldsFor(Accept(all, a).0, own, id)
  {
    hide Mirrors;
    hide Joined;
    hide AllThere;
    hide Base;
  }

  /** After any sections, each table holds exactly the latest section of every number that has come since its
      current version began, and no other version of it is kept. */
  lemma {:induction false} RunHolds<A(!new), B(!new)>(stream: seq<Arrival<A, B>>, id: TableId)
    requires Lawful(stream)
    ensures HoldsFor(After(stream), Of(stream, id), id)
    decreases |stream|
  {
    hide HoldsFor;
    hide Accept;
    if stream == [] {
      NothingHeld<A, B>(id);
    } else {
      var before, a := stream[..|stream| - 1], stream[|stream| - 1];
      RunHolds(before, id);
      assert a in stream;
      if a.id == id {
        AcceptHoldsOwn(After(before), Of(before, id), a);
        assert Of(stream, id) == Of(before, id) + [a.section];
      } else {
        AcceptHoldsOther(After(before), Of(before, id), id, a);
        assert Of(stream, id) == Of(before, id);
      }
    }
  }

  lemma NothingHeld<A(!new), B(!new)>(id: TableId)
    ensures HoldsFor<A, B>(After([]), Of([], id), id)
  {}

  // ----- when a snapshot is emitted, and what it says

  lemma {:induction false} Pigeonhole(s: set<nat>, n: nat)
    requires (forall x :: x in s ==> x < n) && |s| == n
    ensures forall x: nat :: x < n ==> x in s
    decreases n
  {
    if n > 0 {
      if n - 1 in s {
        Pigeonhole(s - {n - 1}, n - 1);
        forall x: nat | x < n ensures x in s {
          if x < n - 1 { assert x in s - {n - 1}; }
        }
      } else {
        AtMost(s, n - 1);
      }
    }
  }

  lemma {:induction false} AtMost(s: set<nat>, n: nat)
    requires forall x :: x in s ==> x < n
    ensures |s| <= n
    decreases n
  {
    if n == 0 {
      assert s == {};
    } else {
      AtMost(s - {n - 1}, n - 1);
    }
  }

  lemma {:induction false} FullSize(s: set<nat>, n: nat)
    requires forall x: nat :: x in s <==> x < n
    ensures |s| == n
    decreases n
  {
    if n == 0 {
      assert s == {};
    } else {
      assert n - 1 in s && |s| == |s - {n - 1}| + 1;
      FullSize(s - {n - 1}, n - 1);
    }
  }

  /** Counting the sections is enough: as many as there should be, none past the last, are all of them. */
  lemma CountSuffices<A(!new), B(!new)>(a: Assembly<A, B>, own: seq<Section<Version, Body<A, B>>>)
    requires Mirrors(a, own)
    ensures AllThere(a) <==> |a.sections| == a.last + 1
    ensures AllThere(a) <==> AllArrived(own, a.last)
  {
    hide Latest;
    hide Since;
    hide Arrived;
    assert |a.sections| == |a.sections.Keys|;
    if |a.sections| == a.last + 1 { Pigeonhole(a.sections.Keys, a.last + 1); }
    if forall n: nat :: n <= a.last ==> n in a.sections {
      FullSize(a.sections.Keys, a.last + 1);
    } else {
      var n: nat :| n <= a.last && n !in a.sections;
      assert !Arrived(own, Since(own), n);
      assert !AllArrived(own, a.last);
      assert !AllThere(a);
    }
  }

  /** The bodies of the latest sections 0 to count - 1. */
  function JoinedLatest<A, B>(own: seq<Section<Version, Body<A, B>>>, count: nat): Body<A, B>
    requires forall n: nat :: n < count ==> Arrived(own, Since(own), n)
    decreases count
  {
    if count == 0 then Body([], [])
    else Plus(JoinedLatest(own, count - 1), Latest(own, Since(own), count - 1).value.table)
  }

  lemma {:induction false} JoinedIsLatest<A(!new), B(!new)>(a: Assembly<A, B>, own: seq<Section<Version, Body<A, B>>>,
                                                            count: nat)
    requires Mirrors(a, own) && count <= a.last + 1 && forall n: nat :: n < count ==> Arrived(own, Since(own), n)
    ensures Joined(a.sections, count) == JoinedLatest(own, count)
    decreases count
  {
    hide Latest;
    hide Since;
    hide Arrived;
    if count > 0 { JoinedIsLatest(a, own, count - 1); }
  }

  /** The section says again what the table already holds under its number. */
  predicate Repeats<A(==), B(==)>(own: seq<Section<Version, Body<A, B>>>, s: Section<Version, Body<A, B>>) {
    && own != [] && SameTable(own[|own| - 1], s)
    && Latest(own, Since(own), s.number).Some? && Latest(own, Since(own), s.number).value.table == s.table
  }

  predicate AllArrived<A, B>(own: seq<Section<Version, Body<A, B>>>, last: nat) {
    forall n: nat :: n <= last ==> Arrived(own, Since(own), n)
  }

  /** What the last step makes of the assembly the section was added to. */
  lemma AcceptOut<A, B>(all: Assemblies<A, B>, a: Arrival<A, B>)
    ensures (var base := Base(OnlyVersion(all, KeyOf(a)), KeyOf(a), a.section.last); var n := a.section.number;
             var next := Assembly(base.last, base.sections[n := Held(a.section.table, a.offset)], false);
             Accept(all, a).1 ==
               if (n in base.sections && base.sections[n].body == a.section.table) || !AllThere(next) then None
               else Some(Snapshot(KeyOf(a), next.last, next.sections[0].offset, Joined(next.sections, next.last + 1))))
  {
    hide OnlyVersion;
    hide Joined;
  }

  // ----- where a section was first seen

  /** From arrival i on the table has had only this version and length, and this body in the section with number n,
      which arrival i is. */
  predicate SteadyFrom<A(==), B(==)>(stream: seq<Arrival<A, B>>, key: TableKey, last: nat, n: nat, body: Body<A, B>,
                                     i: nat) {
    && i < |stream| && stream[i].id == key.id && stream[i].section.number == n
    && forall j :: i <= j < |stream| && stream[j].id == key.id ==>
         && stream[j].section.version == key.version && stream[j].section.last == last
         && (stream[j].section.number == n ==> stream[j].section.table == body)
  }

  /** The arrival that brought the body, of which later ones are mere repetitions. */
  predicate BroughtBy<A(==), B(==)>(stream: seq<Arrival<A, B>>, key: TableKey, last: nat, n: nat, body: Body<A, B>,
                                    i: nat) {
    SteadyFrom(stream, key, last, n, body, i) && forall h :: 0 <= h < i ==> !SteadyFrom(stream, key, last, n, body, h)
  }

  lemma SteadyBefore<A, B>(stream: seq<Arrival<A, B>>, a: Arrival<A, B>, key: TableKey, last: nat, n: nat,
                           body: Body<A, B>, i: nat)
    requires i < |stream|
    ensures SteadyFrom(stream + [a], key, last, n, body, i) <==>
            && SteadyFrom(stream, key, last, n, body, i)
            && (a.id == key.id ==> && a.section.version == key.version && a.section.last == last
                                   && (a.section.number == n ==> a.section.table == body))
  {
    var all := stream + [a];
    assert all[|stream|] == a && forall j :: 0 <= j < |stream| ==> all[j] == stream[j];
  }

  predicate HoldsBody<A(==), B(==)>(all: Assemblies<A, B>, key: TableKey, last: nat, n: nat, body: Body<A, B>) {
    key in all && all[key].last == last && n in all[key].sections && all[key].sections[n].body == body
  }

  lemma AcceptKeepsBody<A, B>(all: Assemblies<A, B>, a: Arrival<A, B>, key: TableKey, last: nat, n: nat,
                              body: Body<A, B>)
    requires HoldsBody(all, key, last, n, body)
    requires a.id == key.id ==> && a.section.version == key.version && a.section.last == last
                                && (a.section.number == n ==> a.section.table == body)
    ensures HoldsBody(Accept(all, a).0, key, last, n, body)
    ensures Accept(all, a).0[key].sections[n] == all[key].sections[n]
  {
    hide Joined;
    hide AllThere;
  }

  lemma AcceptPutsBody<A, B>(all: Assemblies<A, B>, a: Arrival<A, B>)
    ensures HoldsBody(Accept(all, a).0, KeyOf(a), a.section.last, a.section.number, a.section.table)
    ensures !HoldsBody(all, KeyOf(a), a.section.last, a.section.number, a.section.table) ==>
              Accept(all, a).0[KeyOf(a)].sections[a.section.number].offset == a.offset
  {
    hide Joined;
    hide AllThere;
  }

  /** What an arrival leaves was there before, unless it is the section that came. */
  lemma AcceptHeld<A, B>(all: Assemblies<A, B>, a: Arrival<A, B>, key: TableKey, n: nat)
    requires key in Accept(all, a).0 && n in Accept(all, a).0[key].sections
    ensures key.id == a.id ==> key == KeyOf(a) && Accept(all, a).0[key].last == a.section.last
    ensures key.id != a.id || n != a.section.number ==>
              && key in all && n in all[key].sections && all[key].last == Accept(all, a).0[key].last
              && all[key].sections[n] == Accept(all, a).0[key].sections[n]
  {
    hide Joined;
    hide AllThere;
  }

  lemma {:induction false} SteadyIsHeld<A, B>(stream: seq<Arrival<A, B>>, key: TableKey, last: nat, n: nat,
                                              body: Body<A, B>, i: nat)
    requires SteadyFrom(stream, key, last, n, body, i)
    ensures HoldsBody(After(stream), key, last, n, body)
    decreases |stream|
  {
    hide Accept;
    hide HoldsBody;
    var before, a := stream[..|stream| - 1], stream[|stream| - 1];
    assert stream == before + [a];
    if i < |before| {
      SteadyBefore(before, a, key, last, n, body, i);
      SteadyIsHeld(before, key, last, n, body, i);
      AcceptKeepsBody(After(before), a, key, last, n, body);
    } else {
      AcceptPutsBody(After(before), a);
    }
    hide SteadyFrom;
  }

  /** Every section held carries the offset of the arrival that brought it. */
  lemma {:induction false} HeldWasBrought<A, B>(stream: seq<Arrival<A, B>>, key: TableKey, n: nat) returns (i: nat)
    requires key in After(stream) && n in After(stream)[key].sections
    ensures (var a := After(stream)[key];
             BroughtBy(stream, key, a.last, n, a.sections[n].body, i) && stream[i].offset == a.sections[n].offset)
    decreases |stream|
  {
    hide Accept;
    hide HoldsBody;
    var before, a := stream[..|stream| - 1], stream[|stream| - 1];
    var all := After(before);
    assert stream == before + [a];
    var last, h := After(stream)[key].last, After(stream)[key].sections[n];
    AcceptHeld(all, a, key, n);
    AcceptPutsBody(all, a);
    BodyHeld(Accept(all, a).0, KeyOf(a), a.section.last, a.section.number, a.section.table);
    if HoldsBody(all, key, last, n, h.body) {
      BodyHeld(all, key, last, n, h.body);
      AcceptKeepsBody(all, a, key, last, n, h.body);
      i := HeldWasBrought(before, key, n);
      StillBrought(before, a, key, last, n, h.body, i);
    } else {
      i := |before|;
      NotHeldBefore(all, key, last, n);
      NewlyBrought(before, a, n);
    }
  }

  lemma BodyHeld<A, B>(all: Assemblies<A, B>, key: TableKey, last: nat, n: nat, body: Body<A, B>)
    requires HoldsBody(all, key, last, n, body)
    ensures key in all && all[key].last == last && n in all[key].sections && all[key].sections[n].body == body
  {
  }

  lemma NotHeldBefore<A, B>(all: Assemblies<A, B>, key: TableKey, last: nat, n: nat)
    ensures key in all && all[key].last == last && n in all[key].sections ==>
              HoldsBody(all, key, last, n, all[key].sections[n].body)
  {
  }

  lemma StillBrought<A, B>(before: seq<Arrival<A, B>>, a: Arrival<A, B>, key: TableKey, last: nat, n: nat,
                           body: Body<A, B>, i: nat)
    requires BroughtBy(before, key, last, n, body, i)
    requires a.id == key.id ==> && a.section.version == key.version && a.section.last == last
                                && (a.section.number == n ==> a.section.table == body)
    ensures BroughtBy(before + [a], key, last, n, body, i) && (before + [a])[i] == before[i]
  {
    SteadyBefore(before, a, key, last, n, body, i);
    forall h | 0 <= h < i
      ensures !SteadyFrom(before + [a], key, last, n, body, h)
    {
      SteadyBefore(before, a, key, last, n, body, h);
    }
    hide SteadyFrom;
  }

  lemma NewlyBrought<A, B>(before: seq<Arrival<A, B>>, a: Arrival<A, B>, n: nat)
    requires n == a.section.number && !HoldsBody(After(before), KeyOf(a), a.section.last, n, a.section.table)
    ensures BroughtBy(before + [a], KeyOf(a), a.section.last, n, a.section.table, |before|)
  {
    hide HoldsBody;
    hide SteadyFrom;
    hide After;
    forall h | 0 <= h < |before|
      ensures !SteadyFrom(before + [a], KeyOf(a), a.section.last, n, a.section.table, h)
    {
      SteadyBefore(before, a, KeyOf(a), a.section.last, n, a.section.table, h);
      if SteadyFrom(before, KeyOf(a), a.section.last, n, a.section.table, h) {
        SteadyIsHeld(before, KeyOf(a), a.section.last, n, a.section.table, h);
      }
    }
    JustBrought(before, a);
  }

  lemma JustBrought<A, B>(before: seq<Arrival<A, B>>, a: Arrival<A, B>)
    ensures SteadyFrom(before + [a], KeyOf(a), a.section.last, a.section.number, a.section.table, |before|)
  {
    assert (before + [a])[|before|] == a;
  }

  lemma OffsetBrought<A, B>(stream: seq<Arrival<A, B>>, a: Arrival<A, B>)
    ensures (var out := Accept(After(stream), a).1; var all := stream + [a];
             out.Some? ==>
               exists i: nat :: i < |all| && BroughtBy(all, KeyOf(a), a.section.last, 0, all[i].section.table, i)
                                && out.value.offset == all[i].offset)
  {
    var all := stream + [a];
    assert all[..|stream|] == stream && all[|stream|] == a;
    if Accept(After(stream), a).1.Some? {
      OffsetOfFirst(After(stream), a);
      var i := HeldWasBrought(all, KeyOf(a), 0);
      BroughtIs(all, KeyOf(a), a.section.last, 0, After(all)[KeyOf(a)].sections[0].body, i);
      hide BroughtBy;
    }
    hide Accept;
  }

  lemma OffsetOfFirst<A, B>(all: Assemblies<A, B>, a: Arrival<A, B>)
    requires Accept(all, a).1.Some?
    ensures (var t, key := Accept(all, a).0, KeyOf(a);
             && key in t && t[key].last == a.section.last && 0 in t[key].sections
             && Accept(all, a).1.value.offset == t[key].sections[0].offset)
  {
    hide Joined;
  }

  lemma BroughtIs<A, B>(stream: seq<Arrival<A, B>>, key: TableKey, last: nat, n: nat, body: Body<A, B>, i: nat)
    requires BroughtBy(stream, key, last, n, body, i)
    ensures i < |stream| && stream[i].section.table == body
  {
  }

  /** A snapshot is emitted exactly when a section that is not a mere repetition completes the sections 0 to last of its
      version; it is then the latest sections of that version joined in section order, and carries the offset of the
      arrival that brought section 0. */
  lemma EmitsExactly<A(!new), B(!new)>(stream: seq<Arrival<A, B>>, a: Arrival<A, B>)
    requires Lawful(stream) && a.section.number <= a.section.last
    ensures (var out := Accept(After(stream), a).1; var own := Of(stream, a.id); var s := a.section;
             && (out.Some? <==> AllArrived(own + [s], s.last) && !Repeats(own, s))
             && (out.Some? ==> out.value.key == KeyOf(a) && out.value.last == s.last
                               && out.value.body.first == Flatten(FirstLists(own + [s], s.last + 1))
                               && out.value.body.second == Flatten(SecondLists(own + [s], s.last + 1))))
    ensures (var out := Accept(After(stream), a).1; var all := stream + [a];
             out.Some? ==>
               exists i: nat :: i < |all| && BroughtBy(all, KeyOf(a), a.section.last, 0, all[i].section.table, i)
                                && out.value.offset == all[i].offset)
  {
    OffsetBrought(stream, a);
    hide *;
    var s, own := a.section, Of(stream, a.id);
    RunHolds(stream, a.id);
    AcceptOut(After(stream), a);
    var base := Base(OnlyVersion(After(stream), KeyOf(a)), KeyOf(a), s.last);
    assert KeyOf(a) == TableKey(a.id, s.version) by { KeyIs(a); }
    BaseMirrors(After(stream), own, a.id, s);
    BaseRepeats(base, own, s);
    var next := Assembly(base.last, base.sections[s.number := Held(s.table, a.offset)], false);
    PutMirrors(base, own, s, Held(s.table, a.offset), false);
    NextEmits(next, own + [s]);
    if AllThere(next) { JoinedInOrder(own + [s], s.last + 1); }
  }

  /** Whatever its table held before: when the sections of a new version have come, each number at least once, and the
      one that comes last has not come before, the snapshot is emitted. */
  lemma NewVersionIsEmitted<A(!new), B(!new)>(stream: seq<Arrival<A, B>>, a: Arrival<A, B>,
                                              before: seq<Section<Version, Body<A, B>>>,
                                              own: seq<Section<Version, Body<A, B>>>)
    requires Lawful(stream) && a.section.number <= a.section.last && Of(stream, a.id) == before + own
    requires forall s :: s in own ==>
               s.version == a.section.version && s.last == a.section.last && s.number != a.section.number
    requires before != [] ==>
               before[|before| - 1].version != a.section.version || before[|before| - 1].last != a.section.last
    requires forall n: nat :: n <= a.section.last ==> Arrived(own + [a.section], 0, n)
    ensures Accept(After(stream), a).1.Some?
  {
    hide Accept;
    hide After;
    hide Lawful;
    var s := a.section;
    var now, all := own + [s], before + (own + [s]);
    EmitsExactly(stream, a);
    assert before + own + [s] == all;
    SinceAtMost(before, now);
    NotYet(before, own, s);
    hide Since;
    forall n: nat | n <= s.last
      ensures Arrived(all, Since(all), n)
    {
      assert Arrived(now, 0, n);
      var i :| 0 <= i < |now| && now[i].number == n;
      assert all[|before| + i].number == n;
    }
  }

  lemma NotYet<A, B>(before: seq<Section<Version, Body<A, B>>>, own: seq<Section<Version, Body<A, B>>>,
                     s: Section<Version, Body<A, B>>)
    requires forall o :: o in own ==> o.version == s.version && o.last == s.last && o.number != s.number
    requires before != [] ==> before[|before| - 1].version != s.version || before[|before| - 1].last != s.last
    ensures !Repeats(before + own, s)
  {
    var all := before + own;
    if own != [] {
      SinceAtMost(before, own);
      assert own[0] in own;
      assert forall i :: |before| <= i < |all| ==> all[i] == own[i - |before|] && all[i] in own;
    } else {
      assert all == before;
    }
  }

  lemma KeyIs<A, B>(a: Arrival<A, B>)
    ensures KeyOf(a) == TableKey(a.id, a.section.version)
  {}

  lemma NextEmits<A(!new), B(!new)>(next: Assembly<A, B>, own: seq<Section<Version, Body<A, B>>>)
    requires Mirrors(next, own)
    ensures AllThere(next) <==> AllArrived(own, next.last)
    ensures AllThere(next) ==> (forall n: nat :: n < next.last + 1 ==> n in next.sections)
    ensures AllThere(next) ==> (forall n: nat :: n < next.last + 1 ==> Arrived(own, Since(own), n))
    ensures AllThere(next) ==> Joined(next.sections, next.last + 1) == JoinedLatest(own, next.last + 1)
  {
    hide Mirrors;
    hide Arrived;
    hide Since;
    hide Latest;
    hide Joined;
    hide JoinedLatest;
    CountSuffices(next, own);
    if AllThere(next) {
      EachArrived(own, next.last);
      JoinedIsLatest(next, own, next.last + 1);
    }
  }

  lemma EachArrived<A, B>(own: seq<Section<Version, Body<A, B>>>, last: nat)
    requires AllArrived(own, last)
    ensures forall n: nat :: n < last + 1 ==> Arrived(own, Since(own), n)
  {
    hide Arrived;
  }

  lemma BaseRepeats<A(!new), B(!new)>(base: Assembly<A, B>, own: seq<Section<Version, Body<A, B>>>,
                                      s: Section<Version, Body<A, B>>)
    requires if own != [] && SameTable(own[|own| - 1], s) then Mirrors(base, own) else base.sections == map[]
    ensures Repeats(own, s) <==> s.number in base.sections && base.sections[s.number].body == s.table
  {
    hide Since;
  }

  // ----- the order of sections

  /** The first lists of the latest sections 0 to count - 1, by section number, and the second ones. */
  function FirstLists<A, B>(own: seq<Section<Version, Body<A, B>>>, count: nat): seq<seq<A>>
    requires forall n: nat :: n < count ==> Arrived(own, Since(own), n)
  {
    seq(count, n requires 0 <= n < count => Latest(own, Since(own), n).value.table.first)
  }

  function SecondLists<A, B>(own: seq<Section<Version, Body<A, B>>>, count: nat): seq<seq<B>>
    requires forall n: nat :: n < count ==> Arrived(own, Since(own), n)
  {
    seq(count, n requires 0 <= n < count => Latest(own, Since(own), n).value.table.second)
  }

  /** Joining puts the lists one after another in the order of section numbers. */
  lemma {:induction false} JoinedInOrder<A, B>(own: seq<Section<Version, Body<A, B>>>, count: nat)
    requires forall n: nat :: n < count ==> Arrived(own, Since(own), n)
    ensures JoinedLatest(own, count).first == Flatten(FirstLists(own, count))
    ensures JoinedLatest(own, count).second == Flatten(SecondLists(own, count))
    decreases count
  {
    hide Latest;
    hide Since;
    hide Arrived;
    if count > 0 {
      var last := Latest(own, Since(own), count - 1).value.table;
      JoinedInOrder(own, count - 1);
      assert FirstLists(own, count) == FirstLists(own, count - 1) + [last.first];
      assert SecondLists(own, count) == SecondLists(own, count - 1) + [last.second];
      FlattenSnoc(FirstLists(own, count - 1), last.first);
      FlattenSnoc(SecondLists(own, count - 1), last.second);
    }
  }

  // ----- arrival order

  lemma {:induction false} OneVersion<A, B>(own: seq<Section<Version, Body<A, B>>>)
    requires own != [] && forall i, j :: 0 <= i < |own| && 0 <= j < |own| ==> SameTable(own[i], own[j])
    ensures Since(own) == 0
    decreases |own|
  {
    if |own| > 1 {
      var before := own[..|own| - 1];
      assert SameTable(own[|own| - 2], own[|own| - 1]);
      forall i, j | 0 <= i < |before| && 0 <= j < |before| ensures SameTable(before[i], before[j]) {
        assert SameTable(own[i], own[j]);
      }
      OneVersion(before);
    }
  }

  predicate NumbersDiffer<A, B>(own: seq<Section<Version, Body<A, B>>>) {
    forall i, j :: 0 <= i < |own| && 0 <= j < |own| && own[i].number == own[j].number ==> i == j
  }

  predicate AllSame<A, B>(own: seq<Section<Version, Body<A, B>>>) {
    forall i, j :: 0 <= i < |own| && 0 <= j < |own| ==> SameTable(own[i], own[j])
  }

  lemma LatestOfPermutation<A, B>(a: seq<Section<Version, Body<A, B>>>, b: seq<Section<Version, Body<A, B>>>, n: nat)
    requires multiset(a) == multiset(b) && NumbersDiffer(b) && Arrived(a, 0, n)
    ensures Arrived(b, 0, n) && Latest(a, 0, n) == Latest(b, 0, n)
  {
    var x := Latest(a, 0, n).value;
    assert x in multiset(a) && x in b;
    var i :| 0 <= i < |b| && b[i] == x;
    assert Arrived(b, 0, n);
    var j :| 0 <= j < |b| && b[j] == Latest(b, 0, n).value;
  }

  /** The same sections in any other order give the same snapshot. */
  lemma {:induction false} ArrivalOrderIrrelevant<A, B>(a: seq<Section<Version, Body<A, B>>>,
                                                        b: seq<Section<Version, Body<A, B>>>, count: nat)
    requires a != [] && multiset(a) == multiset(b) && AllSame(a) && AllSame(b) && NumbersDiffer(b)
    requires forall n: nat :: n < count ==> Arrived(a, Since(a), n)
    ensures forall n: nat :: n < count ==> Arrived(b, Since(b), n)
    ensures JoinedLatest(a, count) == JoinedLatest(b, count)
    ensures FirstLists(a, count) == FirstLists(b, count) && SecondLists(a, count) == SecondLists(b, count)
    decreases count
  {
    hide Latest;
    hide Arrived;
    assert |multiset(a)| == |a| && |multiset(b)| == |b|;
    OneVersion(a);
    OneVersion(b);
    hide Since;
    forall n: nat | n < count ensures Arrived(b, Since(b), n) && Latest(a, 0, n) == Latest(b, 0, n) {
      LatestOfPermutation(a, b, n);
    }
    if count > 0 { ArrivalOrderIrrelevant(a, b, count - 1); }
  }

  // ----- the parser's table

  class TableAssembler<A(==), B(==)> {
    var assemblies: Assemblies<A, B>

    constructor ()
      ensures assemblies == map[]
    {
      assemblies := map[];
    }

    method EraseOtherVersions(key: TableKey)
      modifies this
      ensures assemblies == OnlyVersion(old(assemblies), key)
    {
      var todo := assemblies.Keys;
      ghost var before := assemblies;
      while todo != {}
        invariant todo <= before.Keys
        invariant forall k :: k in assemblies <==> k in before && (k in todo || k.id != key.id || k == key)
        invariant forall k :: k in assemblies ==> assemblies[k] == before[k]
        decreases |todo|
      {
        var k :| k in todo;
        todo := todo - {k};
        if k.id == key.id && k.version != key.version { assemblies := assemblies - {k}; }
      }
    }

    method AcceptSection(a: Arrival<A, B>) returns (out: Option<Snapshot<A, B>>)
      modifies this
      ensures (assemblies, out) == Accept(old(assemblies), a)
    {
      hide Joined;
      hide OnlyVersion;
      var key := TableKey(a.id, a.section.version);
      EraseOtherVersions(key);
      var assembly := if key in assemblies then assemblies[key] else EmptyAssembly();
      if assembly.sections != map[] && assembly.last != a.section.last { assembly := EmptyAssembly(); }
      assembly := assembly.(last := a.section.last);
      var number := a.section.number;
      if number in assembly.sections && assembly.sections[number].body == a.section.table {
        assemblies := assemblies[key := assembly];
        return None;
      }
      assembly := assembly.(sections := assembly.sections[number := Held(a.section.table, a.offset)], emitted := false);
      if |assembly.sections| != assembly.last + 1 || exists n: nat :: n <= assembly.last && n !in assembly.sections {
        assemblies := assemblies[key := assembly];
        return None;
      }
      var body := JoinSections(assembly.sections, assembly.last);
      out := Some(Snapshot(key, assembly.last, assembly.sections[0].offset, body));
      assemblies := assemblies[key := assembly.(emitted := true)];
    }

    method JoinSections(sections: map<nat, Held<A, B>>, last: nat) returns (body: Body<A, B>)
      requires forall n: nat :: n <= last ==> n in sections
      ensures body == Joined(sections, last + 1)
    {
      body := Body([], []);
      for n := 0 to last + 1
        invariant body == Joined(sections, n)
      {
        body := Body(body.first + sections[n].body.first, body.second + sections[n].body.second);
      }
    }
  }
}
