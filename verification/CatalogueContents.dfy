/** What a built catalogue holds, in terms of the tables it was built from and of their bytes. */
module CatalogueContents {
  import opened Bytes
  import opened ResourcePaths
  import opened ResourceCatalogue

  predicate NodeAt(ds: seq<Directory>, i: nat, j: nat) { i < |ds| && j < |ds[i].nodes| }

  function NodeEntry(context: nat, ds: seq<Directory>, i: nat, j: nat): Entry<NodeKey, Option<Path>>
    requires NodeAt(ds, i, j)
  {
    Entry(NodeKey(context, ds[i].nodes[j].tag), JoinPath(ds[i].basePath, ds[i].nodes[j].path, []))
  }

  lemma {:induction false} EveryNode(context: nat, ds: seq<Directory>, e: Entry<NodeKey, Option<Path>>)
    ensures e in AllNodes(context, ds)
       <==> exists i: nat, j: nat :: NodeAt(ds, i, j) && e == NodeEntry(context, ds, i, j)
    decreases |ds|
  {
    hide JoinPath;
    if ds != [] {
      var before, n := ds[..|ds| - 1], |ds| - 1;
      EveryNode(context, before, e);
      forall i: nat, j: nat | NodeAt(ds, i, j)
        ensures i < n ==> NodeAt(before, i, j) && NodeEntry(context, before, i, j) == NodeEntry(context, ds, i, j)
        ensures i == n ==> NodesOf(context, ds[n])[j] == NodeEntry(context, ds, i, j)
      {
      }
      if e in NodesOf(context, ds[n]) {
        var j :| 0 <= j < |ds[n].nodes| && NodesOf(context, ds[n])[j] == e;
        assert NodeAt(ds, n, j) && e == NodeEntry(context, ds, n, j);
      }
      if e in AllNodes(context, before) {
        var i: nat, j: nat :| NodeAt(before, i, j) && e == NodeEntry(context, before, i, j);
        assert NodeAt(ds, i, j) && e == NodeEntry(context, ds, i, j);
      }
    }
  }

  predicate MpuAt(ms: seq<Management>, i: nat, j: nat) { i < |ms| && j < |ms[i].mpus| }

  function MpuEntry(context: nat, ms: seq<Management>, i: nat, j: nat): Entry<MpuKey, MpuMap>
    requires MpuAt(ms, i, j)
  {
    var table, mpu := ms[i], ms[i].mpus[j];
    Entry(MpuKey(context, table.component, mpu.sequence),
          MpuMap(table.transaction, table.download, if mpu.indexItem.Some? then mpu.indexItem.value else 0, mpu.items,
                 MpuNode(mpu.info, None)))
  }

  lemma {:induction false} EveryMpu(context: nat, ms: seq<Management>, e: Entry<MpuKey, MpuMap>)
    ensures e in AllMpus(context, ms) <==> exists i: nat, j: nat :: MpuAt(ms, i, j) && e == MpuEntry(context, ms, i, j)
    decreases |ms|
  {
    hide MpuNode;
    if ms != [] {
      var before, n := ms[..|ms| - 1], |ms| - 1;
      EveryMpu(context, before, e);
      forall i: nat, j: nat | MpuAt(ms, i, j)
        ensures i < n ==> MpuAt(before, i, j) && MpuEntry(context, before, i, j) == MpuEntry(context, ms, i, j)
        ensures i == n ==> MpusOf(context, ms[n])[j] == MpuEntry(context, ms, i, j)
      {
      }
      if e in MpusOf(context, ms[n]) {
        var j :| 0 <= j < |ms[n].mpus| && MpusOf(context, ms[n])[j] == e;
        assert MpuAt(ms, n, j) && e == MpuEntry(context, ms, n, j);
      }
      if e in AllMpus(context, before) {
        var i: nat, j: nat :| MpuAt(before, i, j) && e == MpuEntry(context, before, i, j);
        assert MpuAt(ms, i, j) && e == MpuEntry(context, ms, i, j);
      }
    }
  }

  /** A built catalogue has each node of each directory under its tag, with the path joined to that of its directory;
      each MPU of each management table under the component of the table and its own sequence, with what the table
      and the MPU say; and nothing else. */
  lemma BuiltExactly(context: nat, ds: seq<Directory>, ms: seq<Management>)
    requires Build(context, ds, ms).Some?
    ensures (var cat := Build(context, ds, ms).value;
             && (forall i: nat, j: nat :: NodeAt(ds, i, j) ==>
                   (var e := NodeEntry(context, ds, i, j); e.key in cat.nodes && Some(cat.nodes[e.key]) == e.value))
             && (forall k :: k in cat.nodes ==>
                   exists i: nat, j: nat :: NodeAt(ds, i, j) && k == NodeKey(context, ds[i].nodes[j].tag))
             && (forall i: nat, j: nat :: MpuAt(ms, i, j) ==>
                   (var e := MpuEntry(context, ms, i, j); e.key in cat.mpus && cat.mpus[e.key] == e.value))
             && (forall k :: k in cat.mpus ==>
                   exists i: nat, j: nat :: MpuAt(ms, i, j)
                                            && k == MpuKey(context, ms[i].component, ms[i].mpus[j].sequence)))
  {
    BuiltNodes(context, ds, ms);
    BuiltMpus(context, ds, ms);
    hide Build;
    hide JoinPath;
    hide MpuNode;
  }

  lemma BuiltNodes(context: nat, ds: seq<Directory>, ms: seq<Management>)
    requires Build(context, ds, ms).Some?
    ensures (var nodes := Build(context, ds, ms).value.nodes;
             && (forall i: nat, j: nat :: NodeAt(ds, i, j) ==>
                   (var e := NodeEntry(context, ds, i, j); e.key in nodes && Some(nodes[e.key]) == e.value))
             && (forall k :: k in nodes ==>
                   exists i: nat, j: nat :: NodeAt(ds, i, j) && k == NodeKey(context, ds[i].nodes[j].tag)))
  {
    hide JoinPath;
    hide NodeMap;
    hide AllNodes;
    hide GoodBases;
    hide GoodMpus;
    hide MapOfMpus;
    var es := AllNodes(context, ds);
    var nodes := Build(context, ds, ms).value.nodes;
    NodeMapHolds(es);
    forall i: nat, j: nat | NodeAt(ds, i, j)
      ensures (var e := NodeEntry(context, ds, i, j); e.key in nodes && Some(nodes[e.key]) == e.value)
    {
      EveryNode(context, ds, NodeEntry(context, ds, i, j));
      var m :| 0 <= m < |es| && es[m] == NodeEntry(context, ds, i, j);
    }
    forall k | k in nodes
      ensures exists i: nat, j: nat :: NodeAt(ds, i, j) && k == NodeKey(context, ds[i].nodes[j].tag)
    {
      var e :| e in es && e.key == k;
      EveryNode(context, ds, e);
    }
  }

  lemma BuiltMpus(context: nat, ds: seq<Directory>, ms: seq<Management>)
    requires Build(context, ds, ms).Some?
    ensures (var mpus := Build(context, ds, ms).value.mpus;
             && (forall i: nat, j: nat :: MpuAt(ms, i, j) ==>
                   (var e := MpuEntry(context, ms, i, j); e.key in mpus && mpus[e.key] == e.value))
             && (forall k :: k in mpus ==>
                   exists i: nat, j: nat :: MpuAt(ms, i, j)
                                            && k == MpuKey(context, ms[i].component, ms[i].mpus[j].sequence)))
  {
    hide MpuNode;
    hide MapOfMpus;
    hide AllMpus;
    hide Grounded;
    hide GoodBases;
    hide GoodNodes;
    hide NodeMap;
    var es := AllMpus(context, ms);
    var mpus := Build(context, ds, ms).value.mpus;
    MpuMapHolds(es);
    forall i: nat, j: nat | MpuAt(ms, i, j)
      ensures (var e := MpuEntry(context, ms, i, j); e.key in mpus && mpus[e.key] == e.value)
    {
      EveryMpu(context, ms, MpuEntry(context, ms, i, j));
      var m :| 0 <= m < |es| && es[m] == MpuEntry(context, ms, i, j);
    }
    forall k | k in mpus
      ensures exists i: nat, j: nat :: MpuAt(ms, i, j) && k == MpuKey(context, ms[i].component, ms[i].mpus[j].sequence)
    {
      var m :| 0 <= m < |es| && es[m].key == k;
      EveryMpu(context, ms, es[m]);
    }
  }

  // ----- when the tables are consistent

  predicate PartAt<K, V>(parts: seq<seq<Entry<K, V>>>, i: nat, j: nat) { i < |parts| && j < |parts[i]| }

  /** No key at two places. */
  ghost predicate OnePlaceEach<K, V>(parts: seq<seq<Entry<K, V>>>) {
    forall i: nat, j: nat, k: nat, l: nat ::
      PartAt(parts, i, j) && PartAt(parts, k, l) && parts[i][j].key == parts[k][l].key ==> i == k && j == l
  }

  lemma {:induction false} InFlat<K, V>(parts: seq<seq<Entry<K, V>>>, e: Entry<K, V>)
    ensures e in Flatten(parts) <==> exists i: nat, j: nat :: PartAt(parts, i, j) && parts[i][j] == e
    decreases |parts|
  {
    if parts != [] {
      var rest := parts[1..];
      InFlat(rest, e);
      forall i: nat, j: nat | PartAt(parts, i, j) && i > 0
        ensures PartAt(rest, i - 1, j) && rest[i - 1][j] == parts[i][j]
      {
      }
      forall i: nat, j: nat | PartAt(rest, i, j)
        ensures PartAt(parts, i + 1, j) && parts[i + 1][j] == rest[i][j]
      {
      }
      if e in parts[0] {
        var j :| 0 <= j < |parts[0]| && parts[0][j] == e;
        assert PartAt(parts, 0, j);
      }
    }
  }

  lemma DistinctBoth<K, V>(a: seq<Entry<K, V>>, b: seq<Entry<K, V>>)
    ensures DistinctKeys(a + b) <==>
            DistinctKeys(a) && DistinctKeys(b) && forall x, y :: x in a && y in b ==> x.key != y.key
  {
    var all := a + b;
    assert forall i :: 0 <= i < |a| ==> all[i] == a[i];
    assert forall i :: 0 <= i < |b| ==> all[|a| + i] == b[i];
    if DistinctKeys(all) {
      forall i, j | 0 <= i < j < |b| ensures b[i].key != b[j].key { assert all[|a| + i].key != all[|a| + j].key; }
      forall x, y | x in a && y in b
        ensures x.key != y.key
      {
        var i :| 0 <= i < |a| && a[i] == x;
        var j :| 0 <= j < |b| && b[j] == y;
        assert all[i].key != all[|a| + j].key;
      }
    } else {
      var i, j :| 0 <= i < j < |all| && all[i].key == all[j].key;
      if i < |a| <= j { assert a[i] in a && b[j - |a|] in b; }
    }
  }

  lemma {:induction false} DistinctFlat<K, V>(parts: seq<seq<Entry<K, V>>>)
    ensures DistinctKeys(Flatten(parts)) <==> OnePlaceEach(parts)
    decreases |parts|
  {
    if parts != [] {
      var first, rest := parts[0], parts[1..];
      DistinctFlat(rest);
      DistinctBoth(first, Flatten(rest));
      hide DistinctKeys;
      if OnePlaceEach(parts) {
        OnePlaceOfRest(parts);
      } else {
        TwoPlaces(parts);
      }
    }
  }

  lemma OnePlaceOfRest<K, V>(parts: seq<seq<Entry<K, V>>>)
    requires parts != [] && OnePlaceEach(parts)
    ensures DistinctKeys(parts[0]) && OnePlaceEach(parts[1..])
    ensures forall x, y :: x in parts[0] && y in Flatten(parts[1..]) ==> x.key != y.key
  {
    var first, rest := parts[0], parts[1..];
    forall i, j | 0 <= i < j < |first|
      ensures first[i].key != first[j].key
    {
      assert PartAt(parts, 0, i) && PartAt(parts, 0, j);
    }
    forall i: nat, j: nat | PartAt(rest, i, j)
      ensures PartAt(parts, i + 1, j) && parts[i + 1][j] == rest[i][j]
    {
    }
    forall x, y | x in first && y in Flatten(rest)
      ensures x.key != y.key
    {
      InFlat(rest, y);
      var j :| 0 <= j < |first| && first[j] == x;
      var k: nat, l: nat :| PartAt(rest, k, l) && rest[k][l] == y;
      assert PartAt(parts, 0, j) && PartAt(parts, k + 1, l);
    }
  }

  lemma TwoPlaces<K, V>(parts: seq<seq<Entry<K, V>>>)
    requires parts != [] && !OnePlaceEach(parts)
    ensures !DistinctKeys(parts[0]) || !OnePlaceEach(parts[1..])
            || exists x, y :: x in parts[0] && y in Flatten(parts[1..]) && x.key == y.key
  {
    var first, rest := parts[0], parts[1..];
    var i: nat, j: nat, k: nat, l: nat :|
      PartAt(parts, i, j) && PartAt(parts, k, l) && parts[i][j].key == parts[k][l].key && !(i == k && j == l);
    if i == 0 && k == 0 {
      assert first[j].key == first[l].key;
    } else if i > 0 && k > 0 {
      assert PartAt(rest, i - 1, j) && PartAt(rest, k - 1, l);
    } else if i == 0 {
      InFlat(rest, parts[k][l]);
      assert PartAt(rest, k - 1, l) && rest[k - 1][l] == parts[k][l];
      assert parts[i][j] in first && parts[k][l] in Flatten(rest);
    } else {
      InFlat(rest, parts[i][j]);
      assert PartAt(rest, i - 1, j) && rest[i - 1][j] == parts[i][j];
      assert parts[k][l] in first && parts[i][j] in Flatten(rest);
    }
  }

  lemma {:induction false} NodesFlat(context: nat, ds: seq<Directory>)
    ensures AllNodes(context, ds) == Flatten(seq(|ds|, i requires 0 <= i < |ds| => NodesOf(context, ds[i])))
    decreases |ds|
  {
    hide JoinPath;
    if ds != [] {
      var n := |ds| - 1;
      NodesFlat(context, ds[..n]);
      var parts := seq(n, i requires 0 <= i < n => NodesOf(context, ds[..n][i]));
      assert seq(|ds|, i requires 0 <= i < |ds| => NodesOf(context, ds[i])) == parts + [NodesOf(context, ds[n])];
      FlattenSnoc(parts, NodesOf(context, ds[n]));
    }
  }

  lemma {:induction false} MpusFlat(context: nat, ms: seq<Management>)
    ensures AllMpus(context, ms) == Flatten(seq(|ms|, i requires 0 <= i < |ms| => MpusOf(context, ms[i])))
    decreases |ms|
  {
    hide MpuNode;
    if ms != [] {
      var n := |ms| - 1;
      MpusFlat(context, ms[..n]);
      var parts := seq(n, i requires 0 <= i < n => MpusOf(context, ms[..n][i]));
      assert seq(|ms|, i requires 0 <= i < |ms| => MpusOf(context, ms[i])) == parts + [MpusOf(context, ms[n])];
      FlattenSnoc(parts, MpusOf(context, ms[n]));
    }
  }

  /** No tag is used by two nodes, in whichever directories they are; and each has a path that does not escape. */
  ghost predicate NodesApart(ds: seq<Directory>) {
    && (forall i: nat, j: nat :: NodeAt(ds, i, j) ==> JoinPath(ds[i].basePath, ds[i].nodes[j].path, []).Some?)
    && (forall i: nat, j: nat, k: nat, l: nat ::
          NodeAt(ds, i, j) && NodeAt(ds, k, l) && ds[i].nodes[j].tag == ds[k].nodes[l].tag ==> i == k && j == l)
  }

  /** No two MPUs of a component have one sequence number. */
  ghost predicate MpusApart(ms: seq<Management>) {
    forall i: nat, j: nat, k: nat, l: nat | MpuAt(ms, i, j) && MpuAt(ms, k, l) ::
      (ms[i].component == ms[k].component && ms[i].mpus[j].sequence == ms[k].mpus[l].sequence ==> i == k && j == l)
  }

  ghost predicate HasNode(ds: seq<Directory>, tag: nat) {
    exists i: nat, j: nat :: NodeAt(ds, i, j) && ds[i].nodes[j].tag == tag
  }

  /** Each MPU finds the nodes of its files, or that of the whole MPU when its files have none. */
  ghost predicate NodesThere(ds: seq<Directory>, ms: seq<Management>) {
    forall i: nat, j: nat :: MpuAt(ms, i, j) ==>
      (var mpu := ms[i].mpus[j]; var node := MpuNode(mpu.info, None);
       if mpu.items == [] then node.Some? ==> HasNode(ds, node.value)
       else forall tag :: tag in mpu.items ==> HasNode(ds, tag))
  }

  lemma NodesApartExactly(context: nat, ds: seq<Directory>)
    ensures GoodNodes(AllNodes(context, ds)) <==> NodesApart(ds)
    ensures forall tag :: NodeKey(context, tag) in NodeKeys(AllNodes(context, ds)) <==> HasNode(ds, tag)
  {
    hide JoinPath;
    hide AllNodes;
    var es := AllNodes(context, ds);
    var parts := seq(|ds|, i requires 0 <= i < |ds| => NodesOf(context, ds[i]));
    NodesFlat(context, ds);
    DistinctFlat(parts);
    forall i: nat, j: nat
      ensures NodeAt(ds, i, j) <==> PartAt(parts, i, j)
      ensures NodeAt(ds, i, j) ==> parts[i][j] == NodeEntry(context, ds, i, j)
    {
    }
    forall i: nat, j: nat | NodeAt(ds, i, j)
      ensures NodeEntry(context, ds, i, j) in es
    {
      EveryNode(context, ds, NodeEntry(context, ds, i, j));
    }
    forall e | e in es
      ensures exists i: nat, j: nat :: NodeAt(ds, i, j) && e == NodeEntry(context, ds, i, j)
    {
      EveryNode(context, ds, e);
    }
    hide DistinctKeys;
    hide PartAt;
    hide NodesOf;
    assert OnePlaceEach(parts) <==> forall i: nat, j: nat, k: nat, l: nat ::
      NodeAt(ds, i, j) && NodeAt(ds, k, l) && ds[i].nodes[j].tag == ds[k].nodes[l].tag ==> i == k && j == l;
  }

  lemma MpusApartExactly(context: nat, ms: seq<Management>)
    ensures DistinctKeys(AllMpus(context, ms)) <==> MpusApart(ms)
  {
    hide MpuNode;
    hide AllMpus;
    var parts := seq(|ms|, i requires 0 <= i < |ms| => MpusOf(context, ms[i]));
    MpusFlat(context, ms);
    DistinctFlat(parts);
    forall i: nat, j: nat
      ensures MpuAt(ms, i, j) <==> PartAt(parts, i, j)
      ensures MpuAt(ms, i, j) ==> MpusOf(context, ms[i])[j].key
                                  == MpuKey(context, ms[i].component, ms[i].mpus[j].sequence)
    {
    }
    hide DistinctKeys;
    hide PartAt;
    hide MpusOf;
  }

  lemma GroundedExactly(context: nat, ds: seq<Directory>, ms: seq<Management>)
    ensures (forall e :: e in AllMpus(context, ms) ==>
               Grounded(e.key.context, e.value, NodeKeys(AllNodes(context, ds)))) <==> NodesThere(ds, ms)
  {
    hide MpuNode;
    hide JoinPath;
    hide AllMpus;
    hide AllNodes;
    hide NodeKeys;
    NodesApartExactly(context, ds);
    forall i: nat, j: nat | MpuAt(ms, i, j)
      ensures MpuEntry(context, ms, i, j) in AllMpus(context, ms)
    {
      EveryMpu(context, ms, MpuEntry(context, ms, i, j));
    }
    forall e | e in AllMpus(context, ms)
      ensures exists i: nat, j: nat :: MpuAt(ms, i, j) && e == MpuEntry(context, ms, i, j)
    {
      EveryMpu(context, ms, e);
    }
    hide GoodNodes;
    hide NodesApart;
    hide HasNode;
    forall i: nat, j: nat | MpuAt(ms, i, j)
      ensures (var e := MpuEntry(context, ms, i, j); var mpu := ms[i].mpus[j]; var node := MpuNode(mpu.info, None);
               Grounded(e.key.context, e.value, NodeKeys(AllNodes(context, ds))) <==>
               if mpu.items == [] then node.Some? ==> HasNode(ds, node.value)
               else forall tag :: tag in mpu.items ==> HasNode(ds, tag))
    {
      OneGrounded(context, ds, ms, i, j);
    }
  }

  lemma OneGrounded(context: nat, ds: seq<Directory>, ms: seq<Management>, i: nat, j: nat)
    requires MpuAt(ms, i, j)
    ensures (var e := MpuEntry(context, ms, i, j); var mpu := ms[i].mpus[j]; var node := MpuNode(mpu.info, None);
             Grounded(e.key.context, e.value, NodeKeys(AllNodes(context, ds))) <==>
             if mpu.items == [] then node.Some? ==> HasNode(ds, node.value)
             else forall tag :: tag in mpu.items ==> HasNode(ds, tag))
  {
    NodesApartExactly(context, ds);
    hide AllNodes;
    hide NodeKeys;
    hide GoodNodes;
    hide NodesApart;
    hide HasNode;
    hide MpuNode;
    var e := MpuEntry(context, ms, i, j);
    assert References(e.value) == [] || e.value.nodeTags != [] || References(e.value) == [e.value.mpuNode.value];
    assert forall tag :: tag in References(e.value) ==>
                           (NodeKey(context, tag) in NodeKeys(AllNodes(context, ds)) <==> HasNode(ds, tag));
  }

  /** The tables are consistent exactly when the directories have distinct bases, the nodes distinct tags, none of
      them with a path that escapes, when no component has two tables and no MPU comes twice, and when every MPU finds
      its nodes. */
  lemma ConsistentExactly(context: nat, ds: seq<Directory>, ms: seq<Management>)
    ensures Consistent(context, ds, ms) <==>
      && (forall i :: 0 <= i < |ds| ==> SafePath(ds[i].basePath).Some?)
      && (forall i, j :: 0 <= i < j < |ds| ==> SafePath(ds[i].basePath) != SafePath(ds[j].basePath))
      && (forall i, j :: 0 <= i < j < |ms| ==> ms[i].component != ms[j].component)
      && NodesApart(ds) && MpusApart(ms) && NodesThere(ds, ms)
  {
    hide SafePath;
    hide NodesApart;
    hide MpusApart;
    hide NodesThere;
    hide AllNodes;
    hide AllMpus;
    hide GoodNodes;
    hide DistinctKeys;
    hide Grounded;
    NodesApartExactly(context, ds);
    MpusApartExactly(context, ms);
    GroundedExactly(context, ds, ms);
    BasesApart(ds);
    ComponentsApart(ms);
    hide Distinct;
  }

  lemma BasesApart(ds: seq<Directory>)
    ensures GoodBases(Bases(ds)) <==>
      && (forall i :: 0 <= i < |ds| ==> SafePath(ds[i].basePath).Some?)
      && (forall i, j :: 0 <= i < j < |ds| ==> SafePath(ds[i].basePath) != SafePath(ds[j].basePath))
  {
    hide SafePath;
    var bases := Bases(ds);
    assert forall i :: 0 <= i < |ds| ==> bases[i] == SafePath(ds[i].basePath) && bases[i] in bases;
    if None in bases {
      var i :| 0 <= i < |bases| && bases[i] == None;
      assert SafePath(ds[i].basePath).None?;
    }
  }

  lemma ComponentsApart(ms: seq<Management>)
    ensures Distinct(Components(ms)) <==> forall i, j :: 0 <= i < j < |ms| ==> ms[i].component != ms[j].component
  {
    var all := Components(ms);
    assert forall i :: 0 <= i < |ms| ==> all[i] == ms[i].component;
  }

  // ----- the descriptors of an MPU

  /** A descriptor on the wire: two tag bytes, its length, its payload. */
  datatype Descriptor = Descriptor(high: byte, low: byte, payload: seq<byte>)

  predicate AllShort(ds: seq<Descriptor>) { forall d :: d in ds ==> |d.payload| < 256 }

  function Info(ds: seq<Descriptor>): seq<byte>
    requires AllShort(ds)
  {
    if ds == [] then []
    else
      assert ds[0] in ds && forall d :: d in ds[1..] ==> d in ds;
      [ds[0].high, ds[0].low, |ds[0].payload|] + ds[0].payload + Info(ds[1..])
  }

  function Pair(high: byte, low: byte): nat { high * 256 + low }

  /** What the last descriptor with two bytes of payload spells. */
  function LastPair(ds: seq<Descriptor>): Option<nat> {
    if ds == [] then None
    else
      var last := ds[|ds| - 1].payload;
      if |last| == 2 then Some(Pair(last[0], last[1])) else LastPair(ds[..|ds| - 1])
  }

  lemma {:induction false} LastPairCons(ds: seq<Descriptor>)
    requires ds != []
    ensures LastPair(ds) == if LastPair(ds[1..]).Some? then LastPair(ds[1..]) else LastPair([ds[0]])
    decreases |ds|
  {
    assert [ds[0]][..0] == [];
    if |ds| > 1 {
      LastPairCons(ds[..|ds| - 1]);
      assert ds[1..][..|ds| - 2] == ds[..|ds| - 1][1..];
    } else {
      assert ds == [ds[0]];
    }
  }

  /** Whatever descriptors an MPU has, and whatever cut-off bytes follow them, its node is what the last one with two
      bytes of payload says. */
  lemma {:induction false} NodeIsLastPair(ds: seq<Descriptor>, tail: seq<byte>, found: Option<nat>)
    requires AllShort(ds) && (|tail| < 3 || |tail| - 3 < tail[2])
    ensures MpuNode(Info(ds) + tail, found) == if LastPair(ds).Some? then LastPair(ds) else found
    decreases |ds|
  {
    hide MpuNode;
    hide LastPair;
    if ds == [] {
      assert Info(ds) + tail == tail;
      NoDescriptor(tail, found);
      NoPair();
    } else {
      assert ds[0] in ds && forall d :: d in ds[1..] ==> d in ds;
      var d, rest := ds[0], Info(ds[1..]) + tail;
      assert Info(ds) + tail == [d.high, d.low, |d.payload|] + d.payload + rest;
      OneDescriptor(d, rest, found);
      LastPairCons(ds);
      OnePair(d);
      NodeIsLastPair(ds[1..], tail, if |d.payload| == 2 then Some(Pair(d.payload[0], d.payload[1])) else found);
    }
  }

  lemma NoPair()
    ensures LastPair([]) == None
  {}

  lemma OnePair(d: Descriptor)
    ensures LastPair([d]) == if |d.payload| == 2 then Some(Pair(d.payload[0], d.payload[1])) else None
  {
    assert [d][..0] == [];
  }

  lemma NoDescriptor(tail: seq<byte>, found: Option<nat>)
    requires |tail| < 3 || |tail| - 3 < tail[2]
    ensures MpuNode(tail, found) == found
  {
  }

  lemma OneDescriptor(d: Descriptor, rest: seq<byte>, found: Option<nat>)
    requires |d.payload| < 256
    ensures MpuNode([d.high, d.low, |d.payload|] + d.payload + rest, found)
         == MpuNode(rest, if |d.payload| == 2 then Some(Pair(d.payload[0], d.payload[1])) else found)
  {
    var info := [d.high, d.low, |d.payload|] + d.payload + rest;
    assert info[3 + info[2]..] == rest;
    assert |d.payload| == 2 ==> info[3] == d.payload[0] && info[4] == d.payload[1];
  }
}
