/** Building one consistent catalogue from complete directory and management tables. */
module ResourceCatalogue {
  import opened Bytes
  import opened ResourcePaths

  datatype MpuKey = MpuKey(context: nat, component: nat, sequence: nat)

  datatype NodeKey = NodeKey(context: nat, tag: nat)

  datatype MpuMap = MpuMap(transaction: nat, download: nat, indexItem: nat, nodeTags: seq<nat>, mpuNode: Option<nat>)

  datatype Node = Node(tag: nat, path: Path)

  datatype Directory = Directory(basePath: Path, nodes: seq<Node>)

  datatype Mpu = Mpu(sequence: nat, indexItem: Option<nat>, items: seq<nat>, info: seq<byte>)

  datatype Management = Management(transaction: nat, component: nat, download: nat, mpus: seq<Mpu>)

  datatype Catalogue = Catalogue(nodes: map<NodeKey, Path>, mpus: map<MpuKey, MpuMap>)

  // ----- the mapping of one MPU

  /** The two-byte descriptor that comes last names the node of the whole MPU. */
  function MpuNode(info: seq<byte>, found: Option<nat>): Option<nat>
    decreases |info|
  {
    if |info| < 3 || |info| - 3 < info[2] then found
    else MpuNode(info[3 + info[2]..], if info[2] == 2 then Some(Be16(info[3], info[4])) else found)
  }

  function MapOf(table: Management, mpu: Mpu): MpuMap {
    MpuMap(table.transaction, table.download, if mpu.indexItem.Some? then mpu.indexItem.value else 0,
           mpu.items, MpuNode(mpu.info, None))
  }

  /** The nodes an MPU depends on: those of its items, or else the one of the MPU. */
  function References(m: MpuMap): seq<nat> {
    if m.nodeTags == [] && m.mpuNode.Some? then [m.mpuNode.value] else m.nodeTags
  }

  method MakeMpuMap(table: Management, mpu: Mpu) returns (m: MpuMap)
    ensures m == MapOf(table, mpu)
  {
    var node: Option<nat> := None;
    var info := mpu.info;
    var at := 0;
    assert info[0..] == info;
    while at + 3 <= |info|
      invariant at <= |info|
      invariant MpuNode(info[at..], node) == MpuNode(info, None)
      decreases |info| - at
    {
      var length := info[at + 2];
      if length > |info| - at - 3 { break; }
      if length == 2 { node := Some(Be16(info[at + 3], info[at + 4])); }
      assert info[at..][3 + length..] == info[at + 3 + length..];
      at := at + 3 + length;
    }
    m := MpuMap(table.transaction, table.download, if mpu.indexItem.Some? then mpu.indexItem.value else 0,
                mpu.items, node);
  }

  // ----- what a consistent catalogue is

  datatype Entry<K, V> = Entry(key: K, value: V)

  predicate Distinct<T(==)>(s: seq<T>) { forall i, j :: 0 <= i < j < |s| ==> s[i] != s[j] }

  predicate DistinctKeys<K(==), V>(es: seq<Entry<K, V>>) {
    forall i, j :: 0 <= i < j < |es| ==> es[i].key != es[j].key
  }

  function Bases(ds: seq<Directory>): seq<Option<Path>> {
    seq(|ds|, i requires 0 <= i < |ds| => SafePath(ds[i].basePath))
  }

  function NodesOf(context: nat, d: Directory): seq<Entry<NodeKey, Option<Path>>> {
    seq(|d.nodes|, i requires 0 <= i < |d.nodes| =>
      Entry(NodeKey(context, d.nodes[i].tag), JoinPath(d.basePath, d.nodes[i].path, [])))
  }

  /** Every node of every directory, with the path it stands for. */
  function AllNodes(context: nat, ds: seq<Directory>): seq<Entry<NodeKey, Option<Path>>> {
    if ds == [] then [] else AllNodes(context, ds[..|ds| - 1]) + NodesOf(context, ds[|ds| - 1])
  }

  function MpusOf(context: nat, table: Management): seq<Entry<MpuKey, MpuMap>> {
    seq(|table.mpus|, i requires 0 <= i < |table.mpus| =>
      Entry(MpuKey(context, table.component, table.mpus[i].sequence), MapOf(table, table.mpus[i])))
  }

  function AllMpus(context: nat, ms: seq<Management>): seq<Entry<MpuKey, MpuMap>> {
    if ms == [] then [] else AllMpus(context, ms[..|ms| - 1]) + MpusOf(context, ms[|ms| - 1])
  }

  function Components(ms: seq<Management>): seq<nat> { seq(|ms|, i requires 0 <= i < |ms| => ms[i].component) }

  predicate GoodBases(bases: seq<Option<Path>>) { Distinct(bases) && None !in bases }

  predicate SomePaths(es: seq<Entry<NodeKey, Option<Path>>>) { forall e :: e in es ==> e.value.Some? }

  predicate GoodNodes(es: seq<Entry<NodeKey, Option<Path>>>) {
    DistinctKeys(es) && SomePaths(es)
  }

  predicate Grounded(context: nat, m: MpuMap, nodes: set<NodeKey>) {
    forall tag :: tag in References(m) ==> NodeKey(context, tag) in nodes
  }

  predicate GoodMpus(es: seq<Entry<MpuKey, MpuMap>>, nodes: set<NodeKey>) {
    DistinctKeys(es) && forall e :: e in es ==> Grounded(e.key.context, e.value, nodes)
  }

  function NodeKeys(es: seq<Entry<NodeKey, Option<Path>>>): set<NodeKey> { set e | e in es :: e.key }

  /** Base directories are safe and distinct, node tags distinct with safe paths, components and
      MPUs distinct, and every node an MPU refers to is there. */
  predicate Consistent(context: nat, ds: seq<Directory>, ms: seq<Management>) {
    && GoodBases(Bases(ds)) && GoodNodes(AllNodes(context, ds))
    && Distinct(Components(ms)) && GoodMpus(AllMpus(context, ms), NodeKeys(AllNodes(context, ds)))
  }

  function NodeMap(es: seq<Entry<NodeKey, Option<Path>>>): map<NodeKey, Path>
    requires SomePaths(es)
  {
    if es == [] then map[]
    else
      var e := es[|es| - 1];
      assert e in es;
      NodeMap(es[..|es| - 1])[e.key := e.value.value]
  }

  function MapOfMpus(es: seq<Entry<MpuKey, MpuMap>>): map<MpuKey, MpuMap> {
    if es == [] then map[] else MapOfMpus(es[..|es| - 1])[es[|es| - 1].key := es[|es| - 1].value]
  }

  function Build(context: nat, ds: seq<Directory>, ms: seq<Management>): Option<Catalogue> {
    if Consistent(context, ds, ms)
    then Some(Catalogue(NodeMap(AllNodes(context, ds)), MapOfMpus(AllMpus(context, ms))))
    else None
  }

  // ----- what a built catalogue holds

  lemma {:induction false} NodeMapHolds(es: seq<Entry<NodeKey, Option<Path>>>)
    requires GoodNodes(es)
    ensures NodeMap(es).Keys == NodeKeys(es)
    ensures forall i :: 0 <= i < |es| ==> es[i].key in NodeMap(es) && NodeMap(es)[es[i].key] == es[i].value.value
  {
    if es != [] {
      var before, e := es[..|es| - 1], es[|es| - 1];
      NodeMapHolds(before);
      assert NodeKeys(es) == NodeKeys(before) + {e.key} by { assert es == before + [e]; }
    }
  }

  lemma {:induction false} MpuMapHolds(es: seq<Entry<MpuKey, MpuMap>>)
    requires DistinctKeys(es)
    ensures forall k :: k in MapOfMpus(es) <==> exists i :: 0 <= i < |es| && es[i].key == k
    ensures forall i :: 0 <= i < |es| ==> es[i].key in MapOfMpus(es) && MapOfMpus(es)[es[i].key] == es[i].value
  {
    if es != [] { MpuMapHolds(es[..|es| - 1]); }
  }

  lemma {:induction false} NodesAreNormal(context: nat, ds: seq<Directory>)
    ensures forall e :: e in AllNodes(context, ds) ==>
              e.key.context == context && (e.value.Some? ==> SafePath(e.value.value) == e.value)
  {
    if ds != [] {
      NodesAreNormal(context, ds[..|ds| - 1]);
      var d := ds[|ds| - 1];
      forall i | 0 <= i < |d.nodes| ensures
          (var e := NodesOf(context, d)[i]; e.value.Some? ==> SafePath(e.value.value) == e.value)
      {
        JoinPathNormal(d.basePath, d.nodes[i].path, []);
      }
    }
  }

  lemma {:induction false} MpusAreLocal(context: nat, ms: seq<Management>)
    ensures forall e :: e in AllMpus(context, ms) ==> e.key.context == context
  {
    if ms != [] { MpusAreLocal(context, ms[..|ms| - 1]); }
  }

  /** What the assembler relies on: keys of this context only, paths that normalize to themselves,
      and for every MPU all the nodes its index will need. */
  ghost predicate Usable(context: nat, c: Catalogue) {
    && (forall k :: k in c.nodes ==> k.context == context && SafePath(c.nodes[k]) == Some(c.nodes[k]))
    && (forall k :: k in c.mpus ==> k.context == context && Grounded(context, c.mpus[k], c.nodes.Keys))
  }

  lemma BuiltIsUsable(context: nat, ds: seq<Directory>, ms: seq<Management>)
    ensures Build(context, ds, ms).Some? ==> Usable(context, Build(context, ds, ms).value)
  {
    hide SafePath;
    hide JoinPath;
    hide AllNodes;
    hide AllMpus;
    hide NodeMap;
    hide MapOfMpus;
    hide Grounded;
    if Consistent(context, ds, ms) {
      var ns, es := AllNodes(context, ds), AllMpus(context, ms);
      NodesAreNormal(context, ds);
      MpusAreLocal(context, ms);
      NodeMapHolds(ns);
      MpuMapHolds(es);
      var c := Build(context, ds, ms).value;
      forall k | k in c.nodes ensures k.context == context && SafePath(c.nodes[k]) == Some(c.nodes[k]) {
        assert k in NodeKeys(ns);
        var i :| 0 <= i < |ns| && ns[i].key == k;
        assert ns[i] in ns;
      }
      forall k | k in c.mpus ensures k.context == context && Grounded(context, c.mpus[k], c.nodes.Keys) {
        var i :| 0 <= i < |es| && es[i].key == k;
        assert es[i] in es;
      }
    }
  }

  // ----- the loops

  lemma GoodNodesPrefix(es: seq<Entry<NodeKey, Option<Path>>>, more: seq<Entry<NodeKey, Option<Path>>>)
    requires GoodNodes(es + more)
    ensures GoodNodes(es)
  {
    forall i, j | 0 <= i < j < |es| ensures es[i].key != es[j].key {
      assert (es + more)[i] == es[i] && (es + more)[j] == es[j];
    }
    forall e | e in es ensures e.value.Some? { assert e in es + more; }
  }

  /** One more node keeps the list good exactly when its path is safe and its tag is new. */
  lemma OneMoreNode(es: seq<Entry<NodeKey, Option<Path>>>, e: Entry<NodeKey, Option<Path>>)
    requires GoodNodes(es)
    ensures GoodNodes(es + [e]) <==> e.value.Some? && e.key !in NodeKeys(es)
    ensures NodeKeys(es + [e]) == NodeKeys(es) + {e.key}
    ensures e.value.Some? ==> NodeMap(es + [e]) == NodeMap(es)[e.key := e.value.value]
  {
    var all := es + [e];
    assert all[..|es|] == es && all[|es|] == e;
    if e.key in NodeKeys(es) {
      var i :| 0 <= i < |es| && es[i].key == e.key;
      assert all[i].key == all[|es|].key;
    }
    assert e in all;
  }

  method AddNodes(context: nat, d: Directory, nodes0: map<NodeKey, Path>, tags0: set<nat>,
                  ghost es: seq<Entry<NodeKey, Option<Path>>>)
    returns (ok: bool, nodes: map<NodeKey, Path>, tags: set<nat>)
    requires GoodNodes(es) && nodes0 == NodeMap(es)
    requires forall t :: t in tags0 <==> NodeKey(context, t) in NodeKeys(es)
    ensures ok <==> GoodNodes(es + NodesOf(context, d))
    ensures ok ==> nodes == NodeMap(es + NodesOf(context, d))
    ensures ok ==> forall t :: t in tags <==> NodeKey(context, t) in NodeKeys(es + NodesOf(context, d))
  {
    hide GoodNodes;
    hide NodeMap;
    hide NodeKeys;
    hide JoinPath;
    nodes, tags := nodes0, tags0;
    ghost var all := NodesOf(context, d);
    assert es + all[..0] == es;
    GoodHasPaths(es);
    for j := 0 to |d.nodes|
      invariant GoodNodes(es + all[..j])
      invariant SomePaths(es + all[..j]) && nodes == NodeMap(es + all[..j])
      invariant forall t :: t in tags <==> NodeKey(context, t) in NodeKeys(es + all[..j])
    {
      var path := JoinPath(d.basePath, d.nodes[j].path, []);
      OneMoreNode(es + all[..j], all[j]);
      assert es + all[..j] + [all[j]] == es + all[..j + 1];
      if GoodNodes(es + all[..j + 1]) { GoodHasPaths(es + all[..j + 1]); }
      if path.None? || d.nodes[j].tag in tags {
        if GoodNodes(es + all) {
          assert es + all == (es + all[..j + 1]) + all[j + 1..];
          GoodNodesPrefix(es + all[..j + 1], all[j + 1..]);
        }
        return false, nodes, tags;
      }
      tags := tags + {d.nodes[j].tag};
      nodes := nodes[NodeKey(context, d.nodes[j].tag) := path.value];
    }
    ok := true;
    assert all[..|d.nodes|] == all;
  }

  lemma GoodHasPaths(es: seq<Entry<NodeKey, Option<Path>>>)
    requires GoodNodes(es)
    ensures SomePaths(es)
  {}

  lemma GoodMpusPrefix(es: seq<Entry<MpuKey, MpuMap>>, more: seq<Entry<MpuKey, MpuMap>>, nodes: set<NodeKey>)
    requires GoodMpus(es + more, nodes)
    ensures GoodMpus(es, nodes)
  {
    forall i, j | 0 <= i < j < |es| ensures es[i].key != es[j].key {
      assert (es + more)[i] == es[i] && (es + more)[j] == es[j];
    }
    forall e | e in es ensures Grounded(e.key.context, e.value, nodes) { assert e in es + more; }
  }

  lemma OneMoreMpu(es: seq<Entry<MpuKey, MpuMap>>, e: Entry<MpuKey, MpuMap>, nodes: set<NodeKey>)
    requires GoodMpus(es, nodes)
    ensures GoodMpus(es + [e], nodes) <==> e.key !in MapOfMpus(es) && Grounded(e.key.context, e.value, nodes)
    ensures MapOfMpus(es + [e]) == MapOfMpus(es)[e.key := e.value]
  {
    hide Grounded;
    var all := es + [e];
    assert all[..|es|] == es && all[|es|] == e;
    MpuMapHolds(es);
    if e.key in MapOfMpus(es) {
      var i :| 0 <= i < |es| && es[i].key == e.key;
      assert all[i].key == all[|es|].key;
    }
    assert e in all;
  }

  method AllReferencesPresent(context: nat, m: MpuMap, nodes: map<NodeKey, Path>) returns (ok: bool)
    ensures ok <==> Grounded(context, m, nodes.Keys)
  {
    var referenced := m.nodeTags;
    if referenced == [] && m.mpuNode.Some? { referenced := [m.mpuNode.value]; }
    for i := 0 to |referenced|
      invariant forall k :: 0 <= k < i ==> NodeKey(context, referenced[k]) in nodes
    {
      assert referenced[i] in References(m);
      if NodeKey(context, referenced[i]) !in nodes { return false; }
    }
    ok := true;
  }

  method AddMpus(context: nat, table: Management, nodes: map<NodeKey, Path>, mpus0: map<MpuKey, MpuMap>,
                 ghost es: seq<Entry<MpuKey, MpuMap>>)
    returns (ok: bool, mpus: map<MpuKey, MpuMap>)
    requires GoodMpus(es, nodes.Keys) && mpus0 == MapOfMpus(es)
    ensures ok <==> GoodMpus(es + MpusOf(context, table), nodes.Keys)
    ensures ok ==> mpus == MapOfMpus(es + MpusOf(context, table))
  {
    hide GoodMpus;
    hide MapOfMpus;
    hide Grounded;
    hide MapOf;
    mpus := mpus0;
    ghost var all := MpusOf(context, table);
    assert es + all[..0] == es;
    for j := 0 to |table.mpus|
      invariant GoodMpus(es + all[..j], nodes.Keys) && mpus == MapOfMpus(es + all[..j])
    {
      var key := MpuKey(context, table.component, table.mpus[j].sequence);
      var m := MakeMpuMap(table, table.mpus[j]);
      OneMoreMpu(es + all[..j], all[j], nodes.Keys);
      assert es + all[..j] + [all[j]] == es + all[..j + 1];
      var present := AllReferencesPresent(context, m, nodes);
      if key in mpus || !present {
        if GoodMpus(es + all, nodes.Keys) {
          assert es + all == (es + all[..j + 1]) + all[j + 1..];
          GoodMpusPrefix(es + all[..j + 1], all[j + 1..], nodes.Keys);
        }
        return false, mpus;
      }
      mpus := mpus[key := m];
    }
    ok := true;
    assert all[..|table.mpus|] == all;
  }

  lemma {:induction false} AllNodesPrefix(context: nat, ds: seq<Directory>, n: nat)
      returns (more: seq<Entry<NodeKey, Option<Path>>>)
    requires n <= |ds|
    ensures AllNodes(context, ds) == AllNodes(context, ds[..n]) + more
    decreases |ds| - n
  {
    if n == |ds| {
      more := [];
      assert ds[..n] == ds;
    } else {
      more := AllNodesPrefix(context, ds, n + 1);
      assert ds[..n + 1][..n] == ds[..n];
      more := NodesOf(context, ds[n]) + more;
    }
  }

  lemma {:induction false} AllMpusPrefix(context: nat, ms: seq<Management>, n: nat)
      returns (more: seq<Entry<MpuKey, MpuMap>>)
    requires n <= |ms|
    ensures AllMpus(context, ms) == AllMpus(context, ms[..n]) + more
    decreases |ms| - n
  {
    if n == |ms| {
      more := [];
      assert ms[..n] == ms;
    } else {
      more := AllMpusPrefix(context, ms, n + 1);
      assert ms[..n + 1][..n] == ms[..n];
      more := MpusOf(context, ms[n]) + more;
    }
  }

  lemma OneMoreSeen<T>(s: seq<T>, i: nat, seen: set<T>)
    requires i < |s| && s[i] !in seen && Distinct(s[..i])
    requires forall t :: t in seen <==> t in s[..i]
    ensures Distinct(s[..i + 1])
    ensures forall t :: t in seen + {s[i]} <==> t in s[..i + 1]
  {
    assert s[..i + 1] == s[..i] + [s[i]];
    assert forall k :: 0 <= k < i ==> s[k] in s[..i];
  }

  lemma Repeats<T>(s: seq<T>, i: nat)
    requires i < |s| && s[i] in s[..i]
    ensures !Distinct(s)
  {
    var k :| 0 <= k < i && s[k] == s[i];
  }

  lemma NoneYetBad(bases: seq<Option<Path>>, i: nat, seen: set<Path>)
    requires i < |bases| && bases[i].Some? && bases[i].value !in seen && GoodBases(bases[..i])
    requires forall p :: p in seen <==> Some(p) in bases[..i]
    ensures GoodBases(bases[..i + 1])
    ensures forall p :: p in seen + {bases[i].value} <==> Some(p) in bases[..i + 1]
  {
    assert bases[..i + 1] == bases[..i] + [bases[i]];
    assert forall k :: 0 <= k < i ==> bases[k] in bases[..i];
  }

  lemma BadBase(ds: seq<Directory>, i: nat)
    requires i < |ds|
    requires Bases(ds)[i].None? || Bases(ds)[i] in Bases(ds)[..i]
    ensures !GoodBases(Bases(ds))
  {
    if Bases(ds)[i].Some? {
      var k :| 0 <= k < i && Bases(ds)[k] == Bases(ds)[i];
    }
  }

  method ReadDirectories(context: nat, ds: seq<Directory>) returns (ok: bool, nodes: map<NodeKey, Path>)
    ensures ok <==> GoodBases(Bases(ds)) && GoodNodes(AllNodes(context, ds))
    ensures ok ==> nodes == NodeMap(AllNodes(context, ds))
  {
    hide SafePath;
    hide GoodNodes;
    hide GoodBases;
    hide SomePaths;
    hide NodeMap;
    hide NodeKeys;
    hide NodesOf;
    nodes := map[];
    var basePaths: set<Path> := {};
    var tags: set<nat> := {};
    NothingYet(context, Bases(ds));
    for i := 0 to |ds|
      invariant forall p :: p in basePaths <==> Some(p) in Bases(ds)[..i]
      invariant GoodBases(Bases(ds)[..i])
      invariant GoodNodes(AllNodes(context, ds[..i])) && SomePaths(AllNodes(context, ds[..i]))
      invariant nodes == NodeMap(AllNodes(context, ds[..i]))
      invariant forall t :: t in tags <==> NodeKey(context, t) in NodeKeys(AllNodes(context, ds[..i]))
    {
      var base := SafePath(ds[i].basePath);
      if base.None? || base.value in basePaths {
        BadBase(ds, i);
        return false, nodes;
      }
      NoneYetBad(Bases(ds), i, basePaths);
      basePaths := basePaths + {base.value};
      ghost var more := AllNodesPrefix(context, ds, i + 1);
      assert ds[..i + 1][..i] == ds[..i];
      ghost var sofar := AllNodes(context, ds[..i]);
      ok, nodes, tags := AddNodes(context, ds[i], nodes, tags, sofar);
      assert AllNodes(context, ds[..i + 1]) == sofar + NodesOf(context, ds[i]);
      if !ok {
        if GoodNodes(AllNodes(context, ds)) { GoodNodesPrefix(AllNodes(context, ds[..i + 1]), more); }
        return;
      }
      GoodHasPaths(AllNodes(context, ds[..i + 1]));
    }
    ok := true;
    assert ds[..|ds|] == ds && Bases(ds)[..|ds|] == Bases(ds);
  }

  lemma NothingYet(context: nat, bases: seq<Option<Path>>)
    ensures GoodBases(bases[..0])
    ensures GoodNodes(AllNodes(context, [])) && SomePaths(AllNodes(context, []))
        && NodeMap(AllNodes(context, [])) == map[]
    ensures NodeKeys(AllNodes(context, [])) == {}
  {}

  method ReadManagement(context: nat, ms: seq<Management>, nodes: map<NodeKey, Path>)
    returns (ok: bool, mpus: map<MpuKey, MpuMap>)
    ensures ok <==> Distinct(Components(ms)) && GoodMpus(AllMpus(context, ms), nodes.Keys)
    ensures ok ==> mpus == MapOfMpus(AllMpus(context, ms))
  {
    hide GoodMpus;
    hide MapOfMpus;
    hide MpusOf;
    hide Distinct;
    mpus := map[];
    var components: set<nat> := {};
    NoMpusYet(context, nodes.Keys, Components(ms));
    for i := 0 to |ms|
      invariant forall c :: c in components <==> c in Components(ms)[..i]
      invariant Distinct(Components(ms)[..i])
      invariant GoodMpus(AllMpus(context, ms[..i]), nodes.Keys) && mpus == MapOfMpus(AllMpus(context, ms[..i]))
    {
      if ms[i].component in components {
        Repeats(Components(ms), i);
        return false, mpus;
      }
      OneMoreSeen(Components(ms), i, components);
      components := components + {ms[i].component};
      ghost var more := AllMpusPrefix(context, ms, i + 1);
      assert ms[..i + 1][..i] == ms[..i];
      ok, mpus := AddMpus(context, ms[i], nodes, mpus, AllMpus(context, ms[..i]));
      if !ok {
        if GoodMpus(AllMpus(context, ms), nodes.Keys) {
          GoodMpusPrefix(AllMpus(context, ms[..i + 1]), more, nodes.Keys);
        }
        return;
      }
    }
    ok := true;
    assert ms[..|ms|] == ms && Components(ms)[..|ms|] == Components(ms);
  }

  lemma NoMpusYet(context: nat, nodes: set<NodeKey>, components: seq<nat>)
    ensures Distinct(components[..0])
    ensures GoodMpus(AllMpus(context, []), nodes) && MapOfMpus(AllMpus(context, [])) == map[]
  {}

  method BuildCatalogue(context: nat, ds: seq<Directory>, ms: seq<Management>) returns (r: Option<Catalogue>)
    ensures r == Build(context, ds, ms)
  {
    hide GoodBases;
    hide GoodNodes;
    hide GoodMpus;
    hide NodeMap;
    hide MapOfMpus;
    hide AllNodes;
    hide AllMpus;
    var ok, nodes := ReadDirectories(context, ds);
    if !ok { return None; }
    NodeMapHolds(AllNodes(context, ds));
    var good, mpus := ReadManagement(context, ms, nodes);
    if !good { return None; }
    r := Some(Catalogue(nodes, mpus));
  }
}
