/** What an index lists, in terms of its records and of the mapping of its MPU, and when it is refused. */
module ResourceListings {
  import opened Bytes
  import opened ResourcePaths
  import opened ResourceIndex
  import opened ResourceCatalogue
  import opened ResourceShelf
  import opened ResourceRuns
  import opened ResourceEffects
  import opened ResourceRetries

  /** The node in which the n-th file of an MPU lies: its own, or that of the whole MPU when the files have none. */
  function NodeOf(m: MpuMap, n: nat): Option<nat> {
    if m.nodeTags == [] then m.mpuNode else if n < |m.nodeTags| then Some(m.nodeTags[n]) else None
  }

  /** The path of the n-th file, unless it escapes or has no node. */
  function PathAt(active: Catalogue, m: MpuKey, records: seq<FileRecord>, n: nat): Option<Path>
    requires m in active.mpus && n < |records|
  {
    var node := NodeOf(active.mpus[m], n);
    if node.None? || NodeKey(m.context, node.value) !in active.nodes then None
    else JoinPath(active.nodes[NodeKey(m.context, node.value)], records[n].filename, [])
  }

  /** The target says what the record says. */
  predicate Says(r: FileRecord, path: Path, t: FileTarget) {
    && t.path == path && t.contentType == r.contentType && t.size == r.size && t.version == r.version
    && t.compression == r.compression && t.originalSize == r.originalSize
  }

  /** Two files under the same item, neither of which escapes. */
  predicate Repeated(active: Catalogue, m: MpuKey, records: seq<FileRecord>, i: nat, j: nat)
    requires m in active.mpus
  {
    && i < j < |records| && records[i].item == records[j].item
    && PathAt(active, m, records, i).Some? && PathAt(active, m, records, j).Some?
  }

  /** How many files are listed for other MPUs. */
  function ListedElsewhere(s: Shelf, m: MpuKey): nat { |set k | k in s.items && k.mpu != m| }

  /** The numbers of files and of nodes disagree, the files are too many, or one comes twice. */
  ghost predicate Refused(s: Shelf, cfg: Config, active: Catalogue, m: MpuKey, records: seq<FileRecord>)
    requires m in active.mpus
  {
    var map0 := active.mpus[m];
    || (map0.nodeTags != [] && |map0.nodeTags| != |records|)
    || (map0.nodeTags == [] && map0.mpuNode.None? && records != [])
    || ListedElsewhere(s, m) + |records| > cfg.maxResources
    || exists i: nat, j: nat :: Repeated(active, m, records, i, j)
  }

  lemma Elsewhere(s: Shelf, m: MpuKey)
    ensures |s.items| - |Listed(s, m)| == ListedElsewhere(s, m)
  {
    var own, others := Listed(s, m), set k | k in s.items && k.mpu != m;
    assert own + others == s.items.Keys && own !! others;
    assert |own + others| == |own| + |others|;
  }

  /** The tags that the records are read with are the nodes of the files. */
  lemma TagsAreNodes(m: MpuMap, count: nat)
    ensures |TagsFor(m, count)| == count <==>
            !(m.nodeTags != [] && |m.nodeTags| != count) && !(m.nodeTags == [] && m.mpuNode.None? && count != 0)
    ensures |TagsFor(m, count)| == count ==>
              forall n: nat :: n < count ==> NodeOf(m, n) == Some(TagsFor(m, count)[n])
  {
  }

  lemma PathsAreJoined(active: Catalogue, m: MpuKey, records: seq<FileRecord>, tags: seq<nat>, n: nat)
    requires m in active.mpus && n < |records| == |tags| && TagsPresent(m.context, active.nodes, tags)
    requires NodeOf(active.mpus[m], n) == Some(tags[n])
    ensures tags[n] in tags
    ensures (var t := TargetAt(m.context, active.nodes, tags[n], records[n]); var path := PathAt(active, m, records, n);
             && (t.Some? <==> path.Some?) && (t.Some? ==> Says(records[n], path.value, t.value)))
  {
    hide JoinPath;
  }

  /** Reading the records fails exactly when two that do not escape share an item. */
  lemma {:induction false} TargetsExactly(context: nat, nodes: map<NodeKey, Path>, tags: seq<nat>,
                                          records: seq<FileRecord>)
    requires |tags| == |records| && TagsPresent(context, nodes, tags)
    ensures Targets(context, nodes, tags, records).None? <==>
            exists i: nat, j: nat :: SameItem(context, nodes, tags, records, i, j)
    decreases |records|
  {
    hide JoinPath;
    if records != [] {
      var n := |records| - 1;
      var before := Targets(context, nodes, tags[..n], records[..n]);
      assert tags[n] in tags;
      TargetsExactly(context, nodes, tags[..n], records[..n]);
      forall i: nat, j: nat | j < n
        ensures SameItem(context, nodes, tags[..n], records[..n], i, j)
           <==> SameItem(context, nodes, tags, records, i, j)
      {
        SameItemOfPrefix(context, nodes, tags, records, n, i, j);
      }
      if before.Some? {
        LastRepeats(context, nodes, tags, records);
      } else {
        var i: nat, j: nat :| SameItem(context, nodes, tags[..n], records[..n], i, j);
        assert SameItem(context, nodes, tags, records, i, j);
      }
    }
  }

  predicate SameItem(context: nat, nodes: map<NodeKey, Path>, tags: seq<nat>, records: seq<FileRecord>, i: nat, j: nat)
    requires |tags| == |records| && TagsPresent(context, nodes, tags)
  {
    i < j < |records| && records[i].item == records[j].item
    && (assert tags[i] in tags && tags[j] in tags;
        TargetAt(context, nodes, tags[i], records[i]).Some? && TargetAt(context, nodes, tags[j], records[j]).Some?)
  }

  lemma SameItemOfPrefix(context: nat, nodes: map<NodeKey, Path>, tags: seq<nat>, records: seq<FileRecord>, n: nat,
                         i: nat, j: nat)
    requires |tags| == |records| && TagsPresent(context, nodes, tags) && j < n <= |records|
    ensures TagsPresent(context, nodes, tags[..n])
    ensures SameItem(context, nodes, tags[..n], records[..n], i, j) <==> SameItem(context, nodes, tags, records, i, j)
  {
    hide JoinPath;
  }

  /** The last record shares its item with an earlier one exactly when that item has a target already. */
  lemma LastRepeats(context: nat, nodes: map<NodeKey, Path>, tags: seq<nat>, records: seq<FileRecord>)
    requires |tags| == |records| && records != [] && TagsPresent(context, nodes, tags)
    requires Targets(context, nodes, tags[..|tags| - 1], records[..|records| - 1]).Some?
    ensures (var n := |records| - 1; var before := Targets(context, nodes, tags[..n], records[..n]).value;
             tags[n] in tags
             && (TargetAt(context, nodes, tags[n], records[n]).Some? && records[n].item in before <==>
                 exists i: nat :: SameItem(context, nodes, tags, records, i, n)))
  {
    hide JoinPath;
    hide Targets;
    var n := |records| - 1;
    var first, rest := tags[..n], records[..n];
    var before := Targets(context, nodes, first, rest).value;
    assert tags[n] in tags;
    if TargetAt(context, nodes, tags[n], records[n]).Some? && records[n].item in before {
      var i := TargetsFrom(context, nodes, first, rest, records[n].item);
      assert SameItem(context, nodes, tags, records, i, n);
    }
    forall i: nat | SameItem(context, nodes, tags, records, i, n)
      ensures records[n].item in before
    {
      assert tags[i] == first[i] && first[i] in first && records[i] == rest[i];
      TargetsInto(context, nodes, first, rest, i);
    }
  }

  /** An index that parses is refused for those reasons and no others, and then changes nothing. Otherwise its MPU is
      listed anew: each file that does not escape as its record says and in its node, and no others. */
  lemma IndexListsExactly(s: Shelf, cfg: Config, active: Catalogue, m: MpuKey, data: seq<byte>,
                          records: seq<FileRecord>)
    requires AllGrounded(active) && m in active.mpus && Index(data) == Some(records)
    ensures (var (used, t) := ConsumeIndex(s, cfg, active, m, data); var listing := Accepted(s, cfg, active, m, data);
             && used
             && (listing.None? <==> Refused(s, cfg, active, m, records))
             && t == (if listing.None? then s else Finish(Relist(s, m, listing.value), m))
             && (listing.Some? ==>
                   && (forall n :: 0 <= n < |records| && PathAt(active, m, records, n).Some? ==>
                         && records[n].item in listing.value
                         && Says(records[n], PathAt(active, m, records, n).value, listing.value[records[n].item]))
                   && (forall i :: i in listing.value ==>
                         exists n :: 0 <= n < |records| && records[n].item == i
                                     && PathAt(active, m, records, n).Some?)))
  {
    hide Finish;
    hide Relist;
    hide ConsumeIndex;
    hide Index;
    hide JoinPath;
    hide Targets;
    hide TagsFor;
    hide NodeOf;
    hide ListedElsewhere;
    hide Listed;
    hide PathAt;
    hide TargetAt;
    hide Says;
    IndexAccepted(s, cfg, active, m, data);
    Elsewhere(s, m);
    TagsAreNodes(active.mpus[m], |records|);
    var tags := TagsFor(active.mpus[m], |records|);
    if |tags| == |records| {
      TagsAllPresent(active, m, |records|);
      TargetsExactly(m.context, active.nodes, tags, records);
      PathsMatch(active, m, records, tags);
      ListingMatches(active, m, records, tags);
    }
  }

  lemma TagsAllPresent(active: Catalogue, m: MpuKey, count: nat)
    requires AllGrounded(active) && m in active.mpus && |TagsFor(active.mpus[m], count)| == count
    ensures TagsPresent(m.context, active.nodes, TagsFor(active.mpus[m], count))
  {
    assert Grounded(m.context, active.mpus[m], active.nodes.Keys);
    forall t | t in TagsFor(active.mpus[m], count)
      ensures t in References(active.mpus[m])
    {
    }
  }

  lemma PathsMatch(active: Catalogue, m: MpuKey, records: seq<FileRecord>, tags: seq<nat>)
    requires m in active.mpus && |records| == |tags| && TagsPresent(m.context, active.nodes, tags)
    requires forall n: nat :: n < |tags| ==> NodeOf(active.mpus[m], n) == Some(tags[n])
    ensures forall i: nat, j: nat ::
              SameItem(m.context, active.nodes, tags, records, i, j) <==> Repeated(active, m, records, i, j)
  {
    hide PathAt;
    hide TargetAt;
    hide Says;
    hide NodeOf;
    forall n: nat | n < |records|
      ensures tags[n] in tags
      ensures TargetAt(m.context, active.nodes, tags[n], records[n]).Some? <==> PathAt(active, m, records, n).Some?
    {
      PathsAreJoined(active, m, records, tags, n);
    }
  }

  lemma ListingMatches(active: Catalogue, m: MpuKey, records: seq<FileRecord>, tags: seq<nat>)
    requires m in active.mpus && |records| == |tags| && TagsPresent(m.context, active.nodes, tags)
    requires forall n: nat :: n < |tags| ==> NodeOf(active.mpus[m], n) == Some(tags[n])
    ensures (var targets := Targets(m.context, active.nodes, tags, records);
             targets.Some? ==>
               && (forall n :: 0 <= n < |records| && PathAt(active, m, records, n).Some? ==>
                     && records[n].item in targets.value
                     && Says(records[n], PathAt(active, m, records, n).value, targets.value[records[n].item]))
               && (forall i :: i in targets.value ==>
                     exists n :: 0 <= n < |records| && records[n].item == i && PathAt(active, m, records, n).Some?))
  {
    hide PathAt;
    hide TargetAt;
    hide Says;
    hide NodeOf;
    hide Targets;
    var targets := Targets(m.context, active.nodes, tags, records);
    if targets.Some? {
      forall n | 0 <= n < |records| && PathAt(active, m, records, n).Some?
        ensures records[n].item in targets.value
             && Says(records[n], PathAt(active, m, records, n).value, targets.value[records[n].item])
      {
        PathsAreJoined(active, m, records, tags, n);
        TargetsInto(m.context, active.nodes, tags, records, n);
      }
      forall i | i in targets.value
        ensures exists n :: 0 <= n < |records| && records[n].item == i && PathAt(active, m, records, n).Some?
      {
        var n := TargetsFrom(m.context, active.nodes, tags, records, i);
        PathsAreJoined(active, m, records, tags, n);
      }
    }
  }
}
