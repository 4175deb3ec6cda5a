/** Virtual paths of application resources: normalization and joining. */
module ResourcePaths {
  import opened Bytes

  type Path = seq<byte>

  const SLASH: byte := 0x2f
  const DOT: Path := [0x2e]
  const DOTDOT: Path := [0x2e, 0x2e]

  /** The parts between slashes: always at least one. */
  function Split(s: Path): (r: seq<Path>)
    ensures |r| > 0
  {
    if s == [] then [[]]
    else
      var rest := Split(s[1..]);
      if s[0] == SLASH then [[]] + rest else [[s[0]] + rest[0]] + rest[1..]
  }

  function Join(parts: seq<Path>): Path {
    if parts == [] then []
    else if |parts| == 1 then parts[0]
    else parts[0] + [SLASH] + Join(parts[1..])
  }

  /** A part that names something below its directory. */
  predicate Proper(part: Path) { part != [] && part != DOT && part != DOTDOT && SLASH !in part }

  /** The parts that remain: empty ones and "." are dropped. */
  function Kept(parts: seq<Path>): seq<Path> {
    if parts == [] then []
    else (if parts[0] == [] || parts[0] == DOT then [] else [parts[0]]) + Kept(parts[1..])
  }

  /** Refuse any ".." part, drop empty and "." parts. */
  function SafePath(s: Path): Option<Path> {
    var parts := Split(s);
    if DOTDOT in parts then None else Some(Join(Kept(parts)))
  }

  /** Join what is left of the three after normalizing each. */
  function JoinPath(first: Path, second: Path, third: Path): Option<Path> {
    match (SafePath(first), SafePath(second), SafePath(third))
    case (Some(a), Some(b), Some(c)) => Some(Glue(Glue(a, b), c))
    case _ => None
  }

  function Glue(a: Path, b: Path): Path { if b == [] then a else if a == [] then b else a + [SLASH] + b }

  /** Nothing but proper parts: no empty part, no "." and no "..". */
  ghost predicate Normal(s: Path) { exists parts :: AllProper(parts) && s == Join(parts) }

  predicate AllProper(parts: seq<Path>) { forall p :: p in parts ==> Proper(p) }

  lemma {:induction false} SplitHasNoSlash(s: Path)
    ensures forall p :: p in Split(s) ==> SLASH !in p
  {
    if s != [] { SplitHasNoSlash(s[1..]); }
  }

  lemma {:induction false} KeptParts(parts: seq<Path>)
    ensures forall p :: p in Kept(parts) ==> p in parts && p != [] && p != DOT
  {
    if parts != [] { KeptParts(parts[1..]); }
  }

  /** Normalizing yields only proper parts. */
  lemma SafePathNormal(s: Path)
    ensures SafePath(s).Some? ==> Normal(SafePath(s).value)
  {
    var parts := Split(s);
    SplitHasNoSlash(s);
    KeptParts(parts);
    if DOTDOT !in parts { assert AllProper(Kept(parts)); }
  }

  lemma {:induction false} SplitPlain(a: Path)
    requires SLASH !in a
    ensures Split(a) == [a]
  {
    if a != [] {
      SplitPlain(a[1..]);
      assert [a[0]] + a[1..] == a;
    }
  }

  lemma {:induction false} SplitAtSlash(a: Path, b: Path)
    requires SLASH !in a
    ensures Split(a + [SLASH] + b) == [a] + Split(b)
  {
    var s := a + [SLASH] + b;
    if a == [] {
      assert s[1..] == b;
    } else {
      assert s[1..] == a[1..] + [SLASH] + b;
      SplitAtSlash(a[1..], b);
      assert [a[0]] + a[1..] == a;
    }
  }

  lemma {:induction false} SplitJoin(parts: seq<Path>)
    requires AllProper(parts) && parts != []
    ensures Split(Join(parts)) == parts
  {
    assert Proper(parts[0]);
    if |parts| == 1 {
      SplitPlain(parts[0]);
    } else {
      SplitAtSlash(parts[0], Join(parts[1..]));
      SplitJoin(parts[1..]);
    }
  }

  lemma {:induction false} KeepsProper(parts: seq<Path>)
    requires AllProper(parts)
    ensures Kept(parts) == parts
  {
    if parts != [] {
      assert Proper(parts[0]);
      KeepsProper(parts[1..]);
    }
  }

  lemma KeptNothing()
    ensures Kept([[]]) == []
  {
    var one: seq<Path> := [[]];
    assert one[1..] == [];
    assert Kept(one[1..]) == [];
  }

  /** A normal path is left as it is; so normalizing twice is normalizing once. */
  lemma NormalIsFixed(s: Path)
    requires Normal(s)
    ensures SafePath(s) == Some(s)
  {
    var parts :| AllProper(parts) && s == Join(parts);
    if parts == [] {
      KeptNothing();
    } else {
      SplitJoin(parts);
      KeepsProper(parts);
    }
  }

  lemma SafePathIdempotent(s: Path)
    requires SafePath(s).Some?
    ensures SafePath(SafePath(s).value) == SafePath(s)
  {
    SafePathNormal(s);
    NormalIsFixed(SafePath(s).value);
  }

  lemma {:induction false} JoinGlue(a: seq<Path>, b: seq<Path>)
    requires AllProper(a) && AllProper(b)
    ensures Join(a + b) == Glue(Join(a), Join(b))
  {
    if a == [] {
      assert a + b == b;
    } else if b == [] {
      assert a + b == a;
    } else {
      assert Proper(a[0]) && Proper(b[0]);
      JoinNotEmpty(b);
      if |a| == 1 {
        assert (a + b)[1..] == b;
      } else {
        assert (a + b)[1..] == a[1..] + b;
        JoinGlue(a[1..], b);
        JoinNotEmpty(a[1..]);
        assert a[0] + [SLASH] + (Join(a[1..]) + [SLASH] + Join(b))
            == (a[0] + [SLASH] + Join(a[1..])) + [SLASH] + Join(b);
      }
      JoinNotEmpty(a);
    }
  }

  lemma JoinNotEmpty(parts: seq<Path>)
    requires AllProper(parts) && parts != []
    ensures Join(parts) != []
  {
    assert Proper(parts[0]);
  }

  lemma GlueNormal(a: Path, b: Path)
    requires Normal(a) && Normal(b)
    ensures Normal(Glue(a, b))
  {
    var p :| AllProper(p) && a == Join(p);
    var q :| AllProper(q) && b == Join(q);
    JoinGlue(p, q);
    assert AllProper(p + q);
  }

  /** A joined path is normal, so the store looks it up under the very path it was published with. */
  lemma JoinPathNormal(first: Path, second: Path, third: Path)
    ensures JoinPath(first, second, third).Some? ==>
              var r := JoinPath(first, second, third).value; Normal(r) && SafePath(r) == Some(r)
  {
    if JoinPath(first, second, third).Some? {
      SafePathNormal(first);
      SafePathNormal(second);
      SafePathNormal(third);
      GlueNormal(SafePath(first).value, SafePath(second).value);
      GlueNormal(Glue(SafePath(first).value, SafePath(second).value), SafePath(third).value);
      NormalIsFixed(JoinPath(first, second, third).value);
    }
  }

  /** A joined path never leaves the directory it is joined to: it is the directory or goes on behind its slash. */
  lemma JoinPathStaysInside(directory: Path, name: Path)
    requires Normal(directory) && JoinPath(directory, name, []).Some?
    ensures (var r := JoinPath(directory, name, []).value;
             r == directory || directory == [] || directory + [SLASH] <= r)
  {
    NormalIsFixed(directory);
    KeptNothing();
    assert SafePath([]) == Some([]);
  }

  // ----- what normalizing and joining yield, part by part

  lemma {:induction false} SplitBoth(a: Path, b: Path)
    ensures Split(a + [SLASH] + b) == Split(a) + Split(b)
    decreases |a|
  {
    var s := a + [SLASH] + b;
    if a == [] {
      assert s[1..] == b;
    } else {
      assert s[1..] == a[1..] + [SLASH] + b;
      SplitBoth(a[1..], b);
    }
  }

  lemma KeptAreProper(s: Path)
    requires DOTDOT !in Split(s)
    ensures AllProper(Kept(Split(s)))
  {
    SplitHasNoSlash(s);
    KeptParts(Split(s));
  }

  /** A path without a slash: ".." is refused, "." and the empty path are nothing, and any other is itself. */
  lemma SafePathOfPart(part: Path)
    requires SLASH !in part
    ensures SafePath(part) == if part == [0x2e, 0x2e] then None
                              else if part == [] || part == [0x2e] then Some([]) else Some(part)
  {
    SplitPlain(part);
    var none: seq<Path> := [];
    assert [part][1..] == none && Kept(none) == none;
    assert [part] + none == [part];
  }

  /** What lies on the two sides of a slash is normalized by itself, and joined by one slash if anything is left of
      both; one side that is refused refuses the whole. */
  lemma SafePathOfBoth(a: Path, b: Path)
    ensures (var x, y := SafePath(a), SafePath(b);
             SafePath(a + [0x2f] + b) == if x.None? || y.None? then None
                                         else if x.value == [] then y else if y.value == [] then x
                                         else Some(x.value + [0x2f] + y.value))
  {
    SplitBoth(a, b);
    KeptAppend(Split(a), Split(b));
    if DOTDOT !in Split(a) && DOTDOT !in Split(b) {
      KeptAreProper(a);
      KeptAreProper(b);
      JoinGlue(Kept(Split(a)), Kept(Split(b)));
    }
    hide Split;
    hide Kept;
  }

  /** Joining a name to a directory is normalizing the two with a slash between them. */
  lemma JoinPathIsSafePath(directory: Path, name: Path)
    ensures JoinPath(directory, name, []) == SafePath(directory + [0x2f] + name)
  {
    SafePathOfBoth(directory, name);
    SafePathOfPart([]);
    hide SafePath;
  }

  /** It is refused exactly when a part of either is "..", and otherwise its parts are those kept of the directory and
      then those kept of the name. */
  lemma JoinPathParts(directory: Path, name: Path)
    ensures (var r := JoinPath(directory, name, []); var parts := Kept(Split(directory)) + Kept(Split(name));
             && (r.None? <==> [0x2e, 0x2e] in Split(directory) || [0x2e, 0x2e] in Split(name))
             && (r.Some? ==> if parts == [] then r.value == [] else Split(r.value) == parts))
  {
    JoinPathIsSafePath(directory, name);
    SplitBoth(directory, name);
    KeptAppend(Split(directory), Split(name));
    if DOTDOT !in Split(directory + [SLASH] + name) {
      KeptAreProper(directory + [SLASH] + name);
      var parts := Kept(Split(directory)) + Kept(Split(name));
      if parts != [] { SplitJoin(parts); }
    }
    hide Split;
    hide Kept;
    hide JoinPath;
  }

  /** So a normal name in a normal directory is the directory, a slash and the name, and other names give other
      paths. */
  lemma JoinPathOfNormal(directory: Path, name: Path, other: Path)
    requires Normal(directory) && Normal(name) && Normal(other) && directory != [] && name != [] && other != []
    ensures JoinPath(directory, name, []) == Some(directory + [0x2f] + name)
    ensures JoinPath(directory, name, []) == JoinPath(directory, other, []) ==> name == other
  {
    NormalIsFixed(directory);
    NormalIsFixed(name);
    NormalIsFixed(other);
    SafePathOfPart([]);
    hide SafePath;
    hide Normal;
    var a, b := directory + [SLASH] + name, directory + [SLASH] + other;
    assert a[|directory| + 1..] == name && b[|directory| + 1..] == other;
  }

  // ----- the normalizing loop

  /** The position of the next slash, or the end. */
  method FindSlash(value: Path, begin: nat) returns (end: nat)
    requires begin <= |value|
    ensures begin <= end <= |value|
    ensures SLASH !in value[begin..end] && (end < |value| ==> value[end] == SLASH)
  {
    end := begin;
    while end < |value| && value[end] != SLASH
      invariant begin <= end <= |value| && SLASH !in value[begin..end]
    {
      end := end + 1;
    }
  }

  method NormalizePath(value: Path) returns (r: Option<Path>)
    ensures r == SafePath(value)
  {
    hide Split;
    hide Kept;
    hide Join;
    if value == [] {
      EmptyIsSafe();
      return Some([]);
    }
    ghost var parts := Split(value);
    ghost var seen: seq<Path> := [];
    var normalized: Path := [];
    var begin := 0;
    NothingSeen();
    assert value[0..] == value;
    while true
      invariant begin <= |value|
      invariant parts == seen + Split(value[begin..])
      invariant DOTDOT !in seen && normalized == Join(Kept(seen))
      decreases |value| - begin
    {
      var end := FindSlash(value, begin);
      var part := value[begin..end];
      SplitNext(value, begin, end);
      SeenOneMore(parts, seen, part, if end < |value| then Split(value[end + 1..]) else []);
      if part == DOTDOT { return None; }
      KeptSnoc(seen, part);
      if part != [] && part != DOT {
        if normalized != [] { normalized := normalized + [SLASH]; }
        normalized := normalized + part;
      }
      seen := seen + [part];
      if end == |value| {
        assert parts == seen;
        assert DOTDOT !in seen;
        assert normalized == Join(Kept(parts));
        return Some(normalized);
      }
      begin := end + 1;
    }
  }

  lemma EmptyIsSafe()
    ensures SafePath([]) == Some([])
  {
    KeptNothing();
  }

  lemma NothingSeen()
    ensures Join(Kept([])) == []
  {}

  lemma SeenOneMore(parts: seq<Path>, seen: seq<Path>, part: Path, rest: seq<Path>)
    requires parts == seen + ([part] + rest)
    ensures parts == (seen + [part]) + rest && part in parts
    ensures rest == [] ==> parts == seen + [part]
  {
    assert parts[|seen|] == part;
    if rest == [] { assert [part] + rest == [part]; }
  }

  lemma SplitNext(value: Path, begin: nat, end: nat)
    requires begin <= end <= |value|
    requires SLASH !in value[begin..end] && (end < |value| ==> value[end] == SLASH)
    ensures Split(value[begin..]) == [value[begin..end]] + if end < |value| then Split(value[end + 1..]) else []
  {
    hide Split;
    var part := value[begin..end];
    if end < |value| {
      assert value[begin..] == part + [SLASH] + value[end + 1..];
      SplitAtSlash(part, value[end + 1..]);
    } else {
      assert value[begin..] == part;
      SplitPlain(part);
      var none: seq<Path> := [];
      assert [part] + none == [part];
    }
  }

  lemma {:induction false} KeptAppend(a: seq<Path>, b: seq<Path>)
    ensures Kept(a + b) == Kept(a) + Kept(b)
  {
    if a == [] {
      assert a + b == b;
    } else {
      assert (a + b)[1..] == a[1..] + b;
      KeptAppend(a[1..], b);
    }
  }

  lemma {:induction false} JoinSnoc(parts: seq<Path>, part: Path)
    requires forall p :: p in parts ==> p != []
    ensures Join(parts + [part]) == if parts == [] then part else Join(parts) + [SLASH] + part
    ensures parts != [] ==> Join(parts) != []
  {
    if parts != [] {
      assert parts[0] in parts && forall p :: p in parts[1..] ==> p in parts;
      assert (parts + [part])[1..] == parts[1..] + [part];
      if |parts| > 1 {
        JoinSnoc(parts[1..], part);
        assert parts[0] + [SLASH] + (Join(parts[1..]) + [SLASH] + part)
            == (parts[0] + [SLASH] + Join(parts[1..])) + [SLASH] + part;
      }
    }
  }

  lemma KeptSnoc(seen: seq<Path>, part: Path)
    ensures Join(Kept(seen + [part])) ==
      if part == [] || part == DOT then Join(Kept(seen))
      else if Join(Kept(seen)) == [] then part
      else Join(Kept(seen)) + [SLASH] + part
  {
    KeptAppend(seen, [part]);
    assert [part][1..] == [];
    assert Kept([part]) == if part == [] || part == DOT then [] else [part];
    KeptParts(seen);
    if part == [] || part == DOT {
      assert Kept(seen) + [] == Kept(seen);
    } else {
      JoinSnoc(Kept(seen), part);
    }
  }
}
