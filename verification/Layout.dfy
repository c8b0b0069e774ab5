/** Module trees: slab offsets, qualified names and name resolution of sim.c. */
module Layout {
  import opened Wrappers
  import E = Equation

  /** The part of an AVar that is fixed (name, parent) and the part that is written (offset, cached name). */
  class AVar {
    const name: string
    const parent: AVar?
    ghost const depth: nat
    var offset: nat
    var qualName: Option<string>

    /** A child of `parent`; the root has none. */
    constructor (name: string, parent: AVar?)
      ensures this.name == name && this.parent == parent && qualName == None
      ensures depth == if parent == null then 0 else parent.depth + 1
      ensures parent == null || parent.Rooted() ==> Rooted()
    {
      this.name, this.parent, qualName, offset := name, parent, None, 0;
      this.depth := if parent == null then 0 else parent.depth + 1;
    }

    /** The chain of parents ends at the root. */
    ghost predicate Rooted()
      decreases depth
    {
      if parent == null then depth == 0 else depth == parent.depth + 1 && parent.Rooted()
    }

    /** What `avar_qual_name` is meant to return. */
    ghost function QualName(): string
      requires Rooted()
      decreases depth
    {
      if parent == null then "<main>"
      else if parent.parent == null then name
      else parent.QualName() + "." + name
    }

    /** The variable and its ancestors. */
    ghost function Line(): set<AVar>
      requires Rooted()
      decreases depth
    {
      {this} + if parent == null then {} else parent.Line()
    }
  }

  /** Every cached name is the right one. */
  ghost predicate CachesOk(s: set<AVar>)
    reads s
  {
    forall a :: a in s ==> a.Rooted() && (a.qualName.Some? ==> a.qualName.value == a.QualName())
  }

  /** `avar_qual_name`, which fills in the cache along the way. */
  method AVarQualName(av: AVar, ghost s: set<AVar>) returns (name: string)
    requires CachesOk(s) && av.Rooted() && av.Line() <= s
    modifies s`qualName
    ensures CachesOk(s) && name == av.QualName()
    decreases av.depth
  {
    if av.qualName.Some? {
      return av.qualName.value;
    }
    if av.parent == null {
      return "<main>";
    }
    if av.parent.parent == null {
      return av.name;
    }
    var parent := AVarQualName(av.parent, s);
    name := parent + "." + av.name;
    av.qualName := Some(name);
  }

  /** A module's variables: submodules, references and simulated variables. */
  datatype Tree = Module(av: AVar, avars: seq<Tree>) | Ref(av: AVar) | Leaf(av: AVar)

  /** The simulated variables below some siblings, in order. */
  function Leaves(ts: seq<Tree>): seq<AVar>
    decreases ts, 0
  {
    if ts == [] then [] else Leaves(ts[..|ts| - 1]) + LeavesOf(ts[|ts| - 1])
  }

  function LeavesOf(t: Tree): seq<AVar>
    decreases t, 1
  {
    match t
    case Module(_, avars) => Leaves(avars)
    case Ref(_) => []
    case Leaf(av) => [av]
  }

  ghost predicate Distinct(xs: seq<AVar>) {
    forall i, j :: 0 <= i < j < |xs| ==> xs[i] != xs[j]
  }

  function Members(xs: seq<AVar>): set<AVar> {
    set a | a in xs
  }

  /** A stretch of a distinct list: distinct itself, and nothing in it occurs before it. */
  lemma Stretch(before: seq<AVar>, xs: seq<AVar>, all: seq<AVar>)
    requires before + xs <= all && Distinct(all)
    ensures Distinct(xs) && Members(xs) <= Members(all)
    ensures forall i :: 0 <= i < |before| ==> before[i] !in Members(xs)
  {
    assert forall i :: 0 <= i < |before| ==> all[i] == before[i];
    assert forall i :: 0 <= i < |xs| ==> all[|before| + i] == xs[i];
  }

  /** Consecutive offsets from `base`. */
  ghost predicate Numbered(xs: seq<AVar>, base: nat)
    reads Members(xs)
  {
    forall i :: 0 <= i < |xs| ==> xs[i].offset == base + i
  }

  /** `module_assign_offsets`. */
  method AssignOffsets(ts: seq<Tree>, offset: nat, ghost vars: set<AVar>) returns (next: nat)
    requires Distinct(Leaves(ts)) && Members(Leaves(ts)) <= vars
    modifies Members(Leaves(ts))`offset
    ensures Numbered(Leaves(ts), offset) && next == offset + |Leaves(ts)|
    decreases ts
  {
    next := offset;
    var i := 0;
    while i < |ts|
      invariant 0 <= i <= |ts|
      invariant Leaves(ts[..i]) <= Leaves(ts)
      invariant Numbered(Leaves(ts[..i]), offset) && next == offset + |Leaves(ts[..i])|
    {
      ghost var before := Leaves(ts[..i]);
      LeavesPrefix(ts, i);
      Stretch(before, LeavesOf(ts[i]), Leaves(ts));
      Apart(before, LeavesOf(ts[i]), Leaves(ts), vars);
      next := AssignOne(ts[i], next, vars);
      assert Numbered(before, offset);
      i := i + 1;
    }
    assert ts[..|ts|] == ts;
  }

  /** One round of the loop. */
  method AssignOne(t: Tree, offset: nat, ghost vars: set<AVar>) returns (next: nat)
    requires Distinct(LeavesOf(t)) && Members(LeavesOf(t)) <= vars
    modifies Members(LeavesOf(t))`offset
    ensures Numbered(LeavesOf(t), offset) && next == offset + |LeavesOf(t)|
    decreases t
  {
    next := offset;
    if t.Module? {
      next := AssignOffsets(t.avars, next, vars);
    } else if t.Leaf? {
      assert t.av in Members(LeavesOf(t));
      t.av.offset := next;
      next := next + 1;
    }
  }

  /** What comes before a stretch is in the set, and not in the stretch. */
  lemma Apart(before: seq<AVar>, xs: seq<AVar>, all: seq<AVar>, vars: set<AVar>)
    requires before + xs <= all && Distinct(all) && Members(all) <= vars
    ensures forall i :: 0 <= i < |before| ==> before[i] in vars && before[i] !in Members(xs)
  {
    forall i | 0 <= i < |before|
      ensures before[i] in vars && before[i] !in Members(xs)
    {
      assert all[i] == before[i] && all[i] in Members(all);
      assert forall j :: 0 <= j < |xs| ==> all[|before| + j] == xs[j];
    }
  }

  /** The leaves of the first siblings, then those of the next one, begin the leaves of all. */
  lemma {:induction false} LeavesPrefix(ts: seq<Tree>, i: nat)
    requires i < |ts|
    ensures Leaves(ts[..i + 1]) == Leaves(ts[..i]) + LeavesOf(ts[i])
    ensures Leaves(ts[..i + 1]) <= Leaves(ts)
    decreases |ts|
  {
    assert ts[..i + 1][..i] == ts[..i];
    if i + 1 == |ts| {
      assert ts[..i + 1] == ts;
    } else {
      var front := ts[..|ts| - 1];
      LeavesPrefix(front, i);
      assert front[..i + 1] == ts[..i + 1];
    }
  }

  /** Every variable of the list has a name, and its ancestors are in the set. */
  ghost predicate Named(xs: seq<AVar>, s: set<AVar>) {
    forall i :: 0 <= i < |xs| ==> xs[i].Rooted() && xs[i].Line() <= s
  }

  ghost function QualNames(xs: seq<AVar>): (names: seq<string>)
    requires forall i :: 0 <= i < |xs| ==> xs[i].Rooted()
    ensures |names| == |xs|
  {
    seq(|xs|, i requires 0 <= i < |xs| => xs[i].QualName())
  }

  /** The first `max` of some names. */
  function Take(names: seq<string>, max: nat): seq<string> {
    if |names| <= max then names else names[..max]
  }

  lemma NamedStretch(before: seq<AVar>, xs: seq<AVar>, all: seq<AVar>, s: set<AVar>)
    requires before + xs <= all && Named(all, s)
    ensures Named(before, s) && Named(xs, s)
  {
    assert forall i :: 0 <= i < |before| ==> all[i] == before[i];
    assert forall i :: 0 <= i < |xs| ==> all[|before| + i] == xs[i];
  }

  /** Filling up to `max` in two goes is filling up to `max`. */
  lemma TakeMore(a: seq<AVar>, b: seq<AVar>, max: nat)
    requires forall i :: 0 <= i < |a| ==> a[i].Rooted()
    requires forall i :: 0 <= i < |b| ==> b[i].Rooted()
    ensures Take(QualNames(a), max) + Take(QualNames(b), max - |Take(QualNames(a), max)|) == Take(QualNames(a + b), max)
  {
    assert QualNames(a + b) == QualNames(a) + QualNames(b);
  }

  /** `module_get_varnames`: the qualified names of the first `max` simulated variables, in slab order. */
  method GetVarnames(ts: seq<Tree>, max: nat, ghost s: set<AVar>) returns (names: seq<string>)
    requires CachesOk(s) && Named(Leaves(ts), s)
    modifies s`qualName
    ensures CachesOk(s) && names == Take(QualNames(Leaves(ts)), max)
    decreases ts, 0
  {
    names := [];
    var i := 0;
    while i < |ts| && |names| < max
      invariant 0 <= i <= |ts| && CachesOk(s)
      invariant Leaves(ts[..i]) <= Leaves(ts)
      invariant names == Take(QualNames(Leaves(ts[..i])), max)
    {
      LeavesPrefix(ts, i);
      NamedStretch(Leaves(ts[..i]), LeavesOf(ts[i]), Leaves(ts), s);
      TakeMore(Leaves(ts[..i]), LeavesOf(ts[i]), max);
      var more := VarnamesOf(ts[i], max - |names|, s);
      names := names + more;
      i := i + 1;
    }
    if i == |ts| {
      assert ts[..|ts|] == ts;
    }
  }

  /** The body of that loop: a submodule's names, a variable's name, or nothing for a reference. */
  method VarnamesOf(t: Tree, max: nat, ghost s: set<AVar>) returns (names: seq<string>)
    requires CachesOk(s) && Named(LeavesOf(t), s) && max > 0
    modifies s`qualName
    ensures CachesOk(s) && names == Take(QualNames(LeavesOf(t)), max)
    decreases t, 1
  {
    match t
    case Module(_, avars) => names := GetVarnames(avars, max, s);
    case Ref(_) => names := [];
    case Leaf(av) =>
      assert LeavesOf(t)[0] == av;
      var name := AVarQualName(av, s);
      names := [name];
  }

  /** Names and layout agree: the name at a position is that of the variable at that offset. */
  lemma NamesFollowOffsets(xs: seq<AVar>, max: nat, v: AVar)
    requires Numbered(xs, 0) && v in xs && forall i :: 0 <= i < |xs| ==> xs[i].Rooted()
    ensures v.offset < |xs|
    ensures v.offset < max ==> v.offset < |Take(QualNames(xs), max)| && Take(QualNames(xs), max)[v.offset] == v.QualName()
  {
  }

  /** `strchr(s, '.')`, from a position. */
  function DotAt(s: string, i: nat): (dot: Option<nat>)
    requires i <= |s|
    ensures dot.Some? ==> i <= dot.value < |s| && s[dot.value] == '.'
    decreases |s| - i
  {
    if i == |s| then None else if s[i] == '.' then Some(i) else DotAt(s, i + 1)
  }

  /** `resolve`: where in the tree it finds a name, as the positions to descend by. */
  function Resolve(ts: seq<Tree>, name: string): Option<seq<nat>>
    decreases ts, |ts| + 1
  {
    var s := if |name| > 0 && name[0] == '.' then name[1..] else name;
    Search(ts, s, DotAt(s, 0), 0)
  }

  /** The loop of `resolve`: a submodule is entered when its name starts with the part before the dot. */
  function Search(ts: seq<Tree>, s: string, dot: Option<nat>, i: nat): Option<seq<nat>>
    requires i <= |ts| && (dot.Some? ==> dot.value < |s|)
    decreases ts, |ts| - i
  {
    if i == |ts| then None
    else if dot.Some? && ts[i].Module? && s[..dot.value] <= ts[i].av.name then
      match Resolve(ts[i].avars, s[dot.value + 1..])
      case None => None
      case Some(path) => Some([i] + path)
    else if ts[i].av.name == s then Some([i])
    else Search(ts, s, dot, i + 1)
  }

  /** Positions that lead through submodules to a variable. */
  predicate IsPath(ts: seq<Tree>, path: seq<nat>)
    decreases path
  {
    path != [] && path[0] < |ts| && (|path| > 1 ==> ts[path[0]].Module? && IsPath(ts[path[0]].avars, path[1..]))
  }

  function At(ts: seq<Tree>, path: seq<nat>): Tree
    requires IsPath(ts, path)
    decreases path
  {
    if |path| == 1 then ts[path[0]] else At(ts[path[0]].avars, path[1..])
  }

  /** The names along a path, with dots. */
  function PathName(ts: seq<Tree>, path: seq<nat>): string
    requires IsPath(ts, path)
    decreases path
  {
    if |path| == 1 then ts[path[0]].av.name else ts[path[0]].av.name + "." + PathName(ts[path[0]].avars, path[1..])
  }

  /** How many simulated variables come before the one at the end of a path. */
  function Rank(ts: seq<Tree>, path: seq<nat>): nat
    requires IsPath(ts, path)
    decreases path
  {
    |Leaves(ts[..path[0]])| + if |path| == 1 then 0 else Rank(ts[path[0]].avars, path[1..])
  }

  /** A path to a simulated variable leads to a place in the order of all of them. */
  lemma {:induction false} LeafAtRank(ts: seq<Tree>, path: seq<nat>)
    requires IsPath(ts, path) && At(ts, path).Leaf?
    ensures Rank(ts, path) < |Leaves(ts[..path[0] + 1])| <= |Leaves(ts)|
    ensures Leaves(ts)[Rank(ts, path)] == At(ts, path).av
    decreases path
  {
    LeavesPrefix(ts, path[0]);
    var own := LeavesOf(ts[path[0]]);
    if |path| == 1 {
      assert own == [At(ts, path).av];
    } else {
      LeafAtRank(ts[path[0]].avars, path[1..]);
    }
  }

  /** ... and there is no other simulated variable: each of them is at the end of some path. */
  lemma {:induction false} LeafHasPath(ts: seq<Tree>, k: nat) returns (path: seq<nat>)
    requires k < |Leaves(ts)|
    ensures IsPath(ts, path) && At(ts, path) == Leaf(Leaves(ts)[k]) && path[0] < |ts|
    decreases ts, 0
  {
    var last, front := |ts| - 1, ts[..|ts| - 1];
    if k < |Leaves(front)| {
      path := LeafHasPath(front, k);
      PathInFront(ts, path);
    } else {
      var rest := LeafOfHasPath(ts[last], k - |Leaves(front)|);
      path := [last] + rest;
      assert path[1..] == rest;
    }
  }

  lemma {:induction false} LeafOfHasPath(t: Tree, k: nat) returns (rest: seq<nat>)
    requires k < |LeavesOf(t)|
    ensures t.Leaf? ==> rest == [] && t.av == LeavesOf(t)[k]
    ensures !t.Leaf? ==> t.Module? && IsPath(t.avars, rest) && At(t.avars, rest) == Leaf(LeavesOf(t)[k])
    decreases t, 1
  {
    rest := [];
    if t.Module? {
      rest := LeafHasPath(t.avars, k);
    }
  }

  lemma PathInFront(ts: seq<Tree>, path: seq<nat>)
    requires ts != [] && IsPath(ts[..|ts| - 1], path)
    ensures IsPath(ts, path) && At(ts, path) == At(ts[..|ts| - 1], path)
  {
  }

  /** A path that turns off before another. */
  predicate Before(p: seq<nat>, q: seq<nat>) {
    p != [] && q != [] && (p[0] < q[0] || (p[0] == q[0] && Before(p[1..], q[1..])))
  }

  lemma {:induction false} PrefixGrows(ts: seq<Tree>, i: nat, j: nat)
    requires i <= j <= |ts|
    ensures |Leaves(ts[..i])| <= |Leaves(ts[..j])|
    decreases j
  {
    if i < j {
      PrefixGrows(ts, i, j - 1);
      LeavesPrefix(ts, j - 1);
    }
  }

  lemma {:induction false} RankOrder(ts: seq<Tree>, p: seq<nat>, q: seq<nat>)
    requires IsPath(ts, p) && IsPath(ts, q) && At(ts, p).Leaf? && At(ts, q).Leaf? && Before(p, q)
    ensures Rank(ts, p) < Rank(ts, q)
    decreases p
  {
    if p[0] < q[0] {
      LeafAtRank(ts, p);
      PrefixGrows(ts, p[0] + 1, q[0]);
    } else {
      RankOrder(ts[p[0]].avars, p[1..], q[1..]);
    }
  }

  /** Offsets follow the order in which the tree is written down. */
  lemma OffsetsFollowPaths(ts: seq<Tree>, base: nat, p: seq<nat>, q: seq<nat>)
    requires Numbered(Leaves(ts), base)
    requires IsPath(ts, p) && IsPath(ts, q) && At(ts, p).Leaf? && At(ts, q).Leaf? && Before(p, q)
    ensures base <= At(ts, p).av.offset < At(ts, q).av.offset < base + |Leaves(ts)|
  {
    LeafAtRank(ts, p);
    LeafAtRank(ts, q);
    RankOrder(ts, p, q);
  }

  /** Names are not empty and have no dots, and siblings have different names. */
  ghost predicate NamesOk(ts: seq<Tree>)
    decreases ts
  {
    && (forall i :: 0 <= i < |ts| ==> ts[i].av.name != "" && '.' !in ts[i].av.name)
    && (forall i, j :: 0 <= i < j < |ts| ==> ts[i].av.name != ts[j].av.name)
    && forall i :: 0 <= i < |ts| && ts[i].Module? ==> NamesOk(ts[i].avars)
  }

  /** At no level does an earlier submodule's name begin with the name that the path takes. */
  predicate Unshadowed(ts: seq<Tree>, path: seq<nat>)
    requires IsPath(ts, path)
    decreases path
  {
    |path| == 1 ||
    ( && (forall j :: 0 <= j < path[0] && ts[j].Module? ==> !(ts[path[0]].av.name <= ts[j].av.name))
      && Unshadowed(ts[path[0]].avars, path[1..]))
  }

  lemma {:induction false} DotAtFirst(s: string, i: nat, k: nat)
    requires i <= k < |s| && s[k] == '.' && forall j :: i <= j < k ==> s[j] != '.'
    ensures DotAt(s, i) == Some(k)
    decreases k - i
  {
    if i < k {
      DotAtFirst(s, i + 1, k);
    }
  }

  lemma {:induction false} DotAtNone(s: string, i: nat)
    requires i <= |s| && forall j :: i <= j < |s| ==> s[j] != '.'
    ensures DotAt(s, i) == None
    decreases |s| - i
  {
    if i < |s| {
      DotAtNone(s, i + 1);
    }
  }

  /** A dotted name: the first submodule whose name begins with its first part is the one that is entered. */
  lemma {:induction false} SearchEnters(ts: seq<Tree>, s: string, dot: nat, i: nat, k: nat)
    requires NamesOk(ts) && i <= k < |ts| && dot < |s| && s[dot] == '.'
    requires ts[k].Module? && s[..dot] <= ts[k].av.name
    requires forall j :: i <= j < k && ts[j].Module? ==> !(s[..dot] <= ts[j].av.name)
    ensures Search(ts, s, Some(dot), i) == Search(ts, s, Some(dot), k)
    decreases k - i
  {
    if i < k {
      assert '.' in s;
      SearchEnters(ts, s, dot, i + 1, k);
    }
  }

  /** ... so its second part is resolved there. */
  lemma ResolveEnters(ts: seq<Tree>, s: string, dot: nat, k: nat)
    requires NamesOk(ts) && k < |ts| && dot < |s| && s[0] != '.' && DotAt(s, 0) == Some(dot)
    requires ts[k].Module? && s[..dot] <= ts[k].av.name
    requires forall j :: 0 <= j < k && ts[j].Module? ==> !(s[..dot] <= ts[j].av.name)
    ensures Resolve(ts, s) == match Resolve(ts[k].avars, s[dot + 1..]) { case None => None case Some(path) => Some([k] + path) }
  {
    SearchEnters(ts, s, dot, 0, k);
  }

  /** A name without dots: the only variable of that name is found. */
  lemma {:induction false} SearchFinds(ts: seq<Tree>, s: string, i: nat, k: nat)
    requires NamesOk(ts) && i <= k < |ts| && s == ts[k].av.name
    ensures Search(ts, s, None, i) == Some([k])
    decreases k - i
  {
    if i < k {
      SearchFinds(ts, s, i + 1, k);
    }
  }

  /** The name of a path is resolved to that path exactly when no submodule on the way is shadowed. */
  lemma {:induction false} ResolveExact(ts: seq<Tree>, path: seq<nat>)
    requires NamesOk(ts) && IsPath(ts, path)
    ensures Resolve(ts, PathName(ts, path)) == Some(path) <==> Unshadowed(ts, path)
    decreases path
  {
    hide Search;
    var k, s := path[0], PathName(ts, path);
    var first := ts[k].av.name;
    assert s[0] == first[0] && first[0] in first;
    if |path| == 1 {
      DotAtNone(s, 0);
      SearchFinds(ts, s, 0, k);
      assert path == [k];
    } else {
      var dot := |first|;
      assert s[..dot] == first && s[dot + 1..] == PathName(ts[k].avars, path[1..]);
      DotAtFirst(s, 0, dot);
      ResolveExact(ts[k].avars, path[1..]);
      if forall j :: 0 <= j < k && ts[j].Module? ==> !(first <= ts[j].av.name) {
        ResolveEnters(ts, s, dot, k);
        assert path == [k] + path[1..];
      } else {
        var j := FirstShadow(ts, first, k);
        ResolveEnters(ts, s, dot, j);
      }
    }
  }

  /** The first submodule that shadows a name. */
  lemma FirstShadow(ts: seq<Tree>, first: string, k: nat) returns (j: nat)
    requires k <= |ts| && exists j :: 0 <= j < k && ts[j].Module? && first <= ts[j].av.name
    ensures j < k && ts[j].Module? && first <= ts[j].av.name
    ensures forall i :: 0 <= i < j && ts[i].Module? ==> !(first <= ts[i].av.name)
  {
    j := 0;
    while !(ts[j].Module? && first <= ts[j].av.name)
      invariant j < k && forall i :: 0 <= i < j && ts[i].Module? ==> !(first <= ts[i].av.name)
      invariant exists j' :: j <= j' < k && ts[j'].Module? && first <= ts[j'].av.name
      decreases k - j
    {
      j := j + 1;
    }
  }

  /** The tree's parent pointers are right. */
  ghost predicate Parented(ts: seq<Tree>, parent: AVar)
    decreases ts
  {
    parent.Rooted() &&
    forall i :: 0 <= i < |ts| ==>
      && ts[i].av.parent == parent && ts[i].av.Rooted()
      && (ts[i].Module? ==> Parented(ts[i].avars, ts[i].av))
  }

  ghost function Prefix(parent: AVar): string
    requires parent.Rooted()
  {
    if parent.parent == null then "" else parent.QualName() + "."
  }

  /** `avar_qual_name` spells the path. */
  lemma {:induction false} QualNameIsPathName(ts: seq<Tree>, parent: AVar, path: seq<nat>)
    requires Parented(ts, parent) && IsPath(ts, path)
    ensures At(ts, path).av.Rooted() && At(ts, path).av.QualName() == Prefix(parent) + PathName(ts, path)
    decreases path
  {
    if |path| > 1 {
      var child := ts[path[0]];
      QualNameIsPathName(child.avars, child.av, path[1..]);
      var rest := PathName(child.avars, path[1..]);
      assert Prefix(child.av) == Prefix(parent) + child.av.name + ".";
      assert Prefix(parent) + child.av.name + "." + rest == Prefix(parent) + (child.av.name + "." + rest);
    }
  }

  /** Resolving a variable's qualified name from the root gives the variable, exactly when nothing shadows it. */
  lemma ResolveQualName(ts: seq<Tree>, root: AVar, path: seq<nat>)
    requires Parented(ts, root) && root.parent == null && NamesOk(ts) && IsPath(ts, path)
    ensures At(ts, path).av.Rooted()
    ensures Resolve(ts, At(ts, path).av.QualName()) == Some(path) <==> Unshadowed(ts, path)
  {
    QualNameIsPathName(ts, root, path);
    assert "" + PathName(ts, path) == PathName(ts, path);
    ResolveExact(ts, path);
  }

  /** In a module without submodules `resolve` is the first-name search that the simulator's equations use. */
  lemma {:induction false} FlatSearch(ts: seq<Tree>, names: seq<string>, s: string, dot: Option<nat>, i: nat)
    requires |names| == |ts| && i <= |ts| && (dot.Some? ==> dot.value < |s|)
    requires forall j :: 0 <= j < |ts| ==> !ts[j].Module? && names[j] == ts[j].av.name
    ensures Search(ts, s, dot, i)
         == match E.FirstNamed(names, s, i) { case None => None case Some(k) => Some([k]) }
    decreases |ts| - i
  {
    if i < |ts| {
      FlatSearch(ts, names, s, dot, i + 1);
    }
  }

  /** ... whole names too: there `resolve` is the one that gives the simulator's equations their slots. */
  lemma FlatResolve(ts: seq<Tree>, names: seq<string>, name: string)
    requires |names| == |ts| && forall j :: 0 <= j < |ts| ==> !ts[j].Module? && names[j] == ts[j].av.name
    ensures Resolve(ts, name) == match E.Resolve(names, name) { case None => None case Some(k) => Some([k]) }
  {
    var s := if |name| > 0 && name[0] == '.' then name[1..] else name;
    FlatSearch(ts, names, s, DotAt(s, 0), 0);
  }

  /** What is found for a name has a name that the wanted one ends in. */
  lemma {:induction false} ResolveFindsName(ts: seq<Tree>, name: string, path: seq<nat>)
    requires Resolve(ts, name) == Some(path)
    ensures IsPath(ts, path) && EndsIn(name, At(ts, path).av.name)
    decreases ts, |ts| + 1
  {
    var s := if |name| > 0 && name[0] == '.' then name[1..] else name;
    SearchFindsName(ts, s, DotAt(s, 0), 0, path);
    EndsFurther(name, s, At(ts, path).av.name);
  }

  lemma {:induction false} SearchFindsName(ts: seq<Tree>, s: string, dot: Option<nat>, i: nat, path: seq<nat>)
    requires i <= |ts| && (dot.Some? ==> dot.value < |s|) && Search(ts, s, dot, i) == Some(path)
    ensures IsPath(ts, path) && EndsIn(s, At(ts, path).av.name)
    decreases ts, |ts| - i
  {
    if dot.Some? && ts[i].Module? && s[..dot.value] <= ts[i].av.name {
      var rest := path[1..];
      ResolveFindsName(ts[i].avars, s[dot.value + 1..], rest);
      EndsFurther(s, s[dot.value + 1..], At(ts[i].avars, rest).av.name);
    } else if ts[i].av.name != s {
      SearchFindsName(ts, s, dot, i + 1, path);
    }
  }

  predicate EndsIn(s: string, t: string) {
    |t| <= |s| && s[|s| - |t|..] == t
  }

  lemma EndsFurther(s: string, t: string, u: string)
    requires EndsIn(s, t) && EndsIn(t, u)
    ensures EndsIn(s, u)
  {
    assert s[|s| - |u|..] == s[|s| - |t|..][|t| - |u|..];
  }

  /** A leading dot is ignored. */
  lemma LeadingDot(ts: seq<Tree>, name: string)
    requires name == "" || name[0] != '.'
    ensures Resolve(ts, "." + name) == Resolve(ts, name)
  {
    assert ("." + name)[1..] == name;
  }

  /** A submodule `ab` before the submodule `a` hides `a.x`: its name begins with the part to be entered. */
  lemma ResolveCanMiss(ab: AVar, a: AVar, x: AVar)
    requires ab.name == "ab" && a.name == "a" && x.name == "x"
    ensures var ts := [Module(ab, []), Module(a, [Leaf(x)])];
      && NamesOk(ts) && IsPath(ts, [1, 0]) && At(ts, [1, 0]) == Leaf(x) && PathName(ts, [1, 0]) == "a.x"
      && Resolve(ts, "a.x") == None
  {
    var ts := [Module(ab, []), Module(a, [Leaf(x)])];
    assert [1, 0][1..] == [0];
    assert NamesOk(ts[1].avars);
    DotAtFirst("a.x", 0, 1);
    assert "a.x"[..1] == "a" && "a.x"[2..] == "x";
    assert "a" <= "ab";
    assert Search(ts, "a.x", Some(1), 0) == None;
  }
}
