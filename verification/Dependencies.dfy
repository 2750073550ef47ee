/**
 The dependency pass of check_deps in dpkg.c. Dependencies are kept as a flat list of edges in
 which a group of alternatives is announced by an edge of its own that counts them.
 */
module Dependencies {
  import opened Sums
  import opened VersionOrder

  const EDGE_PRE_DEPENDS := 1
  const EDGE_OR_PRE_DEPENDS := 2
  const EDGE_DEPENDS := 3
  const EDGE_OR_DEPENDS := 4
  const EDGE_PROVIDES := 7

  /** name and version are indices of interned strings; in an OR edge version is the number of
      alternatives that follow. */
  datatype Edge = Edge(kind: nat, name: nat, version: nat, op: Operator)

  // ----- add_split_dependencies -----

  /** One alternative of a dependency. */
  datatype Dep = Dep(name: nat, version: nat, op: Operator)

  /** One comma-separated field: the whole text, whether it contains a bar, its alternatives. */
  datatype Field = Field(text: nat, bar: bool, alts: seq<Dep>)

  predicate ValidField(f: Field)
  {
    |f.alts| >= 1 && (!f.bar ==> |f.alts| == 1)
  }

  predicate IsDependency(kind: nat)
  {
    kind == EDGE_PRE_DEPENDS || kind == EDGE_DEPENDS
  }

  /** A kind of line that add_split_dependencies is called with. */
  predicate LineKind(kind: nat)
  {
    kind % 2 == 1
  }

  function AltEdge(kind: nat, d: Dep): Edge
  {
    Edge(kind, d.name, d.version, d.op)
  }

  function AltEdges(kind: nat, alts: seq<Dep>): (s: seq<Edge>)
    ensures |s| == |alts| && forall i :: 0 <= i < |s| ==> s[i] == AltEdge(kind, alts[i])
  {
    seq(|alts|, i requires 0 <= i < |alts| => AltEdge(kind, alts[i]))
  }

  function OrEdge(kind: nat, f: Field): Edge
  {
    Edge(kind + 1, f.text, |f.alts|, Null)
  }

  function FieldEdges(kind: nat, f: Field): seq<Edge>
  {
    if IsDependency(kind) && f.bar then [OrEdge(kind, f)] + AltEdges(kind, f.alts) else AltEdges(kind, f.alts)
  }

  function LineEdges(kind: nat, fields: seq<Field>): seq<Edge>
  {
    if fields == [] then [] else LineEdges(kind, fields[..|fields| - 1]) + FieldEdges(kind, fields[|fields| - 1])
  }

  // what the edges of a line say, field by field

  /** The edge has the fields of the alternative. */
  predicate AltStored(e: Edge, kind: nat, d: Dep)
  {
    e.kind == kind && e.name == d.name && e.version == d.version && e.op == d.op
  }

  /** Alternatives are announced by an edge that names the whole field and counts them. */
  predicate Announced(kind: nat, f: Field)
  {
    (kind == EDGE_DEPENDS || kind == EDGE_PRE_DEPENDS) && f.bar
  }

  function Width(kind: nat, f: Field): nat
  {
    |f.alts| + if Announced(kind, f) then 1 else 0
  }

  ghost predicate FieldStored(s: seq<Edge>, kind: nat, f: Field)
  {
    && |s| == Width(kind, f)
    && (Announced(kind, f) ==> s[0].kind == kind + 1 && s[0].name == f.text && s[0].version == |f.alts|)
    && forall i :: 0 <= i < |f.alts| ==> AltStored(s[|s| - |f.alts| + i], kind, f.alts[i])
  }

  /** The edges are those of the fields, one after the other. */
  ghost predicate LineStored(s: seq<Edge>, kind: nat, fields: seq<Field>)
    decreases |fields|
  {
    if fields == [] then s == []
    else
      var init, f := fields[..|fields| - 1], fields[|fields| - 1];
      var n := |s| - Width(kind, f);
      n >= 0 && LineStored(s[..n], kind, init) && FieldStored(s[n..], kind, f)
  }

  lemma {:induction false} FieldIsStored(kind: nat, f: Field)
    ensures FieldStored(FieldEdges(kind, f), kind, f)
  {
  }

  lemma {:induction false} LineIsStored(kind: nat, fields: seq<Field>)
    ensures LineStored(LineEdges(kind, fields), kind, fields)
  {
    hide FieldEdges, FieldStored;
    if fields != [] {
      var init, f := fields[..|fields| - 1], fields[|fields| - 1];
      LineIsStored(kind, init);
      FieldIsStored(kind, f);
      var s, n := LineEdges(kind, fields), |LineEdges(kind, init)|;
      assert |FieldEdges(kind, f)| == Width(kind, f) by {
        FieldWidth(kind, f);
      }
      assert s[..n] == LineEdges(kind, init) && s[n..] == FieldEdges(kind, f);
    }
  }

  lemma {:induction false} FieldWidth(kind: nat, f: Field)
    ensures |FieldEdges(kind, f)| == Width(kind, f)
  {
  }

  class Node {
    var edges: seq<Edge>

    constructor ()
      ensures edges == []
    {
      edges := [];
    }

    /** The inner loop: one edge for every alternative, counted in the OR edge if there is one. */
    method AddField(kind: nat, f: Field)
      requires ValidField(f)
      modifies this
      ensures edges == old(edges) + FieldEdges(kind, f)
    {
      var orEdge := -1;
      ghost var before := edges;
      if IsDependency(kind) && f.bar {
        orEdge := |edges|;
        edges := edges + [Edge(kind + 1, f.text, 0, Null)];
      }
      for i := 0 to |f.alts|
        invariant orEdge == -1 || orEdge == |before| < |edges|
        invariant edges == before + (if orEdge >= 0 then [Edge(kind + 1, f.text, i, Null)] else []) + AltEdges(kind, f.alts)[..i]
      {
        if orEdge >= 0 {
          edges := edges[orEdge := edges[orEdge].(version := edges[orEdge].version + 1)];
        }
        edges := edges + [AltEdge(kind, f.alts[i])];
        assert AltEdges(kind, f.alts)[..i + 1] == AltEdges(kind, f.alts)[..i] + [AltEdge(kind, f.alts[i])];
      }
      assert AltEdges(kind, f.alts)[..|f.alts|] == AltEdges(kind, f.alts);
    }

    /** add_split_dependencies: the edges of the line are appended. Each alternative has an edge
        with its name, version and operator, and every OR edge counts the alternatives that
        follow it. */
    method AddSplitDependencies(fields: seq<Field>, kind: nat)
      requires forall i :: 0 <= i < |fields| ==> ValidField(fields[i])
      modifies this
      ensures edges == old(edges) + LineEdges(kind, fields)
      ensures LineStored(edges[|old(edges)|..], kind, fields)
    {
      hide LineStored, FieldEdges;
      ghost var before := edges;
      for n := 0 to |fields|
        invariant edges == before + LineEdges(kind, fields[..n])
      {
        AddField(kind, fields[n]);
        assert fields[..n + 1][..n] == fields[..n];
      }
      assert fields[..|fields|] == fields;
      assert edges[|before|..] == LineEdges(kind, fields);
      LineIsStored(kind, fields);
    }
  }

  // ----- what is known about packages -----

  datatype Package = Package(name: nat, edges: seq<Edge>)

  /** The package table, the index that search_package_hashtable finds for a name, version and
      operator, whether a package satisfies a dependency of a kind, and whether it has a status
      and is wanted as "install". */
  datatype World = World(
    packages: seq<Option<Package>>,
    find: (nat, nat, Operator) -> nat,
    fits: (nat, nat) -> bool,
    wanted: nat -> bool)

  ghost predicate ValidWorld(w: World)
  {
    forall name, version, op :: w.find(name, version, op) < |w.packages|
  }

  predicate ProvidesIn(s: seq<Edge>, name: nat)
  {
    exists j :: 0 <= j < |s| && s[j].kind == EDGE_PROVIDES && s[j].name == name
  }

  predicate Provides(p: Option<Package>, needle: nat)
  {
    p.Some? && ProvidesIn(p.value.edges, needle)
  }

  /** A package with the name is there and fits, or one that provides the name does. */
  ghost predicate Satisfied(w: World, e: Edge)
    requires ValidWorld(w)
  {
    || (w.packages[w.find(e.name, e.version, e.op)].Some? && w.fits(w.find(e.name, e.version, e.op), e.kind))
    || exists i :: 0 <= i < |w.packages| && Provides(w.packages[i], e.name) && w.fits(i, e.kind)
  }

  /** search_for_provides: the first provider behind start, -1 if there is none. */
  method SearchForProvides(w: World, needle: nat, start: int) returns (r: int)
    requires start >= -1
    ensures r == -1 ==> forall i :: start < i < |w.packages| ==> !Provides(w.packages[i], needle)
    ensures r != -1 ==> && start < r < |w.packages| && Provides(w.packages[r], needle)
                        && forall i :: start < i < r ==> !Provides(w.packages[i], needle)
  {
    var i := start + 1;
    while i < |w.packages|
      invariant start < i
      invariant forall k :: start < k < i && k < |w.packages| ==> !Provides(w.packages[k], needle)
    {
      if w.packages[i].Some? {
        var p := w.packages[i].value;
        for j := 0 to |p.edges|
          invariant forall k :: 0 <= k < j ==> !(p.edges[k].kind == EDGE_PROVIDES && p.edges[k].name == needle)
        {
          if p.edges[j].kind == EDGE_PROVIDES && p.edges[j].name == needle {
            return i;
          }
        }
      }
      i := i + 1;
    }
    return -1;
  }

  /** Whether the edge is satisfied, directly or by some provider. */
  method TryEdge(w: World, e: Edge) returns (satisfied: bool)
    requires ValidWorld(w)
    ensures satisfied <==> Satisfied(w, e)
  {
    var package := w.find(e.name, e.version, e.op);
    satisfied := false;
    if w.packages[package].Some? {
      satisfied := w.fits(package, e.kind);
    }
    if !satisfied {
      var provider := -1;
      while true
        invariant -1 <= provider < |w.packages|
        invariant forall i :: 0 <= i <= provider && i < |w.packages| ==> !(Provides(w.packages[i], e.name) && w.fits(i, e.kind))
        decreases |w.packages| - provider
      {
        var next := SearchForProvides(w, e.name, provider);
        if next == -1 {
          break;
        }
        provider := next;
        satisfied := w.fits(provider, e.kind);
        if satisfied {
          break;
        }
      }
    }
  }

  // ----- the pass over one package -----

  /** The loop over the edges from j on, with n alternatives left of the group root. */
  ghost function Scan(w: World, edges: seq<Edge>, j: nat, n: nat, root: Option<Edge>): bool
    requires ValidWorld(w)
    decreases |edges| - j
  {
    if j >= |edges| then true
    else
      var e := edges[j];
      if e.kind == EDGE_OR_PRE_DEPENDS || e.kind == EDGE_OR_DEPENDS then Scan(w, edges, j + 1, e.version, Some(e))
      else
        var left, group := if n == 0 then 1 else n, if n == 0 then None else root;
        if !IsDependency(e.kind) then Scan(w, edges, j + 1, left, group)
        else if group.Some? && e.kind != group.value.kind - 1 then false
        else if Satisfied(w, e) then Scan(w, edges, j + left, 0, group)
        else left > 1 && Scan(w, edges, j + 1, left - 1, group)
  }

  /** check_deps on one package: false stands for the error exit. */
  method CheckPackage(w: World, edges: seq<Edge>) returns (ok: bool)
    requires ValidWorld(w)
    ensures ok <==> Scan(w, edges, 0, 0, None)
  {
    hide Satisfied;
    var j, left: nat, root: Option<Edge> := 0, 0, None;
    while j < |edges|
      invariant 0 <= j && Scan(w, edges, j, left, root) == Scan(w, edges, 0, 0, None)
      decreases |edges| - j
    {
      var e := edges[j];
      if e.kind == EDGE_OR_PRE_DEPENDS || e.kind == EDGE_OR_DEPENDS {
        left, root := e.version, Some(e);
        j := j + 1;
        continue;
      }
      if left == 0 {
        left, root := 1, None;
      }
      if e.kind == EDGE_PRE_DEPENDS || e.kind == EDGE_DEPENDS {
        if root.Some? && e.kind != root.value.kind - 1 {
          return false;
        }
        var satisfied := TryEdge(w, e);
        left := left - 1;
        if !satisfied && left == 0 {
          return false;
        }
        if satisfied && left != 0 {
          j := j + left;
          left := 0;
        }
      }
      j := j + 1;
    }
    ok := true;
  }

  // ----- what the pass decides -----

  /** The alternative is met: the package found for its name, version and operator is there and
      fits, or some package that provides the name fits. */
  ghost predicate Met(w: World, kind: nat, d: Dep)
    requires ValidWorld(w)
  {
    var k := w.find(d.name, d.version, d.op);
    || (w.packages[k].Some? && w.fits(k, kind))
    || exists i :: 0 <= i < |w.packages| && Provides(w.packages[i], d.name) && w.fits(i, kind)
  }

  /** The edge of an alternative is satisfied when the alternative is met. */
  lemma {:induction false} MetBySatisfied(w: World, kind: nat, d: Dep)
    requires ValidWorld(w)
    ensures Satisfied(w, AltEdge(kind, d)) <==> Met(w, kind, d)
  {
  }

  /** One of the alternatives of the field is met. */
  ghost predicate FieldOk(w: World, kind: nat, f: Field)
    requires ValidWorld(w)
  {
    exists i :: 0 <= i < |f.alts| && Met(w, kind, f.alts[i])
  }

  /** The edges from j on start with those of s. */
  ghost predicate StartsAt(edges: seq<Edge>, j: nat, s: seq<Edge>)
  {
    j + |s| <= |edges| && edges[j..j + |s|] == s
  }

  lemma {:induction false} StartsEntry(edges: seq<Edge>, j: nat, s: seq<Edge>, i: nat)
    requires StartsAt(edges, j, s) && i < |s|
    ensures j + i < |edges| && edges[j + i] == s[i]
  {
    assert edges[j..j + |s|][i] == edges[j + i];
  }

  /** Outside of a group. */
  ghost predicate Outside(n: nat, root: Option<Edge>)
  {
    n == 0 || (n == 1 && root == None)
  }

  lemma {:induction false} ScanOutside(w: World, edges: seq<Edge>, j: nat, n: nat, root: Option<Edge>)
    requires ValidWorld(w) && Outside(n, root)
    ensures Scan(w, edges, j, n, root) == Scan(w, edges, j, 0, None)
  {
    hide Satisfied, ValidWorld;
  }

  /** Inside of a group, in front of alternative k, when none before it was satisfied. */
  lemma {:induction false} ScanGroup(w: World, edges: seq<Edge>, j: nat, kind: nat, f: Field, root: Edge, k: nat)
    requires ValidWorld(w) && ValidField(f) && IsDependency(kind) && root.kind == kind + 1 && k < |f.alts|
    requires StartsAt(edges, j, AltEdges(kind, f.alts)) && forall i :: 0 <= i < k ==> !Met(w, kind, f.alts[i])
    ensures Scan(w, edges, j + k, |f.alts| - k, Some(root)) == (FieldOk(w, kind, f) && Scan(w, edges, j + |f.alts|, 0, None))
    decreases |f.alts| - k
  {
    hide Satisfied, Met, ValidWorld;
    StartsEntry(edges, j, AltEdges(kind, f.alts), k);
    MetBySatisfied(w, kind, f.alts[k]);
    if Met(w, kind, f.alts[k]) {
      ScanOutside(w, edges, j + |f.alts|, 0, Some(root));
    } else if k + 1 < |f.alts| {
      ScanGroup(w, edges, j, kind, f, root, k + 1);
    }
  }

  /** Edges of other kinds are passed over. */
  lemma {:induction false} ScanOthers(w: World, edges: seq<Edge>, j: nat, kind: nat, alts: seq<Dep>, k: nat)
    requires ValidWorld(w) && !IsDependency(kind) && LineKind(kind) && k <= |alts| && StartsAt(edges, j, AltEdges(kind, alts))
    ensures Scan(w, edges, j + k, 0, None) == Scan(w, edges, j + |alts|, 0, None)
    decreases |alts| - k
  {
    hide Satisfied, ValidWorld;
    if k < |alts| {
      StartsEntry(edges, j, AltEdges(kind, alts), k);
      ScanOutside(w, edges, j + k + 1, 1, None);
      ScanOthers(w, edges, j, kind, alts, k + 1);
    }
  }

  /** The edges of one field. */
  lemma {:induction false} ScanField(w: World, edges: seq<Edge>, j: nat, kind: nat, f: Field)
    requires ValidWorld(w) && ValidField(f) && LineKind(kind) && StartsAt(edges, j, FieldEdges(kind, f))
    ensures Scan(w, edges, j, 0, None)
            == ((IsDependency(kind) ==> FieldOk(w, kind, f)) && Scan(w, edges, j + |FieldEdges(kind, f)|, 0, None))
  {
    hide Satisfied, Met, ValidWorld;
    var alts := AltEdges(kind, f.alts);
    MetBySatisfied(w, kind, f.alts[0]);
    if !IsDependency(kind) {
      ScanOthers(w, edges, j, kind, f.alts, 0);
    } else if f.bar {
      StartsEntry(edges, j, FieldEdges(kind, f), 0);
      StartsTwo(edges, j, [OrEdge(kind, f)], alts);
      ScanGroup(w, edges, j + 1, kind, f, OrEdge(kind, f), 0);
    } else {
      StartsEntry(edges, j, alts, 0);
      ScanOutside(w, edges, j + 1, 0, None);
    }
  }

  /** Every field has an alternative that is satisfied. */
  ghost predicate FieldsOk(w: World, kind: nat, fields: seq<Field>)
    requires ValidWorld(w)
  {
    forall i :: 0 <= i < |fields| ==> FieldOk(w, kind, fields[i])
  }

  lemma {:induction false} OneMoreField(w: World, kind: nat, fields: seq<Field>)
    requires ValidWorld(w) && fields != []
    ensures FieldsOk(w, kind, fields) <==> FieldsOk(w, kind, fields[..|fields| - 1]) && FieldOk(w, kind, fields[|fields| - 1])
  {
    hide FieldOk;
  }

  lemma {:induction false} StartsTwo(edges: seq<Edge>, j: nat, a: seq<Edge>, b: seq<Edge>)
    requires StartsAt(edges, j, a + b)
    ensures StartsAt(edges, j, a) && StartsAt(edges, j + |a|, b)
  {
    assert edges[j..j + |a + b|][..|a|] == edges[j..j + |a|];
    assert edges[j..j + |a + b|][|a|..] == edges[j + |a|..j + |a| + |b|];
  }

  /** The edges of one line. */
  lemma {:induction false} ScanLine(w: World, edges: seq<Edge>, j: nat, kind: nat, fields: seq<Field>)
    requires ValidWorld(w) && LineKind(kind) && (forall i :: 0 <= i < |fields| ==> ValidField(fields[i]))
    requires StartsAt(edges, j, LineEdges(kind, fields))
    ensures Scan(w, edges, j, 0, None)
            == ((IsDependency(kind) ==> FieldsOk(w, kind, fields)) && Scan(w, edges, j + |LineEdges(kind, fields)|, 0, None))
  {
    hide ValidWorld, FieldOk, Scan, StartsAt, FieldEdges, FieldsOk;
    if fields == [] {
      NoFields(w, kind);
    } else {
      var init, f := fields[..|fields| - 1], fields[|fields| - 1];
      var a, b := LineEdges(kind, init), FieldEdges(kind, f);
      StartsTwo(edges, j, a, b);
      ScanLine(w, edges, j, kind, init);
      ScanField(w, edges, j + |a|, kind, f);
      OneMoreField(w, kind, fields);
    }
  }

  lemma {:induction false} NoFields(w: World, kind: nat)
    requires ValidWorld(w)
    ensures FieldsOk(w, kind, [])
  {
  }

  /** One line of a package: its kind and its fields. */
  datatype Line = Line(kind: nat, fields: seq<Field>)

  predicate ValidLine(l: Line)
  {
    LineKind(l.kind) && forall i :: 0 <= i < |l.fields| ==> ValidField(l.fields[i])
  }

  function AllEdges(lines: seq<Line>): seq<Edge>
  {
    if lines == [] then [] else AllEdges(lines[..|lines| - 1]) + LineEdges(lines[|lines| - 1].kind, lines[|lines| - 1].fields)
  }

  /** Every comma-separated field of every Depends and Pre-Depends line has an alternative that
      is met. */
  ghost predicate LinesOk(w: World, lines: seq<Line>)
    requires ValidWorld(w)
  {
    forall i :: 0 <= i < |lines| && IsDependency(lines[i].kind) ==> FieldsOk(w, lines[i].kind, lines[i].fields)
  }

  lemma {:induction false} OneMoreLine(w: World, lines: seq<Line>)
    requires ValidWorld(w) && lines != []
    ensures var l := lines[|lines| - 1];
            LinesOk(w, lines) <==> LinesOk(w, lines[..|lines| - 1]) && (IsDependency(l.kind) ==> FieldsOk(w, l.kind, l.fields))
  {
    hide FieldsOk;
  }

  lemma {:induction false} ScanLines(w: World, edges: seq<Edge>, j: nat, lines: seq<Line>)
    requires ValidWorld(w) && (forall i :: 0 <= i < |lines| ==> ValidLine(lines[i])) && StartsAt(edges, j, AllEdges(lines))
    ensures Scan(w, edges, j, 0, None) == (LinesOk(w, lines) && Scan(w, edges, j + |AllEdges(lines)|, 0, None))
  {
    hide ValidWorld, FieldsOk, Scan, StartsAt, LineEdges, LinesOk;
    if lines == [] {
      NoLines(w);
    } else {
      var init, l := lines[..|lines| - 1], lines[|lines| - 1];
      var a, b := AllEdges(init), LineEdges(l.kind, l.fields);
      assert ValidLine(l);
      StartsTwo(edges, j, a, b);
      ScanLines(w, edges, j, init);
      ScanLine(w, edges, j + |a|, l.kind, l.fields);
      OneMoreLine(w, lines);
    }
  }

  lemma {:induction false} NoLines(w: World)
    requires ValidWorld(w)
    ensures LinesOk(w, [])
  {
  }

  lemma {:induction false} ScanEnd(w: World, edges: seq<Edge>)
    requires ValidWorld(w)
    ensures Scan(w, edges, |edges|, 0, None) && StartsAt(edges, 0, edges)
  {
  }

  /** The pass accepts a package exactly when all its dependencies are satisfied. */
  lemma {:induction false} PackageAccepted(w: World, lines: seq<Line>)
    requires ValidWorld(w) && forall i :: 0 <= i < |lines| ==> ValidLine(lines[i])
    ensures Scan(w, AllEdges(lines), 0, 0, None) <==> LinesOk(w, lines)
  {
    hide ValidWorld, LinesOk, Scan, StartsAt, AllEdges;
    ScanEnd(w, AllEdges(lines));
    ScanLines(w, AllEdges(lines), 0, lines);
  }

  // ----- what a package provides -----

  ghost predicate OffersIn(f: Field, name: nat)
  {
    exists k :: 0 <= k < |f.alts| && f.alts[k].name == name
  }

  /** A Provides line of the package has the name. */
  ghost predicate Offers(lines: seq<Line>, name: nat)
  {
    exists i, j :: 0 <= i < |lines| && lines[i].kind == EDGE_PROVIDES && 0 <= j < |lines[i].fields| && OffersIn(lines[i].fields[j], name)
  }

  lemma {:induction false} ProvidesJoin(s: seq<Edge>, t: seq<Edge>, name: nat)
    ensures ProvidesIn(s + t, name) <==> ProvidesIn(s, name) || ProvidesIn(t, name)
  {
    if ProvidesIn(s, name) {
      var j :| 0 <= j < |s| && s[j].kind == EDGE_PROVIDES && s[j].name == name;
      assert (s + t)[j] == s[j];
    }
    if ProvidesIn(t, name) {
      var j :| 0 <= j < |t| && t[j].kind == EDGE_PROVIDES && t[j].name == name;
      assert (s + t)[|s| + j] == t[j];
    }
  }

  lemma {:induction false} FieldProvides(kind: nat, f: Field, name: nat)
    requires LineKind(kind)
    ensures ProvidesIn(FieldEdges(kind, f), name) <==> kind == EDGE_PROVIDES && OffersIn(f, name)
  {
    if kind == EDGE_PROVIDES {
      var s := AltEdges(kind, f.alts);
      assert FieldEdges(kind, f) == s;
      forall i | 0 <= i < |f.alts| ensures s[i].kind == kind && s[i].name == f.alts[i].name {
      }
    }
  }

  lemma {:induction false} LineProvides(kind: nat, fields: seq<Field>, name: nat)
    requires LineKind(kind)
    ensures ProvidesIn(LineEdges(kind, fields), name) <==> kind == EDGE_PROVIDES && exists j :: 0 <= j < |fields| && OffersIn(fields[j], name)
  {
    hide FieldEdges, OffersIn, ProvidesIn;
    if fields == [] {
      NoneProvided(name);
    } else {
      var init, f := fields[..|fields| - 1], fields[|fields| - 1];
      LineProvides(kind, init, name);
      FieldProvides(kind, f, name);
      ProvidesJoin(LineEdges(kind, init), FieldEdges(kind, f), name);
      forall j | 0 <= j < |init| ensures init[j] == fields[j] {
      }
    }
  }

  lemma {:induction false} NoneProvided(name: nat)
    ensures !ProvidesIn([], name)
  {
  }

  /** A package provides exactly the names in its Provides lines. */
  lemma {:induction false} ProvidesLine(lines: seq<Line>, name: nat)
    requires forall i :: 0 <= i < |lines| ==> ValidLine(lines[i])
    ensures ProvidesIn(AllEdges(lines), name) <==> Offers(lines, name)
  {
    hide LineEdges, OffersIn, ProvidesIn;
    if lines == [] {
      NoneProvided(name);
    } else {
      var init, l := lines[..|lines| - 1], lines[|lines| - 1];
      assert ValidLine(l);
      ProvidesLine(init, name);
      LineProvides(l.kind, l.fields, name);
      ProvidesJoin(AllEdges(init), LineEdges(l.kind, l.fields), name);
      if Offers(init, name) {
        var i, j :| 0 <= i < |init| && init[i].kind == EDGE_PROVIDES && 0 <= j < |init[i].fields| && OffersIn(init[i].fields[j], name);
        assert lines[i] == init[i];
      }
      if Offers(lines, name) {
        var i, j :| 0 <= i < |lines| && lines[i].kind == EDGE_PROVIDES && 0 <= j < |lines[i].fields| && OffersIn(lines[i].fields[j], name);
        assert i < |init| ==> init[i] == lines[i];
      }
    }
  }

  /** The lines from which the edges of every package were made. */
  ghost predicate MadeFrom(w: World, lines: seq<seq<Line>>)
  {
    |lines| == |w.packages| && forall i :: 0 <= i < |lines| ==> PackageFrom(w.packages[i], lines[i])
  }

  ghost predicate PackageFrom(p: Option<Package>, lines: seq<Line>)
  {
    (forall k :: 0 <= k < |lines| ==> ValidLine(lines[k])) && (p.Some? ==> p.value.edges == AllEdges(lines))
  }

  ghost predicate PackageOk(w: World, i: nat, lines: seq<Line>)
    requires ValidWorld(w) && i < |w.packages|
  {
    w.packages[i].Some? && w.wanted(i) ==> LinesOk(w, lines)
  }

  /** The dependency pass of check_deps: it succeeds if and only if for every package that is
      wanted as "install" every field has an alternative satisfied directly or by a provider. */
  method CheckDependencies(w: World, ghost lines: seq<seq<Line>>) returns (ok: bool)
    requires ValidWorld(w) && MadeFrom(w, lines)
    ensures ok <==> forall i :: 0 <= i < |w.packages| ==> PackageOk(w, i, lines[i])
  {
    hide ValidWorld, LinesOk, Scan, AllEdges;
    for i := 0 to |w.packages|
      invariant forall n :: 0 <= n < i ==> PackageOk(w, n, lines[n])
    {
      if w.packages[i].None? {
        continue;
      }
      if !w.wanted(i) {
        continue;
      }
      assert PackageFrom(w.packages[i], lines[i]);
      PackageAccepted(w, lines[i]);
      var accepted := CheckPackage(w, w.packages[i].value.edges);
      if !accepted {
        assert !PackageOk(w, i, lines[i]);
        return false;
      }
    }
    ok := true;
  }
}
