/** The validation of claim description paths: a trie of nodes is grown path by path and
    refuses a path that conflicts with an earlier one or repeats it. It accepts exactly the
    lists that satisfy a rule about pairs of paths, in any order. */
module ClaimPaths {
  import opened Options
  import opened Text
  import opened Sorting

  datatype Component = Name(text: Str) | Wildcard | Number(value: int)

  type Path = seq<Component>

  datatype Kind = Object | Array

  datatype Verdict = Accepted | BadFormat | Conflict | Repeated

  /** A non-negative number in an mdoc path may be an index or a map key. */
  function KindOf(c: Component, mdoc: bool): Option<Kind> {
    if c.Name? || (mdoc && c.Number? && c.value < 0) then Some(Object)
    else if c.Wildcard? || !mdoc then Some(Array)
    else None
  }

  predicate IsIndex(c: Component) {
    c.Number? && c.value >= 0
  }

  predicate Suits(p: Path, mdoc: bool) {
    if mdoc then |p| >= 2 && p[0].Name? && p[1].Name?
    else forall i :: 0 <= i < |p| ==> !(p[i].Number? && p[i].value < 0)
  }

  // ------------------------------------------------- the rule

  /** Two components that cannot stand under one parent. */
  predicate Clash(a: Component, b: Component, mdoc: bool) {
    || (KindOf(a, mdoc).Some? && KindOf(b, mdoc).Some? && KindOf(a, mdoc) != KindOf(b, mdoc))
    || (a.Wildcard? && IsIndex(b))
    || (IsIndex(a) && b.Wildcard?)
  }

  /** Two paths that agree up to a position and clash there. */
  ghost predicate PathsClash(p: Path, q: Path, mdoc: bool) {
    exists k :: 0 <= k < |p| && k < |q| && p[..k] == q[..k] && Clash(p[k], q[k], mdoc)
  }

  ghost predicate Rule(claims: seq<Path>, mdoc: bool) {
    && (forall i :: 0 <= i < |claims| ==> Suits(claims[i], mdoc))
    && (forall i, j :: 0 <= i < j < |claims| ==> claims[i] != claims[j] && !PathsClash(claims[i], claims[j], mdoc))
  }

  /** What the first path at fault is refused for. */
  ghost function Judge(claims: seq<Path>, mdoc: bool): Verdict {
    if claims == [] then Accepted
    else
      var n := |claims| - 1;
      var before := Judge(claims[..n], mdoc);
      if !before.Accepted? then before else JudgeNext(claims[..n], claims[n], mdoc)
  }

  ghost function JudgeNext(earlier: seq<Path>, p: Path, mdoc: bool): Verdict {
    if !Suits(p, mdoc) then BadFormat
    else if exists i :: 0 <= i < |earlier| && PathsClash(earlier[i], p, mdoc) then Conflict
    else if p in earlier then Repeated
    else Accepted
  }

  lemma RuleNext(earlier: seq<Path>, p: Path, mdoc: bool)
    ensures Rule(earlier + [p], mdoc) <==> Rule(earlier, mdoc) && JudgeNext(earlier, p, mdoc).Accepted?
  {
    hide Suits, PathsClash;
    var claims, n := earlier + [p], |earlier|;
    assert forall i :: 0 <= i < n ==> claims[i] == earlier[i];
    assert claims[n] == p;
    if Rule(claims, mdoc) {
      assert Rule(earlier, mdoc) by {
        forall i, j | 0 <= i < j < n
          ensures earlier[i] != earlier[j] && !PathsClash(earlier[i], earlier[j], mdoc)
        {
          assert claims[i] == earlier[i] && claims[j] == earlier[j];
        }
      }
      assert forall i :: 0 <= i < n ==> claims[i] != claims[n] && !PathsClash(claims[i], claims[n], mdoc);
    }
  }

  lemma {:induction false} JudgeIsRule(claims: seq<Path>, mdoc: bool)
    ensures Judge(claims, mdoc).Accepted? <==> Rule(claims, mdoc)
  {
    if claims != [] {
      hide Rule, JudgeNext;
      var n := |claims| - 1;
      JudgeIsRule(claims[..n], mdoc);
      RuleNext(claims[..n], claims[n], mdoc);
      assert claims == claims[..n] + [claims[n]];
    }
  }

  lemma ClashSymmetric(p: Path, q: Path, mdoc: bool)
    ensures PathsClash(p, q, mdoc) <==> PathsClash(q, p, mdoc)
    ensures !PathsClash(p, p, mdoc)
  {
  }

  /** The rule without positions. */
  ghost predicate SetRule(claims: seq<Path>, mdoc: bool) {
    && (forall p :: p in claims ==> Suits(p, mdoc))
    && (forall p, q :: p in claims && q in claims ==> !PathsClash(p, q, mdoc))
    && (forall p :: p in claims ==> multiset(claims)[p] <= 1)
  }

  lemma RuleIsSetRule(claims: seq<Path>, mdoc: bool)
    ensures Rule(claims, mdoc) <==> SetRule(claims, mdoc)
  {
    hide Suits, PathsClash;
    if Rule(claims, mdoc) {
      forall p, q | p in claims && q in claims
        ensures !PathsClash(p, q, mdoc)
      {
        var i :| 0 <= i < |claims| && claims[i] == p;
        var j :| 0 <= j < |claims| && claims[j] == q;
        ClashSymmetric(p, q, mdoc);
      }
      var id := (p: Path) => p;
      assert DistinctBy(claims, id);
      forall p | p in claims
        ensures multiset(claims)[p] <= 1
      {
        OnceInMultiset(claims, id, p);
      }
    }
    if SetRule(claims, mdoc) {
      forall i, j | 0 <= i < j < |claims|
        ensures claims[i] != claims[j] && !PathsClash(claims[i], claims[j], mdoc)
      {
        if claims[i] == claims[j] {
          TwiceInMultiset(claims, i, j);
        }
      }
    }
  }

  /** Acceptance does not depend on the order of the list. */
  lemma OrderDoesNotMatter(a: seq<Path>, b: seq<Path>, mdoc: bool)
    requires multiset(a) == multiset(b)
    ensures Judge(a, mdoc).Accepted? <==> Judge(b, mdoc).Accepted?
  {
    hide Judge, Rule, Suits, PathsClash;
    JudgeIsRule(a, mdoc);
    JudgeIsRule(b, mdoc);
    RuleIsSetRule(a, mdoc);
    RuleIsSetRule(b, mdoc);
    assert forall p :: p in a <==> p in multiset(a);
    assert forall p :: p in b <==> p in multiset(b);
  }

  // ------------------------------------------------- steps of paths

  ghost function Edges(p: Path): set<(Path, Component)> {
    set k | 0 <= k < |p| :: (p[..k], p[k])
  }

  ghost function AllEdges(ps: seq<Path>): set<(Path, Component)> {
    if ps == [] then {} else AllEdges(ps[..|ps| - 1]) + Edges(ps[|ps| - 1])
  }

  lemma {:induction false} EdgeOf(ps: seq<Path>, q: Path, c: Component)
    ensures (q, c) in AllEdges(ps) <==>
            exists i :: 0 <= i < |ps| && |q| < |ps[i]| && ps[i][..|q|] == q && ps[i][|q|] == c
  {
    if ps != [] {
      var n := |ps| - 1;
      EdgeOf(ps[..n], q, c);
      assert forall i :: 0 <= i < n ==> ps[..n][i] == ps[i];
      assert (q, c) in Edges(ps[n]) <==> |q| < |ps[n]| && ps[n][..|q|] == q && ps[n][|q|] == c;
    }
  }

  /** A step at q that clashes with c is a step of a path that clashes there. */
  ghost predicate ClashAt(edges: set<(Path, Component)>, q: Path, c: Component, mdoc: bool) {
    exists d :: (q, d) in edges && Clash(d, c, mdoc)
  }

  lemma ClashAtIsPathsClash(ps: seq<Path>, p: Path, mdoc: bool)
    ensures (exists k :: 0 <= k < |p| && ClashAt(AllEdges(ps), p[..k], p[k], mdoc)) <==>
            (exists i :: 0 <= i < |ps| && PathsClash(ps[i], p, mdoc))
  {
    hide AllEdges, Clash;
    if k :| 0 <= k < |p| && ClashAt(AllEdges(ps), p[..k], p[k], mdoc) {
      var d :| (p[..k], d) in AllEdges(ps) && Clash(d, p[k], mdoc);
      EdgeOf(ps, p[..k], d);
      var i :| 0 <= i < |ps| && k < |ps[i]| && ps[i][..k] == p[..k] && ps[i][k] == d;
      assert PathsClash(ps[i], p, mdoc);
    }
    if i :| 0 <= i < |ps| && PathsClash(ps[i], p, mdoc) {
      var k :| 0 <= k < |ps[i]| && k < |p| && ps[i][..k] == p[..k] && Clash(ps[i][k], p[k], mdoc);
      EdgeOf(ps, p[..k], ps[i][k]);
      assert ClashAt(AllEdges(ps), p[..k], p[k], mdoc);
    }
  }

  // ------------------------------------------------- what is accepted has a shape

  /** What a component can be taken from: a name from an object, a wildcard from an array and a
      number from an array, which in an mdoc may be a map instead and for a negative key is. */
  ghost predicate CanStep(c: Component, kind: Kind, mdoc: bool) {
    match c
    case Name(_) => kind.Object?
    case Wildcard => kind.Array?
    case Number(n) => if mdoc then n >= 0 || kind.Object? else kind.Array?
  }

  /** The steps of all paths, each with the prefix it is taken from. */
  ghost predicate IsStep(claims: seq<Path>, q: Path, c: Component) {
    exists i :: 0 <= i < |claims| && |q| < |claims[i]| && claims[i][..|q|] == q && claims[i][|q|] == c
  }

  /** Every step of every path can be taken in a document of this shape. */
  ghost predicate Realises(shape: Path -> Kind, claims: seq<Path>, mdoc: bool) {
    forall q, c :: IsStep(claims, q, c) ==> CanStep(c, shape(q), mdoc)
  }

  /** From no prefix both a wildcard and an index are taken. */
  ghost predicate Unmixed(claims: seq<Path>) {
    forall q, c :: IsStep(claims, q, Wildcard) && IsStep(claims, q, c) && c.Number? ==> c.value < 0
  }

  ghost predicate Formatted(p: Path, mdoc: bool) {
    && (mdoc ==> |p| > 1 && p[0].Name? && p[1].Name?)
    && (!mdoc ==> forall c :: c in p && c.Number? ==> c.value >= 0)
  }

  /** An object wherever a component insists on one, and else an array. */
  ghost function ShapeOf(claims: seq<Path>, mdoc: bool): Path -> Kind {
    (q: Path) => if exists c :: IsStep(claims, q, c) && KindOf(c, mdoc) == Some(Object) then Object else Array
  }

  lemma StepsOfTwo(claims: seq<Path>, q: Path, a: Component, b: Component, mdoc: bool)
    requires Rule(claims, mdoc) && IsStep(claims, q, a) && IsStep(claims, q, b)
    ensures !Clash(a, b, mdoc)
  {
    hide Clash, Suits, Rule, PathsClash;
    var i :| 0 <= i < |claims| && |q| < |claims[i]| && claims[i][..|q|] == q && claims[i][|q|] == a;
    var j :| 0 <= j < |claims| && |q| < |claims[j]| && claims[j][..|q|] == q && claims[j][|q|] == b;
    NoneClash(claims, mdoc, i, j);
    PartAt(claims[i], claims[j], |q|, mdoc);
  }

  lemma NoneClash(claims: seq<Path>, mdoc: bool, i: nat, j: nat)
    requires Rule(claims, mdoc) && i < |claims| && j < |claims|
    ensures !PathsClash(claims[i], claims[j], mdoc)
  {
    hide PathsClash, Suits;
    ClashSymmetric(claims[i], claims[j], mdoc);
  }

  lemma PartAt(p: Path, q: Path, k: nat, mdoc: bool)
    requires !PathsClash(p, q, mdoc) && k < |p| && k < |q| && p[..k] == q[..k]
    ensures !Clash(p[k], q[k], mdoc)
  {
    hide Clash;
  }

  lemma RuleHasShape(claims: seq<Path>, mdoc: bool)
    requires Rule(claims, mdoc)
    ensures Realises(ShapeOf(claims, mdoc), claims, mdoc) && Unmixed(claims)
  {
    hide Rule, IsStep;
    forall q, c | IsStep(claims, q, c)
      ensures CanStep(c, ShapeOf(claims, mdoc)(q), mdoc)
    {
      if d :| IsStep(claims, q, d) && KindOf(d, mdoc) == Some(Object) {
        StepsOfTwo(claims, q, c, d, mdoc);
      }
    }
    forall q, c | IsStep(claims, q, Wildcard) && IsStep(claims, q, c) && c.Number?
      ensures c.value < 0
    {
      StepsOfTwo(claims, q, c, Wildcard, mdoc);
    }
  }

  lemma ShapeKeepsApart(claims: seq<Path>, mdoc: bool, shape: Path -> Kind, i: nat, j: nat)
    requires Realises(shape, claims, mdoc) && Unmixed(claims) && i < |claims| && j < |claims|
    ensures !PathsClash(claims[i], claims[j], mdoc)
  {
    hide IsStep;
    forall k | 0 <= k < |claims[i]| && k < |claims[j]| && claims[i][..k] == claims[j][..k]
      ensures !Clash(claims[i][k], claims[j][k], mdoc)
    {
      var q := claims[i][..k];
      StepIsStep(claims, i, k);
      StepIsStep(claims, j, k);
      assert CanStep(claims[i][k], shape(q), mdoc) && CanStep(claims[j][k], shape(q), mdoc);
    }
  }

  lemma StepIsStep(claims: seq<Path>, i: nat, k: nat)
    requires i < |claims| && k < |claims[i]|
    ensures IsStep(claims, claims[i][..k], claims[i][k])
  {
  }

  /** A list is accepted if and only if its paths are of the format, all different, and can all
      be taken in documents of one shape, with no wildcard beside an index. */
  lemma AcceptedIsShape(claims: seq<Path>, mdoc: bool)
    ensures Judge(claims, mdoc).Accepted? <==>
            && (forall p :: p in claims ==> Formatted(p, mdoc))
            && (forall i, j :: 0 <= i < j < |claims| ==> claims[i] != claims[j])
            && Unmixed(claims)
            && exists shape :: Realises(shape, claims, mdoc)
  {
    hide Judge, PathsClash, Unmixed, Realises;
    JudgeIsRule(claims, mdoc);
    assert forall p :: Formatted(p, mdoc) <==> Suits(p, mdoc);
    if Rule(claims, mdoc) {
      RuleHasShape(claims, mdoc);
    }
    if shape :| Realises(shape, claims, mdoc) && Unmixed(claims) {
      forall i, j | 0 <= i < j < |claims|
        ensures !PathsClash(claims[i], claims[j], mdoc)
      {
        ShapeKeepsApart(claims, mdoc, shape, i, j);
      }
    }
  }

  // ------------------------------------------------- the trie

  class Node {
    var children: map<Component, Node>
    var kind: Option<Kind>
    var wildcard: bool
    var indexed: bool
    var terminal: bool

    ghost function View(): Shape
      reads this
    {
      Shape(children, kind, wildcard, indexed, terminal)
    }

    constructor ()
      ensures View() == BLANK
    {
      children, kind, wildcard, indexed, terminal := map[], None, false, false, false;
    }
  }

  /** The fields of a node at one moment. */
  datatype Shape = Shape(children: map<Component, Node>, kind: Option<Kind>, wildcard: bool, indexed: bool,
                         terminal: bool)

  const BLANK := Shape(map[], None, false, false, false)

  /** The nodes by the path that leads to them, the steps taken and the paths ended. */
  datatype Trie = Trie(nodes: map<Path, Node>, edges: set<(Path, Component)>, ends: set<Path>)

  /** What the flags of a node say about the steps from it. */
  ghost predicate Flags(n: Shape, edges: set<(Path, Component)>, ends: set<Path>, q: Path, mdoc: bool) {
    && (n.kind.Some? ==> exists c :: (q, c) in edges && KindOf(c, mdoc) == n.kind)
    && (forall c :: (q, c) in edges && KindOf(c, mdoc).Some? ==> KindOf(c, mdoc) == n.kind)
    && (n.wildcard <==> (q, Wildcard) in edges)
    && (n.indexed <==> exists c :: (q, c) in edges && IsIndex(c))
    && (n.terminal <==> q in ends)
  }

  /** The children of a node stand where the steps from it lead. */
  ghost predicate Links(n: Shape, t: Trie, q: Path) {
    && (forall c :: c in n.children <==> (q, c) in t.edges)
    && (forall c :: c in n.children ==> q + [c] in t.nodes && n.children[c] == t.nodes[q + [c]])
  }

  ghost predicate Separate(t: Trie) {
    && [] in t.nodes
    && (forall q, r :: q in t.nodes && r in t.nodes && q != r ==> t.nodes[q] != t.nodes[r])
    && (forall e :: e in t.edges ==> e.0 in t.nodes)
    && (forall q :: q in t.ends ==> q in t.nodes)
    && (forall q :: q in t.nodes && q != [] ==> (q[..|q| - 1], q[|q| - 1]) in t.edges)
  }

  ghost predicate Fits(t: Trie, views: map<Path, Shape>, mdoc: bool) {
    && Separate(t) && views.Keys == t.nodes.Keys
    && (forall q :: q in views ==> Flags(views[q], t.edges, t.ends, q, mdoc))
    && (forall q :: q in views ==> Links(views[q], t, q))
  }

  ghost function Views(t: Trie): (views: map<Path, Shape>)
    reads t.nodes.Values
    ensures views.Keys == t.nodes.Keys
    ensures forall q :: q in views ==> views[q] == t.nodes[q].View()
  {
    map q | q in t.nodes :: t.nodes[q].View()
  }

  ghost predicate Represents(t: Trie, mdoc: bool)
    reads t.nodes.Values
  {
    Fits(t, Views(t), mdoc)
  }

  /** The check against the node's flags is the check against all steps from it. */
  lemma FlagsTellClash(n: Shape, edges: set<(Path, Component)>, ends: set<Path>, q: Path, c: Component, mdoc: bool)
    requires Flags(n, edges, ends, q, mdoc)
    ensures ClashAt(edges, q, c, mdoc) <==> Refuses(n, c, mdoc)
  {
    if n.kind.Some? {
      var d :| (q, d) in edges && KindOf(d, mdoc) == n.kind;
      assert KindOf(c, mdoc).Some? && n.kind != KindOf(c, mdoc) ==> Clash(d, c, mdoc);
    }
    if n.indexed {
      var d :| (q, d) in edges && IsIndex(d);
      assert c.Wildcard? ==> Clash(d, c, mdoc);
    }
    assert Clash(Wildcard, c, mdoc) || !IsIndex(c);
  }

  predicate Refuses(n: Shape, c: Component, mdoc: bool) {
    || (KindOf(c, mdoc).Some? && n.kind.Some? && n.kind != KindOf(c, mdoc))
    || (c.Wildcard? && n.indexed)
    || (IsIndex(c) && n.wildcard)
  }

  function Grown(t: Trie, q: Path, c: Component, next: Node): Trie {
    Trie(t.nodes[q + [c] := next], t.edges + {(q, c)}, t.ends)
  }

  function Marked(n: Shape, c: Component, mdoc: bool, next: Node): Shape {
    Shape(n.children[c := next], if KindOf(c, mdoc).Some? then KindOf(c, mdoc) else n.kind,
          n.wildcard || c.Wildcard?, n.indexed || IsIndex(c), n.terminal)
  }

  lemma FlagsMarked(n: Shape, edges: set<(Path, Component)>, ends: set<Path>, q: Path, c: Component, mdoc: bool,
                    next: Node)
    requires Flags(n, edges, ends, q, mdoc) && !Refuses(n, c, mdoc)
    ensures Flags(Marked(n, c, mdoc, next), edges + {(q, c)}, ends, q, mdoc)
  {
    var m, more := Marked(n, c, mdoc, next), edges + {(q, c)};
    assert (q, c) in more;
    if KindOf(c, mdoc).None? && n.kind.Some? {
      var d :| (q, d) in edges && KindOf(d, mdoc) == n.kind;
      assert (q, d) in more;
    }
    if n.indexed {
      var d :| (q, d) in edges && IsIndex(d);
      assert (q, d) in more;
    }
  }

  lemma FlagsElsewhere(n: Shape, edges: set<(Path, Component)>, ends: set<Path>, r: Path, q: Path, c: Component,
                       mdoc: bool)
    requires Flags(n, edges, ends, r, mdoc) && r != q
    ensures Flags(n, edges + {(q, c)}, ends, r, mdoc)
  {
    var more := edges + {(q, c)};
    assert forall d :: (r, d) in more <==> (r, d) in edges;
    if n.kind.Some? {
      var d :| (r, d) in edges && KindOf(d, mdoc) == n.kind;
      assert (r, d) in more;
    }
    if n.indexed {
      var d :| (r, d) in edges && IsIndex(d);
      assert (r, d) in more;
    }
  }

  lemma LastStep(q: Path, c: Component)
    ensures (q + [c])[..|q + [c]| - 1] == q && (q + [c])[|q + [c]| - 1] == c && q + [c] != q && q + [c] != []
  {
  }

  lemma StepsDiffer(q: Path, c: Component, r: Path, d: Component)
    ensures q + [c] == r + [d] <==> q == r && c == d
  {
    LastStep(q, c);
    LastStep(r, d);
  }

  lemma SeparateGrown(t: Trie, q: Path, c: Component, next: Node)
    requires Separate(t) && q in t.nodes
    requires q + [c] in t.nodes ==> t.nodes[q + [c]] == next
    requires q + [c] !in t.nodes ==> next !in t.nodes.Values
    ensures Separate(Grown(t, q, c, next))
  {
    var t' := Grown(t, q, c, next);
    LastStep(q, c);
    forall r | r in t'.nodes && r != []
      ensures (r[..|r| - 1], r[|r| - 1]) in t'.edges
    {
      if r != q + [c] {
        assert (r[..|r| - 1], r[|r| - 1]) in t.edges;
      }
    }
    forall r, s | r in t'.nodes && s in t'.nodes && r != s
      ensures t'.nodes[r] != t'.nodes[s]
    {
      assert r in t.nodes ==> t.nodes[r] in t.nodes.Values;
      assert s in t.nodes ==> t.nodes[s] in t.nodes.Values;
    }
  }

  lemma LinksElsewhere(n: Shape, t: Trie, r: Path, q: Path, c: Component, next: Node)
    requires Links(n, t, r) && r != q
    requires q + [c] in t.nodes ==> t.nodes[q + [c]] == next
    ensures Links(n, Grown(t, q, c, next), r)
  {
    forall d | d in n.children
      ensures r + [d] in Grown(t, q, c, next).nodes && n.children[d] == Grown(t, q, c, next).nodes[r + [d]]
    {
      StepsDiffer(r, d, q, c);
    }
  }

  lemma LinksMarked(n: Shape, t: Trie, q: Path, c: Component, mdoc: bool, next: Node)
    requires Links(n, t, q)
    ensures Links(Marked(n, c, mdoc, next), Grown(t, q, c, next), q)
  {
    var m, t' := Marked(n, c, mdoc, next), Grown(t, q, c, next);
    forall d | d in m.children
      ensures q + [d] in t'.nodes && m.children[d] == t'.nodes[q + [d]]
    {
      StepsDiffer(q, d, q, c);
    }
  }

  /** The shape at r after the step from q to its child. */
  ghost function After(views: map<Path, Shape>, q: Path, c: Component, mdoc: bool, next: Node, r: Path): Shape {
    if r !in views then BLANK else if r == q then Marked(views[q], c, mdoc, next) else views[r]
  }

  lemma FitsGrownAt(t: Trie, views: map<Path, Shape>, q: Path, c: Component, mdoc: bool, next: Node, r: Path)
    requires Fits(t, views, mdoc) && q in views && !Refuses(views[q], c, mdoc)
    requires q + [c] in t.nodes ==> t.nodes[q + [c]] == next
    ensures var t' := Grown(t, q, c, next);
            Flags(After(views, q, c, mdoc, next, r), t'.edges, t'.ends, r, mdoc) &&
                Links(After(views, q, c, mdoc, next, r), t', r)
  {
    hide Flags, Links, Separate, Marked, Refuses;
    if r == q {
      FlagsMarked(views[q], t.edges, t.ends, q, c, mdoc, next);
      LinksMarked(views[q], t, q, c, mdoc, next);
    } else {
      var v := if r in views then views[r] else BLANK;
      if r !in views {
        BlankFits(t, r, mdoc);
      }
      FlagsElsewhere(v, t.edges, t.ends, r, q, c, mdoc);
      LinksElsewhere(v, t, r, q, c, next);
    }
  }

  /** A step that is not refused keeps the trie and its reading in agreement. */
  lemma FitsGrown(t: Trie, views: map<Path, Shape>, q: Path, c: Component, mdoc: bool, next: Node,
                  views': map<Path, Shape>)
    requires Fits(t, views, mdoc) && q in views && !Refuses(views[q], c, mdoc)
    requires q + [c] in t.nodes ==> t.nodes[q + [c]] == next
    requires q + [c] !in t.nodes ==> next !in t.nodes.Values
    requires views'.Keys == Grown(t, q, c, next).nodes.Keys
    requires forall r :: r in views' ==> views'[r] == After(views, q, c, mdoc, next, r)
    ensures Fits(Grown(t, q, c, next), views', mdoc)
  {
    hide Flags, Links, Separate, Grown, After, Refuses;
    SeparateGrown(t, q, c, next);
    forall r | r in views'
      ensures Flags(views'[r], Grown(t, q, c, next).edges, Grown(t, q, c, next).ends, r, mdoc) &&
              Links(views'[r], Grown(t, q, c, next), r)
    {
      FitsGrownAt(t, views, q, c, mdoc, next, r);
    }
  }

  lemma BlankFits(t: Trie, r: Path, mdoc: bool)
    requires Separate(t) && r !in t.nodes
    ensures Flags(BLANK, t.edges, t.ends, r, mdoc) && Links(BLANK, t, r)
  {
    forall c
      ensures (r, c) !in t.edges
    {
      assert (r, c) in t.edges ==> (r, c).0 in t.nodes;
    }
  }

  lemma ChildIsNode(t: Trie, views: map<Path, Shape>, q: Path, c: Component, mdoc: bool)
    requires Fits(t, views, mdoc) && q in views
    ensures c in views[q].children <==> q + [c] in t.nodes
    ensures c in views[q].children ==> views[q].children[c] == t.nodes[q + [c]]
  {
    LastStep(q, c);
    assert Links(views[q], t, q);
  }

  /** Set what the component says about the node and step to its child, new or old. */
  method Mark(node: Node, c: Component, mdoc: bool) returns (next: Node)
    modifies node
    ensures node.View() == Marked(old(node.View()), c, mdoc, next)
    ensures if c in old(node.children) then next == old(node.children)[c] else fresh(next) && next.View() == BLANK
  {
    hide KindOf;
    var kind := KindOf(c, mdoc);
    if kind.Some? {
      node.kind := kind;
    }
    if c.Wildcard? {
      node.wildcard := true;
    }
    if IsIndex(c) {
      node.indexed := true;
    }
    if c in node.children {
      next := node.children[c];
      assert node.children == node.children[c := next];
    } else {
      next := new Node();
      node.children := node.children[c := next];
    }
  }

  /** One turn of the inner loop: check the component, mark the node, go to the child. */
  method Descend(node: Node, c: Component, mdoc: bool, ghost t: Trie, ghost q: Path)
    returns (ok: bool, next: Node, ghost t': Trie)
    requires Represents(t, mdoc) && q in t.nodes && t.nodes[q] == node
    modifies node
    ensures ok <==> !ClashAt(t.edges, q, c, mdoc)
    ensures ok ==> t' == Grown(t, q, c, next) && Represents(t', mdoc)
    ensures ok ==> (if q + [c] in t.nodes then next == t.nodes[q + [c]] else fresh(next))
  {
    hide KindOf, ClashAt, Fits, Flags, Marked;
    ghost var views := Views(t);
    NodesApart(t, views, mdoc);
    ChildIsNode(t, views, q, c, mdoc);
    FlagsFit(t, views, q, mdoc);
    FlagsTellClash(views[q], t.edges, t.ends, q, c, mdoc);
    var kind := KindOf(c, mdoc);
    next, t' := node, t;
    ok := !((kind.Some? && node.kind.Some? && node.kind != kind) || (c.Wildcard? && node.indexed) ||
        (IsIndex(c) && node.wildcard));
    assert ok <==> !Refuses(views[q], c, mdoc);
    if ok {
      hide Refuses;
      next := Mark(node, c, mdoc);
      t' := Grown(t, q, c, next);
      ghost var views' := Views(t');
      forall r | r in views'
        ensures views'[r] == After(views, q, c, mdoc, next, r)
      {
        LastStep(q, c);
        assert r in t.nodes && r != q ==> t.nodes[r] != node;
      }
      FitsGrown(t, views, q, c, mdoc, next, views');
    }
  }

  lemma NodesApart(t: Trie, views: map<Path, Shape>, mdoc: bool)
    requires Fits(t, views, mdoc)
    ensures forall q, r :: q in t.nodes && r in t.nodes && q != r ==> t.nodes[q] != t.nodes[r]
  {
  }

  lemma FlagsFit(t: Trie, views: map<Path, Shape>, q: Path, mdoc: bool)
    requires Fits(t, views, mdoc) && q in views
    ensures Flags(views[q], t.edges, t.ends, q, mdoc)
  {
  }

  // ------------------------------------------------- a whole path, and all paths

  ghost function Ended(t: Trie, q: Path): Trie {
    t.(ends := t.ends + {q})
  }

  lemma FlagsEnded(n: Shape, edges: set<(Path, Component)>, ends: set<Path>, r: Path, q: Path, mdoc: bool)
    requires Flags(n, edges, ends, r, mdoc)
    ensures Flags(if r == q then n.(terminal := true) else n, edges, ends + {q}, r, mdoc)
  {
    hide KindOf, IsIndex;
  }

  lemma LinksEnded(n: Shape, t: Trie, r: Path, q: Path)
    requires Links(n, t, r)
    ensures Links(n, Ended(t, q), r) && Links(n.(terminal := true), Ended(t, q), r)
  {
  }

  lemma SeparateEnded(t: Trie, q: Path)
    requires Separate(t) && q in t.nodes
    ensures Separate(Ended(t, q))
  {
  }

  lemma FitsEnded(t: Trie, views: map<Path, Shape>, q: Path, mdoc: bool, views': map<Path, Shape>)
    requires Fits(t, views, mdoc) && q in views && views'.Keys == views.Keys
    requires forall r :: r in views ==> views'[r] == if r == q then views[r].(terminal := true) else views[r]
    ensures Fits(Ended(t, q), views', mdoc)
  {
    hide Flags, Links, Separate;
    SeparateEnded(t, q);
    forall r | r in views'
      ensures Flags(views'[r], t.edges, Ended(t, q).ends, r, mdoc) && Links(views'[r], Ended(t, q), r)
    {
      FlagsEnded(views[r], t.edges, t.ends, r, q, mdoc);
      LinksEnded(views[r], t, r, q);
    }
  }

  method EndAt(node: Node, mdoc: bool, ghost t: Trie, ghost q: Path)
    requires Represents(t, mdoc) && q in t.nodes && t.nodes[q] == node
    modifies node
    ensures Represents(Ended(t, q), mdoc)
  {
    hide Fits;
    ghost var views := Views(t);
    NodesApart(t, views, mdoc);
    node.terminal := true;
    ghost var views' := Views(Ended(t, q));
    FitsEnded(t, views, q, mdoc, views');
  }

  lemma EdgesNext(p: Path, k: nat)
    requires k < |p|
    ensures Edges(p[..k + 1]) == Edges(p[..k]) + {(p[..k], p[k])} && p[..k + 1] == p[..k] + [p[k]]
  {
    var longer, shorter := p[..k + 1], p[..k];
    assert forall i :: 0 <= i < k ==> longer[..i] == shorter[..i] && longer[i] == shorter[i];
    assert longer[..k] == shorter && longer[k] == p[k];
    forall e
      ensures e in Edges(longer) <==> e in Edges(shorter) || e == (shorter, p[k])
    {
      if e in Edges(shorter) {
        var i :| 0 <= i < k && e == (shorter[..i], shorter[i]);
        assert e == (longer[..i], longer[i]);
      }
    }
  }

  /** A path's own earlier steps start from shorter prefixes. */
  lemma ClashBefore(edges: set<(Path, Component)>, p: Path, k: nat, mdoc: bool)
    requires k < |p|
    ensures ClashAt(edges + Edges(p[..k]), p[..k], p[k], mdoc) <==> ClashAt(edges, p[..k], p[k], mdoc)
  {
    hide Clash;
    assert forall d :: (p[..k], d) !in Edges(p[..k]);
  }

  lemma RootIsRoot(t: Trie, q: Path, c: Component, next: Node)
    requires [] in t.nodes
    ensures [] in Grown(t, q, c, next).nodes && Grown(t, q, c, next).nodes[[]] == t.nodes[[]]
    ensures forall r :: r in Grown(t, q, c, next).nodes ==> r in t.nodes || r == q + [c]
  {
    LastStep(q, c);
  }

  lemma TerminalTells(t: Trie, q: Path, mdoc: bool)
    requires Represents(t, mdoc) && q in t.nodes
    ensures t.nodes[q].terminal <==> q in t.ends
  {
    hide Fits;
    FlagsFit(t, Views(t), q, mdoc);
  }

  /** Insert one path that suits the format. */
  method Insert(root: Node, path: Path, mdoc: bool, ghost t: Trie) returns (verdict: Verdict, ghost t': Trie)
    requires Represents(t, mdoc) && [] in t.nodes && t.nodes[[]] == root
    modifies t.nodes.Values
    ensures verdict == if exists k :: 0 <= k < |path| && ClashAt(t.edges, path[..k], path[k], mdoc) then Conflict
                       else if path in t.ends then Repeated else Accepted
    ensures verdict.Accepted? ==>
              && Represents(t', mdoc) && t'.edges == t.edges + Edges(path) && t'.ends == t.ends + {path}
              && [] in t'.nodes && t'.nodes[[]] == root
              && forall n :: n in t'.nodes.Values ==> n in t.nodes.Values || fresh(n)
  {
    hide Represents, ClashAt, Grown;
    var node := root;
    t' := t;
    assert path[..0] == [];
    assert Edges(path[..0]) == {};
    for k := 0 to |path|
      invariant Represents(t', mdoc) && t'.edges == t.edges + Edges(path[..k]) && t'.ends == t.ends
      invariant [] in t'.nodes && t'.nodes[[]] == root && path[..k] in t'.nodes && t'.nodes[path[..k]] == node
      invariant forall n :: n in t'.nodes.Values ==> n in t.nodes.Values || fresh(n)
      invariant forall j :: 0 <= j < k ==> !ClashAt(t.edges, path[..j], path[j], mdoc)
    {
      ClashBefore(t.edges, path, k, mdoc);
      EdgesNext(path, k);
      var ok, next;
      ghost var grown;
      ok, next, grown := Descend(node, path[k], mdoc, t', path[..k]);
      if !ok {
        return Conflict, t';
      }
      RootIsRoot(t', path[..k], path[k], next);
      GrownParts(t', path[..k], path[k], next);
      t', node := grown, next;
    }
    assert path[..|path|] == path;
    TerminalTells(t', path, mdoc);
    if node.terminal {
      return Repeated, t';
    }
    EndAt(node, mdoc, t', path);
    return Accepted, Ended(t', path);
  }

  lemma GrownParts(t: Trie, q: Path, c: Component, next: Node)
    ensures var t' := Grown(t, q, c, next);
            && t'.edges == t.edges + {(q, c)} && t'.ends == t.ends
            && q + [c] in t'.nodes && t'.nodes[q + [c]] == next
            && forall n :: n in t'.nodes.Values ==> n in t.nodes.Values || n == next
  {
  }

  lemma StartFits(root: Node, mdoc: bool)
    ensures Fits(Trie(map[[] := root], {}, {}), map[[] := BLANK], mdoc)
  {
  }

  method Start(mdoc: bool) returns (root: Node, ghost t: Trie)
    ensures fresh(root) && Represents(t, mdoc) && t == Trie(map[[] := root], {}, {})
  {
    hide Fits;
    root := new Node();
    t := Trie(map[[] := root], {}, {});
    StartFits(root, mdoc);
    assert Views(t) == map[[] := BLANK];
  }

  /** The trie holds these paths. */
  ghost predicate Inserted(t: Trie, claims: seq<Path>) {
    t.edges == AllEdges(claims) && forall q :: q in t.ends <==> q in claims
  }

  lemma InsertedNext(t: Trie, t': Trie, claims: seq<Path>, i: nat)
    requires i < |claims| && Inserted(t, claims[..i]) && t'.edges == t.edges + Edges(claims[i]) &&
             t'.ends == t.ends + {claims[i]}
    ensures Inserted(t', claims[..i + 1])
  {
    assert claims[..i + 1][..i] == claims[..i];
    assert claims[..i + 1] == claims[..i] + [claims[i]];
  }

  /** What the next path is judged by can be read off the trie. */
  lemma JudgedByTrie(t: Trie, claims: seq<Path>, mdoc: bool, i: nat)
    requires i < |claims| && Inserted(t, claims[..i]) && Judge(claims[..i], mdoc).Accepted?
    ensures var path := claims[i];
            Judge(claims[..i + 1], mdoc) ==
            if !Suits(path, mdoc) then BadFormat
            else if exists k :: 0 <= k < |path| && ClashAt(t.edges, path[..k], path[k], mdoc) then Conflict
            else if path in t.ends then Repeated
            else Accepted
  {
    hide PathsClash, Suits, ClashAt, AllEdges;
    assert claims[..i + 1][..i] == claims[..i] && claims[..i + 1][i] == claims[i];
    ClashAtIsPathsClash(claims[..i], claims[i], mdoc);
  }

  method SuitsFormat(path: Path, mdoc: bool) returns (ok: bool)
    ensures ok <==> Suits(path, mdoc)
  {
    if mdoc {
      return |path| >= 2 && path[0].Name? && path[1].Name?;
    }
    for k := 0 to |path|
      invariant forall j :: 0 <= j < k ==> !(path[j].Number? && path[j].value < 0)
    {
      if path[k].Number? && path[k].value < 0 {
        return false;
      }
    }
    return true;
  }

  /** The validator: it answers for the first path at fault what the rule about pairs says,
      and accepts when there is none. */
  method Validate(claims: seq<Path>, mdoc: bool) returns (verdict: Verdict)
    ensures verdict == Judge(claims, mdoc)
    ensures verdict.Accepted? <==> Rule(claims, mdoc)
  {
    JudgeIsRule(claims, mdoc);
    hide Rule, Suits, ClashAt, Represents, Judge, AllEdges;
    var root;
    ghost var t;
    root, t := Start(mdoc);
    NothingInserted(t, claims, mdoc);
    hide Inserted;
    for i := 0 to |claims|
      invariant Judge(claims[..i], mdoc).Accepted? && Inserted(t, claims[..i])
      invariant Represents(t, mdoc) && [] in t.nodes && t.nodes[[]] == root
      invariant forall n :: n in t.nodes.Values ==> fresh(n)
    {
      JudgedByTrie(t, claims, mdoc, i);
      var suits := SuitsFormat(claims[i], mdoc);
      if !suits {
        FirstFault(claims, mdoc, i + 1);
        return BadFormat;
      }
      ghost var before := t;
      verdict, t := Insert(root, claims[i], mdoc, t);
      if !verdict.Accepted? {
        FirstFault(claims, mdoc, i + 1);
        return;
      }
      InsertedNext(before, t, claims, i);
    }
    assert claims[..|claims|] == claims;
    return Accepted;
  }

  lemma NothingInserted(t: Trie, claims: seq<Path>, mdoc: bool)
    requires t.edges == {} && t.ends == {}
    ensures Inserted(t, claims[..0]) && Judge(claims[..0], mdoc).Accepted?
  {
  }

  /** The first refusal is the answer for the whole list. */
  lemma {:induction false} FirstFault(claims: seq<Path>, mdoc: bool, i: nat)
    requires i <= |claims| && !Judge(claims[..i], mdoc).Accepted?
    ensures Judge(claims, mdoc) == Judge(claims[..i], mdoc)
    decreases |claims| - i
  {
    if i == |claims| {
      assert claims[..i] == claims;
    } else {
      assert claims[..i + 1][..i] == claims[..i];
      FirstFault(claims, mdoc, i + 1);
    }
  }
}
