/** cmd/canvas/artifact_html_helpers.go: parsed HTML, and the labels given to its elements. */
module HtmlTree {
  import opened Prelude
  import opened Strings

  /** Every node kind of the parser but elements and text is `Other`, the document among them. */
  datatype Kind = Element | Text | Other

  datatype Node = Node(kind: Kind, data: string, attrs: seq<(string, string)>, children: seq<Node>)

  // ----- Counting -----

  function CountNamed(nodes: seq<Node>, name: string): nat {
    if nodes == [] then 0
    else CountNamed(nodes[..|nodes| - 1], name)
         + if nodes[|nodes| - 1].kind.Element? && nodes[|nodes| - 1].data == name then 1 else 0
  }

  function CountElements(nodes: seq<Node>): nat {
    if nodes == [] then 0
    else CountElements(nodes[..|nodes| - 1]) + if nodes[|nodes| - 1].kind.Element? then 1 else 0
  }

  /** `countElementChildrenNamed` and `countDirectElementChildren` */
  method CountChildren(node: Node, name: string) returns (named: nat, elements: nat)
    ensures named == CountNamed(node.children, name) && elements == CountElements(node.children)
  {
    named, elements := 0, 0;
    for i := 0 to |node.children|
      invariant named == CountNamed(node.children[..i], name) && elements == CountElements(node.children[..i])
    {
      assert node.children[..i + 1][..i] == node.children[..i];
      if node.children[i].kind.Element? {
        elements := elements + 1;
        if node.children[i].data == name {
          named := named + 1;
        }
      }
    }
    assert node.children[..|node.children|] == node.children;
  }

  /** The places of the element children that have this name. */
  function PlacesNamed(nodes: seq<Node>, name: string): set<int> {
    set i | 0 <= i < |nodes| && nodes[i].kind.Element? && nodes[i].data == name
  }

  function PlacesOfElements(nodes: seq<Node>): set<int> {
    set i | 0 <= i < |nodes| && nodes[i].kind.Element?
  }

  lemma CountsAreSizes(nodes: seq<Node>, name: string)
    ensures CountNamed(nodes, name) == |PlacesNamed(nodes, name)|
    ensures CountElements(nodes) == |PlacesOfElements(nodes)|
  {
    CountNamedIsSize(nodes, name);
    CountElementsIsSize(nodes);
  }

  lemma {:induction false} CountNamedIsSize(nodes: seq<Node>, name: string)
    ensures CountNamed(nodes, name) == |PlacesNamed(nodes, name)|
  {
    if nodes != [] {
      var n := |nodes| - 1;
      CountNamedIsSize(nodes[..n], name);
      var named := PlacesNamed(nodes[..n], name);
      if nodes[n].kind.Element? && nodes[n].data == name {
        assert PlacesNamed(nodes, name) == named + {n};
      } else {
        assert PlacesNamed(nodes, name) == named;
      }
    }
  }

  lemma {:induction false} CountElementsIsSize(nodes: seq<Node>)
    ensures CountElements(nodes) == |PlacesOfElements(nodes)|
  {
    if nodes != [] {
      var n := |nodes| - 1;
      CountElementsIsSize(nodes[..n]);
      var elements := PlacesOfElements(nodes[..n]);
      if nodes[n].kind.Element? {
        assert PlacesOfElements(nodes) == elements + {n};
      } else {
        assert PlacesOfElements(nodes) == elements;
      }
    }
  }

  /** `hasDescendantNamed` */
  predicate HasDescendantNamed(node: Node, names: set<string>) {
    exists child :: child in node.children &&
                    ((child.kind.Element? && child.data in names) || HasDescendantNamed(child, names))
  }

  // ----- Places in a tree -----

  /** A node met on the way down: its parent, its place among the siblings, the labels of the
      elements directly above it, and its depth. */
  datatype Visit = Visit(node: Node, parent: Option<Node>, index: nat, above: seq<string>, depth: nat)

  predicate Placed(v: Visit) {
    v.parent.Some? ==> v.index < |v.parent.value.children| && v.parent.value.children[v.index] == v.node
  }

  /** `elementIndexOfType`: the place among the elements of the same name, from 1. */
  function IndexOfType(v: Visit): nat
    requires Placed(v)
  {
    if v.parent.None? then 1 else CountNamed(v.parent.value.children[..v.index + 1], v.node.data)
  }

  const NTH := ":nth-of-type("

  function Label(name: string, index: nat): string {
    if index > 1 then name + NTH + Decimal(index) + ")" else name
  }

  function Part(v: Visit): string
    requires Placed(v)
  {
    Label(v.node.data, IndexOfType(v))
  }

  function ChildVisit(v: Visit, i: nat): (c: Visit)
    requires Placed(v) && i < |v.node.children|
    ensures Placed(c)
  {
    Visit(v.node.children[i], Some(v.node), i, if v.node.kind.Element? then v.above + [Part(v)] else [], v.depth + 1)
  }

  /** The nodes of a subtree in document order. */
  function Visits(v: Visit): (vs: seq<Visit>)
    requires Placed(v)
    ensures forall w :: w in vs ==> Placed(w)
    decreases v.node, |v.node.children| + 1
  {
    [v] + VisitsFrom(v, 0)
  }

  function VisitsFrom(v: Visit, i: nat): (vs: seq<Visit>)
    requires Placed(v) && i <= |v.node.children|
    ensures forall w :: w in vs ==> Placed(w)
    decreases v.node, |v.node.children| - i
  {
    if i == |v.node.children| then [] else Visits(ChildVisit(v, i)) + VisitsFrom(v, i + 1)
  }

  function Root(doc: Node): (v: Visit)
    ensures Placed(v)
  {
    Visit(doc, None, 0, [], 0)
  }

  /** A descendant of that name is an element of the subtree, other than its root, that has it. */
  lemma {:induction false} HasDescendantExactly(v: Visit, i: nat, names: set<string>)
    requires Placed(v) && i <= |v.node.children|
    ensures (exists w :: w in VisitsFrom(v, i) && w.node.kind.Element? && w.node.data in names)
            <==> exists j :: i <= j < |v.node.children| && HoldsNamed(v.node.children[j], names)
    decreases v.node, |v.node.children| - i
  {
    if i < |v.node.children| {
      var c := ChildVisit(v, i);
      assert c.node in v.node.children;
      HasDescendantExactly(c, 0, names);
      HasDescendantExactly(v, i + 1, names);
      assert HasDescendantNamed(c.node, names) <==> exists j :: 0 <= j < |c.node.children| && HoldsNamed(c.node.children[j], names) by {
        DescendantChild(c.node, names);
      }
      forall w ensures w in VisitsFrom(v, i) <==> w == c || w in VisitsFrom(c, 0) || w in VisitsFrom(v, i + 1) {}
    }
  }

  predicate HoldsNamed(node: Node, names: set<string>) {
    (node.kind.Element? && node.data in names) || HasDescendantNamed(node, names)
  }

  lemma DescendantChild(node: Node, names: set<string>)
    ensures HasDescendantNamed(node, names) <==> exists j :: 0 <= j < |node.children| && HoldsNamed(node.children[j], names)
  {
    if HasDescendantNamed(node, names) {
      var child :| child in node.children && HoldsNamed(child, names);
      var j :| 0 <= j < |node.children| && node.children[j] == child;
    }
    if j :| 0 <= j < |node.children| && HoldsNamed(node.children[j], names) {
      assert node.children[j] in node.children;
    }
  }

  // ----- Paths -----

  /** `strings.Join(parts, " > ")` */
  function Join(parts: seq<string>): string {
    if parts == [] then "" else if |parts| == 1 then parts[0] else parts[0] + " > " + Join(parts[1..])
  }

  function Parts(v: Visit): seq<string>
    requires Placed(v)
  {
    v.above + [Part(v)]
  }

  /** `nodePath` */
  function Path(v: Visit): string
    requires Placed(v)
  {
    Join(Parts(v))
  }

  lemma {:induction false} JoinMore(parts: seq<string>, part: string)
    requires parts != []
    ensures Join(parts + [part]) == Join(parts) + " > " + part
  {
    var all := parts + [part];
    assert all[1..] == parts[1..] + [part];
    if |parts| > 1 {
      JoinMore(parts[1..], part);
      assert Join(all) == parts[0] + " > " + (Join(parts[1..]) + " > " + part);
    } else {
      assert all == [parts[0], part] && Join(all[1..]) == part;
    }
  }

  /** The path of a child goes on from its parent's, if that is an element, by its name, with its
      place among the elements of that name from the second on. */
  lemma ChildPath(v: Visit, i: nat)
    requires Placed(v) && i < |v.node.children|
    ensures var c := ChildVisit(v, i);
            var n := |PlacesNamed(v.node.children[..i + 1], c.node.data)|;
            var part := if n > 1 then c.node.data + ":nth-of-type(" + Decimal(n) + ")" else c.node.data;
            && c.depth == v.depth + 1 && c.node == v.node.children[i]
            && Path(c) == if v.node.kind.Element? then Path(v) + " > " + part else part
  {
    var c := ChildVisit(v, i);
    CountsAreSizes(v.node.children[..i + 1], c.node.data);
    if v.node.kind.Element? {
      JoinMore(Parts(v), Part(c));
    }
  }

  predicate NoSpace(s: string) {
    ' ' !in s
  }

  lemma {:induction false} DecimalNoSpace(n: nat)
    ensures NoSpace(Decimal(n))
  {
    if n >= 10 { DecimalNoSpace(n / 10); }
  }

  lemma LabelNoSpace(name: string, index: nat)
    requires NoSpace(name)
    ensures NoSpace(Label(name, index))
  {
    DecimalNoSpace(index);
  }

  lemma BeforeSpace(x: string, a: string, y: string, b: string)
    requires NoSpace(x) && NoSpace(y) && x + " > " + a == y + " > " + b
    ensures x == y && a == b
  {
    var s := x + " > " + a;
    assert s[|x|] == ' ' && s[|y|] == ' ';
    assert |x| == |y|;
    assert x == s[..|x|] && y == s[..|y|] && a == s[|x| + 3..] && b == s[|y| + 3..];
  }

  /** Paths whose parts hold no space are read back unambiguously. */
  lemma {:induction false} JoinInjective(p: seq<string>, q: seq<string>)
    requires p != [] && q != [] && Join(p) == Join(q)
    requires (forall s :: s in p ==> NoSpace(s)) && (forall s :: s in q ==> NoSpace(s))
    ensures p == q
  {
    assert NoSpace(p[0]) && NoSpace(q[0]);
    if |p| > 1 && |q| > 1 {
      BeforeSpace(p[0], Join(p[1..]), q[0], Join(q[1..]));
      JoinInjective(p[1..], q[1..]);
      assert p == [p[0]] + p[1..] && q == [q[0]] + q[1..];
    }
  }

  /** No element name holds a space (the tokenizer ends a name there), and only elements and the
      root have children. Text and comments may hold anything. */
  predicate Parsed(node: Node) {
    && (node.kind.Element? ==> NoSpace(node.data))
    && forall c :: c in node.children ==> Parsed(c) && (c.kind.Element? || c.children == [])
  }

  predicate IsElement(v: Visit) {
    v.node.kind.Element?
  }

  /** Two element siblings at different places never share a label. */
  predicate SiblingsApart(node: Node) {
    && (forall i, j :: 0 <= i < j < |node.children| ==> ApartAt(node, i, j))
    && forall c :: c in node.children ==> SiblingsApart(c)
  }

  function LabelAt(node: Node, i: nat): string
    requires i < |node.children|
  {
    Label(node.children[i].data, CountNamed(node.children[..i + 1], node.children[i].data))
  }

  ghost predicate PartsDistinct(vs: seq<Visit>)
    requires forall w :: w in vs ==> Placed(w)
  {
    forall i, j :: 0 <= i < j < |vs| && IsElement(vs[i]) && IsElement(vs[j]) ==> Parts(vs[i]) != Parts(vs[j])
  }

  /** `nodePath` tells any two elements in the list apart. */
  ghost predicate PathsDistinct(vs: seq<Visit>)
    requires forall w :: w in vs ==> Placed(w)
  {
    forall i, j :: 0 <= i < j < |vs| && IsElement(vs[i]) && IsElement(vs[j]) ==> Path(vs[i]) != Path(vs[j])
  }

  // Every element below `v` has the parts of `v` as the start of its own.

  lemma {:induction false} PartsBelow(v: Visit)
    requires Placed(v) && Parsed(v.node) && v.node.kind.Element?
    ensures forall w :: w in Visits(v) && IsElement(w) ==> Parts(v) <= Parts(w)
    ensures forall w :: w in VisitsFrom(v, 0) && IsElement(w) ==> |Parts(w)| > |Parts(v)|
    decreases v.node, |v.node.children| + 1
  {
    PartsBelowFrom(v, 0);
  }

  lemma {:induction false} PartsBelowFrom(v: Visit, i: nat)
    requires Placed(v) && Parsed(v.node) && v.node.kind.Element? && i <= |v.node.children|
    ensures forall w :: w in VisitsFrom(v, i) && IsElement(w) ==> Parts(v) <= Parts(w) && |Parts(w)| > |Parts(v)|
    decreases v.node, |v.node.children| - i
  {
    if i < |v.node.children| {
      var c := ChildVisit(v, i);
      assert c.node in v.node.children;
      PartsBelowFrom(v, i + 1);
      forall w | w in Visits(c) && IsElement(w) ensures Parts(v) <= Parts(w) && |Parts(w)| > |Parts(v)| {
        PartsBelowChild(v, i, w);
      }
    }
  }

  lemma {:induction false} PartsBelowChild(v: Visit, i: nat, w: Visit)
    requires Placed(v) && Parsed(v.node) && v.node.kind.Element? && i < |v.node.children|
    requires w in Visits(ChildVisit(v, i)) && IsElement(w)
    ensures Parts(v) <= Parts(w) && |Parts(w)| > |Parts(v)|
    decreases v.node, 0
  {
    var c := ChildVisit(v, i);
    assert c.node in v.node.children;
    ElementAbove(c, w);
    PartsBelow(c);
    assert Parts(c) == Parts(v) + [Part(c)];
  }

  lemma {:induction false} BelowSomeChild(v: Visit, i: nat, w: Visit)
    requires Placed(v) && Parsed(v.node) && i <= |v.node.children| && w in VisitsFrom(v, i) && IsElement(w)
    ensures exists j :: i <= j < |v.node.children| && v.node.children[j].kind.Element? && Parts(ChildVisit(v, j)) <= Parts(w)
    decreases |v.node.children| - i
  {
    var c := ChildVisit(v, i);
    assert c.node in v.node.children;
    assert !c.node.kind.Element? ==> Visits(c) == [c];
    if w in Visits(c) {
      PartsBelow(c);
    } else {
      BelowSomeChild(v, i + 1, w);
    }
  }

  lemma PartsDistinctConcat(a: seq<Visit>, b: seq<Visit>)
    requires (forall w :: w in a ==> Placed(w)) && (forall w :: w in b ==> Placed(w))
    requires PartsDistinct(a) && PartsDistinct(b)
    requires forall x, y :: x in a && y in b && IsElement(x) && IsElement(y) ==> Parts(x) != Parts(y)
    ensures PartsDistinct(a + b)
  {
    var s := a + b;
    forall i, j | 0 <= i < j < |s| && IsElement(s[i]) && IsElement(s[j]) ensures Parts(s[i]) != Parts(s[j]) {
      if i < |a| && j >= |a| {
        assert s[i] in a && s[j] in b;
      }
    }
  }

  lemma {:induction false} ApartMeansDistinct(v: Visit)
    requires Placed(v) && Parsed(v.node) && SiblingsApart(v.node)
    ensures PartsDistinct(Visits(v))
    decreases v.node, |v.node.children| + 1
  {
    ApartMeansDistinctFrom(v, 0);
    if v.node.kind.Element? {
      PartsBelow(v);
    }
    PartsDistinctConcat([v], VisitsFrom(v, 0));
  }

  lemma {:induction false} ApartMeansDistinctFrom(v: Visit, i: nat)
    requires Placed(v) && Parsed(v.node) && SiblingsApart(v.node) && i <= |v.node.children|
    ensures PartsDistinct(VisitsFrom(v, i))
    decreases v.node, |v.node.children| - i
  {
    if i < |v.node.children| {
      var c := ChildVisit(v, i);
      assert c.node in v.node.children;
      ApartMeansDistinct(c);
      ApartMeansDistinctFrom(v, i + 1);
      forall x, y | x in Visits(c) && y in VisitsFrom(v, i + 1) && IsElement(x) && IsElement(y)
        ensures Parts(x) != Parts(y)
      {
        BelowDifferentChildren(v, i, x, y);
      }
      PartsDistinctConcat(Visits(c), VisitsFrom(v, i + 1));
    }
  }

  lemma ElementAbove(c: Visit, x: Visit)
    requires Placed(c) && (c.node.kind.Element? || c.node.children == []) && x in Visits(c) && IsElement(x)
    ensures c.node.kind.Element?
  {
    assert c.node.children == [] ==> Visits(c) == [c];
  }

  lemma BelowDifferentChildren(v: Visit, i: nat, x: Visit, y: Visit)
    requires Placed(v) && Parsed(v.node) && i < |v.node.children|
    requires forall j :: i < j < |v.node.children| ==> ApartAt(v.node, i, j)
    requires x in Visits(ChildVisit(v, i)) && y in VisitsFrom(v, i + 1) && IsElement(x) && IsElement(y)
    ensures Parts(x) != Parts(y)
  {
    BelowThisChild(v, i, x);
    BelowSomeChild(v, i + 1, y);
    var j :| i + 1 <= j < |v.node.children| && v.node.children[j].kind.Element? && Parts(ChildVisit(v, j)) <= Parts(y);
    assert ApartAt(v.node, i, j);
    ApartChildrenDiffer(v, i, Parts(x), j, Parts(y));
  }

  lemma BelowThisChild(v: Visit, i: nat, x: Visit)
    requires Placed(v) && Parsed(v.node) && i < |v.node.children| && x in Visits(ChildVisit(v, i)) && IsElement(x)
    ensures v.node.children[i].kind.Element? && Parts(ChildVisit(v, i)) <= Parts(x)
  {
    var c := ChildVisit(v, i);
    assert c.node in v.node.children;
    ElementAbove(c, x);
    PartsBelow(c);
  }

  lemma ApartChildrenDiffer(v: Visit, i: nat, x: seq<string>, j: nat, y: seq<string>)
    requires Placed(v) && i < |v.node.children| && j < |v.node.children|
    requires LabelAt(v.node, i) != LabelAt(v.node, j)
    requires Parts(ChildVisit(v, i)) <= x && Parts(ChildVisit(v, j)) <= y
    ensures x != y
  {
    PartIsLabel(v, i);
    PartIsLabel(v, j);
    DifferentStarts(ChildVisit(v, i).above, Part(ChildVisit(v, i)), x, Part(ChildVisit(v, j)), y);
  }

  lemma DifferentStarts(base: seq<string>, p: string, x: seq<string>, q: string, y: seq<string>)
    requires base + [p] <= x && base + [q] <= y && p != q
    ensures x != y
  {
    assert x[|base|] == (base + [p])[|base|] && y[|base|] == (base + [q])[|base|];
  }

  lemma PartIsLabel(v: Visit, i: nat)
    requires Placed(v) && i < |v.node.children|
    ensures Part(ChildVisit(v, i)) == LabelAt(v.node, i)
  {
  }

  lemma {:induction false} ChildIsVisited(v: Visit, i: nat, j: nat)
    requires Placed(v) && i <= j < |v.node.children|
    ensures ChildVisit(v, j) in VisitsFrom(v, i)
    decreases |v.node.children| - i
  {
    if i < j {
      ChildIsVisited(v, i + 1, j);
    } else {
      assert ChildVisit(v, j) in Visits(ChildVisit(v, j));
    }
  }

  /** A node is visited before its children, and a child before its later siblings. */
  lemma {:induction false} DocumentOrder(v: Visit, k: nat, i: nat, j: nat)
    requires Placed(v) && k <= i < j < |v.node.children|
    ensures Visits(v)[0] == v
    ensures exists p, q :: 0 <= p < q < |VisitsFrom(v, k)| &&
                           VisitsFrom(v, k)[p] == ChildVisit(v, i) && VisitsFrom(v, k)[q] == ChildVisit(v, j)
    decreases i - k
  {
    var first, rest := Visits(ChildVisit(v, k)), VisitsFrom(v, k + 1);
    var vs := VisitsFrom(v, k);
    assert vs == first + rest;
    if k == i {
      ChildIsVisited(v, k + 1, j);
      var m :| 0 <= m < |rest| && rest[m] == ChildVisit(v, j);
      assert vs[0] == ChildVisit(v, i) && vs[|first| + m] == ChildVisit(v, j);
    } else {
      DocumentOrder(v, k + 1, i, j);
      var p, q :| 0 <= p < q < |rest| && rest[p] == ChildVisit(v, i) && rest[q] == ChildVisit(v, j);
      assert vs[|first| + p] == rest[p] && vs[|first| + q] == rest[q];
    }
  }

  lemma {:induction false} DistinctMeansApart(v: Visit)
    requires Placed(v) && PartsDistinct(Visits(v))
    ensures SiblingsApart(v.node)
    decreases v.node, |v.node.children| + 1
  {
    var vs := Visits(v);
    assert vs[1..] == VisitsFrom(v, 0);
    DistinctMeansApartFrom(v, 0);
    forall c | c in v.node.children ensures SiblingsApart(c) {
      var i :| 0 <= i < |v.node.children| && v.node.children[i] == c;
    }
  }

  lemma {:induction false} DistinctMeansApartFrom(v: Visit, k: nat)
    requires Placed(v) && k <= |v.node.children| && PartsDistinct(VisitsFrom(v, k))
    ensures forall i :: k <= i < |v.node.children| ==> SiblingsApart(v.node.children[i])
    ensures forall i, j :: k <= i < j < |v.node.children| ==> ApartAt(v.node, i, j)
    decreases v.node, |v.node.children| - k
  {
    if k < |v.node.children| {
      var c := ChildVisit(v, k);
      var first, rest, vs := Visits(c), VisitsFrom(v, k + 1), VisitsFrom(v, k);
      assert vs == first + rest && vs[..|first|] == first && vs[|first|..] == rest;
      assert c.node in v.node.children;
      DistinctMeansApart(c);
      DistinctMeansApartFrom(v, k + 1);
      forall j | k < j < |v.node.children| ensures ApartAt(v.node, k, j) {
        DistinctFromLater(v, k, j);
      }
    }
  }

  predicate ApartAt(node: Node, i: nat, j: nat)
    requires i < |node.children| && j < |node.children|
  {
    node.children[i].kind.Element? && node.children[j].kind.Element? ==> LabelAt(node, i) != LabelAt(node, j)
  }

  lemma DistinctFromLater(v: Visit, k: nat, j: nat)
    requires Placed(v) && k < j < |v.node.children| && PartsDistinct(VisitsFrom(v, k))
    ensures ApartAt(v.node, k, j)
  {
    var c, first, rest, vs := ChildVisit(v, k), Visits(ChildVisit(v, k)), VisitsFrom(v, k + 1), VisitsFrom(v, k);
    ChildIsVisited(v, k + 1, j);
    var m :| 0 <= m < |rest| && rest[m] == ChildVisit(v, j);
    assert vs == first + rest && vs[0] == c && vs[|first| + m] == ChildVisit(v, j);
    PartIsLabel(v, k);
    PartIsLabel(v, j);
  }

  predicate PlainParts(v: Visit)
    requires Placed(v)
  {
    forall s :: s in Parts(v) ==> NoSpace(s)
  }

  lemma {:induction false} VisitsArePlain(v: Visit)
    requires Placed(v) && Parsed(v.node) && forall s :: s in v.above ==> NoSpace(s)
    ensures forall w :: w in Visits(v) && IsElement(w) ==> PlainParts(w)
    decreases v.node, |v.node.children| + 1
  {
    if v.node.kind.Element? {
      LabelNoSpace(v.node.data, IndexOfType(v));
    }
    VisitsFromArePlain(v, 0);
  }

  lemma {:induction false} VisitsFromArePlain(v: Visit, i: nat)
    requires Placed(v) && Parsed(v.node) && i <= |v.node.children| && forall s :: s in v.above ==> NoSpace(s)
    ensures forall w :: w in VisitsFrom(v, i) && IsElement(w) ==> PlainParts(w)
    decreases v.node, |v.node.children| - i
  {
    if i < |v.node.children| {
      if v.node.kind.Element? {
        LabelNoSpace(v.node.data, IndexOfType(v));
      }
      assert ChildVisit(v, i).node in v.node.children;
      VisitsArePlain(ChildVisit(v, i));
      VisitsFromArePlain(v, i + 1);
    }
  }

  /** Node paths tell all elements of a document apart exactly if no two siblings share a label. */
  lemma PathsDistinctExactly(doc: Node)
    requires Parsed(doc)
    ensures PathsDistinct(Visits(Root(doc))) <==> SiblingsApart(doc)
  {
    var vs := Visits(Root(doc));
    VisitsArePlain(Root(doc));
    forall i, j | 0 <= i < j < |vs| && IsElement(vs[i]) && IsElement(vs[j])
      ensures Path(vs[i]) == Path(vs[j]) <==> Parts(vs[i]) == Parts(vs[j])
    {
      assert PlainParts(vs[i]) && PlainParts(vs[j]);
      if Path(vs[i]) == Path(vs[j]) {
        JoinInjective(Parts(vs[i]), Parts(vs[j]));
      }
    }
    if SiblingsApart(doc) {
      ApartMeansDistinct(Root(doc));
    }
    if PathsDistinct(vs) {
      DistinctMeansApart(Root(doc));
    }
  }

  // ----- When siblings share a label -----

  predicate MarkerAt(s: string, k: nat) {
    k + |NTH| <= |s| && s[k..k + |NTH|] == NTH
  }

  ghost predicate HasMarker(s: string) {
    exists k: nat :: MarkerAt(s, k)
  }

  /** No element is called like another one's label. */
  ghost predicate PlainNames(node: Node) {
    (node.kind.Element? ==> !HasMarker(node.data)) && forall c :: c in node.children ==> PlainNames(c)
  }

  lemma MarkerInside(x: string, a: string, y: string, b: string)
    requires |x| < |y| && x + NTH + a == y + NTH + b
    ensures HasMarker(y)
  {
    var s := x + NTH + a;
    assert s[|y|] == NTH[0];
    assert forall d :: 0 <= d < |NTH| ==> s[|x| + d] == NTH[d];
    assert s[|x|..|x| + |NTH|] == NTH;
    assert MarkerAt(y, |x|);
  }

  lemma LabelInjective(x: string, i: nat, y: string, j: nat)
    requires !HasMarker(x) && !HasMarker(y) && i >= 1 && j >= 1 && Label(x, i) == Label(y, j)
    ensures x == y && i == j
  {
    var a, b := Decimal(i) + ")", Decimal(j) + ")";
    assert i > 1 ==> MarkerAt(Label(x, i), |x|);
    assert j > 1 ==> MarkerAt(Label(y, j), |y|);
    if i > 1 && j > 1 {
      assert x + NTH + a == Label(x, i) && y + NTH + b == Label(y, j);
      if |x| < |y| {
        MarkerInside(x, a, y, b);
      } else if |y| < |x| {
        MarkerInside(y, b, x, a);
      }
      assert x == Label(x, i)[..|x|] && a == Label(x, i)[|x| + |NTH|..] && b == Label(x, i)[|x| + |NTH|..];
      assert Decimal(i) == a[..|a| - 1] && Decimal(j) == b[..|b| - 1];
      DecimalInjective(i, j);
    }
  }

  lemma {:induction false} CountGrows(nodes: seq<Node>, i: nat, j: nat)
    requires i < j < |nodes| && nodes[j].kind.Element?
    ensures CountNamed(nodes[..i + 1], nodes[j].data) < CountNamed(nodes[..j + 1], nodes[j].data)
    decreases j
  {
    CountMonotone(nodes, i + 1, j, nodes[j].data);
    assert nodes[..j + 1][..j] == nodes[..j];
  }

  lemma {:induction false} CountMonotone(nodes: seq<Node>, i: nat, j: nat, name: string)
    requires i <= j <= |nodes|
    ensures CountNamed(nodes[..i], name) <= CountNamed(nodes[..j], name)
    decreases j
  {
    if i < j {
      CountMonotone(nodes, i, j - 1, name);
      assert nodes[..j][..j - 1] == nodes[..j - 1];
    }
  }

  /** With plain names node paths tell all elements apart. */
  lemma {:induction false} PlainNamesApart(node: Node)
    requires PlainNames(node)
    ensures SiblingsApart(node)
  {
    var cs := node.children;
    forall i, j | 0 <= i < j < |cs| && cs[i].kind.Element? && cs[j].kind.Element?
      ensures LabelAt(node, i) != LabelAt(node, j)
    {
      assert PlainNames(cs[i]) && PlainNames(cs[j]);
      assert cs[..i + 1][..i] == cs[..i] && cs[..j + 1][..j] == cs[..j];
      if LabelAt(node, i) == LabelAt(node, j) {
        LabelInjective(cs[i].data, CountNamed(cs[..i + 1], cs[i].data), cs[j].data, CountNamed(cs[..j + 1], cs[j].data));
        CountGrows(cs, i, j);
      }
    }
    assert forall i, j :: 0 <= i < j < |cs| ==> ApartAt(node, i, j);
    forall c | c in cs ensures SiblingsApart(c) {
      PlainNamesApart(c);
    }
  }

  /** An element called `p:nth-of-type(2)` shares the label of the second `p` beside it. */
  lemma LabelClash(doc: Node, p: Node, q: Node)
    requires doc.children == [p, p, q] && p.kind.Element? && q.kind.Element?
    requires p.data == "p" && q.data == "p:nth-of-type(2)"
    ensures !SiblingsApart(doc)
  {
    var cs := doc.children;
    assert cs[..2][..1] == cs[..1] && cs[..1][..0] == [];
    assert CountNamed(cs[..1], "p") == 1 && CountNamed(cs[..2], "p") == 2;
    assert cs[..3][..2] == cs[..2];
    assert CountNamed(cs[..1], q.data) == 0 && CountNamed(cs[..2], q.data) == 0;
    assert !ApartAt(doc, 1, 2) by {
      assert "p" + NTH + "2" + ")" == q.data;
    }
    assert LabelAt(doc, 1) == "p" + NTH + "2" + ")" && LabelAt(doc, 2) == q.data;
    assert "p" + NTH + "2" + ")" == q.data;
  }
}
