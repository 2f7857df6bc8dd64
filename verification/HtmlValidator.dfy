/** cmd/canvas/artifact_html_validate.go: the walk that checks canvas ids. */
module HtmlValidator {
  import opened Prelude
  import opened Strings
  import opened HtmlTree

  // ----- What an element is -----

  function LowerChar(c: char): char {
    if 'A' <= c <= 'Z' then c - 'A' + 'a' else c
  }

  function Lower(s: string): string {
    seq(|s|, i requires 0 <= i < |s| => LowerChar(s[i]))
  }

  function HeadingLevel(name: string): nat {
    if |name| != 2 || name[0] != 'h' || name[1] < '1' || name[1] > '6' then 0 else (name[1] - '0') as nat
  }

  /** `isSemanticElement`, for a lower-case name. */
  predicate IsSemantic(name: string) {
    name in {"main", "section", "article", "nav", "aside", "header", "footer", "form", "figure", "figcaption",
             "table", "thead", "tbody", "tfoot", "tr", "th", "td", "ul", "ol", "li", "dl", "dt", "dd"}
    || HeadingLevel(name) > 0
  }

  const RICH := {"article", "section", "figure", "form", "table"}

  predicate IsRichRepeatedListItem(v: Visit) {
    && v.parent.Some? && v.parent.value.data in {"ul", "ol"}
    && CountNamed(v.parent.value.children, "li") >= 2
    && (HasDescendantNamed(v.node, RICH) || CountElements(v.node.children) >= 2)
  }

  predicate RequiresCanvasID(v: Visit) {
    var name := Lower(v.node.data);
    v.node.kind.Element? &&
    if name in {"main", "section", "article", "nav", "aside", "form", "figure", "table"} then true
    else if name in {"header", "footer"} then
      v.parent.Some? && v.parent.value.kind.Element? && v.parent.value.data in {"body", "main"}
    else name == "li" && IsRichRepeatedListItem(v)
  }

  // ----- Canvas ids -----

  function AttrValue(attrs: seq<(string, string)>, name: string): string {
    if attrs == [] then "" else if attrs[0].0 == name then attrs[0].1 else AttrValue(attrs[1..], name)
  }

  /** The trimmed id of an element, empty if it has none. */
  function CanvasID(node: Node): string {
    TrimSpace(AttrValue(node.attrs, "data-canvas-id"))
  }

  predicate LowerOrDigit(c: char) {
    'a' <= c <= 'z' || '0' <= c <= '9'
  }

  /** `(?:[a-z0-9]|-[a-z0-9])*` */
  predicate KebabTail(s: string) {
    s == "" || (LowerOrDigit(s[0]) && KebabTail(s[1..]))
    || (s[0] == '-' && |s| > 1 && LowerOrDigit(s[1]) && KebabTail(s[2..]))
  }

  /** `^[a-z][a-z0-9]*(?:-[a-z0-9]+)*$`, and no longer than 80. */
  predicate ValidCanvasID(id: string) {
    id != "" && 'a' <= id[0] <= 'z' && KebabTail(id[1..]) && |id| <= 80
  }

  // ----- The same, spelled out -----

  /** The attributes before this index have other names. */
  predicate NoneBefore(attrs: seq<(string, string)>, name: string, i: nat) {
    i <= |attrs| && forall j :: 0 <= j < i ==> attrs[j].0 != name
  }

  /** The first attribute of the name counts; without one the value is empty. */
  lemma {:induction false} AttrValueIsFirst(attrs: seq<(string, string)>, name: string, i: nat)
    requires NoneBefore(attrs, name, i) && (i < |attrs| ==> attrs[i].0 == name)
    ensures AttrValue(attrs, name) == if i < |attrs| then attrs[i].1 else ""
    decreases i
  {
    if i > 0 {
      assert attrs[0].0 != name;
      assert NoneBefore(attrs[1..], name, i - 1);
      AttrValueIsFirst(attrs[1..], name, i - 1);
    }
  }

  lemma HeadingLevelExactly(name: string)
    ensures HeadingLevel(name) == if name == "h1" then 1 else if name == "h2" then 2 else if name == "h3" then 3
                                  else if name == "h4" then 4 else if name == "h5" then 5 else if name == "h6" then 6 else 0
  {
    if |name| == 2 && name[0] == 'h' {
      assert name == ['h', name[1]];
    }
  }

  lemma SemanticExactly(name: string)
    ensures IsSemantic(name) <==>
              name in {"h1", "h2", "h3", "h4", "h5", "h6", "main", "section", "article", "nav", "aside", "header", "footer",
                       "form", "figure", "figcaption", "table", "thead", "tbody", "tfoot", "tr", "th", "td",
                       "ul", "ol", "li", "dl", "dt", "dd"}
  {
    HeadingLevelExactly(name);
  }

  lemma {:induction false} KebabTailExactly(s: string)
    ensures KebabTail(s) <==> Hyphenated(s)
  {
    if s != "" {
      if LowerOrDigit(s[0]) {
        KebabTailExactly(s[1..]);
        TailShift(s, 1);
      } else if s[0] == '-' && |s| > 1 && LowerOrDigit(s[1]) {
        KebabTailExactly(s[2..]);
        TailShift(s, 2);
      }
    }
  }

  ghost predicate Hyphenated(s: string) {
    && (forall k :: 0 <= k < |s| ==> LowerOrDigit(s[k]) || s[k] == '-')
    && (forall k :: 0 <= k < |s| && s[k] == '-' ==> k + 1 < |s| && s[k + 1] != '-')
  }

  lemma TailShift(s: string, n: nat)
    requires n <= |s| && (forall k :: 0 <= k < n ==> LowerOrDigit(s[k]) || s[k] == '-')
    requires forall k :: 0 <= k < n && s[k] == '-' ==> k + 1 < n && s[k + 1] != '-'
    ensures Hyphenated(s) <==> Hyphenated(s[n..])
  {
    forall k | n <= k < |s| ensures s[k] == s[n..][k - n] {}
    if Hyphenated(s) {
      forall k | 0 <= k < |s[n..]| ensures LowerOrDigit(s[n..][k]) || s[n..][k] == '-' {
        assert s[n..][k] == s[k + n];
      }
    }
    if Hyphenated(s[n..]) {
      forall k | n <= k < |s| ensures LowerOrDigit(s[k]) || s[k] == '-' {
        assert s[n..][k - n] == s[k];
      }
    }
  }

  /** Lower-case letters, digits and hyphens, beginning with a letter, no two hyphens together and
      none at the end; at most eighty characters. */
  lemma ValidCanvasIDExactly(id: string)
    ensures ValidCanvasID(id) <==>
              && 0 < |id| <= 80 && 'a' <= id[0] <= 'z'
              && (forall k :: 0 <= k < |id| ==> 'a' <= id[k] <= 'z' || '0' <= id[k] <= '9' || id[k] == '-')
              && (forall k :: 0 <= k < |id| && id[k] == '-' ==> k + 1 < |id| && id[k + 1] != '-')
  {
    if id != "" && 'a' <= id[0] <= 'z' {
      KebabTailExactly(id[1..]);
      TailShift(id, 1);
    }
  }

  /** Which elements need an id. */
  lemma RequiredExactly(v: Visit)
    requires Placed(v) && v.node.kind.Element?
    ensures var name, needed := Lower(v.node.data), RequiresCanvasID(v);
            && (name in {"main", "section", "article", "nav", "aside", "form", "figure", "table"} ==> needed)
            && (name in {"header", "footer"} ==>
                  (needed <==> v.parent.Some? && v.parent.value.kind.Element? && v.parent.value.data in {"body", "main"}))
            && (name == "li" ==> (needed <==> RichItem(v)))
            && (name !in {"main", "section", "article", "nav", "aside", "form", "figure", "table", "header", "footer", "li"} ==> !needed)
  {
    RichExactly(v);
  }

  lemma RichExactly(v: Visit)
    requires Placed(v)
    ensures IsRichRepeatedListItem(v) <==> RichItem(v)
  {
    if v.parent.Some? {
      CountsAreSizes(v.parent.value.children, "li");
    }
    CountsAreSizes(v.node.children, "li");
    HasDescendantExactly(v, 0, RICH);
    DescendantChild(v.node, RICH);
  }

  /** One of several items of a list that holds one of these elements, or two elements directly. */
  ghost predicate RichItem(v: Visit)
    requires Placed(v)
  {
    && v.parent.Some? && v.parent.value.data in {"ul", "ol"} && |PlacesNamed(v.parent.value.children, "li")| >= 2
    && (|PlacesOfElements(v.node.children)| >= 2 ||
        exists w :: w in VisitsFrom(v, 0) && w.node.kind.Element? && w.node.data in {"article", "section", "figure", "form", "table"})
  }

  // ----- The walk over the nodes in document order -----

  datatype Issue =
    | MissingCanvasID(path: string)
    | InvalidCanvasID(path: string, id: string)
    | DuplicateCanvasID(path: string, id: string, firstPath: string)

  datatype State = State(issues: seq<Issue>, ids: map<string, string>, idCount: nat, semanticCount: nat,
                         maxDepth: nat, headings: seq<(nat, string)>)

  const NEW_STATE := State([], map[], 0, 0, 0, [])

  /** `validateCanvasID` */
  function CheckID(s: State, v: Visit, required: bool): State
    requires Placed(v)
  {
    var id, path := CanvasID(v.node), Path(v);
    if id == "" then
      if required then s.(issues := s.issues + [MissingCanvasID(path)]) else s
    else
      var invalid := if ValidCanvasID(id) then [] else [InvalidCanvasID(path, id)];
      var s1 := s.(idCount := s.idCount + 1, issues := s.issues + invalid);
      if id in s.ids then s1.(issues := s1.issues + [DuplicateCanvasID(path, id, s.ids[id])])
      else s1.(ids := s1.ids[id := path])
  }

  /** The figures and headings, after one element. */
  function Noted(s: State, v: Visit): State
    requires Placed(v)
  {
    var name := Lower(v.node.data);
    s.(maxDepth := if v.depth > s.maxDepth then v.depth else s.maxDepth,
       semanticCount := s.semanticCount + if IsSemantic(name) then 1 else 0,
       headings := s.headings + if HeadingLevel(name) > 0 then [(HeadingLevel(name), Path(v))] else [])
  }

  /** What the walk does at one node. */
  function Process(s: State, v: Visit): State
    requires Placed(v)
  {
    if !IsElement(v) then s
    else CheckID(Noted(s, v), v, Lower(v.node.data) == "main" || RequiresCanvasID(v))
  }

  function ProcessAll(s: State, vs: seq<Visit>): State
    requires forall v :: v in vs ==> Placed(v)
    decreases |vs|
  {
    if vs == [] then s else ProcessAll(Process(s, vs[0]), vs[1..])
  }

  lemma {:induction false} ProcessAppend(s: State, a: seq<Visit>, b: seq<Visit>)
    requires (forall v :: v in a ==> Placed(v)) && (forall v :: v in b ==> Placed(v))
    ensures ProcessAll(s, a + b) == ProcessAll(ProcessAll(s, a), b)
    decreases |a|
  {
    if a == [] {
      assert a + b == b;
    } else {
      assert (a + b)[1..] == a[1..] + b;
      ProcessAppend(Process(s, a[0]), a[1..], b);
    }
  }

  // ----- When there is nothing to report -----

  /** All required ids are there, every id is well formed, and no two are the same. */
  ghost predicate Clean(vs: seq<Visit>)
    requires forall v :: v in vs ==> Placed(v)
  {
    && (forall v :: v in vs && IsElement(v) && RequiresCanvasID(v) ==> CanvasID(v.node) != "")
    && (forall v :: v in vs && IsElement(v) && CanvasID(v.node) != "" ==> ValidCanvasID(CanvasID(v.node)))
    && (forall i, j :: 0 <= i < j < |vs| && IsElement(vs[i]) && IsElement(vs[j]) && CanvasID(vs[i].node) != "" ==>
          CanvasID(vs[i].node) != CanvasID(vs[j].node))
  }

  /** The same, for the rest of a walk that has met `seen`. */
  ghost predicate CleanAfter(seen: set<string>, vs: seq<Visit>)
    requires forall v :: v in vs ==> Placed(v)
  {
    Clean(vs) && forall v :: v in vs && IsElement(v) ==> CanvasID(v.node) !in seen
  }

  ghost predicate CleanStep(seen: set<string>, v: Visit)
    requires Placed(v)
  {
    IsElement(v) ==>
      if CanvasID(v.node) == "" then !RequiresCanvasID(v)
      else ValidCanvasID(CanvasID(v.node)) && CanvasID(v.node) !in seen
  }

  function SeenWith(seen: set<string>, v: Visit): set<string> {
    if IsElement(v) && CanvasID(v.node) != "" then seen + {CanvasID(v.node)} else seen
  }

  lemma CleanSplits(seen: set<string>, vs: seq<Visit>)
    requires vs != [] && (forall v :: v in vs ==> Placed(v)) && "" !in seen
    ensures CleanAfter(seen, vs) <==> CleanStep(seen, vs[0]) && CleanAfter(SeenWith(seen, vs[0]), vs[1..])
  {
    if CleanStep(seen, vs[0]) && CleanAfter(SeenWith(seen, vs[0]), vs[1..]) {
      CleanJoins(seen, vs);
    }
    if CleanAfter(seen, vs) {
      CleanParts(seen, vs);
    }
  }

  lemma CleanJoins(seen: set<string>, vs: seq<Visit>)
    requires vs != [] && (forall v :: v in vs ==> Placed(v)) && "" !in seen
    requires CleanStep(seen, vs[0]) && CleanAfter(SeenWith(seen, vs[0]), vs[1..])
    ensures CleanAfter(seen, vs)
  {
    var v, rest := vs[0], vs[1..];
    assert vs == [v] + rest;
    forall i, j | 0 <= i < j < |vs| && IsElement(vs[i]) && IsElement(vs[j]) && CanvasID(vs[i].node) != ""
      ensures CanvasID(vs[i].node) != CanvasID(vs[j].node)
    {
      assert vs[j] == rest[j - 1] && vs[j] in rest;
      if i > 0 {
        assert vs[i] == rest[i - 1];
      }
    }
    assert Clean(vs);
  }

  lemma CleanParts(seen: set<string>, vs: seq<Visit>)
    requires vs != [] && (forall v :: v in vs ==> Placed(v)) && "" !in seen && CleanAfter(seen, vs)
    ensures CleanStep(seen, vs[0]) && CleanAfter(SeenWith(seen, vs[0]), vs[1..])
  {
    var v, rest := vs[0], vs[1..];
    assert vs == [v] + rest && v in vs;
    forall w | w in rest && IsElement(w) ensures CanvasID(w.node) !in SeenWith(seen, v) {
      var j :| 0 <= j < |rest| && rest[j] == w;
      assert vs[j + 1] == w && w in vs;
    }
    forall i, j | 0 <= i < j < |rest| && IsElement(rest[i]) && IsElement(rest[j]) && CanvasID(rest[i].node) != ""
      ensures CanvasID(rest[i].node) != CanvasID(rest[j].node)
    {
      assert rest[i] == vs[i + 1] && rest[j] == vs[j + 1];
    }
  }

  lemma ProcessReports(s: State, v: Visit)
    requires Placed(v)
    ensures s.issues <= Process(s, v).issues
    ensures Process(s, v).issues == s.issues <==> CleanStep(s.ids.Keys, v)
    ensures Process(s, v).ids.Keys == SeenWith(s.ids.Keys, v)
  {
  }

  lemma {:induction false} WalkReports(s: State, vs: seq<Visit>)
    requires (forall v :: v in vs ==> Placed(v)) && "" !in s.ids
    ensures s.issues <= ProcessAll(s, vs).issues
    ensures ProcessAll(s, vs).issues == s.issues <==> CleanAfter(s.ids.Keys, vs)
    decreases |vs|
  {
    if vs != [] {
      ProcessReports(s, vs[0]);
      WalkReports(Process(s, vs[0]), vs[1..]);
      CleanSplits(s.ids.Keys, vs);
    }
  }

  /** The walk reports no issue exactly for clean documents. */
  lemma CleanExactly(doc: Node)
    ensures ProcessAll(NEW_STATE, Visits(Root(doc))).issues == [] <==> Clean(Visits(Root(doc)))
  {
    WalkReports(NEW_STATE, Visits(Root(doc)));
  }

  // ----- Which place a duplicate is said to repeat -----

  /** For every id the path of the first element that has it. */
  function FirstPaths(vs: seq<Visit>): map<string, string>
    requires forall v :: v in vs ==> Placed(v)
  {
    if vs == [] then map[]
    else
      var rest := FirstPaths(vs[1..]);
      if IsElement(vs[0]) && CanvasID(vs[0].node) != "" then rest[CanvasID(vs[0].node) := Path(vs[0])] else rest
  }

  lemma {:induction false} IdsAreFirstPaths(s: State, vs: seq<Visit>)
    requires forall v :: v in vs ==> Placed(v)
    ensures ProcessAll(s, vs).ids == FirstPaths(vs) + s.ids
    decreases |vs|
  {
    if vs != [] {
      IdsAreFirstPaths(Process(s, vs[0]), vs[1..]);
    }
  }

  /** A duplicate is reported with the path of the first element that has its id. */
  lemma DuplicateNamesFirst(before: seq<Visit>, v: Visit)
    requires (forall w :: w in before ==> Placed(w)) && Placed(v)
    requires IsElement(v) && CanvasID(v.node) in FirstPaths(before) && CanvasID(v.node) != ""
    ensures DuplicateCanvasID(Path(v), CanvasID(v.node), FirstPaths(before)[CanvasID(v.node)])
            in ProcessAll(NEW_STATE, before + [v]).issues
  {
    var s := ProcessAll(NEW_STATE, before);
    IdsAreFirstPaths(NEW_STATE, before);
    assert s.ids == FirstPaths(before);
    ProcessAppend(NEW_STATE, before, [v]);
    assert ProcessAll(s, [v]) == Process(s, v) by { assert [v][1..] == []; }
    var issues := Process(s, v).issues;
    assert issues[|issues| - 1] == DuplicateCanvasID(Path(v), CanvasID(v.node), FirstPaths(before)[CanvasID(v.node)]);
  }

  // ----- What is reported about an element -----

  /** Every new issue is about this element: a missing id if one is needed, an id of a wrong form, an
      id met before with the path of the first element that has it. */
  lemma IssuesExactly(s: State, v: Visit, issue: Issue)
    requires Placed(v) && IsElement(v)
    ensures s.issues <= Process(s, v).issues
    ensures var id := CanvasID(v.node);
            issue in Process(s, v).issues[|s.issues|..] <==>
              || (issue == MissingCanvasID(Path(v)) && id == "" && RequiresCanvasID(v))
              || (issue == InvalidCanvasID(Path(v), id) && id != "" && !ValidCanvasID(id))
              || (id != "" && id in s.ids && issue == DuplicateCanvasID(Path(v), id, s.ids[id]))
  {
    var id, path, issues := CanvasID(v.node), Path(v), Process(s, v).issues;
    if id != "" {
      var invalid := if ValidCanvasID(id) then [] else [InvalidCanvasID(path, id)];
      var known := if id in s.ids then [DuplicateCanvasID(path, id, s.ids[id])] else [];
      assert issues == s.issues + (invalid + known);
      assert issues[|s.issues|..] == invalid + known;
    }
  }

  /** The headings noted are those of the elements walked, with their paths. */
  lemma {:induction false} HeadingsExactly(s: State, vs: seq<Visit>, level: nat, path: string)
    requires forall v :: v in vs ==> Placed(v)
    ensures (level, path) in ProcessAll(s, vs).headings <==>
              (level, path) in s.headings || exists v :: v in vs && IsHeading(v, level, path)
    decreases |vs|
  {
    if vs != [] {
      var v, s1 := vs[0], Process(s, vs[0]);
      HeadingsExactly(s1, vs[1..], level, path);
      assert s1.headings == s.headings || s1.headings == s.headings + [(HeadingLevel(Lower(v.node.data)), Path(v))];
      assert (level, path) in s1.headings <==> (level, path) in s.headings || IsHeading(v, level, path);
      assert forall w :: w in vs <==> w == v || w in vs[1..];
    }
  }

  predicate IsHeading(v: Visit, level: nat, path: string) {
    Placed(v) && IsElement(v) && level > 0 && HeadingLevel(Lower(v.node.data)) == level && Path(v) == path
  }

  // ----- The figures of the report -----

  function CountWhere(node: Node, p: Node -> bool): nat
    decreases node, 0
  {
    (if node.kind.Element? && p(node) then 1 else 0) + CountWhereAll(node.children, p)
  }

  function CountWhereAll(nodes: seq<Node>, p: Node -> bool): nat
    decreases nodes, 1
  {
    if nodes == [] then 0 else CountWhere(nodes[0], p) + CountWhereAll(nodes[1..], p)
  }

  function Max(a: nat, b: nat): nat {
    if a < b then b else a
  }

  /** The depth of the deepest element, `node` being at `depth`. */
  function Deepest(node: Node, depth: nat): nat
    decreases node, 0
  {
    Max(if node.kind.Element? then depth else 0, DeepestOf(node.children, depth + 1))
  }

  function DeepestOf(nodes: seq<Node>, depth: nat): nat
    decreases nodes, 1
  {
    if nodes == [] then 0 else Max(Deepest(nodes[0], depth), DeepestOf(nodes[1..], depth))
  }

  function HasID(): Node -> bool {
    (n: Node) => CanvasID(n) != ""
  }

  function Semantic(): Node -> bool {
    (n: Node) => IsSemantic(Lower(n.data))
  }

  ghost predicate Counted(s: State, s': State, ids: nat, semantic: nat, depth: nat) {
    && s'.idCount == s.idCount + ids && s'.semanticCount == s.semanticCount + semantic
    && s'.maxDepth == Max(s.maxDepth, depth)
  }

  /** Counts and depth of the walk are those of the tree. */
  lemma {:induction false} FiguresOf(s: State, v: Visit)
    requires Placed(v)
    ensures Counted(s, ProcessAll(s, Visits(v)),
                    CountWhere(v.node, HasID()), CountWhere(v.node, Semantic()), Deepest(v.node, v.depth))
    decreases v.node, |v.node.children| + 1
  {
    var vs := Visits(v);
    assert vs[0] == v && vs[1..] == VisitsFrom(v, 0);
    FiguresFrom(Process(s, v), v, 0);
    assert v.node.children[0..] == v.node.children;
  }

  lemma {:induction false} FiguresFrom(s: State, v: Visit, i: nat)
    requires Placed(v) && i <= |v.node.children|
    ensures Counted(s, ProcessAll(s, VisitsFrom(v, i)), CountWhereAll(v.node.children[i..], HasID()),
                    CountWhereAll(v.node.children[i..], Semantic()), DeepestOf(v.node.children[i..], v.depth + 1))
    decreases v.node, |v.node.children| - i
  {
    if i < |v.node.children| {
      var c := ChildVisit(v, i);
      ProcessAppend(s, Visits(c), VisitsFrom(v, i + 1));
      FiguresOf(s, c);
      FiguresFrom(ProcessAll(s, Visits(c)), v, i + 1);
      assert v.node.children[i..][1..] == v.node.children[i + 1..];
    }
  }

  // ----- The validator -----

  class Validator {
    var issues: seq<Issue>
    var canvasIDs: map<string, string>
    var canvasIDCount: nat
    var semanticCount: nat
    var maxDepth: nat
    var headings: seq<(nat, string)>

    ghost function Value(): State
      reads this
    {
      State(issues, canvasIDs, canvasIDCount, semanticCount, maxDepth, headings)
    }

    constructor ()
      ensures Value() == NEW_STATE
    {
      issues, canvasIDs, canvasIDCount, semanticCount, maxDepth, headings := [], map[], 0, 0, 0, [];
    }

    /** `walk` */
    method Walk(v: Visit)
      requires Placed(v)
      modifies this
      ensures Value() == ProcessAll(old(Value()), Visits(v))
      decreases v.node
    {
      if v.node.kind.Element? {
        WalkElement(v);
      }
      assert Value() == Process(old(Value()), v);
      ghost var whole := ProcessAll(old(Value()), Visits(v));
      assert Visits(v)[0] == v && Visits(v)[1..] == VisitsFrom(v, 0);
      for i := 0 to |v.node.children|
        invariant ProcessAll(Value(), VisitsFrom(v, i)) == whole
      {
        var c := ChildVisit(v, i);
        ProcessAppend(Value(), Visits(c), VisitsFrom(v, i + 1));
        Walk(c);
      }
    }

    /** The part of `walk` about the element itself. */
    method WalkElement(v: Visit)
      requires Placed(v) && IsElement(v)
      modifies this
      ensures Value() == Process(old(Value()), v)
    {
      Note(v);
      if Lower(v.node.data) == "main" {
        ValidateCanvasID(v, true);
      } else {
        ValidateCanvasID(v, RequiresCanvasID(v));
      }
    }

    /** Its figures and headings. */
    method Note(v: Visit)
      requires Placed(v) && IsElement(v)
      modifies this
      ensures Value() == Noted(old(Value()), v)
    {
      if v.depth > maxDepth {
        maxDepth := v.depth;
      }
      var name := Lower(v.node.data);
      if IsSemantic(name) {
        semanticCount := semanticCount + 1;
      }
      if HeadingLevel(name) > 0 {
        headings := headings + [(HeadingLevel(name), Path(v))];
      }
    }

    /** `validateCanvasID` */
    method ValidateCanvasID(v: Visit, required: bool)
      requires Placed(v)
      modifies this
      ensures Value() == CheckID(old(Value()), v, required)
    {
      var id := CanvasID(v.node);
      var path := Path(v);
      if id == "" {
        if required {
          issues := issues + [MissingCanvasID(path)];
        }
        return;
      }
      canvasIDCount := canvasIDCount + 1;
      if !ValidCanvasID(id) {
        issues := issues + [InvalidCanvasID(path, id)];
      }
      if id in canvasIDs {
        issues := issues + [DuplicateCanvasID(path, id, canvasIDs[id])];
        return;
      }
      canvasIDs := canvasIDs[id := path];
    }

    /** `validateHTMLFile` from the walk on, for the checks modelled here. */
    method Validate(doc: Node)
      requires Value() == NEW_STATE
      modifies this
      ensures issues == [] <==> Clean(Visits(Root(doc)))
      ensures canvasIDCount == CountWhere(doc, HasID()) && semanticCount == CountWhere(doc, Semantic())
      ensures maxDepth == Deepest(doc, 0)
    {
      Walk(Root(doc));
      CleanExactly(doc);
      FiguresOf(NEW_STATE, Root(doc));
    }
  }
}
