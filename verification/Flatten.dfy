/** cmd/fetchactions-oas3/parse_response.go: component schemas flattened along their references. */
module Flatten {
  import opened Prelude
  import opened OpenApi

  // ----- The reference graph -----

  predicate Resolvable(c: Components, n: Name) {
    n in c && c[n].Some?
  }

  /** A component that a search with `seen` behind it would enter. */
  predicate Open(c: Components, seen: set<Name>, n: Name) {
    Resolvable(c, n) && n !in seen
  }

  predicate IsPath(c: Components, seen: set<Name>, p: seq<Name>) {
    && p != [] && (forall i :: 0 <= i < |p| ==> Open(c, seen, p[i]))
    && (forall i :: 0 <= i < |p| - 1 ==> Open(c, seen, p[i]) && p[i + 1] in Targets(c[p[i]].value))
  }

  /** References lead from `a` to `b` by components outside `seen`. */
  ghost predicate Reaches(c: Components, seen: set<Name>, a: Name, b: Name) {
    exists p :: IsPath(c, seen, p) && p[0] == a && p[|p| - 1] == b
  }

  lemma ReachesSelf(c: Components, seen: set<Name>, n: Name)
    requires Open(c, seen, n)
    ensures Reaches(c, seen, n, n)
  {
    assert IsPath(c, seen, [n]);
  }

  /** Reaching on with more seen is reaching on. */
  lemma ReachesVia(c: Components, seen: set<Name>, seen': set<Name>, a: Name, t: Name, b: Name)
    requires Open(c, seen, a) && t in Targets(c[a].value) && seen <= seen' && Reaches(c, seen', t, b)
    ensures Reaches(c, seen, a, b)
  {
    var p :| IsPath(c, seen', p) && p[0] == t && p[|p| - 1] == b;
    var q := [a] + p;
    forall i | 0 <= i < |q| - 1 ensures Open(c, seen, q[i]) && q[i + 1] in Targets(c[q[i]].value) {
      if i > 0 {
        assert q[i] == p[i - 1] && q[i + 1] == p[i] && p[i - 1 + 1] in Targets(c[p[i - 1]].value);
      }
    }
    assert IsPath(c, seen, q);
  }

  lemma ReachesWithin(c: Components, seen: set<Name>, seen': set<Name>, a: Name, b: Name)
    requires seen <= seen' && Reaches(c, seen', a, b)
    ensures Reaches(c, seen, a, b)
  {
    var p :| IsPath(c, seen', p) && p[0] == a && p[|p| - 1] == b;
    assert IsPath(c, seen, p);
  }

  // ----- Arrays of arrays -----

  /** An array component is entered again only through its item, with nothing marked in between. */
  predicate NextArray(c: Components, seen: set<Name>, n: Name) {
    Open(c, seen, n) && Flat(c[n].value).items.Some?
  }

  predicate ChainEndsIn(c: Components, seen: set<Name>, n: Name, k: nat)
    decreases k
  {
    NextArray(c, seen, n) ==> k > 0 && ChainEndsIn(c, seen, Flat(c[n].value).items.value, k - 1)
  }

  ghost predicate ChainEnds(c: Components, seen: set<Name>, n: Name) {
    exists k: nat :: ChainEndsIn(c, seen, n, k)
  }

  lemma {:induction false} ChainEndsSooner(c: Components, seen: set<Name>, seen': set<Name>, n: Name, k: nat)
    requires seen <= seen' && ChainEndsIn(c, seen, n, k)
    ensures ChainEndsIn(c, seen', n, k)
    decreases k
  {
    if NextArray(c, seen', n) {
      ChainEndsSooner(c, seen, seen', Flat(c[n].value).items.value, k - 1);
    }
  }

  /** Every array chain a search from `n` runs into comes to an end. */
  ghost predicate Tame(c: Components, seen: set<Name>, n: Name) {
    forall m :: Reaches(c, seen, n, m) ==> ChainEnds(c, seen, m)
  }

  lemma TameTarget(c: Components, seen: set<Name>, seen': set<Name>, a: Name, t: Name)
    requires Tame(c, seen, a) && Open(c, seen, a) && t in Targets(c[a].value) && seen <= seen'
    ensures Tame(c, seen', t)
  {
    forall m | Reaches(c, seen', t, m) ensures ChainEnds(c, seen', m) {
      ReachesVia(c, seen, seen', a, t, m);
      var k: nat :| ChainEndsIn(c, seen, m, k);
      ChainEndsSooner(c, seen, seen', m, k);
    }
  }

  lemma TameChain(c: Components, seen: set<Name>, n: Name) returns (k: nat)
    requires Tame(c, seen, n)
    ensures ChainEndsIn(c, seen, n, k)
  {
    if Open(c, seen, n) {
      ReachesSelf(c, seen, n);
      k :| ChainEndsIn(c, seen, n, k);
    } else {
      k := 0;
    }
  }

  // ----- What a search adds -----

  /** All targets of a component are entries or cannot be resolved. */
  predicate Covered(c: Components, keys: set<Name>, n: Name) {
    Resolvable(c, n) && forall t :: t in Targets(c[n].value) ==> t in keys || !Resolvable(c, t)
  }

  type Schemas = map<Name, FlatSchema>

  /** `s'` extends `s` by entries of components reached from `name`. */
  ghost predicate Extends(c: Components, s: Schemas, name: Name, s': Schemas) {
    && s.Keys <= s'.Keys && (forall n :: n in s ==> s'[n] == s[n])
    && (forall n :: n in s' && n !in s ==>
          Reaches(c, s.Keys, name, n) && Resolvable(c, n) && s'[n] == Flat(c[n].value))
  }

  /** The exact outcome of flattening `name` into `s`. */
  ghost predicate Flattened(c: Components, s: Schemas, name: Name, s': Schemas) {
    Extends(c, s, name, s') && forall n :: n in s' <==> n in s || Reaches(c, s.Keys, name, n)
  }

  /** The outcome does not depend on the order in which properties are visited. */
  lemma FlattenedUnique(c: Components, s: Schemas, name: Name, s1: Schemas, s2: Schemas)
    requires Flattened(c, s, name, s1) && Flattened(c, s, name, s2)
    ensures s1 == s2
  {
    forall n | n in s1 ensures s1[n] == s2[n] {}
  }

  lemma {:induction false} PathIsAdded(c: Components, s: Schemas, s': Schemas, p: seq<Name>)
    requires IsPath(c, s.Keys, p) && p[0] in s'
    requires forall n :: n in s' && n !in s ==> Covered(c, s'.Keys, n)
    ensures p[|p| - 1] in s'
    decreases |p|
  {
    if |p| > 1 {
      assert p[0 + 1] in Targets(c[p[0]].value) && Covered(c, s'.Keys, p[0]);
      assert Open(c, s.Keys, p[1]);
      forall i | 0 <= i < |p[1..]| - 1 ensures p[1..][i + 1] in Targets(c[p[1..][i]].value) {
        assert p[i + 1 + 1] in Targets(c[p[i + 1]].value);
      }
      PathIsAdded(c, s, s', p[1..]);
    }
  }

  /** Covering every added component adds everything within reach. */
  lemma CoveredIsFlattened(c: Components, s: Schemas, name: Name, s': Schemas)
    requires Extends(c, s, name, s') && (name in s' || !Resolvable(c, name))
    requires forall n :: n in s' && n !in s ==> Covered(c, s'.Keys, n)
    ensures Flattened(c, s, name, s')
  {
    forall n | Reaches(c, s.Keys, name, n) ensures n in s' {
      var p :| IsPath(c, s.Keys, p) && p[0] == name && p[|p| - 1] == n;
      PathIsAdded(c, s, s', p);
    }
  }

  // ----- Closed maps -----

  /** Every entry of a component leads to entries only. */
  predicate Closed(c: Components, keys: set<Name>) {
    forall n :: n in keys && Resolvable(c, n) ==> Covered(c, keys, n)
  }

  lemma {:induction false} PathLeavesClosed(c: Components, keys: set<Name>, p: seq<Name>)
    requires Closed(c, keys) && IsPath(c, {}, p) && p[|p| - 1] !in keys
    ensures IsPath(c, keys, p)
    decreases |p|
  {
    forall i | 0 <= i < |p| ensures p[i] !in keys {
      PathStaysClosed(c, keys, p, i);
    }
  }

  lemma {:induction false} PathStaysClosed(c: Components, keys: set<Name>, p: seq<Name>, i: nat)
    requires Closed(c, keys) && IsPath(c, {}, p) && i < |p| && p[|p| - 1] !in keys
    ensures p[i] !in keys
    decreases |p| - i
  {
    if i + 1 < |p| {
      PathStaysClosed(c, keys, p, i + 1);
      assert p[i + 1] in Targets(c[p[i]].value) && Open(c, {}, p[i + 1]);
    }
  }

  /** From a closed map a component is reached past its entries exactly if it is reached at all. */
  lemma ClosedReaches(c: Components, keys: set<Name>, a: Name, b: Name)
    requires Closed(c, keys) && b !in keys
    ensures Reaches(c, keys, a, b) <==> Reaches(c, {}, a, b)
  {
    if Reaches(c, {}, a, b) {
      var p :| IsPath(c, {}, p) && p[0] == a && p[|p| - 1] == b;
      PathLeavesClosed(c, keys, p);
    }
    if Reaches(c, keys, a, b) {
      ReachesWithin(c, {}, keys, a, b);
    }
  }

  lemma ReachesNext(c: Components, keys: set<Name>, a: Name, b: Name, t: Name)
    requires Reaches(c, keys, a, b) && t in Targets(c[b].value) && Open(c, keys, t)
    ensures Reaches(c, keys, a, t)
  {
    var p :| IsPath(c, keys, p) && p[0] == a && p[|p| - 1] == b;
    var q := p + [t];
    forall i | 0 <= i < |q| - 1 ensures Open(c, keys, q[i]) && q[i + 1] in Targets(c[q[i]].value) {
      if i + 1 < |p| {
        assert p[i + 1] in Targets(c[p[i]].value);
      }
    }
    assert IsPath(c, keys, q);
  }

  /** A path along the references in the schemas themselves. */
  ghost predicate IsSchemaPath(c: Components, p: seq<Name>) {
    && p != [] && (forall i :: 0 <= i < |p| ==> Resolvable(c, p[i]))
    && forall i :: 0 <= i < |p| - 1 ==> Resolvable(c, p[i]) && Points(c[p[i]].value, p[i + 1])
  }

  ghost predicate LeadsTo(c: Components, a: Name, b: Name) {
    exists p :: IsSchemaPath(c, p) && p[0] == a && p[|p| - 1] == b
  }

  lemma ReachesIsLeadsTo(c: Components, a: Name, b: Name)
    ensures Reaches(c, {}, a, b) <==> LeadsTo(c, a, b)
  {
    forall p | p != [] && forall i :: 0 <= i < |p| ==> Resolvable(c, p[i])
      ensures IsPath(c, {}, p) <==> IsSchemaPath(c, p)
    {
      forall i | 0 <= i < |p| - 1 ensures p[i + 1] in Targets(c[p[i]].value) <==> Points(c[p[i]].value, p[i + 1]) {
        TargetsExactly(c[p[i]].value, p[i + 1]);
      }
      if IsPath(c, {}, p) {
        forall i | 0 <= i < |p| - 1 ensures Points(c[p[i]].value, p[i + 1]) {
          assert p[i + 1] in Targets(c[p[i]].value);
        }
      }
      if IsSchemaPath(c, p) {
        forall i | 0 <= i < |p| - 1 ensures p[i + 1] in Targets(c[p[i]].value) {
          assert Points(c[p[i]].value, p[i + 1]);
        }
      }
    }
  }

  /** From a closed map exactly the components that references in the schemas lead to and that were
      missing are added, and the map is closed again. */
  lemma ClosedFlattened(c: Components, s: Schemas, name: Name, s': Schemas)
    requires Closed(c, s.Keys) && Flattened(c, s, name, s')
    ensures forall n :: n in s' <==> n in s || LeadsTo(c, name, n)
    ensures forall n :: n in s' && n !in s ==> Resolvable(c, n) && IsEntryOf(s'[n], c[n].value)
    ensures Closed(c, s'.Keys)
  {
    ClosedFlattenedReaches(c, s, name, s');
    forall n ensures n in s' <==> n in s || LeadsTo(c, name, n) {
      ReachesIsLeadsTo(c, name, n);
    }
    forall n | n in s' && n !in s ensures IsEntryOf(s'[n], c[n].value) {
      FlatIsEntry(c[n].value);
    }
  }

  lemma ClosedFlattenedReaches(c: Components, s: Schemas, name: Name, s': Schemas)
    requires Closed(c, s.Keys) && Flattened(c, s, name, s')
    ensures forall n :: n in s' <==> n in s || Reaches(c, {}, name, n)
    ensures Closed(c, s'.Keys)
  {
    forall n | n !in s ensures Reaches(c, s.Keys, name, n) <==> Reaches(c, {}, name, n) {
      ClosedReaches(c, s.Keys, name, n);
    }
    forall n, t | n in s' && n !in s && t in Targets(c[n].value) && Resolvable(c, t) ensures t in s' {
      if t !in s {
        ReachesNext(c, s.Keys, name, n, t);
      }
    }
  }

  // ----- References of all entries, inline and list entries among them -----

  /** No reference dangles: each leads to an entry or to nothing a component could give. */
  predicate NoDangling(c: Components, s: Schemas) {
    forall n, t :: n in s && t in References(s[n]) ==> t in s || !Resolvable(c, t)
  }

  /** Every entry under a component's name is that component's. */
  predicate OwnEntries(c: Components, s: Schemas) {
    forall n :: n in s && Resolvable(c, n) ==> s[n] == Flat(c[n].value)
  }

  /** Together they make the map closed in the sense above. */
  lemma OwnIsClosed(c: Components, s: Schemas)
    requires NoDangling(c, s) && OwnEntries(c, s)
    ensures Closed(c, s.Keys)
  {
    forall n, t | n in s && Resolvable(c, n) && t in Targets(c[n].value) ensures t in s || !Resolvable(c, t) {
      assert t in References(s[n]);
    }
  }

  /** Flattening a component keeps both. */
  lemma FlattenedKeeps(c: Components, s: Schemas, name: Name, s': Schemas)
    requires Flattened(c, s, name, s') && forall n :: n in s' && n !in s ==> Covered(c, s'.Keys, n)
    ensures NoDangling(c, s) ==> NoDangling(c, s')
    ensures OwnEntries(c, s) ==> OwnEntries(c, s')
  {
    forall n, t | NoDangling(c, s) && n in s' && t in References(s'[n]) ensures t in s' || !Resolvable(c, t) {
      if n in s {
        assert s'[n] == s[n];
      } else {
        assert t in Targets(c[n].value);
      }
    }
  }

  // ----- The search -----

  function OpenSet(c: Components, seen: set<Name>): set<Name> {
    set n | n in c && c[n].Some? && n !in seen
  }

  lemma OpenSetShrinks(c: Components, seen: set<Name>, seen': set<Name>, n: Name)
    requires seen <= seen' && Open(c, seen, n) && n in seen'
    ensures |OpenSet(c, seen')| < |OpenSet(c, seen)|
  {
    SubsetSize(OpenSet(c, seen'), OpenSet(c, seen) - {n});
  }

  lemma {:induction false} SubsetSize<T>(a: set<T>, b: set<T>)
    requires a <= b
    ensures |a| <= |b|
  {
    if x :| x in a {
      SubsetSize(a - {x}, b - {x});
    }
  }

  class Flattener {
    const components: Components
    var schemas: Schemas

    constructor (components: Components)
      ensures this.components == components && schemas == map[]
    {
      this.components := components;
      schemas := map[];
    }

    /** `flattenV3Component`. The ghost `depth` bounds the array chain at `name`. */
    method Flatten(name: Name, ghost depth: nat)
      requires Tame(components, schemas.Keys, name)
      requires ChainEndsIn(components, schemas.Keys, name, depth)
      modifies this
      ensures Flattened(components, old(schemas), name, schemas)
      ensures name in schemas || !Resolvable(components, name)
      ensures forall n :: n in schemas && n !in old(schemas) ==> Covered(components, schemas.Keys, n)
      decreases 2 * |OpenSet(components, schemas.Keys)|, depth, 1
    {
      ghost var s := schemas;
      if name in schemas || name !in components || components[name].None? {
        CoveredIsFlattened(components, s, name, schemas);
        return;
      }
      if IsArray(components[name].value) {
        FlattenArray(name, depth);
      } else {
        FlattenObject(name, components[name].value, depth);
      }
      CoveredIsFlattened(components, s, name, schemas);
    }

    /** The part of `flattenV3Component` for arrays of something: the item first, then the mark. */
    method FlattenArray(name: Name, ghost depth: nat)
      requires Open(components, schemas.Keys, name) && IsArray(components[name].value)
      requires Tame(components, schemas.Keys, name) && ChainEndsIn(components, schemas.Keys, name, depth)
      modifies this
      ensures Extends(components, old(schemas), name, schemas) && name in schemas
      ensures forall n :: n in schemas && n !in old(schemas) ==> Covered(components, schemas.Keys, n)
      decreases 2 * |OpenSet(components, schemas.Keys)|, depth, 0
    {
      ghost var s := schemas;
      var flat := Flat(components[name].value);
      ReachesSelf(components, s.Keys, name);
      if flat.items.Some? {
        var item := flat.items.value;
        TameTarget(components, s.Keys, s.Keys, name, item);
        Flatten(item, depth - 1);
        ArrayDone(components, s, name, schemas);
      }
      schemas := schemas[name := flat];
    }

    /** The part of `flattenV3Component` for components that are not arrays: mark, then follow the
        properties in any order. */
    method FlattenObject(name: Name, schema: Schema, ghost depth: nat)
      requires Open(components, schemas.Keys, name) && components[name] == Some(schema) && !IsArray(schema)
      requires Tame(components, schemas.Keys, name)
      modifies this
      ensures Extends(components, old(schemas), name, schemas) && name in schemas
      ensures forall n :: n in schemas && n !in old(schemas) ==> Covered(components, schemas.Keys, n)
      decreases 2 * |OpenSet(components, schemas.Keys)|, depth, 0
    {
      ghost var s := schemas;
      var flat := Flat(schema);
      schemas := schemas[name := flat];
      Marked(components, s, name);
      var left := flat.properties.Keys;
      while left != {}
        invariant left <= flat.properties.Keys && name in schemas
        invariant Extends(components, s, name, schemas) && OthersCovered(components, s, name, schemas)
        invariant Followed(components, flat, left, schemas.Keys)
      {
        var k :| k in left;
        left := left - {k};
        var ref := flat.properties[k].schemaRef;
        if ref != "" {
          OpenSetShrinks(components, s.Keys, schemas.Keys, name);
          assert ref in Targets(schema);
          FollowProperty(ref, name, s);
        }
      }
      AllFollowed(components, s, name, schemas);
    }

    /** The recursive call for a property of `name`, begun from the entries `s`. */
    method FollowProperty(ref: Name, ghost name: Name, ghost s: Schemas)
      requires Open(components, s.Keys, name) && Tame(components, s.Keys, name) && ref in Targets(components[name].value)
      requires name in schemas && Extends(components, s, name, schemas) && OthersCovered(components, s, name, schemas)
      modifies this
      ensures Extends(components, s, name, schemas) && OthersCovered(components, s, name, schemas)
      ensures old(schemas).Keys <= schemas.Keys && (ref in schemas || !Resolvable(components, ref))
      decreases 2 * |OpenSet(components, schemas.Keys)| + 1
    {
      ghost var mid := schemas;
      TameTarget(components, s.Keys, mid.Keys, name, ref);
      ghost var depth := TameChain(components, mid.Keys, ref);
      Flatten(ref, depth);
      PropertyDone(components, s, name, mid, ref, schemas);
    }

    /** `extractV3ResponseSchema` on the responses for 200 and 201 that have a JSON schema.
        `inlineName` is the name for an inline object, None if the operation has no id. */
    method ExtractResponse(responses: seq<Response>, inlineName: Option<Name>) returns (name: Name)
      requires FirstName(responses, inlineName) != "" ==> TameFor(components, schemas.Keys, Decisive(responses, inlineName))
      requires inlineName != Some("")
      modifies this
      ensures name == FirstName(responses, inlineName)
      ensures name == "" ==> schemas == old(schemas)
      ensures name != "" ==> Adds(components, old(schemas), Decisive(responses, inlineName), name, schemas)
      ensures old(schemas).Keys <= schemas.Keys && forall n :: n in old(schemas) ==> schemas[n] == old(schemas)[n]
      ensures name != "" ==> name in schemas || !Resolvable(components, name)
      ensures old(NoDangling(components, schemas)) ==>
                (NoDangling(components, schemas) <==>
                 name == "" || !LeavesDangling(components, old(schemas), Decisive(responses, inlineName), name))
      ensures old(OwnEntries(components, schemas)) ==>
                (OwnEntries(components, schemas) <==>
                 name == "" || !TakesName(components, old(schemas), Decisive(responses, inlineName), name))
    {
      name := "";
      for i := 0 to |responses|
        invariant schemas == old(schemas)
        invariant FirstName(responses, inlineName) == FirstName(responses[i..], inlineName)
        invariant FirstName(responses, inlineName) != "" ==>
                    Decisive(responses, inlineName) == Decisive(responses[i..], inlineName)
      {
        assert responses[i..][1..] == responses[i + 1..];
        if NameFor(responses[i], inlineName) != "" {
          name := AddResponse(responses[i], inlineName);
          return;
        }
      }
    }

    /** The body of the loop for a response that gives its schema a name. */
    method AddResponse(r: Response, inlineName: Option<Name>) returns (name: Name)
      requires TameFor(components, schemas.Keys, r)
      requires NameFor(r, inlineName) != ""
      modifies this
      ensures name == NameFor(r, inlineName) && Adds(components, old(schemas), r, name, schemas)
      ensures old(schemas).Keys <= schemas.Keys && forall n :: n in old(schemas) ==> schemas[n] == old(schemas)[n]
      ensures name in schemas || !Resolvable(components, name)
      ensures old(NoDangling(components, schemas)) ==>
                (NoDangling(components, schemas) <==> !LeavesDangling(components, old(schemas), r, name))
      ensures old(OwnEntries(components, schemas)) ==>
                (OwnEntries(components, schemas) <==> !TakesName(components, old(schemas), r, name))
    {
      ghost var s := schemas;
      var ref := RefName(r.ref);
      if ref != "" {
        FlattenTame(ref);
        return ref;
      }
      if IsList(r) {
        var item := RefName(r.schema.items.value);
        name := item + "_list";
        if name !in schemas {
          FlattenTame(item);
          ghost var mid := schemas;
          schemas := schemas[name := ListEntry(item)];
          ListKeeps(components, s, mid, name, item);
        }
        return;
      }
      name := inlineName.value;
      if name !in schemas {
        schemas := schemas[name := InlineEntry(r)];
        InlineKeeps(components, s, name, r);
      }
    }

    method FlattenTame(name: Name)
      requires Tame(components, schemas.Keys, name)
      modifies this
      ensures Flattened(components, old(schemas), name, schemas)
      ensures name in schemas || !Resolvable(components, name)
      ensures old(NoDangling(components, schemas)) ==> NoDangling(components, schemas)
      ensures old(OwnEntries(components, schemas)) ==> OwnEntries(components, schemas)
    {
      ghost var s := schemas;
      ghost var depth := TameChain(components, schemas.Keys, name);
      Flatten(name, depth);
      FlattenedKeeps(components, s, name, schemas);
    }
  }

  // ----- Responses -----

  /** The schema of a JSON response: its `$ref` text, the schema itself, and whether that has a
      properties object, be it an empty one. */
  datatype Response = Response(ref: string, schema: Schema, hasProperties: bool)

  /** A response whose schema is an array of something named. */
  predicate IsList(r: Response) {
    IsArray(r.schema) && RefName(r.schema.items.value) != ""
  }

  /** The name a response gives to its schema, if any. */
  function NameFor(r: Response, inlineName: Option<Name>): Name {
    if RefName(r.ref) != "" then RefName(r.ref)
    else if IsList(r) then RefName(r.schema.items.value) + "_list"
    else if r.hasProperties && inlineName.Some? then inlineName.value
    else ""
  }

  /** The first response that names a schema wins. */
  function FirstName(responses: seq<Response>, inlineName: Option<Name>): Name {
    if responses == [] then ""
    else if NameFor(responses[0], inlineName) != "" then NameFor(responses[0], inlineName)
    else FirstName(responses[1..], inlineName)
  }

  function Decisive(responses: seq<Response>, inlineName: Option<Name>): (r: Response)
    requires FirstName(responses, inlineName) != ""
    ensures r in responses && NameFor(r, inlineName) == FirstName(responses, inlineName)
  {
    if NameFor(responses[0], inlineName) != "" then responses[0] else Decisive(responses[1..], inlineName)
  }

  /** The search that a response calls for comes to an end. */
  ghost predicate TameFor(c: Components, keys: set<Name>, r: Response) {
    if RefName(r.ref) != "" then Tame(c, keys, RefName(r.ref))
    else IsList(r) ==> Tame(c, keys, RefName(r.schema.items.value))
  }

  /** The name is the component's of a `$ref`, that of an array's items with `_list`, or the one for
      an inline object; the first response with one decides. */
  lemma {:induction false} FirstNameExactly(responses: seq<Response>, inlineName: Option<Name>)
    ensures FirstName(responses, inlineName) == "" ==> forall i :: 0 <= i < |responses| ==> NameFor(responses[i], inlineName) == ""
    ensures FirstName(responses, inlineName) != "" ==>
              exists i :: 0 <= i < |responses| && NameFor(responses[i], inlineName) == FirstName(responses, inlineName)
                          && forall j :: 0 <= j < i ==> NameFor(responses[j], inlineName) == ""
  {
    if responses != [] && NameFor(responses[0], inlineName) == "" {
      var rest := responses[1..];
      FirstNameExactly(rest, inlineName);
      assert forall i :: 0 <= i < |rest| ==> rest[i] == responses[i + 1];
      if FirstName(rest, inlineName) != "" {
        var i :| 0 <= i < |rest| && NameFor(rest[i], inlineName) == FirstName(rest, inlineName)
                 && forall j :: 0 <= j < i ==> NameFor(rest[j], inlineName) == "";
        forall j | 0 <= j < i + 1 ensures NameFor(responses[j], inlineName) == "" {
          assert j > 0 ==> responses[j] == rest[j - 1];
        }
        assert NameFor(responses[i + 1], inlineName) == FirstName(responses, inlineName);
      }
    }
  }

  lemma NameForExactly(r: Response, inlineName: Option<Name>, t: Name)
    requires t != ""
    ensures TextNames(r.ref, t) ==> NameFor(r, inlineName) == t
    ensures TextNames(r.ref, "") && IsArrayOfSomething(r.schema) && TextNames(r.schema.items.value, t) ==>
              NameFor(r, inlineName) == t + "_list"
    ensures TextNames(r.ref, "") && !(IsArrayOfSomething(r.schema) && !TextNames(r.schema.items.value, "")) ==>
              NameFor(r, inlineName) == if r.hasProperties && inlineName.Some? then inlineName.value else ""
  {
    RefNameExactly(r.ref, t);
    RefNameExactly(r.ref, "");
    if r.schema.items.Some? {
      RefNameExactly(r.schema.items.value, t);
      RefNameExactly(r.schema.items.value, "");
    }
  }

  /** An inline object is flattened as a component without a type would be. */
  lemma InlineIsEntry(r: Response)
    ensures IsEntryOf(InlineEntry(r), Schema([], None, r.schema.properties))
  {
    FlatIsEntry(Schema([], None, r.schema.properties));
  }

  function ListEntry(item: Name): FlatSchema {
    FlatSchema("array", map[], Some(item))
  }

  function InlineEntry(r: Response): FlatSchema {
    FlatSchema("object", FlattenProperties(r.schema.properties), None)
  }

  /** What a response adds under its name: the component with all it reaches, a list of one and all
      that reaches, or an inline object with its references left as they are. */
  ghost predicate Adds(c: Components, s: Schemas, r: Response, name: Name, s': Schemas) {
    if RefName(r.ref) != "" then Flattened(c, s, name, s')
    else if name in s then s' == s
    else if IsList(r) then
      exists mid :: Flattened(c, s, RefName(r.schema.items.value), mid) &&
                    s' == mid[name := ListEntry(RefName(r.schema.items.value))]
    else s' == s[name := InlineEntry(r)]
  }

  /** A new inline object refers to a component that has no entry yet. */
  predicate LeavesDangling(c: Components, s: Schemas, r: Response, name: Name) {
    && RefName(r.ref) == "" && !IsList(r) && name !in s
    && exists t :: t in References(InlineEntry(r)) && Resolvable(c, t) && t !in s && t != name
  }

  /** A new made-up name is also that of a component with another entry. */
  predicate TakesName(c: Components, s: Schemas, r: Response, name: Name) {
    && RefName(r.ref) == "" && name !in s && Resolvable(c, name)
    && Flat(c[name].value) != if IsList(r) then ListEntry(RefName(r.schema.items.value)) else InlineEntry(r)
  }

  /** An inline object whose property refers to a component leaves that reference dangling in an
      empty map, whatever the object is called. */
  lemma InlineDangles(c: Components, x: Name, r: Response, name: Name)
    requires Resolvable(c, x) && x != "" && name != x
    requires r.ref == "" && !IsList(r) && r.schema.properties == [("p", Property(PREFIX + x, None))]
    ensures LeavesDangling(c, map[], r, name) && !NoDangling(c, map[name := InlineEntry(r)])
  {
    var ps := r.schema.properties;
    assert ps[..0] == [] && RefName(PREFIX + x) == x;
    assert FlattenProperties(ps)["p"].schemaRef == x;
    assert x in References(InlineEntry(r)) && References(map[name := InlineEntry(r)][name]) == References(InlineEntry(r));
    InlineKeeps(c, map[], name, r);
    assert NoDangling(c, map[]);
  }

  lemma ListKeeps(c: Components, s: Schemas, mid: Schemas, name: Name, item: Name)
    requires name !in s && (item in mid || !Resolvable(c, item))
    requires s.Keys <= mid.Keys && forall n :: n in s ==> mid[n] == s[n]
    ensures NoDangling(c, mid) ==> NoDangling(c, mid[name := ListEntry(item)])
    ensures OwnEntries(c, mid) ==>
              (OwnEntries(c, mid[name := ListEntry(item)])
               <==> !(Resolvable(c, name) && Flat(c[name].value) != ListEntry(item)))
  {
    var s' := mid[name := ListEntry(item)];
    assert s'[name] == ListEntry(item) && References(ListEntry(item)) == {item};
  }

  lemma InlineKeeps(c: Components, s: Schemas, name: Name, r: Response)
    requires RefName(r.ref) == "" && !IsList(r) && name !in s
    ensures NoDangling(c, s) ==> (NoDangling(c, s[name := InlineEntry(r)]) <==> !LeavesDangling(c, s, r, name))
    ensures OwnEntries(c, s) ==> (OwnEntries(c, s[name := InlineEntry(r)]) <==> !TakesName(c, s, r, name))
  {
    var s' := s[name := InlineEntry(r)];
    assert s'[name] == InlineEntry(r);
    forall n | n in s ensures s'[n] == s[n] {}
    if LeavesDangling(c, s, r, name) {
      var t :| t in References(InlineEntry(r)) && Resolvable(c, t) && t !in s && t != name;
      assert !NoDangling(c, s');
    }
  }

  /** All new entries but that of `name` are covered. */
  ghost predicate OthersCovered(c: Components, s: Schemas, name: Name, s': Schemas) {
    forall n :: n in s' && n !in s && n != name ==> Covered(c, s'.Keys, n)
  }

  /** The properties that are not left have been followed. */
  ghost predicate Followed(c: Components, flat: FlatSchema, left: set<string>, keys: set<Name>) {
    forall k :: k in flat.properties && k !in left ==>
      var ref := flat.properties[k].schemaRef;
      ref == "" || ref in keys || !Resolvable(c, ref)
  }

  lemma Marked(c: Components, s: Schemas, name: Name)
    requires Open(c, s.Keys, name)
    ensures Extends(c, s, name, s[name := Flat(c[name].value)])
    ensures OthersCovered(c, s, name, s[name := Flat(c[name].value)])
  {
    ReachesSelf(c, s.Keys, name);
  }

  lemma AllFollowed(c: Components, s: Schemas, name: Name, s': Schemas)
    requires Open(c, s.Keys, name) && !IsArray(c[name].value) && name in s'
    requires OthersCovered(c, s, name, s') && Followed(c, Flat(c[name].value), {}, s'.Keys)
    ensures forall n :: n in s' && n !in s ==> Covered(c, s'.Keys, n)
  {
    assert Covered(c, s'.Keys, name);
  }

  lemma ArrayDone(c: Components, s: Schemas, name: Name, s': Schemas)
    requires Open(c, s.Keys, name) && Flat(c[name].value).items.Some?
    requires Extends(c, s, Flat(c[name].value).items.value, s')
    ensures Extends(c, s, name, s'[name := Flat(c[name].value)])
  {
    var flat := Flat(c[name].value);
    ReachesSelf(c, s.Keys, name);
    forall n | n in s' && n !in s ensures Reaches(c, s.Keys, name, n) {
      ViaTarget(c, s.Keys, name, flat.items.value, n);
    }
    AddOwnEntry(c, s, name, s', flat);
  }

  lemma ViaTarget(c: Components, keys: set<Name>, name: Name, t: Name, n: Name)
    requires Open(c, keys, name) && t in Targets(c[name].value) && Reaches(c, keys, t, n)
    ensures Reaches(c, keys, name, n)
  {
    ReachesVia(c, keys, keys, name, t, n);
  }

  lemma AddOwnEntry(c: Components, s: Schemas, name: Name, s': Schemas, flat: FlatSchema)
    requires Open(c, s.Keys, name) && flat == Flat(c[name].value) && Reaches(c, s.Keys, name, name)
    requires s.Keys <= s'.Keys && forall n :: n in s ==> s'[n] == s[n]
    requires forall n :: n in s' && n !in s ==> Reaches(c, s.Keys, name, n) && Resolvable(c, n) && s'[n] == Flat(c[n].value)
    ensures Extends(c, s, name, s'[name := flat])
  {
  }

  lemma PropertyDone(c: Components, s: Schemas, name: Name, mid: Schemas, ref: Name, s': Schemas)
    requires Open(c, s.Keys, name) && ref in Targets(c[name].value)
    requires Extends(c, s, name, mid) && Extends(c, mid, ref, s')
    ensures Extends(c, s, name, s')
  {
    forall n | n in s' && n !in s ensures Reaches(c, s.Keys, name, n) {
      if n !in mid {
        ReachesVia(c, s.Keys, mid.Keys, name, ref, n);
      }
    }
  }

  // ----- When the search ends -----

  ghost function Pick(refs: set<Name>): (ref: Name)
    requires refs != {}
    ensures ref in refs
  {
    var ref :| ref in refs; ref
  }

  /** The search as a function, visiting targets in some order and given up when calls nest deeper
      than `fuel`. */
  ghost function Search(c: Components, s: Schemas, name: Name, fuel: nat): Option<Schemas>
    decreases fuel, 0
  {
    if fuel == 0 then None
    else if !Open(c, s.Keys, name) then Some(s)
    else
      var flat := Flat(c[name].value);
      if !IsArray(c[name].value) then SearchAll(c, s[name := flat], Targets(c[name].value), fuel - 1)
      else if flat.items.None? then Some(s[name := flat])
      else match Search(c, s, flat.items.value, fuel - 1)
        case None => None
        case Some(s') => Some(s'[name := flat])
  }

  ghost function SearchAll(c: Components, s: Schemas, refs: set<Name>, fuel: nat): Option<Schemas>
    decreases fuel, |refs| + 1
  {
    if refs == {} then Some(s)
    else
      var ref := Pick(refs);
      match Search(c, s, ref, fuel)
      case None => None
      case Some(s') => SearchAll(c, s', refs - {ref}, fuel)
  }

  ghost predicate Ends(c: Components, s: Schemas, name: Name) {
    exists fuel :: Search(c, s, name, fuel).Some?
  }

  lemma {:induction false} MoreFuel(c: Components, s: Schemas, name: Name, fuel: nat, more: nat)
    requires Search(c, s, name, fuel).Some? && fuel <= more
    ensures Search(c, s, name, more) == Search(c, s, name, fuel)
    decreases fuel, 0
  {
    if Open(c, s.Keys, name) {
      var flat := Flat(c[name].value);
      if !IsArray(c[name].value) {
        MoreFuelAll(c, s[name := flat], Targets(c[name].value), fuel - 1, more - 1);
      } else if flat.items.Some? {
        MoreFuel(c, s, flat.items.value, fuel - 1, more - 1);
      }
    }
  }

  lemma {:induction false} MoreFuelAll(c: Components, s: Schemas, refs: set<Name>, fuel: nat, more: nat)
    requires SearchAll(c, s, refs, fuel).Some? && fuel <= more
    ensures SearchAll(c, s, refs, more) == SearchAll(c, s, refs, fuel)
    decreases fuel, |refs| + 1
  {
    if refs != {} {
      var ref := Pick(refs);
      MoreFuel(c, s, ref, fuel, more);
      MoreFuelAll(c, Search(c, s, ref, fuel).value, refs - {ref}, fuel, more);
    }
  }

  // A search that ends did not run into an endless array chain.

  lemma {:induction false} ChainEndsEarlier(c: Components, s: Schemas, mid: Schemas, n: Name, k: nat)
    requires ChainEndsIn(c, mid.Keys, n, k)
    requires forall m :: m in mid && m !in s ==> ChainEnds(c, s.Keys, m)
    ensures ChainEnds(c, s.Keys, n)
    decreases k
  {
    if n in mid && n !in s {
    } else if NextArray(c, s.Keys, n) {
      var item := Flat(c[n].value).items.value;
      ChainEndsEarlier(c, s, mid, item, k - 1);
      var j: nat :| ChainEndsIn(c, s.Keys, item, j);
      assert ChainEndsIn(c, s.Keys, n, j + 1);
    } else {
      assert ChainEndsIn(c, s.Keys, n, 0);
    }
  }

  /** What an ended search has done, seen from the entries `s` it set out with. */
  ghost predicate Done(c: Components, s: Schemas, name: Name, s': Schemas) {
    && Extends(c, s, name, s')
    && forall n :: n in s' && n !in s ==> (n == name || Covered(c, s'.Keys, n)) && ChainEnds(c, s.Keys, n)
  }

  lemma DoneThen(c: Components, s: Schemas, name: Name, mid: Schemas, ref: Name, s': Schemas)
    requires Open(c, s.Keys, name) && ref in Targets(c[name].value)
    requires Done(c, s, name, mid) && name in mid && Done(c, mid, ref, s')
    requires ref in s' ==> ref in mid || Covered(c, s'.Keys, ref)
    ensures Done(c, s, name, s')
  {
    PropertyDone(c, s, name, mid, ref, s');
    forall n | n in s' && n !in s ensures (n == name || Covered(c, s'.Keys, n)) && ChainEnds(c, s.Keys, n) {
      if n !in mid {
        var k: nat :| ChainEndsIn(c, mid.Keys, n, k);
        ChainEndsEarlier(c, s, mid, n, k);
      }
    }
  }

  ghost predicate Ended(c: Components, s: Schemas, name: Name, s': Schemas) {
    && Done(c, s, name, s') && (name in s' || !Resolvable(c, name))
    && (name in s' && name !in s ==> Covered(c, s'.Keys, name))
  }

  lemma {:induction false} SearchEnded(c: Components, s: Schemas, name: Name, fuel: nat)
    requires Search(c, s, name, fuel).Some?
    ensures Ended(c, s, name, Search(c, s, name, fuel).value)
    decreases fuel, 0
  {
    if Open(c, s.Keys, name) {
      var flat := Flat(c[name].value);
      if !IsArray(c[name].value) {
        StartDone(c, s, name);
        SearchAllDone(c, s, name, s[name := flat], Targets(c[name].value), fuel - 1);
      } else if flat.items.None? {
        StartDone(c, s, name);
      } else {
        SearchEnded(c, s, flat.items.value, fuel - 1);
        ArrayEnded(c, s, name, Search(c, s, flat.items.value, fuel - 1).value);
      }
    }
  }

  lemma StartDone(c: Components, s: Schemas, name: Name)
    requires Open(c, s.Keys, name) && !NextArray(c, s.Keys, name)
    ensures Done(c, s, name, s[name := Flat(c[name].value)])
  {
    ReachesSelf(c, s.Keys, name);
    assert ChainEndsIn(c, s.Keys, name, 0);
  }

  lemma ArrayEnded(c: Components, s: Schemas, name: Name, s': Schemas)
    requires NextArray(c, s.Keys, name) && IsArray(c[name].value)
    requires Ended(c, s, Flat(c[name].value).items.value, s')
    ensures Ended(c, s, name, s'[name := Flat(c[name].value)])
  {
    var item := Flat(c[name].value).items.value;
    ArrayDone(c, s, name, s');
    ArrayChainEnds(c, s, name, s');
    var s2 := s'[name := Flat(c[name].value)];
    forall n | n in s2 && n !in s && n != name ensures Covered(c, s2.Keys, n) && ChainEnds(c, s.Keys, n) {
      assert Covered(c, s'.Keys, n);
    }
  }

  lemma ArrayChainEnds(c: Components, s: Schemas, name: Name, s': Schemas)
    requires NextArray(c, s.Keys, name)
    requires Ended(c, s, Flat(c[name].value).items.value, s')
    ensures ChainEnds(c, s.Keys, name)
  {
    var item := Flat(c[name].value).items.value;
    if !Open(c, s.Keys, item) {
      assert ChainEndsIn(c, s.Keys, item, 0);
    }
    var j: nat :| ChainEndsIn(c, s.Keys, item, j);
    assert ChainEndsIn(c, s.Keys, name, j + 1);
  }

  lemma {:induction false} SearchAllDone(c: Components, s: Schemas, name: Name, mid: Schemas, refs: set<Name>, fuel: nat)
    requires Open(c, s.Keys, name) && refs <= Targets(c[name].value)
    requires Done(c, s, name, mid) && name in mid && SearchAll(c, mid, refs, fuel).Some?
    ensures var s' := SearchAll(c, mid, refs, fuel).value;
            Done(c, s, name, s') && mid.Keys <= s'.Keys && forall r :: r in refs ==> r in s' || !Resolvable(c, r)
    decreases fuel, |refs| + 1
  {
    if refs != {} {
      var ref := Pick(refs);
      SearchEnded(c, mid, ref, fuel);
      var next := Search(c, mid, ref, fuel).value;
      DoneThen(c, s, name, mid, ref, next);
      SearchAllDone(c, s, name, next, refs - {ref}, fuel);
    }
  }

  // A search whose array chains all end is finite.

  lemma {:induction false} TameSearchEnds(c: Components, s: Schemas, name: Name, depth: nat) returns (fuel: nat)
    requires Tame(c, s.Keys, name) && ChainEndsIn(c, s.Keys, name, depth)
    ensures Search(c, s, name, fuel).Some?
    decreases |OpenSet(c, s.Keys)|, 1, depth
  {
    if !Open(c, s.Keys, name) {
      return 1;
    }
    var flat := Flat(c[name].value);
    if !IsArray(c[name].value) {
      OpenSetShrinks(c, s.Keys, s[name := flat].Keys, name);
      fuel := TameSearchAllEnds(c, s, name, s[name := flat], Targets(c[name].value));
    } else if flat.items.Some? {
      TameTarget(c, s.Keys, s.Keys, name, flat.items.value);
      fuel := TameSearchEnds(c, s, flat.items.value, depth - 1);
    } else {
      fuel := 0;
    }
    fuel := fuel + 1;
  }

  lemma {:induction false} TameSearchAllEnds(c: Components, s: Schemas, name: Name, mid: Schemas, refs: set<Name>)
    returns (fuel: nat)
    requires Open(c, s.Keys, name) && Tame(c, s.Keys, name) && refs <= Targets(c[name].value)
    requires s.Keys <= mid.Keys && name in mid
    ensures SearchAll(c, mid, refs, fuel).Some?
    decreases |OpenSet(c, s.Keys)|, 0, |refs|
  {
    if refs == {} {
      return 0;
    }
    var ref := Pick(refs);
    TameTarget(c, s.Keys, mid.Keys, name, ref);
    OpenSetShrinks(c, s.Keys, mid.Keys, name);
    var depth := TameChain(c, mid.Keys, ref);
    var first := TameSearchEnds(c, mid, ref, depth);
    SearchEnded(c, mid, ref, first);
    var rest := TameSearchAllEnds(c, s, name, Search(c, mid, ref, first).value, refs - {ref});
    fuel := if first <= rest then rest else first;
    MoreFuel(c, mid, ref, first, fuel);
    MoreFuelAll(c, Search(c, mid, ref, first).value, refs - {ref}, rest, fuel);
  }

  /** The search comes to an end exactly if every array chain it reaches does. */
  lemma SearchEndsExactly(c: Components, s: Schemas, name: Name)
    ensures Ends(c, s, name) <==> Tame(c, s.Keys, name)
  {
    if Tame(c, s.Keys, name) {
      var depth := TameChain(c, s.Keys, name);
      var fuel := TameSearchEnds(c, s, name, depth);
    }
    if Ends(c, s, name) {
      var fuel :| Search(c, s, name, fuel).Some?;
      var s' := Search(c, s, name, fuel).value;
      SearchEnded(c, s, name, fuel);
      CoveredIsFlattened(c, s, name, s');
    }
  }

  /** Two arrays that name each other as items are never flattened. */
  lemma ArrayCycleNeverEnds(c: Components, a: Name, b: Name)
    requires NextArray(c, {}, a) && Flat(c[a].value).items == Some(b)
    requires NextArray(c, {}, b) && Flat(c[b].value).items == Some(a)
    ensures !Ends(c, map[], a)
  {
    var s: Schemas := map[];
    assert s.Keys == {};
    SearchEndsExactly(c, s, a);
    ReachesSelf(c, {}, a);
    if ChainEnds(c, {}, a) {
      var k: nat :| ChainEndsIn(c, {}, a, k);
      CycleDoesNotEnd(c, a, b, k);
    }
  }

  lemma {:induction false} CycleDoesNotEnd(c: Components, a: Name, b: Name, k: nat)
    requires NextArray(c, {}, a) && Flat(c[a].value).items == Some(b)
    requires NextArray(c, {}, b) && Flat(c[b].value).items == Some(a)
    ensures !ChainEndsIn(c, {}, a, k)
    decreases k
  {
    if k > 1 {
      CycleDoesNotEnd(c, a, b, k - 2);
    }
  }
}
