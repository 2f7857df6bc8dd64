/** cmd/fetchactions-oas3/parse_response.go: schemas, and the flat entry that each becomes. */
module OpenApi {
  import opened Prelude

  type Name = string

  // ----- Schemas -----

  datatype PropertySchema = PropertySchema(types: seq<string>, description: string, nullable: bool)

  /** A property's proxy: its `$ref` text, empty if it has none, and the schema it resolves to. */
  datatype Property = Property(ref: string, schema: Option<PropertySchema>)

  /** `items` is the `$ref` text of the items proxy, if the schema has one. */
  datatype Schema = Schema(types: seq<string>, items: Option<string>, properties: seq<(string, Property)>)

  /** A component maps to None if its proxy resolves to nothing. */
  type Components = map<Name, Option<Schema>>

  datatype FlatProperty = FlatProperty(kind: string, description: string, nullable: bool, schemaRef: Name)

  datatype FlatSchema = FlatSchema(kind: string, properties: map<string, FlatProperty>, items: Option<Name>)

  const PREFIX := "#/components/schemas/"

  function LastSegment(s: string): string {
    if '/' !in s then s else LastSegment(s[1..])
  }

  /** `extractV3RefName` */
  function RefName(ref: string): Name {
    if PREFIX <= ref then ref[|PREFIX|..] else LastSegment(ref)
  }

  /** `flattenV3Property` */
  function FlattenProperty(p: Property): FlatProperty {
    var ref := RefName(p.ref);
    if p.schema.None? then
      if ref != "" then FlatProperty("object", "", false, ref) else FlatProperty("string", "", false, "")
    else
      var s := p.schema.value;
      var kind := if s.types != [] then s.types[0] else if ref != "" then "object" else "string";
      FlatProperty(kind, s.description, s.nullable, if kind == "object" then ref else "")
  }

  function FlattenProperties(ps: seq<(string, Property)>): map<string, FlatProperty> {
    if ps == [] then map[]
    else FlattenProperties(ps[..|ps| - 1])[ps[|ps| - 1].0 := FlattenProperty(ps[|ps| - 1].1)]
  }

  function Kind(s: Schema): string {
    if s.types != [] then s.types[0] else "object"
  }

  predicate IsArray(s: Schema) {
    Kind(s) == "array" && s.items.Some?
  }

  /** The entry a component becomes. */
  function Flat(s: Schema): FlatSchema {
    if IsArray(s)
    then FlatSchema("array", map[], if RefName(s.items.value) != "" then Some(RefName(s.items.value)) else None)
    else FlatSchema(Kind(s), FlattenProperties(s.properties), None)
  }

  /** The names a component's entry refers to. */
  function Targets(s: Schema): set<Name> {
    References(Flat(s))
  }

  function References(e: FlatSchema): set<Name> {
    (if e.items.Some? then {e.items.value} else {}) +
    set k | k in e.properties && e.properties[k].schemaRef != "" :: e.properties[k].schemaRef
  }

  // ----- What the entry says, read off the schema -----

  /** The reference text leads to this name: after the prefix for components, or else after the last slash. */
  ghost predicate TextNames(ref: string, t: Name) {
    ref == "#/components/schemas/" + t
    || (!("#/components/schemas/" <= ref) && '/' !in t && (ref == t || exists front: string :: ref == front + "/" + t))
  }

  lemma {:induction false} LastSegmentEnds(s: string)
    ensures '/' !in LastSegment(s)
    ensures s == LastSegment(s) || exists front: string :: s == front + "/" + LastSegment(s)
  {
    if '/' in s {
      var rest := s[1..];
      LastSegmentEnds(rest);
      if rest == LastSegment(rest) {
        assert s[0] == '/';
        assert s == "" + "/" + LastSegment(s);
      } else {
        var front: string :| rest == front + "/" + LastSegment(rest);
        assert s == ([s[0]] + front) + "/" + LastSegment(s);
      }
    }
  }

  lemma {:induction false} LastSegmentOf(front: string, t: string)
    requires '/' !in t
    ensures LastSegment(front + "/" + t) == t
  {
    var s := front + "/" + t;
    assert s[|front|] == '/';
    if front == "" {
      assert s[1..] == t;
    } else {
      assert s[1..] == front[1..] + "/" + t;
      LastSegmentOf(front[1..], t);
    }
  }

  lemma RefNameExactly(ref: string, t: Name)
    ensures RefName(ref) == t <==> TextNames(ref, t)
  {
    if PREFIX <= ref {
      assert ref == PREFIX + ref[|PREFIX|..];
      assert ref == PREFIX + t ==> ref[|PREFIX|..] == t;
    } else {
      assert ref == PREFIX + t ==> PREFIX <= ref;
      LastSegmentEnds(ref);
      if TextNames(ref, t) {
        if ref != t {
          var front: string :| ref == front + "/" + t;
          LastSegmentOf(front, t);
        }
      }
    }
  }

  /** The property with this index is the last for its key. */
  predicate IsLastProperty(ps: seq<(string, Property)>, i: nat) {
    i < |ps| && forall j :: i < j < |ps| ==> ps[j].0 != ps[i].0
  }

  /** The property refers to an object called `t`: one whose type is unknown counts as one. */
  ghost predicate PropertyNames(p: Property, t: Name) {
    t != "" && TextNames(p.ref, t) && (p.schema.None? || p.schema.value.types == [] || p.schema.value.types[0] == "object")
  }

  predicate IsArrayOfSomething(s: Schema) {
    s.types != [] && s.types[0] == "array" && s.items.Some?
  }

  /** The schema refers to `t`: an array by its items, anything else by a property. */
  ghost predicate Points(s: Schema, t: Name) {
    t != "" &&
    if IsArrayOfSomething(s) then TextNames(s.items.value, t)
    else exists i: nat :: IsLastProperty(s.properties, i) && PropertyNames(s.properties[i].1, t)
  }

  /** The flat form of a property. */
  ghost predicate IsFlatOf(f: FlatProperty, p: Property) {
    && (forall t :: t != "" ==> (f.schemaRef == t <==> PropertyNames(p, t)))
    && match p.schema
       case None =>
         f.description == "" && !f.nullable && f.kind == (if TextNames(p.ref, "") then "string" else "object")
       case Some(schema) =>
         f.description == schema.description && f.nullable == schema.nullable &&
         f.kind == if schema.types != [] then schema.types[0] else if TextNames(p.ref, "") then "string" else "object"
  }

  /** The flat form of a component: an array with the name of its items, or the properties. */
  ghost predicate IsEntryOf(e: FlatSchema, s: Schema) {
    if IsArrayOfSomething(s) then
      && e.kind == "array" && e.properties == map[]
      && (forall t :: t != "" ==> (e.items == Some(t) <==> TextNames(s.items.value, t))) && e.items != Some("")
    else
      && e.kind == (if s.types == [] then "object" else s.types[0]) && e.items == None
      && (forall k :: k in e.properties <==> exists i: nat :: IsLastProperty(s.properties, i) && s.properties[i].0 == k)
      && forall i: nat :: IsLastProperty(s.properties, i) ==>
                            s.properties[i].0 in e.properties && IsFlatOf(e.properties[s.properties[i].0], s.properties[i].1)
  }

  lemma FlatPropertyIs(p: Property)
    ensures IsFlatOf(FlattenProperty(p), p)
  {
    var ref := RefName(p.ref);
    RefNameExactly(p.ref, "");
    forall t | t != "" ensures FlattenProperty(p).schemaRef == t <==> PropertyNames(p, t) {
      RefNameExactly(p.ref, t);
    }
  }

  /** Each key once, with what its last property becomes. */
  ghost predicate HoldsLast(flat: map<string, FlatProperty>, ps: seq<(string, Property)>) {
    && (forall k :: k in flat <==> exists i: nat :: IsLastProperty(ps, i) && ps[i].0 == k)
    && forall i: nat :: IsLastProperty(ps, i) ==> ps[i].0 in flat && flat[ps[i].0] == FlattenProperty(ps[i].1)
  }

  function LastAt(ps: seq<(string, Property)>, k: string): Option<nat> {
    if ps == [] then None else if ps[|ps| - 1].0 == k then Some(|ps| - 1) else LastAt(ps[..|ps| - 1], k)
  }

  lemma {:induction false} LastAtExactly(ps: seq<(string, Property)>, k: string)
    ensures match LastAt(ps, k)
            case None => forall j :: 0 <= j < |ps| ==> ps[j].0 != k
            case Some(i) => i < |ps| && ps[i].0 == k && forall j :: i < j < |ps| ==> ps[j].0 != k
  {
    if ps != [] && ps[|ps| - 1].0 != k {
      var front := ps[..|ps| - 1];
      LastAtExactly(front, k);
      forall j | 0 <= j < |front| ensures front[j] == ps[j] {}
    }
  }

  lemma {:induction false} FlatAt(ps: seq<(string, Property)>, k: string)
    ensures match LastAt(ps, k)
            case None => k !in FlattenProperties(ps)
            case Some(i) => i < |ps| && k in FlattenProperties(ps) && FlattenProperties(ps)[k] == FlattenProperty(ps[i].1)
  {
    if ps != [] && ps[|ps| - 1].0 != k {
      FlatAt(ps[..|ps| - 1], k);
    }
  }

  lemma FlatPropertiesAre(ps: seq<(string, Property)>)
    ensures HoldsLast(FlattenProperties(ps), ps)
  {
    forall k ensures k in FlattenProperties(ps) <==> exists i: nat :: IsLastProperty(ps, i) && ps[i].0 == k {
      KeyHasLast(ps, k);
    }
    forall i: nat | IsLastProperty(ps, i)
      ensures ps[i].0 in FlattenProperties(ps) && FlattenProperties(ps)[ps[i].0] == FlattenProperty(ps[i].1)
    {
      LastHasKey(ps, i);
    }
  }

  lemma KeyHasLast(ps: seq<(string, Property)>, k: string)
    ensures k in FlattenProperties(ps) <==> exists i: nat :: IsLastProperty(ps, i) && ps[i].0 == k
  {
    LastAtExactly(ps, k);
    FlatAt(ps, k);
    if LastAt(ps, k).Some? {
      assert IsLastProperty(ps, LastAt(ps, k).value);
    }
  }

  lemma LastHasKey(ps: seq<(string, Property)>, i: nat)
    requires IsLastProperty(ps, i)
    ensures ps[i].0 in FlattenProperties(ps) && FlattenProperties(ps)[ps[i].0] == FlattenProperty(ps[i].1)
  {
    LastAtExactly(ps, ps[i].0);
    FlatAt(ps, ps[i].0);
    assert LastAt(ps, ps[i].0) == Some(i);
  }

  /** Every schema becomes its flat form, nothing of which is lost. */
  lemma FlatIsEntry(s: Schema)
    ensures IsEntryOf(Flat(s), s)
  {
    if IsArray(s) {
      var ref := RefName(s.items.value);
      forall t | t != "" ensures ref == t <==> TextNames(s.items.value, t) {
        RefNameExactly(s.items.value, t);
      }
    } else {
      FlatPropertiesAre(s.properties);
      forall i: nat | IsLastProperty(s.properties, i)
        ensures s.properties[i].0 in Flat(s).properties && IsFlatOf(Flat(s).properties[s.properties[i].0], s.properties[i].1)
      {
        FlatPropertyIs(s.properties[i].1);
      }
    }
  }

  /** An entry refers to exactly what its schema refers to. */
  lemma TargetsExactly(s: Schema, t: Name)
    ensures t in Targets(s) <==> Points(s, t)
  {
    FlatIsEntry(s);
    var e := Flat(s);
    if !IsArray(s) {
      if t in Targets(s) {
        var k :| k in e.properties && e.properties[k].schemaRef == t && t != "";
        var i: nat :| IsLastProperty(s.properties, i) && s.properties[i].0 == k;
        assert IsFlatOf(e.properties[k], s.properties[i].1);
      }
      if Points(s, t) {
        var i: nat :| IsLastProperty(s.properties, i) && PropertyNames(s.properties[i].1, t);
        assert IsFlatOf(e.properties[s.properties[i].0], s.properties[i].1);
      }
    }
  }
}
